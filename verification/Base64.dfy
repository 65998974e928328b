/** The standard padded base64 of section 4 of RFC 4648, decoded as leniently as Go's StdEncoding:
    line breaks are ignored and unused trailing bits are not checked. */
module Base64 {
  import opened Wrappers

  function Letter(d: nat): char
    requires d < 64
  {
    if d < 26 then ('A' as int + d) as char
    else if d < 52 then ('a' as int + (d - 26)) as char
    else if d < 62 then ('0' as int + (d - 52)) as char
    else if d == 62 then '+'
    else '/'
  }

  function Digit(c: char): (d: Option<nat>)
    ensures d.Some? ==> d.value < 64
  {
    if 'A' <= c <= 'Z' then Some(c as int - 'A' as int)
    else if 'a' <= c <= 'z' then Some(c as int - 'a' as int + 26)
    else if '0' <= c <= '9' then Some(c as int - '0' as int + 52)
    else if c == '+' then Some(62)
    else if c == '/' then Some(63)
    else None
  }

  lemma DigitOfLetter(d: nat)
    requires d < 64
    ensures Digit(Letter(d)) == Some(d) && Letter(d) != '='
  {
  }

  /** Four letters for three bytes. */
  function EncodeGroup(a: Byte, b: Byte, c: Byte): (g: string)
    ensures |g| == 4
  {
    [Letter(a / 4), Letter(a % 4 * 16 + b / 16), Letter(b % 16 * 4 + c / 64), Letter(c % 64)]
  }

  function Encode(bs: seq<Byte>): (s: string)
    ensures s == "" <==> bs == []
  {
    if bs == [] then ""
    else if |bs| == 1 then EncodeGroup(bs[0], 0, 0)[..2] + "=="
    else if |bs| == 2 then EncodeGroup(bs[0], bs[1], 0)[..3] + "="
    else EncodeGroup(bs[0], bs[1], bs[2]) + Encode(bs[3..])
  }

  function Join(w: nat, x: nat, y: nat, z: nat): (Byte, Byte, Byte)
    requires w < 64 && x < 64 && y < 64 && z < 64
  {
    (w * 4 + x / 16, x % 16 * 16 + y / 4, y % 4 * 64 + z)
  }

  function DecodeGroup(c0: char, c1: char, c2: char, c3: char): Option<(Byte, Byte, Byte)> {
    match (Digit(c0), Digit(c1), Digit(c2), Digit(c3))
    case (Some(w), Some(x), Some(y), Some(z)) => Some(Join(w, x, y, z))
    case _ => None
  }

  /** Whole groups of four; padding is allowed in the last group only. */
  function DecodeGroups(s: string): Option<seq<Byte>> {
    if s == "" then Some([])
    else if |s| < 4 then None
    else if |s| == 4 && s[2] == '=' && s[3] == '=' then
      (match DecodeGroup(s[0], s[1], 'A', 'A')
       case Some(g) => Some([g.0])
       case None => None)
    else if |s| == 4 && s[3] == '=' then
      (match DecodeGroup(s[0], s[1], s[2], 'A')
       case Some(g) => Some([g.0, g.1])
       case None => None)
    else
      match (DecodeGroup(s[0], s[1], s[2], s[3]), DecodeGroups(s[4..]))
      case (Some(g), Some(rest)) => Some([g.0, g.1, g.2] + rest)
      case _ => None
  }

  function WithoutLineBreaks(s: string): string {
    if s == "" then ""
    else if s[0] == '\n' || s[0] == '\r' then WithoutLineBreaks(s[1..])
    else [s[0]] + WithoutLineBreaks(s[1..])
  }

  function Decode(s: string): Option<seq<Byte>> {
    DecodeGroups(WithoutLineBreaks(s))
  }

  lemma JoinSplits(a: Byte, b: Byte, c: Byte)
    ensures Join(a / 4, a % 4 * 16 + b / 16, b % 16 * 4 + c / 64, c % 64) == (a, b, c)
  {
    assert (a % 4 * 16 + b / 16) / 16 == a % 4 && (a % 4 * 16 + b / 16) % 16 == b / 16;
    assert (b % 16 * 4 + c / 64) / 4 == b % 16 && (b % 16 * 4 + c / 64) % 4 == c / 64;
  }

  lemma GroupDecodes(a: Byte, b: Byte, c: Byte)
    ensures var g := EncodeGroup(a, b, c);
            DecodeGroup(g[0], g[1], g[2], g[3]) == Some((a, b, c)) && forall i :: 0 <= i < 4 ==> g[i] != '='
  {
    DigitOfLetter(a / 4);
    DigitOfLetter(a % 4 * 16 + b / 16);
    DigitOfLetter(b % 16 * 4 + c / 64);
    DigitOfLetter(c % 64);
    JoinSplits(a, b, c);
    hide Letter, Digit, Join;
  }

  /** The letters that padding leaves out stand for zero bits. */
  lemma PaddingLetters(a: Byte, b: Byte)
    ensures EncodeGroup(a, 0, 0)[2] == 'A' && EncodeGroup(a, b, 0)[3] == 'A'
  {
  }

  lemma NothingDecodes()
    ensures DecodeGroups("") == Some([])
  {
  }

  lemma OneByteDecodes(a: Byte)
    ensures DecodeGroups(Encode([a])) == Some([a])
  {
    GroupDecodes(a, 0, 0);
    PaddingLetters(a, 0);
    hide EncodeGroup, DecodeGroup;
    var s, g := Encode([a]), EncodeGroup(a, 0, 0);
    assert s == [g[0], g[1], '=', '='];
  }

  lemma TwoBytesDecode(a: Byte, b: Byte)
    ensures DecodeGroups(Encode([a, b])) == Some([a, b])
  {
    GroupDecodes(a, b, 0);
    PaddingLetters(a, b);
    hide EncodeGroup, DecodeGroup;
    var s, g := Encode([a, b]), EncodeGroup(a, b, 0);
    assert s == [g[0], g[1], g[2], '='];
  }

  lemma GroupThenRest(g: string, rest: string)
    requires |g| == 4 && forall i :: 0 <= i < 4 ==> g[i] != '='
    ensures DecodeGroups(g + rest) ==
            match (DecodeGroup(g[0], g[1], g[2], g[3]), DecodeGroups(rest))
            case (Some(x), Some(more)) => Some([x.0, x.1, x.2] + more)
            case _ => None
  {
    hide DecodeGroup;
    assert (g + rest)[4..] == rest;
  }

  lemma {:induction false} GroupsDecode(bs: seq<Byte>)
    ensures DecodeGroups(Encode(bs)) == Some(bs)
  {
    hide EncodeGroup, DecodeGroup, DecodeGroups, Letter, Digit, Join;
    if bs == [] {
      NothingDecodes();
    } else if |bs| == 1 {
      OneByteDecodes(bs[0]);
      assert bs == [bs[0]];
    } else if |bs| == 2 {
      TwoBytesDecode(bs[0], bs[1]);
      assert bs == [bs[0], bs[1]];
    } else {
      GroupDecodes(bs[0], bs[1], bs[2]);
      GroupThenRest(EncodeGroup(bs[0], bs[1], bs[2]), Encode(bs[3..]));
      GroupsDecode(bs[3..]);
      assert bs == [bs[0], bs[1], bs[2]] + bs[3..];
    }
  }

  /** A character of encoded text: never white space, never '#', never a line break. */
  predicate IsTextChar(c: char) {
    Digit(c).Some? || c == '='
  }

  lemma {:induction false} EncodeChars(bs: seq<Byte>)
    ensures forall i :: 0 <= i < |Encode(bs)| ==> IsTextChar(Encode(bs)[i])
  {
    if bs != [] {
      var b, c := if |bs| > 1 then bs[1] else 0, if |bs| > 2 then bs[2] else 0;
      DigitOfLetter(bs[0] / 4);
      DigitOfLetter(bs[0] % 4 * 16 + b / 16);
      DigitOfLetter(b % 16 * 4 + c / 64);
      DigitOfLetter(c % 64);
      hide Letter, Digit;
      if |bs| > 2 {
        EncodeChars(bs[3..]);
      }
    }
  }

  lemma {:induction false} NoLineBreaksKept(s: string)
    requires forall i :: 0 <= i < |s| ==> s[i] != '\n' && s[i] != '\r'
    ensures WithoutLineBreaks(s) == s
  {
    if s != "" {
      NoLineBreaksKept(s[1..]);
    }
  }

  /** Decoding inverts encoding on every byte string. */
  lemma DecodeOfEncode(bs: seq<Byte>)
    ensures Decode(Encode(bs)) == Some(bs)
  {
    EncodeChars(bs);
    forall i | 0 <= i < |Encode(bs)| ensures Encode(bs)[i] != '\n' && Encode(bs)[i] != '\r' {
      assert IsTextChar(Encode(bs)[i]);
    }
    NoLineBreaksKept(Encode(bs));
    GroupsDecode(bs);
  }

  predicate IsSymbol(c: char) {
    'A' <= c <= 'Z' || 'a' <= c <= 'z' || '0' <= c <= '9' || c == '+' || c == '/'
  }

  /** Groups of four symbols, the last of which may end in one or two padding signs. */
  ghost predicate IsPadded(t: string) {
    && |t| % 4 == 0
    && (forall i :: 0 <= i < |t| ==> IsSymbol(t[i]) || (t[i] == '=' && i >= |t| - 2))
    && (t != "" && t[|t| - 2] == '=' ==> t[|t| - 1] == '=')
  }

  lemma GroupIff(c0: char, c1: char, c2: char, c3: char)
    ensures DecodeGroup(c0, c1, c2, c3).Some? <==> IsSymbol(c0) && IsSymbol(c1) && IsSymbol(c2) && IsSymbol(c3)
  {
  }

  lemma PaddedTail(t: string)
    requires |t| > 4
    ensures IsPadded(t) <==>
            IsSymbol(t[0]) && IsSymbol(t[1]) && IsSymbol(t[2]) && IsSymbol(t[3]) && IsPadded(t[4..])
  {
    assert forall i :: 4 <= i < |t| ==> t[4..][i - 4] == t[i];
    hide IsSymbol;
    if IsPadded(t[4..]) && IsSymbol(t[0]) && IsSymbol(t[1]) && IsSymbol(t[2]) && IsSymbol(t[3]) {
      forall i | 0 <= i < |t| ensures IsSymbol(t[i]) || (t[i] == '=' && i >= |t| - 2) {
        if i >= 4 {
          assert t[4..][i - 4] == t[i];
        }
      }
    }
  }

  lemma {:induction false} GroupsDecodeIff(t: string)
    ensures DecodeGroups(t).Some? <==> IsPadded(t)
  {
    if |t| >= 4 {
      GroupIff(t[0], t[1], t[2], t[3]);
      GroupIff(t[0], t[1], t[2], 'A');
      GroupIff(t[0], t[1], 'A', 'A');
      hide DecodeGroup;
      if |t| > 4 {
        GroupsDecodeIff(t[4..]);
        PaddedTail(t);
      } else {
        assert DecodeGroups("") == Some([]);
        assert t[4..] == "";
      }
    }
  }

  lemma {:induction false} LineBreaksDropped(a: string, c: char, b: string)
    ensures WithoutLineBreaks(a + [c] + b) ==
            WithoutLineBreaks(a) + (if c == '\n' || c == '\r' then "" else [c]) + WithoutLineBreaks(b)
  {
    var s := a + [c] + b;
    if a == "" {
      assert s == [c] + b && s[1..] == b;
    } else {
      assert s[1..] == a[1..] + [c] + b;
      LineBreaksDropped(a[1..], c, b);
    }
  }

  /** Text decodes exactly if, without its line breaks, it is padded base64. */
  lemma DecodesIff(s: string)
    ensures Decode(s).Some? <==> IsPadded(WithoutLineBreaks(s))
  {
    GroupsDecodeIff(WithoutLineBreaks(s));
  }
}
