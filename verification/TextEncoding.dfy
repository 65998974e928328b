/** UTF-8 as a TextEncoder produces it from the UTF-16 code units of a JavaScript string, and as any
    reader of UTF-8 understands it. */
module TextEncoding {
  import opened Wrappers

  type CodeUnit = u: int | 0 <= u < 0x1_0000
  type JsString = seq<CodeUnit>

  predicate IsHigh(u: int) { 0xD800 <= u < 0xDC00 }
  predicate IsLow(u: int) { 0xDC00 <= u < 0xE000 }

  function EncodeCodePoint(c: int): (bs: seq<Byte>)
    requires 0 <= c < 0x11_0000
    ensures 0 in bs <==> c == 0
  {
    if c < 0x80 then [c]
    else if c < 0x800 then [0xC0 + c / 0x40, 0x80 + c % 0x40]
    else if c < 0x1_0000 then [0xE0 + c / 0x1000, 0x80 + c / 0x40 % 0x40, 0x80 + c % 0x40]
    else [0xF0 + c / 0x4_0000, 0x80 + c / 0x1000 % 0x40, 0x80 + c / 0x40 % 0x40, 0x80 + c % 0x40]
  }

  predicate StartsPair(s: JsString) {
    |s| > 1 && IsHigh(s[0]) && IsLow(s[1])
  }

  /** The first code point: a surrogate pair counts as one, a lone surrogate as U+FFFD. */
  function FirstCodePoint(s: JsString): (c: int)
    requires s != []
    ensures 0 <= c < 0x11_0000 && (c == 0 <==> s[0] == 0)
  {
    var units: seq<int> := s;
    if StartsPair(s) then 0x1_0000 + (units[0] - 0xD800) * 0x400 + (units[1] - 0xDC00)
    else if IsHigh(s[0]) || IsLow(s[0]) then 0xFFFD
    else s[0]
  }

  function Rest(s: JsString): (r: JsString)
    requires s != []
    ensures |r| < |s|
    ensures 0 in s <==> s[0] == 0 || 0 in r
  {
    if StartsPair(s) then
      assert s == [s[0], s[1]] + s[2..];
      s[2..]
    else
      assert s == [s[0]] + s[1..];
      s[1..]
  }

  function Utf8(s: JsString): (bs: seq<Byte>)
    ensures 0 in bs <==> 0 in s
    decreases |s|
  {
    if s == [] then [] else EncodeCodePoint(FirstCodePoint(s)) + Utf8(Rest(s))
  }

  /** An ASCII character encodes to itself, and never joins with what stands before or behind it. */
  lemma {:induction false} Utf8Around(a: JsString, c: CodeUnit, b: JsString)
    requires c < 0x80
    ensures Utf8(a + [c] + b) == Utf8(a) + [c] + Utf8(b)
    decreases |a|
  {
    var s := a + [c] + b;
    hide EncodeCodePoint;
    if a == [] {
      assert EncodeCodePoint(c) == [c] by {
        EncodeAscii(c);
      }
      assert Rest(s) == b;
    } else {
      assert Rest(s) == Rest(a) + [c] + b;
      assert FirstCodePoint(s) == FirstCodePoint(a);
      Utf8Around(Rest(a), c, b);
    }
  }

  /** Encoding str + "\0" appends one zero byte to the encoding of str. */
  lemma Utf8Terminated(s: JsString)
    ensures Utf8(s + [0]) == Utf8(s) + [0]
  {
    Utf8Around(s, 0, []);
    assert s + [0] + [] == s + [0];
  }

  lemma EncodeAscii(c: int)
    requires 0 <= c < 0x80
    ensures EncodeCodePoint(c) == [c]
  {
  }

  lemma {:induction false} AsciiIn(s: JsString, c: CodeUnit)
    requires c < 0x80
    ensures c in Utf8(s) <==> c in s
    decreases |s|
  {
    if s != [] {
      AsciiIn(Rest(s), c);
      AsciiCodePoint(FirstCodePoint(s), c);
      RestOf(s, c);
      hide EncodeCodePoint, FirstCodePoint, Rest;
    }
  }

  lemma AsciiCodePoint(p: int, c: CodeUnit)
    requires 0 <= p < 0x11_0000 && c < 0x80
    ensures c in EncodeCodePoint(p) <==> c == p
  {
  }

  lemma RestOf(s: JsString, c: CodeUnit)
    requires s != [] && c < 0x80
    ensures c in s <==> FirstCodePoint(s) == c || c in Rest(s)
  {
    if StartsPair(s) {
      assert s == [s[0], s[1]] + s[2..];
    } else {
      assert s == [s[0]] + s[1..];
    }
  }

  // ----- UTF-8 read back, section 4 of RFC 3629 -----

  predicate IsTail(b: int) { 0x80 <= b < 0xC0 }

  /** The first code point of well-formed UTF-8, and the number of its bytes. */
  function FirstOf(bs: seq<nat>): Option<(nat, nat)> {
    if bs == [] then None
    else if bs[0] < 0x80 then Some((bs[0], 1))
    else if |bs| >= 2 && 0xC2 <= bs[0] < 0xE0 && IsTail(bs[1]) then Some((TwoBytes(bs[0], bs[1]), 2))
    else if |bs| >= 3 && 0xE0 <= bs[0] < 0xF0 && IsTail(bs[1]) && IsTail(bs[2]) then
      var c := ThreeBytes(bs[0], bs[1], bs[2]);
      if c < 0x800 || 0xD800 <= c < 0xE000 then None else Some((c, 3))
    else if |bs| >= 4 && 0xF0 <= bs[0] < 0xF5 && IsTail(bs[1]) && IsTail(bs[2]) && IsTail(bs[3]) then
      var c := FourBytes(bs[0], bs[1], bs[2], bs[3]);
      if c < 0x1_0000 || 0x11_0000 <= c then None else Some((c, 4))
    else None
  }

  function TwoBytes(b0: nat, b1: nat): nat {
    b0 % 0x20 * 0x40 + b1 % 0x40
  }

  function ThreeBytes(b0: nat, b1: nat, b2: nat): nat {
    b0 % 0x10 * 0x1000 + b1 % 0x40 * 0x40 + b2 % 0x40
  }

  function FourBytes(b0: nat, b1: nat, b2: nat, b3: nat): nat {
    b0 % 0x08 * 0x4_0000 + b1 % 0x40 * 0x1000 + b2 % 0x40 * 0x40 + b3 % 0x40
  }

  function DecodeUtf8(bs: seq<nat>): Option<seq<nat>> {
    if bs == [] then Some([])
    else
      match FirstOf(bs)
      case None => None
      case Some((c, n)) =>
        if n == 0 || n > |bs| then None
        else
          match DecodeUtf8(bs[n..])
          case None => None
          case Some(cs) => Some([c] + cs)
  }

  /** UTF-16 of code points. */
  function Utf16(cs: seq<nat>): seq<int> {
    if cs == [] then []
    else
      (if cs[0] < 0x1_0000 then [cs[0]]
       else [0xD800 + (cs[0] - 0x1_0000) / 0x400, 0xDC00 + (cs[0] - 0x1_0000) % 0x400]) + Utf16(cs[1..])
  }

  predicate IsLone(s: JsString, i: nat)
    requires i < |s|
  {
    || (IsHigh(s[i]) && !(i + 1 < |s| && IsLow(s[i + 1])))
    || (IsLow(s[i]) && !(i > 0 && IsHigh(s[i - 1])))
  }

  /** The string with every lone surrogate replaced. */
  function Scrubbed(s: JsString): (r: seq<int>)
    ensures |r| == |s|
  {
    seq(|s|, i requires 0 <= i < |s| => if IsLone(s, i) then 0xFFFD else s[i] as int)
  }

  lemma TwoBytesSplit(c: nat)
    requires 0x80 <= c < 0x800
    ensures var b0, b1 := 0xC0 + c / 0x40, 0x80 + c % 0x40;
            0xC2 <= b0 < 0xE0 && IsTail(b1) && TwoBytes(b0, b1) == c
  {
  }

  lemma ThreeBytesSplit(c: nat)
    requires 0x800 <= c < 0x1_0000
    ensures var b0, b1, b2 := 0xE0 + c / 0x1000, 0x80 + c / 0x40 % 0x40, 0x80 + c % 0x40;
            0xE0 <= b0 < 0xF0 && IsTail(b1) && IsTail(b2) && ThreeBytes(b0, b1, b2) == c
  {
    assert c / 0x40 == c / 0x1000 * 0x40 + c / 0x40 % 0x40;
  }

  lemma FourBytesSplit(c: nat)
    requires 0x1_0000 <= c < 0x11_0000
    ensures var b0, b1 := 0xF0 + c / 0x4_0000, 0x80 + c / 0x1000 % 0x40;
            var b2, b3 := 0x80 + c / 0x40 % 0x40, 0x80 + c % 0x40;
            0xF0 <= b0 < 0xF5 && IsTail(b1) && IsTail(b2) && IsTail(b3) && FourBytes(b0, b1, b2, b3) == c
  {
    assert c / 0x1000 == c / 0x4_0000 * 0x40 + c / 0x1000 % 0x40;
    assert c / 0x40 == c / 0x1000 * 0x40 + c / 0x40 % 0x40;
  }

  lemma FirstDecodes(c: nat, rest: seq<Byte>)
    requires c < 0x11_0000 && !(0xD800 <= c < 0xE000)
    ensures FirstOf(EncodeCodePoint(c) + rest) == Some((c, |EncodeCodePoint(c)|))
  {
    hide TwoBytes, ThreeBytes, FourBytes, IsTail;
    if c >= 0x1_0000 {
      FourBytesSplit(c);
    } else if c >= 0x800 {
      ThreeBytesSplit(c);
    } else if c >= 0x80 {
      TwoBytesSplit(c);
    }
  }

  lemma NotSurrogate(s: JsString)
    requires s != []
    ensures !(0xD800 <= FirstCodePoint(s) < 0xE000)
  {
  }

  lemma ScrubbedFirst(s: JsString)
    requires s != []
    ensures Scrubbed(s) == Utf16([FirstCodePoint(s)]) + Scrubbed(Rest(s))
  {
    var head := Utf16([FirstCodePoint(s)]);
    assert Utf16([]) == [];
    if StartsPair(s) {
      assert head == [s[0], s[1]];
      assert forall i :: 0 <= i < |s| - 2 ==> IsLone(s, i + 2) == IsLone(s[2..], i);
    } else {
      assert forall i :: 0 <= i < |s| - 1 ==> IsLone(s, i + 1) == IsLone(s[1..], i);
    }
  }

  /** What a reader of UTF-8 sees of any string is the string, every lone surrogate being replaced. */
  lemma {:induction false} Utf8ReadsBack(s: JsString)
    ensures DecodeUtf8(Utf8(s)).Some? && Utf16(DecodeUtf8(Utf8(s)).value) == Scrubbed(s)
    decreases |s|
  {
    if s != [] {
      var c: nat, rest := FirstCodePoint(s), Rest(s);
      Utf8ReadsBack(rest);
      NotSurrogate(s);
      FirstDecodes(c, Utf8(rest));
      ScrubbedFirst(s);
      assert Utf8(s) == EncodeCodePoint(c) + Utf8(rest);
      assert EncodeCodePoint(c) != [];
      var cs := DecodeUtf8(Utf8(rest)).value;
      hide EncodeCodePoint, FirstCodePoint, Rest, FirstOf, Scrubbed, Utf8, DecodeUtf8;
      DecodeFirst(EncodeCodePoint(c), Utf8(rest), c, cs);
      Utf16Cons(c, cs);
    }
  }

  lemma Utf16Cons(c: nat, cs: seq<nat>)
    ensures Utf16([c] + cs) == Utf16([c]) + Utf16(cs)
  {
    assert ([c] + cs)[1..] == cs && [c][1..] == [];
    assert Utf16([]) == [];
  }

  lemma DecodeFirst(first: seq<Byte>, rest: seq<Byte>, c: nat, cs: seq<nat>)
    requires first != [] && FirstOf(first + rest) == Some((c, |first|)) && DecodeUtf8(rest) == Some(cs)
    ensures DecodeUtf8(first + rest) == Some([c] + cs)
  {
    assert (first + rest)[|first|..] == rest;
  }
}
