/** base58btc, as the DID code writes it. */
module Base58 {
  import opened Positional

  const RADIX: nat := 58
  const ALPHABET: string :=
    "123456789" + "ABCDEFGH" + "JKLMN" + "PQRSTUVWXYZ" + "abcdefghijk" + "mnopqrstuvwxyz"

  datatype Decoded = Bytes(bytes: seq<nat>) | BadCharacter

  ghost predicate IsBytes(bs: seq<nat>) {
    IsDigits(256, bs)
  }

  /** The letters by their place: nine digits, the capitals without I and O, the small letters
      without l. */
  function LetterCode(d: nat): int {
    if d < 9 then '1' as int + d
    else if d < 17 then 'A' as int + (d - 9)
    else if d < 22 then 'J' as int + (d - 17)
    else if d < 33 then 'P' as int + (d - 22)
    else if d < 44 then 'a' as int + (d - 33)
    else 'm' as int + (d - 44)
  }

  ghost predicate Consecutive(s: string, first: char) {
    forall i :: 0 <= i < |s| ==> s[i] as int == first as int + i
  }

  lemma AlphabetPieces()
    ensures Consecutive("123456789", '1') && Consecutive("ABCDEFGH", 'A') && Consecutive("JKLMN", 'J')
    ensures Consecutive("PQRSTUVWXYZ", 'P') && Consecutive("abcdefghijk", 'a') && Consecutive("mnopqrstuvwxyz", 'm')
  {
  }

  lemma AlphabetByPlace()
    ensures |ALPHABET| == 58 && forall d :: 0 <= d < 58 ==> ALPHABET[d] as int == LetterCode(d)
  {
    AlphabetPieces();
    var a, b, c, d, e, f := "123456789", "ABCDEFGH", "JKLMN", "PQRSTUVWXYZ", "abcdefghijk", "mnopqrstuvwxyz";
    assert |a| == 9 && |b| == 8 && |c| == 5 && |d| == 11 && |e| == 11 && |f| == 14;
    assert ALPHABET == a + b + c + d + e + f;
    PiecesJoin(a, b, c, d, e, f);
  }

  lemma PiecesJoin(a: string, b: string, c: string, d: string, e: string, f: string)
    requires |a| == 9 && |b| == 8 && |c| == 5 && |d| == 11 && |e| == 11 && |f| == 14
    requires Consecutive(a, '1') && Consecutive(b, 'A') && Consecutive(c, 'J')
    requires Consecutive(d, 'P') && Consecutive(e, 'a') && Consecutive(f, 'm')
    ensures forall i :: 0 <= i < 58 ==> (a + b + c + d + e + f)[i] as int == LetterCode(i)
  {
  }

  /** Letters stand in increasing order in the alphabet, so no two digits share a letter. */
  lemma AlphabetIncreasing()
    ensures |ALPHABET| == RADIX
    ensures forall i, j :: 0 <= i < j < RADIX ==> ALPHABET[i] < ALPHABET[j]
  {
    AlphabetByPlace();
    hide ALPHABET;
  }

  /** The letters of base58btc: digits but 0, capitals but I and O, small letters but l. */
  lemma LettersAre(c: char)
    ensures IsLetter(c) <==>
            || '1' <= c <= '9'
            || ('A' <= c <= 'Z' && c != 'I' && c != 'O')
            || ('a' <= c <= 'z' && c != 'l')
  {
    AlphabetByPlace();
    hide ALPHABET;
    if '1' <= c <= '9' {
      assert ALPHABET[c as int - '1' as int] == c;
    } else if 'A' <= c <= 'H' {
      assert ALPHABET[9 + (c as int - 'A' as int)] == c;
    } else if 'J' <= c <= 'N' {
      assert ALPHABET[17 + (c as int - 'J' as int)] == c;
    } else if 'P' <= c <= 'Z' {
      assert ALPHABET[22 + (c as int - 'P' as int)] == c;
    } else if 'a' <= c <= 'k' {
      assert ALPHABET[33 + (c as int - 'a' as int)] == c;
    } else if 'm' <= c <= 'z' {
      assert ALPHABET[44 + (c as int - 'm' as int)] == c;
    }
  }

  ghost predicate IsLetter(c: char) {
    exists d :: 0 <= d < |ALPHABET| && ALPHABET[d] == c
  }

  /** The digit of a letter. */
  ghost function DigitOf(c: char): (d: nat)
    requires IsLetter(c)
    ensures d < RADIX && d < |ALPHABET| && ALPHABET[d] == c
  {
    AlphabetIncreasing();
    var d :| 0 <= d < |ALPHABET| && ALPHABET[d] == c;
    d
  }

  function Letters(ds: seq<nat>): (s: string)
    requires IsDigits(RADIX, ds)
  {
    assert |ALPHABET| == RADIX;
    seq(|ds|, i requires 0 <= i < |ds| => ALPHABET[ds[i]])
  }

  ghost function DigitsOf(s: string): (ds: seq<nat>)
    requires forall i :: 0 <= i < |s| ==> IsLetter(s[i])
    ensures IsDigits(RADIX, ds)
  {
    seq(|s|, i requires 0 <= i < |s| => DigitOf(s[i]))
  }

  /** One '1' per leading zero byte, then the digits of the big-endian number. */
  function Encoding(input: seq<nat>): string {
    Repeat(ALPHABET[0], LeadingCount(input, 0)) + Letters(ToDigits(RADIX, Value(256, input)))
  }

  /** The inverse direction: one zero byte per leading '1', then the bytes of the number. */
  ghost function Decode(text: string): (r: Decoded)
    ensures r.Bytes? ==> IsBytes(r.bytes)
  {
    if forall i :: 0 <= i < |text| ==> IsLetter(text[i]) then
      Bytes(Repeat(0, LeadingCount(text, ALPHABET[0])) + ToDigits(256, Value(RADIX, DigitsOf(text))))
    else BadCharacter
  }

  lemma DigitOfLetter(d: nat)
    requires d < RADIX
    ensures IsLetter(ALPHABET[d]) && DigitOf(ALPHABET[d]) == d
  {
    AlphabetIncreasing();
    var d' := DigitOf(ALPHABET[d]);
    assert d < d' || d' < d || d == d';
  }

  lemma DigitsOfLetters(ds: seq<nat>)
    requires IsDigits(RADIX, ds)
    ensures forall i :: 0 <= i < |ds| ==> IsLetter(Letters(ds)[i])
    ensures DigitsOf(Letters(ds)) == ds
  {
    forall i | 0 <= i < |ds| ensures IsLetter(Letters(ds)[i]) && DigitOf(Letters(ds)[i]) == ds[i] {
      DigitOfLetter(ds[i]);
    }
  }

  /** An encoding is the letters of leading zero digits and of the digits of the number. */
  lemma EncodingDigits(input: seq<nat>)
    ensures var k := LeadingCount(input, 0);
            var ds := Repeat(0, k) + ToDigits(RADIX, Value(256, input));
            Encoding(input) == Letters(ds) && LeadingCount(Encoding(input), ALPHABET[0]) == k
  {
    var k := LeadingCount(input, 0);
    var body := ToDigits(RADIX, Value(256, input));
    assert Encoding(input) == Letters(Repeat(0, k) + body);
    if body != [] {
      AlphabetIncreasing();
      assert Letters(body)[0] == ALPHABET[body[0]] != ALPHABET[0];
    }
    LeadingCountOfPadded(ALPHABET[0], k, Letters(body));
  }

  /** Decoding an encoding gives back every byte string, leading zero bytes included. */
  lemma DecodeOfEncoding(input: seq<nat>)
    requires IsBytes(input)
    ensures Decode(Encoding(input)) == Bytes(input)
  {
    var k, n := LeadingCount(input, 0), Value(256, input);
    var ds := Repeat(0, k) + ToDigits(RADIX, n);
    EncodingDigits(input);
    DigitsOfLetters(ds);
    LeadingZerosKeepValue(RADIX, k, ToDigits(RADIX, n));
    ValueOfToDigits(RADIX, n);
    DigitsSplit(256, input);
  }

  lemma LettersOfDigits(text: string)
    requires forall i :: 0 <= i < |text| ==> IsLetter(text[i])
    ensures Letters(DigitsOf(text)) == text
  {
  }

  /** Every text over the alphabet is the encoding of what it decodes to. */
  lemma EncodingOfDecode(text: string)
    requires Decode(text).Bytes?
    ensures Encoding(Decode(text).bytes) == text
  {
    hide Value, ToDigits, Encoding;
    var k, ds := LeadingCount(text, ALPHABET[0]), DigitsOf(text);
    var n := Value(RADIX, ds);
    var bytes := Decode(text).bytes;
    LeadingCountOfPadded(0, k, ToDigits(256, n));
    LeadingZerosKeepValue(256, k, ToDigits(256, n));
    ValueOfToDigits(256, n);
    assert LeadingCount(ds, 0) == k by {
      var rest := ds[k..];
      assert ds == Repeat(0, k) + rest by {
        forall i | 0 <= i < k ensures ds[i] == 0 { DigitOfLetter(0); }
      }
      LeadingCountOfPadded(0, k, rest);
    }
    DigitsSplit(RADIX, ds);
    EncodingDigits(bytes);
    LettersOfDigits(text);
  }

  lemma EncodingInjective(a: seq<nat>, b: seq<nat>)
    requires IsBytes(a) && IsBytes(b)
    ensures Encoding(a) == Encoding(b) <==> a == b
  {
    DecodeOfEncoding(a);
    DecodeOfEncoding(b);
  }

  function Reverse<T>(s: seq<T>): seq<T> {
    seq(|s|, i requires 0 <= i < |s| => s[|s| - 1 - i])
  }

  /** The swap loop that reverses the output in place. */
  method Reversed(backwards: string) returns (out: string)
    ensures out == Reverse(backwards)
  {
    out := backwards;
    var i, j := 0, |out| - 1;
    while i < j
      invariant 0 <= i <= j + 1 && i + j == |out| - 1 && |out| == |backwards|
      invariant forall k :: 0 <= k < i ==> out[k] == backwards[|out| - 1 - k]
      invariant forall k :: j < k < |out| ==> out[k] == backwards[|out| - 1 - k]
      invariant forall k :: i <= k <= j ==> out[k] == backwards[k]
    {
      out := out[i := out[j]][j := out[i]];
      i, j := i + 1, j - 1;
    }
  }

  /** One DivMod: the remainder is the digit in front of the ones already found. */
  lemma DigitSplit(x: nat, ds: seq<nat>)
    requires x > 0
    ensures x / RADIX < x
    ensures ToDigits(RADIX, x) + ds == ToDigits(RADIX, x / RADIX) + ([x % RADIX] + ds)
  {
    DivShrinks(x, RADIX);
    LastDigit(RADIX, x);
    hide ToDigits;
  }

  lemma ReverseFront(d: nat, ds: seq<nat>)
    requires d < RADIX && IsDigits(RADIX, ds)
    ensures Reverse(Letters([d] + ds)) == Reverse(Letters(ds)) + [ALPHABET[d]]
  {
  }

  lemma ReversePadded<T>(front: seq<T>, x: T, n: nat)
    ensures Reverse(Reverse(front) + Repeat(x, n)) == Repeat(x, n) + front
  {
  }

  /** The division loop, the leading-zero loop and the reversal in place. */
  method Encode(input: seq<nat>) returns (text: string)
    requires IsBytes(input)
    ensures text == Encoding(input)
    ensures Decode(text) == Bytes(input)
  {
    hide Decode, Value, ToDigits;
    var zeros := 0;
    while zeros < |input| && input[zeros] == 0
      invariant zeros <= LeadingCount(input, 0)
    {
      zeros := zeros + 1;
    }
    var x: nat := Value(256, input);
    var out: string := "";
    ghost var ds: seq<nat> := [];
    assert out == Reverse(Letters(ds));
    hide Letters, Reverse;
    while x > 0
      invariant ToDigits(RADIX, x) + ds == ToDigits(RADIX, Value(256, input))
      invariant IsDigits(RADIX, ds) && out == Reverse(Letters(ds))
    {
      DigitSplit(x, ds);
      ReverseFront(x % RADIX, ds);
      ds := [x % RADIX] + ds;
      out := out + [ALPHABET[x % RADIX]];
      x := x / RADIX;
    }
    assert [] + ds == ds;
    ghost var body := out;
    for i := 0 to zeros
      invariant out == body + Repeat(ALPHABET[0], i)
    {
      out := out + [ALPHABET[0]];
    }
    out := Reversed(out);
    ReversePadded(Letters(ds), ALPHABET[0], zeros);
    DecodeOfEncoding(input);
    return out;
  }
}
