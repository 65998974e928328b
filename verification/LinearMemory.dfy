/** The little-endian 32-bit accessors of a DataView, and the 64-bit integers built on them. */
module LinearMemory {
  import opened Wrappers
  import opened Positional

  const TWO31: int := 0x8000_0000
  const TWO32: int := 0x1_0000_0000
  const TWO63: int := 0x8000_0000_0000_0000

  type Word = w: int | 0 <= w < 0x1_0000_0000

  function LittleEndian(w: Word): (bs: seq<Byte>)
    ensures |bs| == 4
  {
    [w % 256, w / 256 % 256, w / 256 / 256 % 256, w / 256 / 256 / 256]
  }

  function JoinBytes(b0: int, b1: int, b2: int, b3: int): int {
    b0 + 256 * (b1 + 256 * (b2 + 256 * b3))
  }

  function PutUint32(m: seq<Byte>, addr: nat, w: Word): (m': seq<Byte>)
    requires addr + 4 <= |m|
    ensures |m'| == |m|
  {
    m[..addr] + LittleEndian(w) + m[addr + 4..]
  }

  function GetUint32(m: seq<Byte>, addr: nat): Word
    requires addr + 4 <= |m|
  {
    JoinBytes(m[addr], m[addr + 1], m[addr + 2], m[addr + 3])
  }

  /** Reading where a word was just written gives it back; every other byte is untouched. */
  lemma GetPut(m: seq<Byte>, addr: nat, w: Word)
    requires addr + 4 <= |m|
    ensures GetUint32(PutUint32(m, addr, w), addr) == w
    ensures forall i :: 0 <= i < |m| && !(addr <= i < addr + 4) ==> PutUint32(m, addr, w)[i] == m[i]
  {
    var m', bs := PutUint32(m, addr, w), LittleEndian(w);
    assert m'[addr] == bs[0] && m'[addr + 1] == bs[1] && m'[addr + 2] == bs[2] && m'[addr + 3] == bs[3];
  }

  /** A word depends on its own four bytes only. */
  lemma GetElsewhere(m: seq<Byte>, m': seq<Byte>, addr: nat)
    requires addr + 4 <= |m| == |m'| && m'[addr..addr + 4] == m[addr..addr + 4]
    ensures GetUint32(m', addr) == GetUint32(m, addr)
  {
    hide JoinBytes;
    var b, b' := m[addr..addr + 4], m'[addr..addr + 4];
    assert forall i :: 0 <= i < 4 ==> m[addr + i] == b[i] && m'[addr + i] == b'[i];
  }

  method SetUint32(mem: array<Byte>, addr: nat, w: Word)
    requires addr + 4 <= mem.Length
    modifies mem
    ensures mem[..] == PutUint32(old(mem[..]), addr, w)
  {
    var bs := LittleEndian(w);
    mem[addr], mem[addr + 1], mem[addr + 2], mem[addr + 3] := bs[0], bs[1], bs[2], bs[3];
  }

  /** The two's complement reading of a word. */
  function Signed(w: Word): int {
    if w < TWO31 then w else w - TWO32
  }

  /** The integer part of a number, toward zero. */
  function Trunc(v: real): int {
    if v >= 0.0 then v.Floor else -((-v).Floor)
  }

  /** How setUint32 converts a number. */
  function ToUint32(v: real): Word {
    Trunc(v) % TWO32
  }

  function LowWord(v: real): Word {
    ToUint32(v)
  }

  /** Within 2^-1043 of zero, dividing by 2^32 underflows to zero in binary64. */
  predicate Underflows(v: real) {
    -1.0 <= v * Pow(2, 1043) as real <= 1.0
  }

  /** v / 4294967296, as far as its floor can tell: the division by a power of two is exact or
      rounds within the subnormal numbers, unless it underflows to zero. */
  function Quotient(v: real): real {
    if Underflows(v) then 0.0 else v / TWO32 as real
  }

  function HighWord(v: real): Word {
    ToUint32(Quotient(v).Floor as real)
  }

  /** A number as setInt64 gets it; NaN and the infinities convert to zero words. */
  datatype Double = Real(x: real) | NotFinite {
    function Low(): Word {
      if Real? then LowWord(x) else 0
    }

    function High(): Word {
      if Real? then HighWord(x) else 0
    }
  }

  function JoinWords(low: Word, high: Word): int {
    low + Signed(high) * TWO32
  }

  /** The low word truncates but the high word floors. They disagree on a negative fraction
      just below a multiple of 2^32, unless the quotient underflows. */
  predicate SplitsUnevenly(v: real) {
    v < 0.0 && !Underflows(v) && v != v.Floor as real && Trunc(v) % TWO32 == 0
  }

  /** That is where the quotient is at most half of 2^-1074, the least positive binary64 number. */
  lemma UnderflowsIff(v: real)
    ensures Underflows(v) <==> -1.0 <= (v / TWO32 as real) * Pow(2, 1075) as real <= 1.0
  {
    hide Pow;
    PowAdd(2, 32, 1043);
    PowOf32();
    var x, s, b := v / TWO32 as real, Pow(2, 1043), TWO32 as real;
    assert x * b == v;
    ProductAsReal(TWO32, s);
    assert x * (b * s as real) == (x * b) * s as real;
  }

  lemma PowOf32()
    ensures Pow(2, 32) == TWO32
  {
    PowAdd(2, 8, 8);
    PowAdd(2, 16, 16);
    assert Pow(2, 8) == 256;
    hide Pow;
  }

  lemma ProductAsReal(a: int, b: int)
    ensures (a * b) as real == a as real * b as real
  {
  }

  lemma PowerIsLarge()
    ensures Pow(2, 1043) >= 1024
  {
    hide Pow;
    PowAdd(2, 10, 1033);
    PowPositive(2, 1033);
    TenthPower();
    MulMonotone(1, Pow(2, 1033), 1024);
  }

  lemma TenthPower()
    ensures Pow(2, 10) == 1024
  {
  }

  lemma NearZero(v: real, s: real)
    requires s >= 1024.0
    ensures -1.0 <= v * s <= 1.0 ==> -0.001 < v < 0.001
  {
    if v >= 0.001 {
      assert v * s >= 0.001 * s;
    } else if v <= -0.001 {
      assert -v * s >= 0.001 * s;
      assert -v * s == -(v * s);
    }
  }

  lemma UnderflowIsNearZero(v: real)
    ensures Underflows(v) ==> -0.001 < v < 0.001
    ensures Underflows(0.0)
  {
    hide Pow;
    PowerIsLarge();
    NearZero(v, Pow(2, 1043) as real);
  }

  lemma FloorOfQuotient(v: real)
    ensures Quotient(v).Floor == if Underflows(v) then 0 else v.Floor / TWO32
  {
    hide Underflows;
    ExactFloor(v);
  }

  lemma ExactFloor(v: real)
    ensures (v / TWO32 as real).Floor == v.Floor / TWO32
  {
    var q := v.Floor / TWO32;
    var r := v.Floor % TWO32;
    assert v.Floor == q * TWO32 + r;
    assert (q * TWO32) as real == q as real * TWO32 as real;
    var x := v / TWO32 as real;
    assert x * TWO32 as real == v;
    assert q as real * TWO32 as real <= v < (q + 1) as real * TWO32 as real;
    assert q as real <= x < (q + 1) as real;
  }

  lemma TruncOrNext(v: real)
    ensures Trunc(v) == if v < 0.0 && v != v.Floor as real then v.Floor + 1 else v.Floor
  {
  }

  lemma JoinHalves(t: int, f: int)
    requires t == f || t == f + 1
    ensures JoinWords(t % TWO32, f / TWO32 % TWO32) == t
            <==> -TWO63 <= f < TWO63 && !(t == f + 1 && t % TWO32 == 0)
  {
    assert t == t / TWO32 * TWO32 + t % TWO32;
    assert f / TWO32 == if t == f + 1 && t % TWO32 == 0 then t / TWO32 - 1 else t / TWO32;
  }

  /** getInt64 after setInt64 is the integer part exactly on the signed 64-bit range, except
      where the two words split unevenly. */
  lemma Int64RoundTrip(v: real)
    ensures JoinWords(LowWord(v), HighWord(v)) == Trunc(v)
            <==> -TWO63 as real <= v < TWO63 as real && !SplitsUnevenly(v)
  {
    assert JoinWords(0, 0) == 0;
    hide Underflows, Quotient, Trunc, JoinWords;
    UnderflowIsNearZero(v);
    TruncOfInteger(Quotient(v).Floor);
    FloorOfQuotient(v);
    TruncOrNext(v);
    if Underflows(v) {
      TruncNearZero(v);
    } else {
      JoinHalves(Trunc(v), v.Floor);
    }
  }

  lemma TruncOfInteger(n: int)
    ensures Trunc(n as real) == n
  {
  }

  lemma TruncNearZero(v: real)
    requires -0.5 < v < 0.5
    ensures Trunc(v) == 0
  {
  }

  /** Every millisecond of the last second before 1970 splits unevenly: the seconds that Go reads
      are 2^32 too few. */
  lemma LastSecondBeforeEpoch(v: real)
    requires -1.0 < v <= -0.001
    ensures SplitsUnevenly(v) && Trunc(v) == 0
    ensures JoinWords(LowWord(v), HighWord(v)) == -TWO32
  {
    hide Underflows, Quotient;
    UnderflowIsNearZero(v);
    assert v.Floor == -1;
    FloorOfQuotient(v);
    TruncOfInteger(-1);
  }

  /** Half a second before 1970, for one. */
  lemma HalfSecondBeforeEpoch()
    ensures SplitsUnevenly(-0.5) && Trunc(-0.5) == 0
    ensures JoinWords(LowWord(-0.5), HighWord(-0.5)) == -TWO32
  {
    hide SplitsUnevenly, Trunc, JoinWords, LowWord, HighWord;
    LastSecondBeforeEpoch(-0.5);
  }

  /** In particular every integer that a double holds exactly survives, negative ones included. */
  lemma Int64RoundTripInteger(n: int)
    ensures JoinWords(LowWord(n as real), HighWord(n as real)) == n <==> -TWO63 <= n < TWO63
  {
    Int64RoundTrip(n as real);
  }
}
