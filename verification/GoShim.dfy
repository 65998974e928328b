/** The object that hosts a Go program in the browser: its linear memory and its reference table. */
module GoShim {
  import opened Wrappers
  import opened LinearMemory
  import opened ReferenceTable

  /** A reference in memory: low word first. */
  function PutReference(m: seq<Byte>, addr: nat, high: Word, low: Word): seq<Byte>
    requires addr + 8 <= |m|
  {
    PutUint32(PutUint32(m, addr + 4, high), addr, low)
  }

  lemma GetReference(m: seq<Byte>, addr: nat, high: Word, low: Word)
    requires addr + 8 <= |m|
    ensures var m' := PutReference(m, addr, high, low);
            GetUint32(m', addr) == low && GetUint32(m', addr + 4) == high
  {
    var m1 := PutUint32(m, addr + 4, high);
    GetPut(m, addr + 4, high);
    GetPut(m1, addr, low);
  }

  lemma WordsStored(m: seq<Byte>, addr: nat, low: Word, high: Word)
    requires addr + 8 <= |m|
    ensures var m' := PutUint32(PutUint32(m, addr, low), addr + 4, high);
            GetUint32(m', addr) == low && GetUint32(m', addr + 4) == high
  {
    GetPut(m, addr, low);
    GetPut(PutUint32(m, addr, low), addr + 4, high);
  }

  /** The id that v's reference carries. */
  function IdFor(t: Table, v: JsValue): nat
    requires WellFormed(t)
  {
    if IsDirect(v) then 0 else Intern(t, v).1
  }

  function Stored(m: seq<Byte>, addr: nat, t: Table, v: JsValue): seq<Byte>
    requires addr + 8 <= |m| && WellFormed(t)
  {
    var (high, low) := Reference(v, IdFor(t, v));
    PutReference(m, addr, high, low)
  }

  lemma NumberStored(s: State, m: seq<Byte>, addr: nat, v: JsValue)
    requires Inv(s) && addr + 8 <= |m| && v.Number? && !IsZeroBits(v.high, v.low)
    ensures var (high, low) := if IsNaNBits(v.high, v.low) then (NAN_HEAD, 0) else (v.high, v.low);
            Stored(m, addr, s.t, v) == PutReference(m, addr, high, low) && Load(s.t, high, low) == Settled(v)
  {
    LoadOfStore(s, v);
    SettledIsCanonical(v);
    hide Settled, Canonical, IsNaNBits, IsZeroBits, Load, PutReference, Inv, Intern;
  }

  lemma NextStored(s: State, v: JsValue)
    requires Inv(s) && !IsDirect(v)
    ensures var (t, id) := Allocate(s.t, Canonical(v));
            && Intern(s.t, v).1 == id
            && Next(s, StoreOp(v)) == State(Recounted(t, id, 1), LedgerAfter(s.ledger, StoreOp(v), id))
  {
    hide Inv, Allocate, LedgerAfter;
  }

  lemma StoredSlot(s: State, v: JsValue)
    requires Inv(s) && !IsDirect(v)
    ensures Next(s, StoreOp(v)).t == Intern(s.t, v).0
    ensures Reference(v, Intern(s.t, v).1) == (NAN_HEAD + TypeFlag(v), Intern(s.t, v).1 % TWO32)
  {
    hide Inv, Intern, LedgerAfter;
  }

  class Go {
    const mem: array<Byte>
    var values: seq<JsValue>
    var goRefCounts: seq<Count>
    var ids: map<JsValue, nat>
    var idPool: seq<nat>
    ghost var ledger: map<nat, Held>

    ghost function Current(): State
      reads this
    {
      State(Table(values, goRefCounts, ids, idPool), ledger)
    }

    ghost predicate Valid()
      reads this
    {
      Inv(Current())
    }

    /** What loadValue(addr) would return now. */
    ghost function ValueAt(addr: nat): JsValue
      requires addr + 8 <= mem.Length
      reads this, mem
    {
      Load(Current().t, GetUint32(mem[..], addr + 4), GetUint32(mem[..], addr))
    }

    /** The table as run() initialises it. */
    constructor (mem: array<Byte>)
      ensures Valid() && Initial(Current()) && this.mem == mem
    {
      this.mem := mem;
      values := [NAN, ZERO, Null, Boolean(true), Boolean(false), GLOBAL_THIS, GO];
      goRefCounts := seq(7, _ => Infinite);
      ids := map[ZERO := 1, Null := 2, Boolean(true) := 3, Boolean(false) := 4, GLOBAL_THIS := 5, GO := 6];
      idPool := [];
      ledger := map[];
      new;
      InitialInv(Current());
    }

    method LoadValue(addr: nat) returns (v: JsValue)
      requires addr + 8 <= mem.Length
      ensures v == ValueAt(addr)
    {
      var low, high := GetUint32(mem[..], addr), GetUint32(mem[..], addr + 4);
      if IsZeroBits(high, low) {
        return Undefined;
      }
      if !IsNaNBits(high, low) {
        return Number(high, low);
      }
      return if low < |values| then values[low] else Undefined;
    }

    method WriteReference(addr: nat, high: Word, low: Word)
      requires addr + 8 <= mem.Length
      modifies mem
      ensures mem[..] == PutReference(old(mem[..]), addr, high, low)
      ensures GetUint32(mem[..], addr) == low && GetUint32(mem[..], addr + 4) == high
    {
      GetReference(mem[..], addr, high, low);
      hide PutUint32, GetUint32;
      SetUint32(mem, addr + 4, high);
      SetUint32(mem, addr, low);
    }

    /** Looks the value up, else takes an id from the pool, else appends one. */
    method IdOf(k: JsValue) returns (id: nat)
      requires WellFormed(Current().t)
      modifies `values, `goRefCounts, `ids, `idPool
      ensures (Current().t, id) == Allocate(old(Current().t), k)
    {
      if k in ids {
        return ids[k];
      }
      if idPool != [] {
        id := idPool[|idPool| - 1];
        idPool := idPool[..|idPool| - 1];
        values, goRefCounts := values[id := k], goRefCounts[id := Finite(0)];
      } else {
        id := |values|;
        values, goRefCounts := values + [k], goRefCounts + [Finite(0)];
      }
      ids := ids[k := id];
    }

    method CountReference(id: nat)
      requires id < |goRefCounts|
      modifies `goRefCounts
      ensures Current().t == Recounted(old(Current().t), id, 1)
    {
      goRefCounts := goRefCounts[id := goRefCounts[id].Plus(1)];
    }

    method InternValue(v: JsValue) returns (id: nat)
      requires Valid() && !IsDirect(v)
      modifies this
      ensures Valid() && Current() == Next(old(Current()), StoreOp(v))
      ensures id == Intern(old(Current().t), v).1
    {
      assert WellFormed(Current().t);
      StepInv(Current(), StoreOp(v));
      NextStored(Current(), v);
      hide Inv, Canonical, IsDirect, Allocate, LedgerAfter, Recounted, Next, Intern;
      id := IdOf(Canonical(v));
      CountReference(id);
      ledger := LedgerAfter(ledger, StoreOp(v), id);
    }

    method StoreValue(addr: nat, v: JsValue)
      requires Valid() && addr + 8 <= mem.Length
      modifies this, mem
      ensures Valid() && Current() == Next(old(Current()), StoreOp(v))
      ensures mem[..] == Stored(old(mem[..]), addr, old(Current().t), v)
      ensures |values| <= TWO32 ==> ValueAt(addr) == Settled(v)
    {
      if v.Number? && !IsZeroBits(v.high, v.low) {
        StoreNumber(addr, v);
      } else if v.Undefined? {
        StoreUndefined(addr);
      } else {
        StoreTabled(addr, v);
      }
    }

    method StoreNumber(addr: nat, v: JsValue)
      requires Valid() && addr + 8 <= mem.Length && v.Number? && !IsZeroBits(v.high, v.low)
      modifies mem
      ensures mem[..] == Stored(old(mem[..]), addr, Current().t, v) && ValueAt(addr) == Settled(v)
    {
      NumberStored(Current(), mem[..], addr, v);
      hide Stored, Settled, IsNaNBits, IsZeroBits, Load, PutReference, GetUint32, Inv;
      if IsNaNBits(v.high, v.low) {
        WriteReference(addr, NAN_HEAD, 0);
      } else {
        WriteReference(addr, v.high, v.low);
      }
    }

    method StoreUndefined(addr: nat)
      requires Valid() && addr + 8 <= mem.Length
      modifies mem
      ensures mem[..] == Stored(old(mem[..]), addr, Current().t, Undefined) && ValueAt(addr) == Settled(Undefined)
    {
      LoadOfStore(Current(), Undefined);
      SettledIsCanonical(Undefined);
      hide Settled, Canonical, Load, PutReference, GetUint32;
      WriteReference(addr, 0, 0);
    }

    method StoreTabled(addr: nat, v: JsValue)
      requires Valid() && addr + 8 <= mem.Length && !IsDirect(v)
      modifies this, mem
      ensures Valid() && Current() == Next(old(Current()), StoreOp(v))
      ensures mem[..] == Stored(old(mem[..]), addr, old(Current().t), v)
      ensures |values| <= TWO32 ==> ValueAt(addr) == Settled(v)
    {
      LoadOfStore(Current(), v);
      SettledIsCanonical(v);
      StoredSlot(Current(), v);
      hide Inv, Next, Intern, PutReference, GetUint32, IsZeroBits, Settled, Canonical, Load;
      var id := InternValue(v);
      WriteReference(addr, NAN_HEAD + TypeFlag(v), id % TWO32);
    }

    method ReleaseId(id: nat)
      requires id < |values| == |goRefCounts|
      modifies `values, `goRefCounts, `ids, `idPool
      ensures Current().t == Release(old(Current().t), id)
    {
      goRefCounts := goRefCounts[id := goRefCounts[id].Plus(-1)];
      if goRefCounts[id] == Finite(0) {
        var v := values[id];
        values := values[id := Null];
        ids := ids - {v};
        idPool := idPool + [id];
      }
    }

    /** Gives back one reference: the id is read from Go's stack at sp + 8. */
    method FinalizeRef(sp: nat)
      requires Valid() && sp + 12 <= mem.Length
      requires Allowed(Current(), FinalizeOp(GetUint32(mem[..], sp + 8)))
      modifies this
      ensures Valid() && Current() == Next(old(Current()), FinalizeOp(GetUint32(mem[..], sp + 8)))
    {
      var id: nat := GetUint32(mem[..], sp + 8);
      StepInv(Current(), FinalizeOp(id));
      HeldId(Current(), id);
      assert WellFormed(Current().t);
      hide Inv, GetUint32, Release;
      ReleaseId(id);
      ledger := LedgerAfter(ledger, FinalizeOp(id), id);
    }

    /** The integer part can be read back exactly if it fits and the words do not split unevenly;
        what is not a finite number reads back as zero. */
    method SetInt64(addr: nat, v: Double)
      requires addr + 8 <= mem.Length
      modifies mem
      ensures mem[..] == PutUint32(PutUint32(old(mem[..]), addr, v.Low()), addr + 4, v.High())
      ensures var n := JoinWords(GetUint32(mem[..], addr), GetUint32(mem[..], addr + 4));
              if v.Real? then n == Trunc(v.x) <==> -TWO63 as real <= v.x < TWO63 as real && !SplitsUnevenly(v.x)
              else n == 0
    {
      if v.Real? {
        Int64RoundTrip(v.x);
      }
      WordsStored(mem[..], addr, v.Low(), v.High());
      hide HighWord, LowWord, SplitsUnevenly, Trunc, PutUint32, GetUint32;
      SetUint32(mem, addr, v.Low());
      SetUint32(mem, addr + 4, v.High());
    }

    method GetInt64(addr: nat) returns (n: int)
      requires addr + 8 <= mem.Length
      ensures n == JoinWords(GetUint32(mem[..], addr), GetUint32(mem[..], addr + 4))
      ensures -TWO63 <= n < TWO63
      ensures (n - GetUint32(mem[..], addr) - TWO32 * GetUint32(mem[..], addr + 4)) % (TWO32 * TWO32) == 0
    {
      hide GetUint32;
      var low, high := GetUint32(mem[..], addr), GetUint32(mem[..], addr + 4);
      n := low + (if high < TWO31 then high else high - TWO32) * TWO32;
    }
  }
}
