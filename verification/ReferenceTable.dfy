/** The table through which Go code running in a browser refers to JavaScript values:
    a reference-counted handle allocator with a free list and a reverse map, and the
    NaN-boxed 64-bit references that Go holds. */
module ReferenceTable {
  import opened LinearMemory

  // ----- JavaScript values -----

  /** A number is given by its IEEE 754 binary64 bits; objects, symbols and functions by identity. */
  datatype JsValue =
    | Undefined
    | Null
    | Boolean(b: bool)
    | Number(high: Word, low: Word)
    | String(s: string)
    | Object(identity: nat)
    | Symbol(identity: nat)
    | Function(identity: nat)
    | BigInt(n: int)

  const NAN_HEAD: Word := 0x7FF8_0000
  const NAN: JsValue := Number(NAN_HEAD, 0)
  const ZERO: JsValue := Number(0, 0)
  const GLOBAL_THIS: JsValue := Object(0)
  const GO: JsValue := Object(1)

  predicate IsNaNBits(high: Word, low: Word) {
    high / 0x10_0000 % 0x800 == 0x7FF && (high % 0x10_0000 != 0 || low != 0)
  }

  /** Positive or negative zero. */
  predicate IsZeroBits(high: Word, low: Word) {
    high % TWO31 == 0 && low == 0
  }

  /** The representative of a value under SameValueZero: one zero and one NaN. */
  function Canonical(v: JsValue): JsValue {
    if v.Number? && IsZeroBits(v.high, v.low) then ZERO
    else if v.Number? && IsNaNBits(v.high, v.low) then NAN
    else v
  }

  /** Values that a reference carries in its own bits. */
  predicate IsDirect(v: JsValue) {
    v.Undefined? || (v.Number? && !IsZeroBits(v.high, v.low))
  }

  // ----- The table -----

  datatype Count = Infinite | Finite(n: int) {
    function Plus(k: int): Count {
      match this
      case Infinite => Infinite
      case Finite(n) => Finite(n + k)
    }
  }

  datatype Table = Table(
    values: seq<JsValue>, counts: seq<Count>, ids: map<JsValue, nat>, pool: seq<nat>)

  const PRESET: seq<JsValue> := [NAN, ZERO, Null, Boolean(true), Boolean(false), GLOBAL_THIS, GO]

  function InitialTable(): Table {
    Table(PRESET, seq(7, _ => Infinite),
          map[ZERO := 1, Null := 2, Boolean(true) := 3, Boolean(false) := 4, GLOBAL_THIS := 5, GO := 6],
          [])
  }

  ghost predicate WellFormed(t: Table) {
    && |t.values| == |t.counts| >= 7
    && (forall k :: k in t.ids ==> t.ids[k] < |t.values|)
    && (forall i :: 0 <= i < |t.pool| ==> 7 <= t.pool[i] < |t.values|)
  }

  /** The id of a value: from the reverse map, then from the pool, and only then appended. */
  function Allocate(t: Table, k: JsValue): (r: (Table, nat))
    requires WellFormed(t)
    ensures r.1 < |r.0.values| && |r.0.counts| == |r.0.values|
  {
    if k in t.ids then (t, t.ids[k])
    else if t.pool == [] then
      var id := |t.values|;
      (Table(t.values + [k], t.counts + [Finite(0)], t.ids[k := id], t.pool), id)
    else
      var id := t.pool[|t.pool| - 1];
      (Table(t.values[id := k], t.counts[id := Finite(0)], t.ids[k := id], t.pool[..|t.pool| - 1]), id)
  }

  function Recounted(t: Table, id: nat, delta: int): Table
    requires id < |t.counts|
  {
    t.(counts := t.counts[id := t.counts[id].Plus(delta)])
  }

  /** One more reference to a value. */
  function Intern(t: Table, v: JsValue): (r: (Table, nat))
    requires WellFormed(t)
    ensures r.1 < |r.0.values| && |r.0.counts| == |r.0.values|
  {
    var (t1, id) := Allocate(t, Canonical(v));
    (Recounted(t1, id, 1), id)
  }

  function Release(t: Table, id: nat): Table
    requires id < |t.values| == |t.counts|
  {
    var t1 := Recounted(t, id, -1);
    if t1.counts[id] == Finite(0) then
      Table(t.values[id := Null], t1.counts, t.ids - {t.values[id]}, t.pool + [id])
    else t1
  }

  // ----- References -----

  function TypeFlag(v: JsValue): nat {
    match v
    case Object(_) => 1
    case String(_) => 2
    case Symbol(_) => 3
    case Function(_) => 4
    case _ => 0
  }

  /** The high and low words written for a value. */
  function Reference(v: JsValue, id: nat): (Word, Word) {
    if v.Undefined? then (0, 0)
    else if IsDirect(v) then
      if IsNaNBits(v.high, v.low) then (NAN_HEAD, 0) else (v.high, v.low)
    else (NAN_HEAD + TypeFlag(v), id % TWO32)
  }

  /** The value that a reference denotes; reading past the end of an array is undefined. */
  function Load(t: Table, high: Word, low: Word): JsValue {
    if IsZeroBits(high, low) then Undefined
    else if !IsNaNBits(high, low) then Number(high, low)
    else if low < |t.values| then t.values[low]
    else Undefined
  }

  // ----- Whole runs -----

  datatype Op = StoreOp(v: JsValue) | FinalizeOp(id: nat)

  /** What Go holds for an id: the value of the latest store that returned it, and how many
      more stores than finalizes there were since it was allocated. */
  datatype Held = Held(v: JsValue, count: nat)

  datatype State = State(t: Table, ledger: map<nat, Held>)

  /** Go finalizes only a reference that it holds; the seven fixed slots may be finalized freely. */
  ghost predicate Allowed(s: State, op: Op) {
    op.FinalizeOp? ==> op.id < 7 || op.id in s.ledger
  }

  ghost function LedgerAfter(ledger: map<nat, Held>, op: Op, id: nat): map<nat, Held> {
    if id < 7 then ledger
    else
      match op
      case StoreOp(v) => ledger[id := Held(Canonical(v), if id in ledger then ledger[id].count + 1 else 1)]
      case FinalizeOp(_) =>
        if id in ledger && ledger[id].count > 1
        then ledger[id := Held(ledger[id].v, ledger[id].count - 1)]
        else ledger - {id}
  }

  ghost function Next(s: State, op: Op): State
    requires WellFormed(s.t)
  {
    match op
    case StoreOp(v) =>
      if IsDirect(v) then s
      else
        var (t, id) := Intern(s.t, v);
        State(t, LedgerAfter(s.ledger, op, id))
    case FinalizeOp(id) =>
      if id < |s.t.values| then State(Release(s.t, id), LedgerAfter(s.ledger, op, id))
      else s
  }

  /** What can stand in the table: any value but undefined and the numbers other than zero. */
  predicate IsTabled(k: JsValue) {
    !k.Undefined? && (k.Number? ==> k == ZERO)
  }

  lemma TabledWhenNotDirect(v: JsValue)
    requires !IsDirect(v)
    ensures IsTabled(Canonical(v)) && Canonical(Canonical(v)) == Canonical(v)
  {
  }

  /** The initial slots are never freed or moved. */
  ghost predicate Fixed(t: Table) {
    && |t.values| == |t.counts| >= 7
    && t.values[..7] == PRESET
    && (forall i :: 0 <= i < 7 ==> t.counts[i] == Infinite)
    && (forall k :: k in InitialTable().ids ==> k in t.ids && t.ids[k] == InitialTable().ids[k])
  }

  /** The pool is duplicate-free and holds exactly the dynamic ids that are not live. */
  ghost predicate PoolOk(t: Table, live: set<nat>) {
    && (forall i, j :: 0 <= i < j < |t.pool| ==> t.pool[i] != t.pool[j])
    && (forall id :: id in live <==> 7 <= id < |t.values| && id !in t.pool)
  }

  /** Every live id stands in both maps under the ledger's value, and its count is the ledger's. */
  ghost predicate LiveOk(t: Table, ledger: map<nat, Held>) {
    forall id :: id in ledger ==>
      && 7 <= id < |t.values| && id < |t.counts|
      && t.values[id] == ledger[id].v
      && t.values[id] in t.ids && t.ids[t.values[id]] == id
      && t.counts[id] == Finite(ledger[id].count) && ledger[id].count > 0
  }

  /** The reverse map has no entry but those of the initial and the live ids. */
  ghost predicate IdsOk(t: Table, live: set<nat>) {
    forall k :: k in t.ids ==>
      && t.ids[k] < |t.values| && t.values[t.ids[k]] == k && IsTabled(k)
      && (1 <= t.ids[k] < 7 || t.ids[k] in live)
  }

  /** A dead slot keeps no value alive. */
  ghost predicate DeadOk(t: Table) {
    forall id :: id in t.pool ==> id < |t.values| == |t.counts| && t.values[id] == Null && t.counts[id] == Finite(0)
  }

  ghost predicate Inv(s: State) {
    && WellFormed(s.t)
    && DeadOk(s.t)
    && Fixed(s.t)
    && PoolOk(s.t, s.ledger.Keys)
    && LiveOk(s.t, s.ledger)
    && IdsOk(s.t, s.ledger.Keys)
    && |s.t.values| == 7 + |s.ledger| + |s.t.pool|
  }

  ghost predicate Initial(s: State) {
    s == State(InitialTable(), map[])
  }

  lemma InitialInv(s: State)
    requires Initial(s)
    ensures Inv(s)
  {
    assert Fixed(s.t) by {
      assert s.t.values[..7] == PRESET;
    }
    assert IdsOk(s.t, {}) by {
      InitialIds();
    }
  }

  lemma InitialIds()
    ensures IdsOk(InitialTable(), {})
  {
    var t := InitialTable();
    forall k | k in t.ids
      ensures t.ids[k] < |t.values| && t.values[t.ids[k]] == k && IsTabled(k) && 1 <= t.ids[k] < 7
    {
      assert k == ZERO || k == Null || k == Boolean(true) || k == Boolean(false) || k == GLOBAL_THIS || k == GO;
    }
  }

  /** One more or one fewer reference to a live id. */
  lemma Recount(s: State, id: nat, delta: int)
    requires Inv(s) && id in s.ledger && s.ledger[id].count + delta > 0
    ensures var t' := Recounted(s.t, id, delta);
            var ledger' := s.ledger[id := Held(s.ledger[id].v, s.ledger[id].count + delta)];
            && Fixed(t') && PoolOk(t', s.ledger.Keys) && IdsOk(t', s.ledger.Keys) && DeadOk(t')
            && ledger'.Keys == s.ledger.Keys && |ledger'| == |s.ledger|
  {
    var ledger' := s.ledger[id := Held(s.ledger[id].v, s.ledger[id].count + delta)];
    assert ledger'.Keys == s.ledger.Keys;
    assert |ledger'| == |ledger'.Keys|;
  }

  lemma RecountLive(s: State, id: nat, delta: int)
    requires Inv(s) && id in s.ledger && s.ledger[id].count + delta > 0
    ensures LiveOk(Recounted(s.t, id, delta),
                   s.ledger[id := Held(s.ledger[id].v, s.ledger[id].count + delta)])
  {
    hide Fixed, PoolOk, IdsOk;
  }

  ghost predicate Extends(t: Table, t': Table, id: nat, k: JsValue) {
    && |t.counts| == |t.values| <= |t'.values| == |t'.counts| && id < |t'.values|
    && (forall i :: 0 <= i < |t.values| && i != id ==> t'.values[i] == t.values[i] && t'.counts[i] == t.counts[i])
    && t'.values[id] == k && t'.counts[id] == Finite(1)
    && t'.ids == t.ids[k := id]
  }

  lemma AllocateDead(t: Table, t': Table, live: set<nat>, id: nat, k: JsValue)
    requires DeadOk(t) && Extends(t, t', id, k) && PoolOk(t', live + {id})
    requires t'.pool <= t.pool
    ensures DeadOk(t')
  {
    forall i | i in t'.pool
      ensures i < |t'.values| == |t'.counts| && t'.values[i] == Null && t'.counts[i] == Finite(0)
    {
      assert i in t.pool && i != id;
    }
  }

  lemma AllocateFixed(t: Table, t': Table, id: nat, k: JsValue)
    requires Fixed(t) && Extends(t, t', id, k) && id >= 7 && k !in t.ids
    ensures Fixed(t')
  {
    assert t'.values[..7] == t.values[..7];
  }

  lemma AllocateIds(s: State, t': Table, id: nat, k: JsValue)
    requires Inv(s) && Extends(s.t, t', id, k) && id >= 7 && id !in s.ledger && k !in s.t.ids && IsTabled(k)
    ensures IdsOk(t', s.ledger.Keys + {id})
  {
    hide PoolOk, LiveOk;
  }

  lemma AllocateLive(t: Table, ledger: map<nat, Held>, t': Table, id: nat, k: JsValue)
    requires LiveOk(t, ledger) && Extends(t, t', id, k) && id >= 7 && id !in ledger && k !in t.ids
    ensures LiveOk(t', ledger[id := Held(k, 1)])
  {
    var ledger' := ledger[id := Held(k, 1)];
    forall i | i in ledger'
      ensures 7 <= i < |t'.values| && i < |t'.counts| && t'.values[i] == ledger'[i].v
      ensures t'.values[i] in t'.ids && t'.ids[t'.values[i]] == i
      ensures t'.counts[i] == Finite(ledger'[i].count) && ledger'[i].count > 0
    {
      if i != id {
        assert i in ledger;
      }
    }
  }

  lemma AllocateSize(ledger: map<nat, Held>, id: nat, h: Held)
    requires id !in ledger
    ensures ledger[id := h].Keys == ledger.Keys + {id} && |ledger[id := h]| == |ledger| + 1
  {
    assert ledger[id := h].Keys == ledger.Keys + {id};
    assert |ledger[id := h]| == |ledger[id := h].Keys|;
  }

  lemma PoolAppend(t: Table, t': Table, live: set<nat>)
    requires PoolOk(t, live) && t.pool == t'.pool == [] && |t'.values| == |t.values| + 1 > 7
    ensures PoolOk(t', live + {|t.values|}) && |t.values| !in live
  {
  }

  lemma PoolPop(t: Table, t': Table, live: set<nat>, id: nat)
    requires PoolOk(t, live) && |t'.values| == |t.values| && t.pool == t'.pool + [id] && 7 <= id < |t.values|
    ensures PoolOk(t', live + {id}) && id !in live
  {
    var n := |t'.pool|;
    assert t.pool[n] == id && forall i :: 0 <= i < n ==> t.pool[i] == t'.pool[i];
  }

  lemma PoolPush(t: Table, t': Table, live: set<nat>, id: nat)
    requires PoolOk(t, live) && |t'.values| == |t.values| && t'.pool == t.pool + [id] && id in live
    ensures PoolOk(t', live - {id})
  {
  }

  lemma KnownId(s: State, k: JsValue)
    requires Inv(s) && k in s.t.ids
    ensures s.t.ids[k] < 7 ==> s.t.counts[s.t.ids[k]] == Infinite
    ensures s.t.ids[k] >= 7 ==> s.t.ids[k] in s.ledger && s.ledger[s.t.ids[k]].v == k
  {
  }

  lemma HeldId(s: State, id: nat)
    requires Inv(s)
    ensures id in s.ledger ==> 7 <= id < |s.t.values| && s.ledger[id].count > 0
    ensures id in s.ledger ==> s.t.counts[id] == Finite(s.ledger[id].count)
    ensures id < 7 ==> s.t.counts[id] == Infinite
  {
  }

  lemma StoreKnown(s: State, v: JsValue)
    requires Inv(s) && !IsDirect(v) && Canonical(v) in s.t.ids
    ensures Inv(Next(s, StoreOp(v)))
  {
    hide Fixed, PoolOk, LiveOk, IdsOk, Canonical, IsDirect;
    var id := s.t.ids[Canonical(v)];
    KnownId(s, Canonical(v));
    HeldId(s, id);
    if id >= 7 {
      Recount(s, id, 1);
      RecountLive(s, id, 1);
      assert Next(s, StoreOp(v)).ledger == s.ledger[id := Held(Canonical(v), s.ledger[id].count + 1)];
    } else {
      assert Next(s, StoreOp(v)) == s;
    }
  }

  lemma InternShape(s: State, v: JsValue)
    requires Inv(s) && !IsDirect(v) && Canonical(v) !in s.t.ids
    ensures var (t', id) := Intern(s.t, v);
            && Extends(s.t, t', id, Canonical(v)) && WellFormed(t') && id >= 7
            && (s.t.pool == [] ==> t'.pool == [] && id == |s.t.values| && |t'.values| == |s.t.values| + 1)
            && (s.t.pool != [] ==> s.t.pool == t'.pool + [id] && id < |t'.values| == |s.t.values|)
  {
    hide Fixed, PoolOk, LiveOk, IdsOk, Canonical, IsDirect;
  }

  lemma StoreNew(s: State, v: JsValue)
    requires Inv(s) && !IsDirect(v) && Canonical(v) !in s.t.ids
    ensures Inv(Next(s, StoreOp(v)))
  {
    hide Fixed, PoolOk, LiveOk, IdsOk, Canonical, IsDirect, WellFormed, Extends, Intern;
    var k := Canonical(v);
    var (t', id) := Intern(s.t, v);
    InternShape(s, v);
    if s.t.pool == [] {
      PoolAppend(s.t, t', s.ledger.Keys);
    } else {
      PoolPop(s.t, t', s.ledger.Keys, id);
    }
    TabledWhenNotDirect(v);
    AllocateDead(s.t, t', s.ledger.Keys, id, k);
    AllocateFixed(s.t, t', id, k);
    AllocateLive(s.t, s.ledger, t', id, k);
    AllocateIds(s, t', id, k);
    AllocateSize(s.ledger, id, Held(k, 1));
    assert Next(s, StoreOp(v)) == State(t', s.ledger[id := Held(k, 1)]);
  }

  /** The last reference to a live id is gone. */
  lemma FreeIds(s: State, id: nat)
    requires Inv(s) && id in s.ledger && s.ledger[id].count == 1
    ensures var t' := Release(s.t, id);
            && IdsOk(t', s.ledger.Keys - {id}) && WellFormed(t')
            && t'.pool == s.t.pool + [id] && |t'.values| == |s.t.values|
  {
    hide PoolOk, Fixed;
  }

  lemma FreeDead(s: State, id: nat)
    requires Inv(s) && id in s.ledger && s.ledger[id].count == 1
    ensures DeadOk(Release(s.t, id))
  {
    hide PoolOk, Fixed, IdsOk;
  }

  lemma FreeLive(s: State, id: nat)
    requires Inv(s) && id in s.ledger && s.ledger[id].count == 1
    ensures LiveOk(Release(s.t, id), s.ledger - {id})
  {
    hide PoolOk, Fixed, IdsOk;
  }

  lemma FreeFixed(s: State, id: nat)
    requires Inv(s) && id in s.ledger
    ensures Fixed(Release(s.t, id))
  {
    assert 7 <= id && s.t.values[id] in s.t.ids && s.t.ids[s.t.values[id]] == id;
    hide PoolOk, IdsOk, LiveOk, DeadOk, Inv, Fixed;
    ReleaseKeepsFixed(s.t, id);
  }

  lemma ReleaseKeepsFixed(t: Table, id: nat)
    requires Fixed(t) && 7 <= id < |t.values| && t.values[id] in t.ids && t.ids[t.values[id]] == id
    ensures Fixed(Release(t, id))
  {
    var t', v := Release(t, id), t.values[id];
    assert t'.values[..7] == t.values[..7];
    forall k | k in InitialTable().ids ensures k in t'.ids && t'.ids[k] == InitialTable().ids[k] {
      assert k in t.ids && t.ids[k] == InitialTable().ids[k] < 7;
      assert k != v;
    }
  }

  lemma FreeSize(ledger: map<nat, Held>, id: nat)
    requires id in ledger
    ensures (ledger - {id}).Keys == ledger.Keys - {id} && |ledger - {id}| == |ledger| - 1
  {
    assert (ledger - {id}).Keys == ledger.Keys - {id};
    assert |ledger - {id}| == |(ledger - {id}).Keys|;
  }

  lemma FinalizeInv(s: State, id: nat)
    requires Inv(s) && Allowed(s, FinalizeOp(id))
    ensures Inv(Next(s, FinalizeOp(id)))
  {
    hide Fixed, PoolOk, LiveOk, IdsOk, DeadOk, Canonical, IsDirect;
    HeldId(s, id);
    var t' := Release(s.t, id);
    if id < 7 {
      assert t' == s.t;
    } else if s.ledger[id].count > 1 {
      Recount(s, id, -1);
      RecountLive(s, id, -1);
      assert Next(s, FinalizeOp(id)).ledger == s.ledger[id := Held(s.ledger[id].v, s.ledger[id].count - 1)];
    } else {
      FreeLive(s, id);
      FreeDead(s, id);
      FreeIds(s, id);
      FreeFixed(s, id);
      FreeSize(s.ledger, id);
      PoolPush(s.t, t', s.ledger.Keys, id);
    }
  }

  lemma StepInv(s: State, op: Op)
    requires Inv(s) && Allowed(s, op)
    ensures Inv(Next(s, op))
  {
    hide Fixed, PoolOk, LiveOk, IdsOk, Canonical, IsDirect;
    match op
    case FinalizeOp(id) => FinalizeInv(s, id);
    case StoreOp(v) =>
      if !IsDirect(v) {
        if Canonical(v) in s.t.ids {
          StoreKnown(s, v);
        } else {
          StoreNew(s, v);
        }
      }
  }

  /** The table grows by one id at most, and only when every dynamic id is then live. */
  lemma StepGrowth(s: State, op: Op)
    requires Inv(s) && Allowed(s, op)
    ensures var s' := Next(s, op);
            || |s'.t.values| == |s.t.values|
            || |s'.t.values| == |s.t.values| + 1 == 7 + |s'.ledger|
  {
    hide Fixed, PoolOk, LiveOk, IdsOk, Canonical, IsDirect;
    StepInv(s, op);
  }

  /** As long as Go holds an id, the id keeps meaning the same value. */
  lemma StepKeepsMeaning(s: State, op: Op, id: nat)
    requires Inv(s) && Allowed(s, op)
    requires id in s.ledger && id in Next(s, op).ledger
    ensures Next(s, op).ledger[id].v == s.ledger[id].v
  {
    hide Canonical, IsDirect, Fixed, PoolOk, LiveOk, IdsOk;
    if op.StoreOp? && !IsDirect(op.v) {
      if Canonical(op.v) in s.t.ids {
        KnownId(s, Canonical(op.v));
      } else {
        NewIdIsFree(s, op.v);
      }
    }
  }

  lemma NewIdIsFree(s: State, v: JsValue)
    requires Inv(s) && !IsDirect(v) && Canonical(v) !in s.t.ids
    ensures Intern(s.t, v).1 !in s.ledger
  {
    hide Canonical, IsDirect, Fixed, LiveOk, IdsOk;
    if s.t.pool != [] {
      assert s.t.pool[|s.t.pool| - 1] in s.t.pool;
    }
  }

  ghost predicate IsRun(states: seq<State>, ops: seq<Op>) {
    && |states| == |ops| + 1
    && Initial(states[0])
    && forall i :: 0 <= i < |ops| ==>
         Allowed(states[i], ops[i]) && WellFormed(states[i].t) && states[i + 1] == Next(states[i], ops[i])
  }

  lemma {:induction false} RunInv(states: seq<State>, ops: seq<Op>)
    requires IsRun(states, ops)
    ensures forall i :: 0 <= i < |states| ==> Inv(states[i])
  {
    hide Inv, Next, Allowed, WellFormed, Initial;
    if ops == [] {
      InitialInv(states[0]);
    } else {
      var n := |ops| - 1;
      RunInv(states[..n + 1], ops[..n]);
      assert states[..n + 1][n] == states[n];
      StepInv(states[n], ops[n]);
      forall i | 0 <= i < |states| ensures Inv(states[i]) {
        if i <= n {
          assert states[..n + 1][i] == states[i];
        }
      }
    }
  }

  /** The table never grows past need: its size is 7 plus the largest number of dynamic ids
      that were ever live at once. */
  lemma {:induction false} TableSizeIsPeak(states: seq<State>, ops: seq<Op>)
    requires IsRun(states, ops)
    ensures var size := |states[|ops|].t.values|;
            && (forall i :: 0 <= i < |states| ==> 7 + |states[i].ledger| <= size)
            && (exists i :: 0 <= i < |states| && 7 + |states[i].ledger| == size)
  {
    hide Fixed, PoolOk, LiveOk, IdsOk, Next, Allowed, WellFormed;
    RunInv(states, ops);
    if ops == [] {
      assert 7 + |states[0].ledger| == |states[0].t.values|;
    } else {
      var n := |ops| - 1;
      var before := states[..n + 1];
      TableSizeIsPeak(before, ops[..n]);
      StepGrowth(states[n], ops[n]);
      assert forall i :: 0 <= i <= n ==> before[i] == states[i];
      var i :| 0 <= i < |before| && 7 + |before[i].ledger| == |before[n].t.values|;
      assert 7 + |states[i].ledger| == |states[n].t.values|;
    }
  }

  // ----- Boxing -----

  lemma ReferenceIsNaN(v: JsValue, id: nat)
    requires !IsDirect(v)
    ensures var (high, low) := Reference(v, id);
            IsNaNBits(high, low) && !IsZeroBits(high, low) && low == id % TWO32
  {
  }

  /** A reference to a table slot loads whatever stands there, as long as ids fit in 32 bits. */
  lemma LoadSlot(t: Table, v: JsValue, id: nat)
    requires !IsDirect(v) && id < |t.values| <= TWO32
    ensures Load(t, Reference(v, id).0, Reference(v, id).1) == t.values[id]
  {
    ReferenceIsNaN(v, id);
  }

  /** A direct value reads back from its own bits, up to SameValueZero. */
  lemma LoadOfDirect(t: Table, v: JsValue)
    requires IsDirect(v) && t.values != [] && t.values[0] == NAN
    ensures Load(t, Reference(v, 0).0, Reference(v, 0).1) == Canonical(v)
  {
  }

  lemma InternedSlot(s: State, v: JsValue)
    requires Inv(s) && !IsDirect(v)
    ensures Intern(s.t, v).0.values[Intern(s.t, v).1] == Canonical(v)
  {
    hide Canonical, IsDirect, Fixed, PoolOk, LiveOk;
  }

  /** Boxing round-trips: every stored value reads back as itself, up to SameValueZero. */
  lemma LoadOfStore(s: State, v: JsValue)
    requires Inv(s)
    ensures IsDirect(v) ==> Load(s.t, Reference(v, 0).0, Reference(v, 0).1) == Canonical(v)
    ensures !IsDirect(v) ==>
              var (t, id) := Intern(s.t, v);
              |t.values| <= TWO32 ==> Load(t, Reference(v, id).0, Reference(v, id).1) == Canonical(v)
  {
    hide PoolOk, LiveOk, IdsOk, Canonical, IsDirect, Load, Reference;
    if IsDirect(v) {
      assert s.t.values[0] == s.t.values[..7][0];
      LoadOfDirect(s.t, v);
    } else if |Intern(s.t, v).0.values| <= TWO32 {
      InternedSlot(s, v);
      LoadSlot(Intern(s.t, v).0, v, Intern(s.t, v).1);
    }
  }

  /** Over any run: the reference written by the store at step i loads the stored value at
      every later state up to which Go has held the id without interruption, and for the fixed
      ids for good. */
  lemma {:induction false} ReferenceStaysGood(states: seq<State>, ops: seq<Op>, i: nat, j: nat)
    requires IsRun(states, ops) && i < j < |states|
    requires ops[i].StoreOp? && !IsDirect(ops[i].v)
    requires WellFormed(states[i].t)
    requires var id := Intern(states[i].t, ops[i].v).1;
             id >= 7 ==> forall k :: i < k <= j ==> id in states[k].ledger
    requires |states[j].t.values| <= TWO32
    ensures var id := Intern(states[i].t, ops[i].v).1;
            var (high, low) := Reference(ops[i].v, id);
            && (id >= 7 ==> states[j].ledger[id].v == Canonical(ops[i].v))
            && Load(states[j].t, high, low) == Canonical(ops[i].v)
  {
    RunInv(states, ops);
    hide PoolOk, IdsOk, Canonical, IsDirect, Load, Reference;
    var id := Intern(states[i].t, ops[i].v).1;
    InternedSlot(states[i], ops[i].v);
    if id >= 7 {
      MeaningOverRun(states, ops, id, i + 1, j);
    } else {
      assert states[i + 1].t.values[..7] == states[j].t.values[..7];
      assert states[i + 1].t.values[..7][id] == states[j].t.values[..7][id];
    }
    LoadSlot(states[j].t, ops[i].v, id);
  }

  lemma {:induction false} MeaningOverRun(states: seq<State>, ops: seq<Op>, id: nat, i: nat, j: nat)
    requires IsRun(states, ops) && i <= j < |states|
    requires forall k :: i <= k <= j ==> id in states[k].ledger
    ensures states[j].ledger[id].v == states[i].ledger[id].v
    decreases j
  {
    hide Inv, Next, Allowed, WellFormed, Initial;
    if i < j {
      RunInv(states, ops);
      MeaningOverRun(states, ops, id, i, j - 1);
      assert states[(j - 1) + 1] == Next(states[j - 1], ops[j - 1]);
      StepKeepsMeaning(states[j - 1], ops[j - 1], id);
    }
  }

  // ----- What stays distinguishable, on the bits -----

  /** The bits of a number but its sign: up to 0x7FF0_0000_0000_0000 they stand for a finite number
      or an infinity, above for NaN. */
  function Magnitude(high: Word, low: Word): int {
    high % TWO31 * TWO32 + low
  }

  lemma NumberBits(high: Word, low: Word)
    ensures IsZeroBits(high, low) <==> Magnitude(high, low) == 0
    ensures IsNaNBits(high, low) <==> Magnitude(high, low) > 0x7FF0_0000_0000_0000
  {
    var h := high % TWO31;
    assert high / 0x10_0000 % 0x800 == h / 0x10_0000 && high % 0x10_0000 == h % 0x10_0000;
    assert h == h / 0x10_0000 * 0x10_0000 + h % 0x10_0000;
  }

  /** The table and the reference after storing v. */
  function StoreReference(t: Table, v: JsValue): (Table, Word, Word)
    requires WellFormed(t)
  {
    if IsDirect(v) then
      var (high, low) := Reference(v, 0);
      (t, high, low)
    else
      var (t', id) := Intern(t, v);
      var (high, low) := Reference(v, id);
      (t', high, low)
  }

  /** What is loaded right after storing v. */
  function Reloaded(t: Table, v: JsValue): JsValue
    requires WellFormed(t)
  {
    var (t', high, low) := StoreReference(t, v);
    Load(t', high, low)
  }

  ghost predicate Fits(t: Table, v: JsValue)
    requires WellFormed(t)
  {
    |StoreReference(t, v).0.values| <= TWO32
  }

  lemma ReloadedIsCanonical(s: State, v: JsValue)
    requires Inv(s) && Fits(s.t, v)
    ensures Reloaded(s.t, v) == Canonical(v)
  {
    LoadOfStore(s, v);
    hide Load, Reference, Canonical, IsDirect, Intern;
  }

  /** A number up to the choice of zero and of NaN, from its bits alone. */
  function Settled(v: JsValue): JsValue {
    if !v.Number? then v
    else if Magnitude(v.high, v.low) == 0 then Number(0, 0)
    else if Magnitude(v.high, v.low) <= 0x7FF0_0000_0000_0000 then v
    else Number(0x7FF8_0000, 0)
  }

  lemma SettledIsCanonical(v: JsValue)
    ensures Settled(v) == Canonical(v)
  {
    if v.Number? {
      NumberBits(v.high, v.low);
      hide IsNaNBits, IsZeroBits, Magnitude;
    }
  }

  /** Whatever is stored loads as it was, a number bit for bit if it is finite and not zero or an
      infinity; any zero loads as zero, and any NaN as the one NaN. */
  lemma ValueReloads(s: State, v: JsValue)
    requires Inv(s) && Fits(s.t, v)
    ensures Reloaded(s.t, v) == Settled(v)
  {
    hide Inv, Fits, Reloaded, Canonical, Settled;
    ReloadedIsCanonical(s, v);
    SettledIsCanonical(v);
  }

  /** A finite number other than zero, or an infinity, is its own reference. */
  lemma NumberIsItsReference(t: Table, high: Word, low: Word)
    requires WellFormed(t) && 0 < Magnitude(high, low) <= 0x7FF0_0000_0000_0000
    ensures StoreReference(t, Number(high, low)) == (t, high, low)
  {
    NumberBits(high, low);
    hide IsNaNBits, IsZeroBits, Magnitude, Intern;
  }

  /** Equality as a JavaScript map sees it. */
  ghost predicate SameValueZero(v: JsValue, w: JsValue) {
    || v == w
    || (v.Number? && w.Number? && Magnitude(v.high, v.low) == Magnitude(w.high, w.low) == 0)
    || (v.Number? && w.Number? && Magnitude(v.high, v.low) > 0x7FF0_0000_0000_0000
        && Magnitude(w.high, w.low) > 0x7FF0_0000_0000_0000)
  }

  /** Two stored values load as the same value exactly if they are the same, both zeros or both NaN. */
  lemma ReloadsDistinguish(s: State, v: JsValue, s': State, w: JsValue)
    requires Inv(s) && Fits(s.t, v) && Inv(s') && Fits(s'.t, w)
    ensures Reloaded(s.t, v) == Reloaded(s'.t, w) <==> SameValueZero(v, w)
  {
    hide Inv, Fits, Reloaded, Settled, SameValueZero;
    ValueReloads(s, v);
    ValueReloads(s', w);
    SettledDistinguishes(v, w);
  }

  lemma SettledDistinguishes(v: JsValue, w: JsValue)
    ensures Settled(v) == Settled(w) <==> SameValueZero(v, w)
  {
    assert Magnitude(0, 0) == 0 && Magnitude(0x7FF8_0000, 0) > 0x7FF0_0000_0000_0000;
    hide Magnitude;
  }

  /** The kind of a tabled value shows in its reference: an object, a string, a symbol, a function,
      or none of them. */
  lemma KindShows(v: JsValue, id: nat)
    requires !IsDirect(v)
    ensures Reference(v, id).0 ==
            match v {
              case Object(_) => 0x7FF8_0001
              case String(_) => 0x7FF8_0002
              case Symbol(_) => 0x7FF8_0003
              case Function(_) => 0x7FF8_0004
              case _ => 0x7FF8_0000
            }
  {
  }

  /** The references that Go programs know by heart, in every reachable state. */
  lemma FixedReferences(s: State)
    requires Inv(s)
    ensures StoreReference(s.t, Undefined) == (s.t, 0, 0)
    ensures StoreReference(s.t, Null) == (s.t, 0x7FF8_0000, 2)
    ensures StoreReference(s.t, Boolean(true)) == (s.t, 0x7FF8_0000, 3)
    ensures StoreReference(s.t, Boolean(false)) == (s.t, 0x7FF8_0000, 4)
    ensures StoreReference(s.t, GLOBAL_THIS) == (s.t, 0x7FF8_0001, 5)
    ensures StoreReference(s.t, GO) == (s.t, 0x7FF8_0001, 6)
  {
    FixedIds(s);
    hide Inv, StoreReference, WellFormed, IsFixed;
    FixedReference(s.t, Null, Null, 2);
    FixedReference(s.t, Boolean(true), Boolean(true), 3);
    FixedReference(s.t, Boolean(false), Boolean(false), 4);
    FixedReference(s.t, GLOBAL_THIS, GLOBAL_THIS, 5);
    FixedReference(s.t, GO, GO, 6);
    UndefinedReference(s.t);
  }

  /** Likewise those of every zero and of every NaN. */
  lemma ZeroAndNaNReferences(s: State, high: Word, low: Word)
    requires Inv(s)
    ensures Magnitude(high, low) == 0 ==> StoreReference(s.t, Number(high, low)) == (s.t, 0x7FF8_0000, 1)
    ensures Magnitude(high, low) > 0x7FF0_0000_0000_0000 ==>
              StoreReference(s.t, Number(high, low)) == (s.t, 0x7FF8_0000, 0)
  {
    NumberBits(high, low);
    FixedIds(s);
    hide Inv, IsNaNBits, IsZeroBits, Magnitude, StoreReference;
    if Magnitude(high, low) == 0 {
      FixedReference(s.t, Number(high, low), ZERO, 1);
    } else if Magnitude(high, low) > 0x7FF0_0000_0000_0000 {
      NaNReference(s.t, high, low);
    }
  }

  lemma UndefinedReference(t: Table)
    requires WellFormed(t)
    ensures StoreReference(t, Undefined) == (t, 0, 0)
  {
  }

  lemma NaNReference(t: Table, high: Word, low: Word)
    requires WellFormed(t) && IsNaNBits(high, low) && !IsZeroBits(high, low)
    ensures StoreReference(t, Number(high, low)) == (t, 0x7FF8_0000, 0)
  {
    hide IsNaNBits, IsZeroBits, Intern;
  }

  ghost predicate IsFixed(t: Table, v: JsValue, id: nat) {
    id < |t.counts| && v in t.ids && t.ids[v] == id && t.counts[id] == Infinite
  }

  lemma FixedIds(s: State)
    requires Inv(s)
    ensures IsFixed(s.t, ZERO, 1) && IsFixed(s.t, Null, 2)
    ensures IsFixed(s.t, Boolean(true), 3) && IsFixed(s.t, Boolean(false), 4)
    ensures IsFixed(s.t, GLOBAL_THIS, 5) && IsFixed(s.t, GO, 6)
  {
    hide PoolOk, LiveOk, IdsOk, DeadOk;
    var ids := InitialTable().ids;
    assert ZERO in ids && Null in ids && Boolean(true) in ids && Boolean(false) in ids;
    assert GLOBAL_THIS in ids && GO in ids;
  }

  lemma FixedReference(t: Table, w: JsValue, v: JsValue, id: nat)
    requires WellFormed(t) && IsFixed(t, v, id) && !IsDirect(w) && Canonical(w) == v && id < 7
    ensures StoreReference(t, w) == (t, 0x7FF8_0000 + TypeFlag(w), id)
  {
    hide Canonical;
    assert t.counts[id := Infinite] == t.counts;
  }

  /** A reference beyond the table denotes nothing. */
  lemma LoadBeyond(t: Table, v: JsValue, id: nat)
    requires !IsDirect(v) && |t.values| <= id < TWO32
    ensures Load(t, Reference(v, id).0, Reference(v, id).1) == Undefined
  {
    ReferenceIsNaN(v, id);
  }

  /** In every run the id freed last is the first to be used again. */
  lemma FreedIdIsReused(states: seq<State>, ops: seq<Op>, i: nat, id: nat)
    requires IsRun(states, ops) && i + 1 < |ops|
    requires ops[i] == FinalizeOp(id) && id in states[i].ledger && states[i].ledger[id].count == 1
    requires ops[i + 1].StoreOp? && !IsDirect(ops[i + 1].v) && Canonical(ops[i + 1].v) !in states[i + 1].t.ids
    ensures id in states[i + 2].ledger && states[i + 2].ledger[id] == Held(Canonical(ops[i + 1].v), 1)
  {
    RunInv(states, ops);
    assert states[i + 1] == Next(states[i], ops[i]) && states[(i + 1) + 1] == Next(states[i + 1], ops[i + 1]);
    hide *;
    UsedNext(states[i], states[i + 1], states[i + 2], id, ops[i + 1].v);
  }

  lemma UsedNext(s: State, s1: State, s2: State, id: nat, v: JsValue)
    requires Inv(s) && Inv(s1) && s1 == Next(s, FinalizeOp(id)) && s2 == Next(s1, StoreOp(v))
    requires id in s.ledger && s.ledger[id].count == 1 && !IsDirect(v) && Canonical(v) !in s1.t.ids
    ensures id in s2.ledger && s2.ledger[id] == Held(Canonical(v), 1)
  {
    FreedOnTop(s, id);
    hide Inv, Canonical, IsDirect, Intern;
    PopsLast(s1.t, v);
    assert s2 == State(Intern(s1.t, v).0, LedgerAfter(s1.ledger, StoreOp(v), id));
  }

  lemma FreedOnTop(s: State, id: nat)
    requires Inv(s) && id in s.ledger && s.ledger[id].count == 1
    ensures var s1 := Next(s, FinalizeOp(id));
            7 <= id && s1.t.pool == s.t.pool + [id] && id !in s1.ledger
  {
    HeldId(s, id);
    FreeIds(s, id);
    hide Inv, Release;
  }

  lemma PopsLast(t: Table, v: JsValue)
    requires WellFormed(t) && t.pool != [] && Canonical(v) !in t.ids
    ensures Intern(t, v).1 == t.pool[|t.pool| - 1]
  {
    hide Canonical;
  }

  // ----- Counting -----

  /** A store of a tabled value adds one to the count of its id, or starts it; no other id is touched. */
  lemma StoreCounts(s: State, v: JsValue)
    requires Inv(s) && !IsDirect(v)
    ensures Allowed(s, StoreOp(v))
    ensures var s', id := Next(s, StoreOp(v)), Intern(s.t, v).1;
            && (Canonical(v) !in s.t.ids ==> id !in s.ledger && s'.ledger == s.ledger[id := Held(Canonical(v), 1)])
            && (id in s.ledger ==> s'.ledger == s.ledger[id := Held(Canonical(v), s.ledger[id].count + 1)])
            && (id < 7 ==> s'.ledger == s.ledger)
  {
    if Canonical(v) in s.t.ids {
      KnownId(s, Canonical(v));
      HeldId(s, s.t.ids[Canonical(v)]);
    } else {
      NewIdIsFree(s, v);
      InternShape(s, v);
    }
    hide Inv, Canonical, IsDirect, Extends, WellFormed;
  }

  /** A held reference can always be given back. That takes one from its count; with the last one
      the value is forgotten, and its id goes to the pool. */
  lemma ReleaseCounts(s: State, id: nat)
    requires Inv(s) && id in s.ledger
    ensures Allowed(s, FinalizeOp(id))
    ensures var s', held := Next(s, FinalizeOp(id)), s.ledger[id];
            if held.count > 1 then
              s'.ledger == s.ledger[id := Held(held.v, held.count - 1)] && s'.t.pool == s.t.pool && s'.t.ids == s.t.ids
            else
              s'.ledger == s.ledger - {id} && s'.t.pool == s.t.pool + [id] && held.v !in s'.t.ids
  {
    HeldId(s, id);
    assert s.t.values[id] == s.ledger[id].v;
    hide Inv;
  }
}
