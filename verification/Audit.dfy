/** The record of brokered sessions: a bounded history of shared session objects and a
    separately kept count of the open ones. */
module Audit {

  /** A clock reading; zero is the zero time, which a clock never reads. */
  type Time = nat
  const ZERO_TIME: Time := 0

  datatype Entry = Entry(network: string, peer: string, started: Time, ended: Time)

  // ----- The full history, unbounded, as a value -----

  function EntryAfterEnd(e: Entry, now: Time): Entry {
    if e.ended == ZERO_TIME then e.(ended := now) else e
  }

  /** Ending a session stamps it the first time only. */
  function Ended(h: seq<Entry>, i: nat, now: Time): seq<Entry>
    requires i < |h|
  {
    h[i := EntryAfterEnd(h[i], now)]
  }

  function Open(e: Entry): nat {
    if e.ended == ZERO_TIME then 1 else 0
  }

  function OpenCount(h: seq<Entry>): nat {
    if h == [] then 0 else OpenCount(h[..|h| - 1]) + Open(h[|h| - 1])
  }

  lemma {:induction false} OpenCountUpdate(h: seq<Entry>, i: nat, e: Entry)
    requires i < |h|
    ensures OpenCount(h[i := e]) == OpenCount(h) - Open(h[i]) + Open(e)
  {
    var n := |h| - 1;
    if i < n {
      assert h[i := e][..n] == h[..n][i := e];
      OpenCountUpdate(h[..n], i, e);
    } else {
      assert h[i := e][..n] == h[..n];
    }
  }

  /** Starting a session raises the count by one. */
  lemma StartCounts(h: seq<Entry>, op: Op)
    requires op.StartOp?
    ensures OpenCount(Apply(h, op)) == OpenCount(h) + 1
  {
    var e := Entry(op.network, op.peer, op.now, ZERO_TIME);
    assert (h + [e])[..|h|] == h;
  }

  /** Ending an open session lowers the count by one; it was positive. Ending it again changes nothing. */
  lemma EndCounts(h: seq<Entry>, i: nat, now: Time, later: Time)
    requires i < |h| && now != ZERO_TIME
    ensures OpenCount(Ended(h, i, now)) == OpenCount(h) - Open(h[i])
    ensures h[i].ended == ZERO_TIME ==> OpenCount(h) > 0
    ensures Ended(Ended(h, i, now), i, later) == Ended(h, i, now)
  {
    OpenCountUpdate(h, i, EntryAfterEnd(h[i], now));
  }

  function Min(a: nat, b: nat): nat {
    if a < b then a else b
  }

  function Last<T>(s: seq<T>, n: nat): seq<T> {
    s[|s| - Min(n, |s|)..]
  }

  /** Appending and then dropping from the front keeps the last max. */
  lemma LastAppend<T>(s: seq<T>, x: T, max: nat)
    requires max > 0
    ensures var e := Last(s, max) + [x];
            Last(s + [x], max) == if |e| > max then e[|e| - max..] else e
  {
  }

  /** The newest n sessions that the bounded log still holds, newest first. */
  function Newest(h: seq<Entry>, max: nat, n: nat): seq<Entry> {
    seq(Min(n, Min(max, |h|)), i requires 0 <= i < Min(n, Min(max, |h|)) => h[|h| - 1 - i])
  }

  lemma NewestNext(h: seq<Entry>, max: nat, k: nat)
    requires k < Min(max, |h|)
    ensures Newest(h, max, k + 1) == Newest(h, max, k) + [h[|h| - 1 - k]]
  {
  }

  lemma NewestClamped(h: seq<Entry>, max: nat, n: nat)
    ensures Newest(h, max, 0) == []
    ensures Newest(h, max, n) == Newest(h, max, Min(n, Min(max, |h|)))
  {
  }

  // ----- Whole runs -----

  datatype Op = StartOp(network: string, peer: string, now: Time) | EndOp(i: nat, now: Time)

  function Apply(h: seq<Entry>, op: Op): seq<Entry> {
    match op
    case StartOp(network, peer, now) => h + [Entry(network, peer, now, ZERO_TIME)]
    case EndOp(i, now) => if i < |h| then Ended(h, i, now) else h
  }

  function Replay(ops: seq<Op>): seq<Entry> {
    if ops == [] then [] else Apply(Replay(ops[..|ops| - 1]), ops[|ops| - 1])
  }

  ghost predicate MonotoneClock(ops: seq<Op>) {
    && (forall i :: 0 <= i < |ops| ==> ops[i].now > ZERO_TIME)
    && (forall i, j :: 0 <= i < j < |ops| ==> ops[i].now <= ops[j].now)
  }

  ghost predicate InTimeOrder(h: seq<Entry>, now: Time) {
    && (forall i, j :: 0 <= i < j < |h| ==> h[i].started <= h[j].started)
    && (forall i :: 0 <= i < |h| ==> 0 < h[i].started <= now && h[i].ended <= now)
    && (forall i :: 0 <= i < |h| ==> h[i].ended == ZERO_TIME || h[i].started <= h[i].ended)
  }

  lemma ApplyInTimeOrder(h: seq<Entry>, before: Time, op: Op)
    requires InTimeOrder(h, before) && before <= op.now && op.now > ZERO_TIME
    ensures InTimeOrder(Apply(h, op), op.now)
  {
    if op.EndOp? && op.i < |h| {
      var h' := Ended(h, op.i, op.now);
      assert forall i :: 0 <= i < |h| ==> h'[i].started == h[i].started;
      assert forall i :: 0 <= i < |h| && i != op.i ==> h'[i] == h[i];
    }
  }

  lemma EmptyInTimeOrder()
    ensures InTimeOrder([], ZERO_TIME)
  {
  }

  /** With a monotone clock, start times never decrease and no session ends before it starts. */
  lemma {:induction false} ReplayInTimeOrder(ops: seq<Op>)
    requires MonotoneClock(ops) && ops != []
    ensures InTimeOrder(Replay(ops), ops[|ops| - 1].now)
  {
    var n := |ops| - 1;
    hide InTimeOrder, Apply;
    if n > 0 {
      ReplayInTimeOrder(ops[..n]);
      ApplyInTimeOrder(Replay(ops[..n]), ops[n - 1].now, ops[n]);
    } else {
      EmptyInTimeOrder();
      ApplyInTimeOrder([], ZERO_TIME, ops[0]);
      assert ops[..n] == [];
    }
  }

  /** So what Recent answers is non-increasing in start time. */
  lemma NewestInTimeOrder(ops: seq<Op>, max: nat, n: nat)
    requires MonotoneClock(ops)
    ensures var out := Newest(Replay(ops), max, n);
            && (forall i, j :: 0 <= i < j < |out| ==> out[i].started >= out[j].started)
            && (forall i :: 0 <= i < |out| ==> out[i].ended == ZERO_TIME || out[i].started <= out[i].ended)
  {
    if ops != [] {
      ReplayInTimeOrder(ops);
    }
  }

  // ----- The log -----

  class Session {
    const network: string
    const peer: string
    const started: Time
    var ended: Time

    constructor (network: string, peer: string, started: Time)
      ensures Value() == Entry(network, peer, started, ZERO_TIME)
    {
      this.network, this.peer, this.started, this.ended := network, peer, started, ZERO_TIME;
    }

    function Value(): Entry
      reads this
    {
      Entry(network, peer, started, ended)
    }
  }

  ghost function HistoryOf(all: seq<Session>): (h: seq<Entry>)
    reads all
    ensures |h| == |all|
  {
    seq(|all|, i requires 0 <= i < |all| reads all => all[i].Value())
  }

  lemma HistoryAppend(all: seq<Session>, s: Session)
    requires s.ended == ZERO_TIME
    ensures HistoryOf(all + [s]) == Apply(HistoryOf(all), StartOp(s.network, s.peer, s.started))
  {
  }

  lemma KeptEntries(all: seq<Session>, max: nat)
    ensures var kept := Last(all, max);
            && |kept| == Min(max, |all|)
            && forall i :: 0 <= i < |kept| ==> kept[i].Value() == HistoryOf(all)[|all| - |kept| + i]
  {
  }

  lemma HistoryAt(all: seq<Session>)
    ensures forall j :: 0 <= j < |all| ==> HistoryOf(all)[j] == all[j].Value()
  {
  }

  lemma HistoryStamped(all: seq<Session>, h: seq<Entry>, i: nat, now: Time)
    requires i < |all| == |h| && all[i].Value() == EntryAfterEnd(h[i], now)
    requires forall j :: 0 <= j < |all| && j != i ==> all[j].Value() == h[j]
    ensures HistoryOf(all) == Ended(h, i, now)
  {
  }

  /** The position of a started session in the full history. */
  ghost function Position(all: seq<Session>, s: Session): (i: nat)
    requires s in all
    ensures i < |all| && all[i] == s
  {
    var i :| 0 <= i < |all| && all[i] == s;
    i
  }

  class Log {
    const max: nat
    var entries: seq<Session>
    var active: int
    ghost var all: seq<Session>

    /** Every session ever started, with its current end stamp. */
    ghost function History(): (h: seq<Entry>)
      reads this, all
      ensures |h| == |all|
    {
      HistoryOf(all)
    }

    ghost predicate Valid()
      reads this, all
    {
      && max >= 1
      && (forall i, j :: 0 <= i < j < |all| ==> all[i] != all[j])
      && entries == Last(all, max)
      && active == OpenCount(History())
    }

    constructor (max: int)
      ensures Valid() && all == []
      ensures this.max == if max < 1 then 1 else max
    {
      this.max := if max < 1 then 1 else max;
      entries, active, all := [], 0, [];
    }

    method Start(network: string, peer: string, now: Time) returns (s: Session)
      requires Valid()
      modifies this
      ensures Valid() && fresh(s) && all == old(all) + [s]
      ensures History() == Apply(old(History()), StartOp(network, peer, now))
      ensures active == old(active) + 1
    {
      hide OpenCount, Apply, Last, HistoryOf;
      s := new Session(network, peer, now);
      assert HistoryOf(all) == old(HistoryOf(all));
      HistoryAppend(all, s);
      StartCounts(History(), StartOp(network, peer, now));
      LastAppend(all, s, max);
      entries := entries + [s];
      if |entries| > max {
        entries := entries[|entries| - max..];
      }
      active := active + 1;
      all := all + [s];
    }

    method End(s: Session?, now: Time)
      requires Valid() && now != ZERO_TIME
      requires s != null ==> s in all
      modifies this, s
      ensures Valid() && all == old(all) && entries == old(entries)
      ensures History() == if s == null then old(History()) else Apply(old(History()), EndOp(Position(all, s), now))
      ensures s != null ==> s.ended == if old(s.ended) == ZERO_TIME then now else old(s.ended)
      ensures active == if s != null && old(s.ended) == ZERO_TIME then old(active) - 1 else old(active)
    {
      if s == null {
        return;
      }
      hide OpenCount, Last, HistoryOf, Ended, Position;
      ghost var h, i := History(), Position(all, s);
      EndCounts(h, i, now, now);
      HistoryAt(all);
      if s.ended == ZERO_TIME {
        s.ended := now;
        if active > 0 {
          active := active - 1;
        }
      }
      HistoryStamped(all, h, i, now);
    }

    method Active() returns (n: int)
      requires Valid()
      ensures n == OpenCount(History())
    {
      return active;
    }

    /** Copies of the newest sessions, each with its current end stamp. */
    method Recent(n: nat) returns (out: seq<Entry>)
      requires Valid()
      ensures out == Newest(History(), max, n)
    {
      ghost var h := History();
      NewestClamped(h, max, n);
      KeptEntries(all, max);
      hide Newest, OpenCount, Last, HistoryOf;
      var k := if n > |entries| then |entries| else n;
      out := [];
      var i := |entries| - 1;
      while i >= 0 && |out| < k
        invariant -1 <= i < |entries| && |out| == |entries| - 1 - i <= k
        invariant out == Newest(h, max, |out|)
      {
        NewestNext(h, max, |out|);
        assert h[|h| - 1 - |out|] == entries[i].Value();
        out := out + [entries[i].Value()];
        i := i - 1;
      }
    }
  }
}
