/** How a Go program in the browser receives its command line and environment: as C strings
    and a pointer table in the low part of its linear memory. */
module ProcessArgs {
  import opened Wrappers
  import opened LinearMemory
  import opened TextEncoding
  import opened Ordering

  const BASE: nat := 4096
  const LIMIT: nat := 4096 + 8192

  // ----- What Go reads -----

  /** The bytes at p up to the first zero byte. */
  function CString(m: seq<Byte>, p: nat): (bs: seq<Byte>)
    decreases |m| - p
  {
    if p >= |m| || m[p] == 0 then [] else [m[p]] + CString(m, p + 1)
  }

  function Pointer(m: seq<Byte>, at: nat): nat
    requires at + 8 <= |m|
  {
    GetUint32(m, at) + TWO32 * GetUint32(m, at + 4)
  }

  /** The strings of a pointer table, up to its null pointer. */
  function ReadVector(m: seq<Byte>, at: nat): seq<seq<Byte>>
    decreases |m| - at
  {
    if at + 8 > |m| || Pointer(m, at) == 0 then []
    else [CString(m, Pointer(m, at))] + ReadVector(m, at + 8)
  }

  predicate Holds(m: seq<Byte>, p: nat, bs: seq<Byte>) {
    p + |bs| <= |m| && m[p..p + |bs|] == bs
  }

  /** A terminated string reads back as itself exactly when it contains no zero byte. */
  lemma {:induction false} CStringReads(m: seq<Byte>, p: nat, bs: seq<Byte>)
    requires Holds(m, p, bs + [0])
    ensures CString(m, p) == bs <==> 0 !in bs
    decreases |bs|
  {
    var all := bs + [0];
    assert m[p] == m[p..p + |all|][0] == all[0];
    if bs != [] {
      assert m[p + 1..p + 1 + |bs|] == m[p..p + |all|][1..] == bs[1..] + [0];
      CStringReads(m, p + 1, bs[1..]);
      assert bs == [bs[0]] + bs[1..];
    }
  }

  // ----- The layout -----

  /** One table entry: a string, or a null pointer. */
  type Entry = Option<seq<Byte>>

  function Align8(offset: nat): (a: nat)
    ensures a % 8 == 0 && offset <= a < offset + 8
  {
    if offset % 8 != 0 then offset + 8 - offset % 8 else offset
  }

  /** Where the strings end when they are laid out from BASE. */
  function StringsEnd(entries: seq<Entry>): (e: nat)
    ensures e >= BASE && e % 8 == 0
  {
    if entries == [] then BASE
    else
      var e := StringsEnd(entries[..|entries| - 1]);
      match entries[|entries| - 1]
      case None => e
      case Some(bs) => Align8(e + |bs| + 1)
  }

  function LayoutEnd(entries: seq<Entry>): nat {
    StringsEnd(entries) + 8 * |entries|
  }

  ghost predicate EntryAt(m: seq<Byte>, p: nat, entry: Entry, end: nat) {
    match entry
    case None => p == 0
    case Some(bs) => BASE <= p && p % 8 == 0 && p + |bs| + 1 <= end && Holds(m, p, bs + [0])
  }

  ghost predicate Apart(p: nat, a: Entry, q: nat, b: Entry) {
    a.Some? && b.Some? ==> p + |a.value| + 1 <= q
  }

  /** Every string is aligned, terminated and below end, and no two strings overlap. */
  ghost predicate Placed(m: seq<Byte>, ptrs: seq<nat>, entries: seq<Entry>, end: nat) {
    && |ptrs| == |entries|
    && (forall i :: 0 <= i < |ptrs| ==> EntryAt(m, ptrs[i], entries[i], end))
    && (forall i, j :: 0 <= i < j < |ptrs| ==> Apart(ptrs[i], entries[i], ptrs[j], entries[j]))
  }

  ghost function Pointers(m: seq<Byte>, table: nat, n: nat): seq<nat>
    requires table + 8 * n <= |m|
  {
    seq(n, i requires 0 <= i < n => Pointer(m, table + 8 * i))
  }

  /** The finished layout: table entries point to the entries' strings, all of them between
      BASE and the table, and the table ends below LIMIT. */
  ghost predicate LaidOut(m: seq<Byte>, table: nat, entries: seq<Entry>) {
    && table % 8 == 0 && table + 8 * |entries| <= |m| && table + 8 * |entries| < LIMIT
    && Placed(m, Pointers(m, table, |entries|), entries, table)
  }

  function Strings(argv: seq<JsString>): seq<Entry> {
    seq(|argv|, i requires 0 <= i < |argv| => Some(Utf8(argv[i])))
  }

  function EnvString(env: map<JsString, JsString>, key: JsString): JsString
    requires key in env
  {
    key + [0x3D] + env[key]
  }

  function EnvStrings(env: map<JsString, JsString>, keys: seq<JsString>): seq<JsString>
    requires forall k :: k in keys ==> k in env
  {
    seq(|keys|, i requires 0 <= i < |keys| => EnvString(env, keys[i]))
  }

  /** The default order of Array.prototype.sort on strings. */
  predicate UnitsLess(a: JsString, b: JsString) {
    LexLess(a, b)
  }

  ghost predicate SortedKeys(env: map<JsString, JsString>, keys: seq<JsString>) {
    && Sorted(UnitsLess, keys)
    && (forall k :: k in keys <==> k in env)
  }

  function Groups(argv: seq<JsString>, strs: seq<JsString>): seq<Entry> {
    Strings(argv) + [None] + Strings(strs) + [None]
  }

  /** argv, a null, the environment in key order, and a null. */
  function Entries(argv: seq<JsString>, env: map<JsString, JsString>, keys: seq<JsString>): seq<Entry>
    requires forall k :: k in keys ==> k in env
  {
    Groups(argv, EnvStrings(env, keys))
  }

  // ----- Laying out -----

  lemma HoldsKept(m: seq<Byte>, m': seq<Byte>, p: nat, bs: seq<Byte>, from: nat)
    requires Holds(m, p, bs) && |m'| == |m| && p + |bs| <= from <= |m|
    requires m'[..from] == m[..from]
    ensures Holds(m', p, bs)
  {
    assert m'[p..p + |bs|] == m'[..from][p..p + |bs|];
    assert m[p..p + |bs|] == m[..from][p..p + |bs|];
  }

  /** Writing above the strings keeps them in place. */
  lemma PlacedKept(m: seq<Byte>, m': seq<Byte>, ptrs: seq<nat>, entries: seq<Entry>, end: nat)
    requires Placed(m, ptrs, entries, end) && |m'| == |m|
    requires end <= |m| ==> m'[..end] == m[..end]
    requires end > |m| ==> m' == m
    ensures Placed(m', ptrs, entries, end)
  {
    if end <= |m| {
      forall i | 0 <= i < |ptrs| ensures EntryAt(m', ptrs[i], entries[i], end) {
        if entries[i].Some? {
          assert EntryAt(m, ptrs[i], entries[i], end);
          HoldsKept(m, m', ptrs[i], entries[i].value + [0], end);
        }
      }
    }
  }

  lemma PlacedAppend(m: seq<Byte>, ptrs: seq<nat>, entries: seq<Entry>, end: nat, p: nat, entry: Entry, end': nat)
    requires Placed(m, ptrs, entries, end) && end <= end' && EntryAt(m, p, entry, end')
    requires entry.Some? ==> end <= p
    ensures Placed(m, ptrs + [p], entries + [entry], end')
  {
    forall i | 0 <= i < |ptrs| ensures Apart(ptrs[i], entries[i], p, entry) {
      assert EntryAt(m, ptrs[i], entries[i], end);
    }
    forall i | 0 <= i < |ptrs| ensures EntryAt(m, ptrs[i], entries[i], end') {
      assert EntryAt(m, ptrs[i], entries[i], end);
    }
  }

  /** No byte has changed but those from up to to. */
  ghost predicate OnlyWithin(m: seq<Byte>, m': seq<Byte>, from: nat, to: nat) {
    |m'| == |m| && forall i :: 0 <= i < |m| && !(from <= i < to) ==> m'[i] == m[i]
  }

  lemma WithinThen(m: seq<Byte>, m1: seq<Byte>, m2: seq<Byte>, from: nat, mid: nat, mid': nat, to: nat)
    requires OnlyWithin(m, m1, from, mid) && OnlyWithin(m1, m2, mid', to)
    requires from <= mid' && mid <= to
    ensures OnlyWithin(m, m2, from, to)
  {
  }

  lemma WithinMore(m: seq<Byte>, m': seq<Byte>, from: nat, to: nat, to': nat)
    requires OnlyWithin(m, m', from, to) && (to <= to' || |m| <= to')
    ensures OnlyWithin(m, m', from, to')
  {
  }

  lemma NothingWritten(m: seq<Byte>, from: nat)
    ensures OnlyWithin(m, m, from, from)
  {
  }

  datatype Outcome = Started(argc: nat, argv: nat) | LimitExceeded | RangeError

  /** new Uint8Array(buffer, offset, bytes.length).set(bytes) */
  method SetBytes(mem: array<Byte>, offset: nat, bytes: seq<Byte>)
    requires offset + |bytes| <= mem.Length
    modifies mem
    ensures Holds(mem[..], offset, bytes)
    ensures mem[..][..offset] == old(mem[..])[..offset]
    ensures mem[..][offset + |bytes|..] == old(mem[..])[offset + |bytes|..]
  {
    forall i | 0 <= i < |bytes| {
      mem[offset + i] := bytes[i];
    }
  }

  lemma TailsWithin(m: seq<Byte>, m': seq<Byte>, from: nat, to: nat)
    requires from <= to <= |m| == |m'| && m'[..from] == m[..from] && m'[to..] == m[to..]
    ensures OnlyWithin(m, m', from, to)
  {
    forall i | 0 <= i < |m| && !(from <= i < to) ensures m'[i] == m[i] {
      if i < from {
        assert m'[..from][i] == m[..from][i];
      } else {
        assert m'[to..][i - to] == m[to..][i - to];
      }
    }
  }

  /** Writes str and a zero byte at offset; a view past the end of memory throws. */
  method StrPtr(mem: array<Byte>, offset: nat, str: JsString) returns (fits: bool, next: nat)
    modifies mem
    ensures fits <==> offset + |Utf8(str)| + 1 <= mem.Length
    ensures next == if fits then Align8(offset + |Utf8(str)| + 1) else offset
    ensures fits ==> Holds(mem[..], offset, Utf8(str) + [0]) && mem[..][..offset] == old(mem[..])[..offset]
    ensures OnlyWithin(old(mem[..]), mem[..], offset, next)
    ensures !fits ==> mem[..] == old(mem[..])
  {
    hide Utf8, Align8, Holds;
    var bytes := Utf8(str + [0]);
    Utf8Terminated(str);
    if offset + |bytes| > mem.Length {
      return false, offset;
    }
    ghost var m := mem[..];
    SetBytes(mem, offset, bytes);
    TailsWithin(m, mem[..], offset, offset + |bytes|);
    return true, Align8(offset + |bytes|);
  }

  /** What has been laid out so far, in a memory that was m0 at first. */
  ghost predicate Laid(m0: seq<Byte>, m: seq<Byte>, ptrs: seq<nat>, entries: seq<Entry>, end: nat) {
    Placed(m, ptrs, entries, end) && OnlyWithin(m0, m, BASE, end)
  }

  /** A write from end on, and one more entry. */
  lemma LaidAppend(
    m0: seq<Byte>, m: seq<Byte>, m': seq<Byte>, ptrs: seq<nat>, entries: seq<Entry>, end: nat,
    p: nat, entry: Entry, end': nat)
    requires Laid(m0, m, ptrs, entries, end) && BASE <= end <= end'
    requires OnlyWithin(m, m', end, end') && (end <= |m| ==> m'[..end] == m[..end]) && (end > |m| ==> m' == m)
    requires EntryAt(m', p, entry, end') && (entry.Some? ==> end <= p)
    ensures Laid(m0, m', ptrs + [p], entries + [entry], end')
  {
    WithinThen(m0, m, m', BASE, end, end, end');
    PlacedKept(m, m', ptrs, entries, end);
    hide Placed, OnlyWithin, EntryAt;
    PlacedAppend(m', ptrs, entries, end, p, entry, end');
  }

  /** One more string after what is already laid out. */
  method PlaceString(
    mem: array<Byte>, str: JsString, offset: nat, ghost m0: seq<Byte>, ghost ptrs: seq<nat>, ghost entries: seq<Entry>)
    returns (fits: bool, next: nat)
    requires Laid(m0, mem[..], ptrs, entries, offset) && offset == StringsEnd(entries)
    modifies mem
    ensures fits ==> Laid(m0, mem[..], ptrs + [offset], entries + [Some(Utf8(str))], next)
    ensures fits ==> next == StringsEnd(entries + [Some(Utf8(str))])
    ensures !fits ==> StringsEnd(entries + [Some(Utf8(str))]) > mem.Length
    ensures !fits ==> OnlyWithin(m0, mem[..], BASE, mem.Length)
  {
    ghost var m := mem[..];
    WithinMore(m0, m, BASE, offset, mem.Length);
    assert (entries + [Some(Utf8(str))])[..|entries|] == entries;
    hide Utf8, Holds, Laid, OnlyWithin;
    fits, next := StrPtr(mem, offset, str);
    if fits {
      LaidAppend(m0, m, mem[..], ptrs, entries, offset, offset, Some(Utf8(str)), next);
    }
  }

  /** Lays out a list of strings after what is already there, as the forEach loops do. */
  method PlaceStrings(
    mem: array<Byte>, strs: seq<JsString>, offset: nat,
    ghost m0: seq<Byte>, ghost ptrs0: seq<nat>, ghost entries0: seq<Entry>)
    returns (fits: bool, next: nat, ptrs: seq<nat>)
    requires Laid(m0, mem[..], ptrs0, entries0, offset) && offset == StringsEnd(entries0)
    modifies mem
    ensures fits ==> Laid(m0, mem[..], ptrs0 + ptrs, entries0 + Strings(strs), next)
    ensures fits ==> next == StringsEnd(entries0 + Strings(strs))
    ensures !fits ==> StringsEnd(entries0 + Strings(strs)) > mem.Length
    ensures !fits ==> OnlyWithin(m0, mem[..], BASE, mem.Length)
  {
    hide Utf8, Laid, StringsEnd, OnlyWithin;
    fits, next, ptrs := true, offset, [];
    assert ptrs0 + ptrs == ptrs0 && entries0 + Strings(strs[..0]) == entries0;
    for i := 0 to |strs|
      invariant Laid(m0, mem[..], ptrs0 + ptrs, entries0 + Strings(strs[..i]), next)
      invariant next == StringsEnd(entries0 + Strings(strs[..i]))
    {
      ghost var entries := entries0 + Strings(strs[..i]);
      assert entries0 + Strings(strs[..i + 1]) == entries + [Some(Utf8(strs[i]))];
      assert ptrs0 + (ptrs + [next]) == ptrs0 + ptrs + [next];
      ptrs := ptrs + [next];
      fits, next := PlaceString(mem, strs[i], next, m0, ptrs0 + ptrs[..|ptrs| - 1], entries);
      if !fits {
        EndGrows(entries0, strs, i + 1);
        return;
      }
    }
    assert strs[..|strs|] == strs;
  }

  lemma {:induction false} EndGrows(entries0: seq<Entry>, strs: seq<JsString>, i: nat)
    requires i <= |strs|
    ensures StringsEnd(entries0 + Strings(strs[..i])) <= StringsEnd(entries0 + Strings(strs))
    decreases |strs| - i
  {
    hide Utf8;
    if i == |strs| {
      assert strs[..i] == strs;
    } else {
      var next := entries0 + Strings(strs[..i + 1]);
      assert next[..|next| - 1] == entries0 + Strings(strs[..i]);
      EndGrows(entries0, strs, i + 1);
    }
  }

  lemma UnitsOrder()
    ensures StrictOrder(UnitsLess)
    ensures forall a: JsString, b: JsString :: a == b || UnitsLess(a, b) || UnitsLess(b, a)
  {
    forall a: JsString ensures !UnitsLess(a, a) {
      LexIrreflexive(a);
    }
    forall a: JsString, b: JsString, c: JsString | UnitsLess(a, b) && UnitsLess(b, c) ensures UnitsLess(a, c) {
      LexTransitive(a, b, c);
    }
    forall a: JsString, b: JsString ensures a == b || UnitsLess(a, b) || UnitsLess(b, a) {
      LexTotal(a, b);
    }
  }

  /** The environment is listed in one order only, whatever order its keys were visited in. */
  lemma SortedKeysUnique(env: map<JsString, JsString>, a: seq<JsString>, b: seq<JsString>)
    requires SortedKeys(env, a) && SortedKeys(env, b)
    ensures a == b
  {
    UnitsOrder();
    SortedUnique(UnitsLess, a, b);
  }

  /** Object.keys(env).sort() */
  method KeysOf(env: map<JsString, JsString>) returns (keys: seq<JsString>)
    ensures SortedKeys(env, keys)
  {
    var todo := env.Keys;
    keys := [];
    while todo != {}
      invariant todo <= env.Keys && Distinct(keys)
      invariant forall k :: k in keys <==> k in env && k !in todo
      decreases todo
    {
      var k :| k in todo;
      todo, keys := todo - {k}, keys + [k];
    }
    UnitsOrder();
    assert TotalOn(UnitsLess, keys);
    keys := Sort(UnitsLess, keys);
  }

  lemma PointerKept(m: seq<Byte>, m': seq<Byte>, from: nat, at: nat)
    requires |m'| == |m| && at + 8 <= from <= |m| && m'[..from] == m[..from]
    ensures Pointer(m', at) == Pointer(m, at)
  {
    hide GetUint32;
    assert m'[at..at + 4] == m'[..from][at..at + 4] && m[at..at + 4] == m[..from][at..at + 4];
    assert m'[at + 4..at + 8] == m'[..from][at + 4..at + 8] && m[at + 4..at + 8] == m[..from][at + 4..at + 8];
    GetElsewhere(m, m', at);
    GetElsewhere(m, m', at + 4);
  }

  lemma PutPointer(m: seq<Byte>, at: nat, p: Word)
    requires at + 8 <= |m|
    ensures Pointer(PutUint32(PutUint32(m, at, p), at + 4, 0), at) == p
    ensures PutUint32(PutUint32(m, at, p), at + 4, 0)[..at] == m[..at]
    ensures OnlyWithin(m, PutUint32(PutUint32(m, at, p), at + 4, 0), at, at + 8)
  {
    hide PutUint32, GetUint32;
    var m1 := PutUint32(m, at, p);
    var m2 := PutUint32(m1, at + 4, 0);
    GetPut(m, at, p);
    GetPut(m1, at + 4, 0);
    assert m2[at..at + 4] == m1[at..at + 4];
    GetElsewhere(m1, m2, at);
  }

  method SetPointer(mem: array<Byte>, offset: nat, ptr: nat)
    requires offset + 8 <= mem.Length
    modifies mem
    ensures Pointer(mem[..], offset) == ptr % TWO32
    ensures mem[..][..offset] == old(mem[..])[..offset]
    ensures OnlyWithin(old(mem[..]), mem[..], offset, offset + 8)
  {
    PutPointer(mem[..], offset, ptr % TWO32);
    hide Pointer, PutUint32, OnlyWithin;
    SetUint32(mem, offset, ptr % TWO32);
    SetUint32(mem, offset + 4, 0);
  }

  /** The pointer table, two words an entry. */
  method WriteTable(mem: array<Byte>, table: nat, ptrs: seq<nat>) returns (fits: bool)
    modifies mem
    ensures fits <==> table + 8 * |ptrs| <= mem.Length
    ensures fits ==> forall k :: 0 <= k < |ptrs| ==> Pointer(mem[..], table + 8 * k) == ptrs[k] % TWO32
    ensures fits ==> mem[..][..table] == old(mem[..])[..table]
    ensures OnlyWithin(old(mem[..]), mem[..], table, table + 8 * |ptrs|)
  {
    NothingWritten(mem[..], table);
    hide Pointer, OnlyWithin;
    ghost var m0 := mem[..];
    var offset := table;
    for i := 0 to |ptrs|
      invariant offset == table + 8 * i
      invariant i > 0 ==> offset <= mem.Length
      invariant forall k :: 0 <= k < i ==> Pointer(mem[..], table + 8 * k) == ptrs[k] % TWO32
      invariant table <= mem.Length ==> mem[..][..table] == old(mem[..])[..table]
      invariant OnlyWithin(m0, mem[..], table, offset)
    {
      if offset + 8 > mem.Length {
        WithinMore(m0, mem[..], table, offset, table + 8 * |ptrs|);
        return false;
      }
      ghost var m := mem[..];
      SetPointer(mem, offset, ptrs[i]);
      forall k | 0 <= k < i ensures Pointer(mem[..], table + 8 * k) == ptrs[k] % TWO32 {
        PointerKept(m, mem[..], offset, table + 8 * k);
      }
      PrefixShorter(m, mem[..], offset, table);
      WithinThen(m0, m, mem[..], table, offset, offset, offset + 8);
      offset := offset + 8;
    }
    return offset <= mem.Length;
  }

  lemma PrefixShorter(m: seq<Byte>, m': seq<Byte>, long: nat, short: nat)
    requires short <= long <= |m| == |m'| && m'[..long] == m[..long]
    ensures m'[..short] == m[..short]
  {
    assert m'[..short] == m'[..long][..short];
    assert m[..short] == m[..long][..short];
  }

  /** The two string groups, each followed by a null pointer. */
  method PlaceGroup(
    mem: array<Byte>, strs: seq<JsString>, offset: nat,
    ghost m0: seq<Byte>, ghost ptrs0: seq<nat>, ghost entries0: seq<Entry>)
    returns (fits: bool, next: nat, ptrs: seq<nat>)
    requires Laid(m0, mem[..], ptrs0, entries0, offset) && offset == StringsEnd(entries0)
    modifies mem
    ensures fits ==> Laid(m0, mem[..], ptrs0 + ptrs, entries0 + Strings(strs) + [None], next)
    ensures fits ==> next == StringsEnd(entries0 + Strings(strs) + [None])
    ensures !fits ==> StringsEnd(entries0 + Strings(strs) + [None]) > mem.Length
    ensures !fits ==> OnlyWithin(m0, mem[..], BASE, mem.Length)
  {
    ghost var entries := entries0 + Strings(strs);
    assert (entries + [None])[..|entries|] == entries;
    hide Utf8, Laid, Strings, OnlyWithin;
    fits, next, ptrs := PlaceStrings(mem, strs, offset, m0, ptrs0, entries0);
    if fits {
      LaidNull(m0, mem[..], ptrs0 + ptrs, entries, next);
      assert ptrs0 + (ptrs + [0]) == ptrs0 + ptrs + [0];
      ptrs := ptrs + [0];
    }
  }

  lemma LaidNull(m0: seq<Byte>, m: seq<Byte>, ptrs: seq<nat>, entries: seq<Entry>, end: nat)
    requires Laid(m0, m, ptrs, entries, end)
    ensures Laid(m0, m, ptrs + [0], entries + [None], end)
  {
    hide Placed, OnlyWithin;
    PlacedAppend(m, ptrs, entries, end, 0, None, end);
  }

  lemma FirstGroup(argv: seq<JsString>, strs: seq<JsString>)
    ensures [] + Strings(argv) + [None] == Strings(argv) + [None]
    ensures StringsEnd(Strings(argv) + [None]) <= StringsEnd(Groups(argv, strs))
  {
    var e1 := Strings(argv) + [None];
    hide Strings, StringsEnd;
    assert Groups(argv, strs) == e1 + (Strings(strs) + [None]);
    EndOfPrefix(Groups(argv, strs), e1, Strings(strs) + [None]);
  }

  /** Both groups, one after the other. */
  method PlaceAll(mem: array<Byte>, argv: seq<JsString>, strs: seq<JsString>)
    returns (fits: bool, table: nat, ptrs: seq<nat>)
    modifies mem
    ensures fits ==> Laid(old(mem[..]), mem[..], ptrs, Groups(argv, strs), table)
    ensures fits ==> table == StringsEnd(Groups(argv, strs)) && |ptrs| == |Groups(argv, strs)|
    ensures !fits ==> StringsEnd(Groups(argv, strs)) > mem.Length
    ensures !fits ==> OnlyWithin(old(mem[..]), mem[..], BASE, mem.Length)
  {
    ghost var e1, m0 := Strings(argv) + [None], mem[..];
    assert Groups(argv, strs) == e1 + Strings(strs) + [None];
    hide Utf8, Laid, Strings, StringsEnd, OnlyWithin, Groups;
    NothingLaid(m0);
    FirstGroup(argv, strs);
    fits, table, ptrs := PlaceGroup(mem, argv, BASE, m0, [], []);
    if !fits {
      return;
    }
    assert [] + ptrs == ptrs;
    var more;
    fits, table, more := PlaceGroup(mem, strs, table, m0, ptrs, e1);
    ptrs := ptrs + more;
    if fits {
      LaidLength(m0, mem[..], ptrs, Groups(argv, strs), table);
    }
  }

  /** From Go's run: argv and the sorted environment are written, then the pointer table, and
      only then is the limit checked. */
  method Run(argv: seq<JsString>, env: map<JsString, JsString>, mem: array<Byte>)
    returns (r: Outcome, ghost keys: seq<JsString>)
    modifies mem
    ensures SortedKeys(env, keys)
    ensures r.RangeError? <==> LayoutEnd(Entries(argv, env, keys)) > mem.Length
    ensures r.Started? <==> LayoutEnd(Entries(argv, env, keys)) <= mem.Length
                            && LayoutEnd(Entries(argv, env, keys)) < 12288
    ensures r.Started? ==> r.argc == |argv| && LaidOut(mem[..], r.argv, Entries(argv, env, keys))
    ensures r.Started? ==> r.argv + 8 * |Entries(argv, env, keys)| == LayoutEnd(Entries(argv, env, keys))
    ensures OnlyWithin(old(mem[..]), mem[..], BASE, LayoutEnd(Entries(argv, env, keys)))
  {
    var sorted := KeysOf(env);
    keys := sorted;
    ghost var entries := Entries(argv, env, keys);
    var strs := EnvStrings(env, sorted);
    ghost var m0 := mem[..];
    hide Laid, Entries, Strings, StringsEnd, LaidOut, EnvStrings, Pointer, OnlyWithin;
    var fits, table, ptrs := PlaceAll(mem, argv, strs);
    if !fits {
      WithinMore(m0, mem[..], BASE, mem.Length, LayoutEnd(entries));
      return RangeError, keys;
    }
    ghost var m := mem[..];
    fits := WriteTable(mem, table, ptrs);
    LaidThenTable(m0, m, mem[..], ptrs, entries, table);
    if !fits {
      return RangeError, keys;
    }
    if table + 8 * |ptrs| >= LIMIT {
      return LimitExceeded, keys;
    }
    PlacedLaidOut(m0, m, mem[..], ptrs, entries, table);
    return Started(|argv|, table), keys;
  }

  lemma ModSmall(x: nat)
    requires x < LIMIT
    ensures x % TWO32 == x
  {
  }

  /** The table is written above the strings. */
  lemma LaidThenTable(m0: seq<Byte>, m1: seq<Byte>, m: seq<Byte>, ptrs: seq<nat>, entries: seq<Entry>, table: nat)
    requires Laid(m0, m1, ptrs, entries, table) && table == StringsEnd(entries)
    requires OnlyWithin(m1, m, table, table + 8 * |ptrs|)
    ensures OnlyWithin(m0, m, BASE, LayoutEnd(entries))
  {
    WithinThen(m0, m1, m, BASE, table, table, table + 8 * |ptrs|);
  }

  lemma PlacedLaidOut(
    m0: seq<Byte>, m1: seq<Byte>, m: seq<Byte>, ptrs: seq<nat>, entries: seq<Entry>, table: nat)
    requires Laid(m0, m1, ptrs, entries, table) && table == StringsEnd(entries)
    requires |m| == |m1| && table <= |m| && m[..table] == m1[..table]
    requires table + 8 * |ptrs| <= |m| && table + 8 * |ptrs| < LIMIT
    requires forall k :: 0 <= k < |ptrs| ==> Pointer(m, table + 8 * k) == ptrs[k] % TWO32
    ensures LaidOut(m, table, entries)
  {
    PlacedKept(m1, m, ptrs, entries, table);
    PlacedBelow(m, ptrs, entries, table);
    hide Placed, Pointer, OnlyWithin;
    PointersAre(m, table, ptrs);
  }

  lemma PlacedBelow(m: seq<Byte>, ptrs: seq<nat>, entries: seq<Entry>, end: nat)
    requires Placed(m, ptrs, entries, end) && end < LIMIT
    ensures |ptrs| == |entries| && forall i :: 0 <= i < |ptrs| ==> ptrs[i] < LIMIT
  {
    hide Apart, Holds;
    forall i | 0 <= i < |ptrs| ensures ptrs[i] < LIMIT {
      assert EntryAt(m, ptrs[i], entries[i], end);
    }
  }

  lemma PointersAre(m: seq<Byte>, table: nat, ptrs: seq<nat>)
    requires table + 8 * |ptrs| <= |m| && forall i :: 0 <= i < |ptrs| ==> ptrs[i] < LIMIT
    requires forall k :: 0 <= k < |ptrs| ==> Pointer(m, table + 8 * k) == ptrs[k] % TWO32
    ensures Pointers(m, table, |ptrs|) == ptrs
  {
    hide Pointer;
    forall i | 0 <= i < |ptrs| ensures Pointer(m, table + 8 * i) == ptrs[i] {
      ModSmall(ptrs[i]);
    }
  }

  lemma NothingLaid(m: seq<Byte>)
    ensures Laid(m, m, [], [], BASE) && StringsEnd([]) == BASE
  {
  }

  lemma LaidLength(m0: seq<Byte>, m: seq<Byte>, ptrs: seq<nat>, entries: seq<Entry>, end: nat)
    requires Laid(m0, m, ptrs, entries, end)
    ensures |ptrs| == |entries|
  {
  }

  lemma {:induction false} EndOfPrefix(entries: seq<Entry>, a: seq<Entry>, b: seq<Entry>)
    requires entries == a + b
    ensures StringsEnd(a) <= StringsEnd(entries) <= LayoutEnd(entries)
    decreases |b|
  {
    if b == [] {
      assert entries == a;
    } else {
      var n := |b| - 1;
      assert entries[..|entries| - 1] == a + b[..n];
      EndOfPrefix(a + b[..n], a, b[..n]);
    }
  }

  // ----- Reading back -----

  lemma EntryReads(m: seq<Byte>, table: nat, entries: seq<Entry>, i: nat)
    requires LaidOut(m, table, entries) && i < |entries|
    ensures table + 8 * i + 8 <= |m|
    ensures EntryAt(m, Pointer(m, table + 8 * i), entries[i], table)
  {
    hide EntryAt, Apart, Pointer;
    assert Pointers(m, table, |entries|)[i] == Pointer(m, table + 8 * i);
  }

  /** The string at a table entry reads back exactly when it has no zero byte. */
  lemma StringReads(m: seq<Byte>, table: nat, entries: seq<Entry>, i: nat)
    requires LaidOut(m, table, entries) && i < |entries| && entries[i].Some?
    ensures table + 8 * i + 8 <= |m| && Pointer(m, table + 8 * i) != 0
    ensures CString(m, Pointer(m, table + 8 * i)) == entries[i].value <==> 0 !in entries[i].value
  {
    EntryReads(m, table, entries, i);
    hide Pointer, Holds, LaidOut, CString;
    CStringReads(m, Pointer(m, table + 8 * i), entries[i].value);
  }

  /** Following the table from an entry on yields the strings up to the next null. */
  lemma {:induction false} VectorReads(
    m: seq<Byte>, table: nat, entries: seq<Entry>, strs: seq<JsString>, from: nat, i: nat)
    requires LaidOut(m, table, entries)
    requires i <= |strs| && from + |strs| < |entries|
    requires entries[from..from + |strs|] == Strings(strs) && entries[from + |strs|] == None
    requires forall s :: s in strs ==> 0 !in s
    ensures ReadVector(m, table + 8 * (from + i))
            == seq(|strs| - i, k requires 0 <= k < |strs| - i => Utf8(strs[i + k]))
    decreases |strs| - i
  {
    hide Utf8, LaidOut, Pointer, CString;
    if i < |strs| {
      assert entries[from + i] == entries[from..from + |strs|][i] == Some(Utf8(strs[i]));
      assert strs[i] in strs;
      NoZero(strs[i]);
      StringReads(m, table, entries, from + i);
      VectorReads(m, table, entries, strs, from, i + 1);
    } else {
      EntryReads(m, table, entries, from + i);
    }
  }

  lemma NoZero(s: JsString)
    ensures 0 in Utf8(s) <==> 0 in s
  {
  }

  /** What Go reads from its pointer table: first the arguments, up to a null ... */
  lemma ArgumentsReadBack(
    m: seq<Byte>, table: nat, argv: seq<JsString>, env: map<JsString, JsString>, keys: seq<JsString>)
    requires SortedKeys(env, keys) && LaidOut(m, table, Entries(argv, env, keys))
    requires forall s :: s in argv ==> 0 !in s
    ensures ReadVector(m, table) == seq(|argv|, i requires 0 <= i < |argv| => Utf8(argv[i]))
  {
    hide Utf8, LaidOut, ReadVector;
    assert Entries(argv, env, keys)[0..|argv|] == Strings(argv);
    VectorReads(m, table, Entries(argv, env, keys), argv, 0, 0);
  }

  /** ... and behind that null the environment in key order, up to a second null. */
  lemma EnvironmentReadsBack(
    m: seq<Byte>, table: nat, argv: seq<JsString>, env: map<JsString, JsString>, keys: seq<JsString>)
    requires SortedKeys(env, keys) && LaidOut(m, table, Entries(argv, env, keys))
    requires forall k :: k in env ==> 0 !in k && 0 !in env[k]
    ensures ReadVector(m, table + 8 * (|argv| + 1))
            == seq(|keys|, i requires 0 <= i < |keys| => Utf8(EnvString(env, keys[i])))
  {
    var strs := EnvStrings(env, keys);
    hide Utf8, LaidOut, ReadVector;
    assert Entries(argv, env, keys)[|argv| + 1..|argv| + 1 + |strs|] == Strings(strs);
    EnvHasNoZero(env, keys);
    VectorReads(m, table, Entries(argv, env, keys), strs, |argv| + 1, 0);
  }

  lemma EnvHasNoZero(env: map<JsString, JsString>, keys: seq<JsString>)
    requires forall k :: k in keys ==> k in env
    requires forall k :: k in env ==> 0 !in k && 0 !in env[k]
    ensures forall s :: s in EnvStrings(env, keys) ==> 0 !in s
  {
    forall i | 0 <= i < |keys| ensures 0 !in EnvString(env, keys[i]) {
      assert keys[i] in keys;
    }
  }

  /** One argument reads back exactly when it contains no NUL; otherwise it is cut short. */
  lemma ArgumentReadsIff(
    m: seq<Byte>, table: nat, argv: seq<JsString>, env: map<JsString, JsString>, keys: seq<JsString>, i: nat)
    requires SortedKeys(env, keys) && LaidOut(m, table, Entries(argv, env, keys)) && i < |argv|
    ensures table + 8 * i + 8 <= |m|
    ensures CString(m, Pointer(m, table + 8 * i)) == Utf8(argv[i]) <==> 0 !in argv[i]
  {
    hide Utf8, LaidOut;
    NoZero(argv[i]);
    StringReads(m, table, Entries(argv, env, keys), i);
  }

  lemma EnvEntry(argv: seq<JsString>, env: map<JsString, JsString>, keys: seq<JsString>, i: nat)
    requires (forall k :: k in keys ==> k in env) && i < |keys|
    ensures keys[i] in env && |argv| + 1 + i < |Entries(argv, env, keys)|
    ensures Entries(argv, env, keys)[|argv| + 1 + i] == Some(Utf8(EnvString(env, keys[i])))
  {
    hide Utf8;
    assert keys[i] in keys;
    var strs := EnvStrings(env, keys);
    assert (Strings(argv) + [None] + Strings(strs))[|argv| + 1 + i] == Strings(strs)[i];
  }

  /** Likewise one environment string, which is cut short at a NUL in its key or its value. */
  lemma EnvironmentReadsIff(
    m: seq<Byte>, table: nat, argv: seq<JsString>, env: map<JsString, JsString>, keys: seq<JsString>, i: nat)
    requires SortedKeys(env, keys) && LaidOut(m, table, Entries(argv, env, keys)) && i < |keys|
    ensures table + 8 * (|argv| + 1 + i) + 8 <= |m|
    ensures CString(m, Pointer(m, table + 8 * (|argv| + 1 + i))) == Utf8(EnvString(env, keys[i]))
            <==> 0 !in keys[i] && 0 !in env[keys[i]]
  {
    hide Utf8, LaidOut, Entries, CString, Pointer;
    EnvEntry(argv, env, keys, i);
    NoZero(EnvString(env, keys[i]));
    StringReads(m, table, Entries(argv, env, keys), |argv| + 1 + i);
  }

  /** What Go reads as an environment string is the key, an equals sign and the value; at its first
      equals sign it splits into key and value, unless the key has one itself. */
  lemma EnvironmentIsKeyAndValue(
    m: seq<Byte>, table: nat, argv: seq<JsString>, env: map<JsString, JsString>, keys: seq<JsString>, i: nat)
    requires SortedKeys(env, keys) && LaidOut(m, table, Entries(argv, env, keys)) && i < |keys|
    requires 0 !in keys[i] && 0 !in env[keys[i]]
    ensures table + 8 * (|argv| + 1 + i) + 8 <= |m|
    ensures var key, value := Utf8(keys[i]), Utf8(env[keys[i]]);
            CString(m, Pointer(m, table + 8 * (|argv| + 1 + i))) == key + [0x3D] + value
    ensures var key, bs := Utf8(keys[i]), CString(m, Pointer(m, table + 8 * (|argv| + 1 + i)));
            0x3D !in keys[i] ==> 0x3D !in bs[..|key|] && bs[|key|] == 0x3D
  {
    EnvironmentReadsIff(m, table, argv, env, keys, i);
    Utf8Around(keys[i], 0x3D, env[keys[i]]);
    AsciiIn(keys[i], 0x3D);
    hide Utf8, LaidOut, Entries, CString, Pointer;
  }

  /** The room that the strings take, each with its zero byte rounded up to a multiple of 8. */
  function Room(entries: seq<Entry>): nat {
    if entries == [] then 0
    else
      var last := entries[|entries| - 1];
      Room(entries[..|entries| - 1]) + if last.Some? then (|last.value| + 8) / 8 * 8 else 0
  }

  /** The strings begin at 4096, take no more room than they need, and the table follows them. */
  lemma {:induction false} LayoutSize(entries: seq<Entry>)
    ensures StringsEnd(entries) == 4096 + Room(entries)
    ensures LayoutEnd(entries) == 4096 + Room(entries) + 8 * |entries|
  {
    if entries != [] {
      var front, last := entries[..|entries| - 1], entries[|entries| - 1];
      LayoutSize(front);
      hide Align8;
      if last.Some? {
        AlignedRoom(StringsEnd(front), |last.value|);
      }
    }
  }

  lemma AlignedRoom(base: nat, n: nat)
    requires base % 8 == 0
    ensures Align8(base + n + 1) == base + (n + 8) / 8 * 8
  {
    assert (n + 8) / 8 * 8 == n + 8 - n % 8;
    assert (base + n + 1) % 8 == (n + 1) % 8;
  }

  /** The environment comes in the order of the first difference between the keys. */
  lemma KeysInOrder(env: map<JsString, JsString>, keys: seq<JsString>, i: nat, j: nat)
    requires SortedKeys(env, keys) && i < j < |keys|
    ensures exists k: nat :: SmallerAt(keys[i], keys[j], k)
  {
    assert UnitsLess(keys[i], keys[j]);
    LexLessIff(keys[i], keys[j]);
  }
}
