/** The peers connected to a hub: network, then name, then the live registration. */
module Registry {
  import opened Wrappers
  import opened Ordering

  datatype Peer = Peer(network: string, name: string, pubKey: string)

  datatype Record<C> = Record(peer: Peer, conn: C)

  type Nested<C> = map<string, map<string, Record<C>>>

  // ----- The flat view -----

  /** The registrations as one map keyed by network and name. */
  ghost function Flat<C>(m: Nested<C>): map<(string, string), Record<C>> {
    map n, k | n in m && k in m[n] :: (n, k) := m[n][k]
  }

  /** No inner map is empty, and each record carries its own keys. */
  ghost predicate Tidy<C>(m: Nested<C>) {
    && (forall n :: n in m ==> m[n] != map[])
    && (forall n, k :: n in m && k in m[n] ==> m[n][k].peer.network == n && m[n][k].peer.name == k)
  }

  function Find<C>(flat: map<(string, string), C>, n: string, k: string): Option<C> {
    if (n, k) in flat then Some(flat[(n, k)]) else None
  }

  function At<C>(m: Nested<C>, n: string, k: string): Option<Record<C>> {
    if n in m && k in m[n] then Some(m[n][k]) else None
  }

  lemma FlatFind<C>(m: Nested<C>, n: string, k: string)
    ensures Find(Flat(m), n, k) == At(m, n, k)
  {
  }

  lemma FlatIs<C>(m: Nested<C>, flat: map<(string, string), Record<C>>)
    requires forall n, k :: Find(flat, n, k) == At(m, n, k)
    ensures Flat(m) == flat
  {
    forall key ensures key in Flat(m) <==> key in flat
      ensures key in flat ==> key in Flat(m) && Flat(m)[key] == flat[key]
    {
      assert key == (key.0, key.1);
      FlatFind(m, key.0, key.1);
      assert Find(flat, key.0, key.1) == At(m, key.0, key.1);
    }
  }

  /** A tidy nested map is determined by its flat view: nothing else is stored in it. */
  lemma FlatDetermines<C>(a: Nested<C>, b: Nested<C>)
    requires Tidy(a) && Tidy(b) && Flat(a) == Flat(b)
    ensures a == b
  {
    forall n, k ensures At(a, n, k) == At(b, n, k) {
      FlatFind(a, n, k);
      FlatFind(b, n, k);
    }
    Recovered(a, b);
    Recovered(b, a);
    assert a.Keys == b.Keys;
  }

  lemma Recovered<C>(a: Nested<C>, b: Nested<C>)
    requires Tidy(a)
    requires forall n, k :: At(a, n, k) == At(b, n, k)
    ensures forall n :: n in a ==> n in b && a[n] == b[n]
  {
    forall n | n in a ensures n in b && a[n] == b[n] {
      var k :| k in a[n];
      assert At(a, n, k).Some?;
      forall k ensures k in a[n] <==> k in b[n]
        ensures k in a[n] ==> k in b[n] && a[n][k] == b[n][k]
      {
        assert At(a, n, k) == At(b, n, k);
      }
    }
  }

  function Inner<C>(m: Nested<C>, n: string): map<string, Record<C>> {
    if n in m then m[n] else map[]
  }

  lemma FlatPut<C>(m: Nested<C>, r: Record<C>)
    ensures var p := r.peer;
            Flat(m[p.network := Inner(m, p.network)[p.name := r]]) == Flat(m)[(p.network, p.name) := r]
  {
    var p := r.peer;
    var m' := m[p.network := Inner(m, p.network)[p.name := r]];
    forall n, k ensures Find(Flat(m)[(p.network, p.name) := r], n, k) == At(m', n, k) {
      FlatFind(m, n, k);
    }
    FlatIs(m', Flat(m)[(p.network, p.name) := r]);
  }

  /** Deletes an entry, and the network with its last entry. */
  function Without<C>(m: Nested<C>, n: string, k: string): Nested<C>
    requires n in m
  {
    var net := m[n] - {k};
    if |net| == 0 then m - {n} else m[n := net]
  }

  lemma AtWithout<C>(m: Nested<C>, n: string, k: string, n': string, k': string)
    requires n in m
    ensures At(Without(m, n, k), n', k') == if (n', k') == (n, k) then None else At(m, n', k')
  {
    if n' == n {
      assert |m[n] - {k}| == 0 ==> k' !in m[n] - {k};
    }
  }

  lemma FlatWithout<C>(m: Nested<C>, n: string, k: string)
    requires n in m
    ensures Flat(Without(m, n, k)) == Flat(m) - {(n, k)}
  {
    forall n', k' ensures Find(Flat(m) - {(n, k)}, n', k') == At(Without(m, n, k), n', k') {
      FlatFind(m, n', k');
      AtWithout(m, n, k, n', k');
    }
    FlatIs(Without(m, n, k), Flat(m) - {(n, k)});
  }

  lemma TidyWithout<C>(m: Nested<C>, n: string, k: string)
    requires Tidy(m) && n in m
    ensures Tidy(Without(m, n, k))
  {
    var net := m[n] - {k};
    assert |net| != 0 ==> net != map[];
    forall n', k' | n' in Without(m, n, k) && k' in Without(m, n, k)[n']
      ensures n' in m && k' in m[n'] && Without(m, n, k)[n'][k'] == m[n'][k']
    {
    }
  }

  // ----- Names in order -----

  function Codes(s: string): seq<int> {
    seq(|s|, i requires 0 <= i < |s| => s[i] as int)
  }

  predicate ByName(p: Peer, q: Peer) {
    LexLess(Codes(p.name), Codes(q.name))
  }

  lemma ByNameOrder()
    ensures StrictOrder(ByName)
    ensures forall p: Peer, q: Peer :: p.name == q.name || ByName(p, q) || ByName(q, p)
  {
    forall p: Peer ensures !ByName(p, p) {
      LexIrreflexive(Codes(p.name));
    }
    forall p: Peer, q: Peer, r: Peer | ByName(p, q) && ByName(q, r) ensures ByName(p, r) {
      LexTransitive(Codes(p.name), Codes(q.name), Codes(r.name));
    }
    forall p: Peer, q: Peer ensures p.name == q.name || ByName(p, q) || ByName(q, p) {
      LexTotal(Codes(p.name), Codes(q.name));
      if Codes(p.name) == Codes(q.name) {
        forall i | 0 <= i < |p.name| ensures p.name[i] == q.name[i] {
          assert Codes(p.name)[i] == Codes(q.name)[i];
        }
        assert p.name == q.name;
      }
    }
  }

  /** What List may answer: the peers of the network, strictly increasing by name. */
  ghost predicate IsListing<C>(flat: map<(string, string), Record<C>>, network: string, peers: seq<Peer>) {
    && Sorted(ByName, peers)
    && (forall p :: p in peers <==> p.network == network && (network, p.name) in flat
                                    && flat[(network, p.name)].peer == p)
  }

  /** The listing is one sequence only, however the map was iterated and the sort broke ties. */
  lemma ListingUnique<C>(flat: map<(string, string), Record<C>>, network: string, a: seq<Peer>, b: seq<Peer>)
    requires IsListing(flat, network, a) && IsListing(flat, network, b)
    ensures a == b
  {
    ByNameOrder();
    SortedUnique(ByName, a, b);
  }

  /** Peers are listed in the order of the first difference between their names. */
  lemma ListedByName<C>(flat: map<(string, string), Record<C>>, network: string, peers: seq<Peer>, i: nat, j: nat)
    requires IsListing(flat, network, peers) && i < j < |peers|
    ensures exists k: nat :: SmallerAt(Codes(peers[i].name), Codes(peers[j].name), k)
  {
    assert ByName(peers[i], peers[j]);
    LexLessIff(Codes(peers[i].name), Codes(peers[j].name));
  }

  class Registry<C(==)> {
    var m: Nested<C>

    ghost predicate Valid()
      reads this
    {
      Tidy(m)
    }

    constructor ()
      ensures Valid() && Flat(m) == map[]
    {
      m := map[];
    }

    /** Registers or replaces, and hands back the connection that was displaced. */
    method Add(p: Peer, conn: C) returns (prev: Option<C>)
      requires Valid()
      modifies this
      ensures Valid()
      ensures Flat(m) == old(Flat(m))[(p.network, p.name) := Record(p, conn)]
      ensures prev == if (p.network, p.name) in old(Flat(m)) then Some(old(Flat(m))[(p.network, p.name)].conn) else None
    {
      FlatFind(m, p.network, p.name);
      FlatPut(m, Record(p, conn));
      hide Flat;
      var net := map[];
      if p.network in m {
        net := m[p.network];
      }
      prev := if p.name in net then Some(net[p.name].conn) else None;
      net := net[p.name := Record(p, conn)];
      m := m[p.network := net];
      assert p.name in net;
    }

    /** Deregisters, but only the given connection. */
    method Remove(network: string, name: string, conn: C)
      requires Valid()
      modifies this
      ensures Valid()
      ensures Flat(m) == if (network, name) in old(Flat(m)) && old(Flat(m))[(network, name)].conn == conn
                         then old(Flat(m)) - {(network, name)} else old(Flat(m))
    {
      FlatFind(m, network, name);
      hide Flat, Tidy;
      if network !in m {
        return;
      }
      if name in m[network] && m[network][name].conn == conn {
        Delete(network, name);
      }
    }

    /** Deletes an entry, and the network with its last entry. */
    method Delete(network: string, name: string)
      requires Valid() && network in m && name in m[network]
      modifies this
      ensures Valid() && Flat(m) == old(Flat(m)) - {(network, name)}
    {
      FlatWithout(m, network, name);
      TidyWithout(m, network, name);
      hide Flat, Tidy;
      var net := m[network] - {name};
      m := if |net| == 0 then m - {network} else m[network := net];
    }

    /** Removes and returns a registration in one step. */
    method Take(network: string, name: string) returns (r: Option<Record<C>>)
      requires Valid()
      modifies this
      ensures Valid() && Flat(m) == old(Flat(m)) - {(network, name)}
      ensures r == if (network, name) in old(Flat(m)) then Some(old(Flat(m))[(network, name)]) else None
    {
      FlatFind(m, network, name);
      hide Flat, Tidy;
      if network !in m {
        return None;
      }
      var net := m[network];
      if name !in net {
        return None;
      }
      Delete(network, name);
      return Some(net[name]);
    }

    /** Exactly the networks that have a peer, each with the length of its listing. */
    method Networks() returns (counts: map<string, nat>)
      requires Valid()
      ensures forall n :: n in counts <==> exists k :: (n, k) in Flat(m)
      ensures forall n, peers :: n in counts && IsListing(Flat(m), n, peers) ==> counts[n] == |peers| > 0
    {
      counts := map[];
      var todo := m.Keys;
      while todo != {}
        invariant todo <= m.Keys && counts.Keys == m.Keys - todo
        invariant forall n :: n in counts ==> counts[n] == |m[n]|
        decreases todo
      {
        var n :| n in todo;
        counts, todo := counts[n := |m[n]|], todo - {n};
      }
      forall n | n in counts ensures exists k :: (n, k) in Flat(m) {
        var k :| k in m[n];
        assert (n, k) in Flat(m);
      }
      forall n, peers | n in counts && IsListing(Flat(m), n, peers) ensures counts[n] == |peers| > 0 {
        ListingLength(m, n, peers);
      }
    }

    /** The peers of one network, sorted by name; none for an unknown network. */
    method List(network: string) returns (peers: seq<Peer>)
      requires Valid()
      ensures IsListing(Flat(m), network, peers)
    {
      var net := if network in m then m[network] else map[];
      peers := PeersOf(net);
      ByNameOrder();
      hide ByName;
      peers := Sort(ByName, peers);
      forall p: Peer
        ensures p in peers <==> p.network == network && (network, p.name) in Flat(m)
                                && Flat(m)[(network, p.name)].peer == p
      {
        FlatFind(m, network, p.name);
      }
    }
  }

  /** The peers of an inner map, in whatever order it is iterated. */
  method PeersOf<C>(net: map<string, Record<C>>) returns (peers: seq<Peer>)
    requires forall k :: k in net ==> net[k].peer.name == k
    ensures forall p :: p in peers <==> p.name in net && net[p.name].peer == p
    ensures forall i, j :: 0 <= i < j < |peers| ==> peers[i].name != peers[j].name
  {
    var todo := net.Keys;
    peers := [];
    while todo != {}
      invariant todo <= net.Keys
      invariant forall p :: p in peers <==> p.name in net && p.name !in todo && net[p.name].peer == p
      invariant forall i, j :: 0 <= i < j < |peers| ==> peers[i].name != peers[j].name
      decreases todo
    {
      var k :| k in todo;
      assert forall i :: 0 <= i < |peers| ==> peers[i] in peers && peers[i].name != k;
      peers, todo := peers + [net[k].peer], todo - {k};
    }
  }

  lemma ListingLength<C>(m: Nested<C>, network: string, peers: seq<Peer>)
    requires Tidy(m) && network in m && IsListing(Flat(m), network, peers)
    ensures |peers| == |m[network]| > 0
  {
    ByNameOrder();
    var names := set p | p in peers :: p.name;
    forall k ensures k in names <==> k in m[network] {
      if k in m[network] {
        assert (network, k) in Flat(m);
        assert m[network][k].peer in peers;
      }
      if k in names {
        var p :| p in peers && p.name == k;
        assert (network, k) in Flat(m);
      }
    }
    assert names == m[network].Keys;
    SortedNamesDiffer(peers);
    NamesCount(peers);
  }

  lemma SortedNamesDiffer(peers: seq<Peer>)
    requires Sorted(ByName, peers)
    ensures forall i, j :: 0 <= i < j < |peers| ==> peers[i].name != peers[j].name
  {
    forall i, j | 0 <= i < j < |peers| ensures peers[i].name != peers[j].name {
      assert ByName(peers[i], peers[j]);
      LexIrreflexive(Codes(peers[j].name));
    }
  }

  lemma {:induction false} NamesCount(peers: seq<Peer>)
    requires forall i, j :: 0 <= i < j < |peers| ==> peers[i].name != peers[j].name
    ensures |set p | p in peers :: p.name| == |peers|
  {
    if peers != [] {
      var n := |peers| - 1;
      var front, last := peers[..n], peers[n];
      NamesCount(front);
      var names := set p | p in front :: p.name;
      assert last.name !in names;
      assert peers == front + [last];
      assert (set p | p in peers :: p.name) == names + {last.name};
    }
  }
}
