/** What `populate_x2_matrix` of scratch/simulation.cc records of the links, which it finds back from the addresses
    alone, and exactly when it records both ends of every link. */
module X2Entries {
  import opened X2Addresses

  /** An entry of `x2AddressMatrix`; `Unset` is the default-constructed address. */
  datatype Entry = Unset | Address(address: nat)

  /** The last of the first `n` stations with address `a`; -1 if there is none. */
  function Owner(stations: Stations, n: nat, a: nat): (s: int)
    requires n <= |stations|
    ensures -1 <= s < n && (s >= 0 ==> HasPort(stations, s, a))
    ensures forall t :: s < t < n ==> !HasPort(stations, t, a)
  {
    if n == 0 then -1 else if a in stations[n - 1] then n - 1 else Owner(stations, n - 1, a)
  }

  /** Subscripting the map inserts station 0 for an address that no station has. */
  function IdOf(stations: Stations, a: nat): (id: nat)
    ensures (forall t :: !HasPort(stations, t, a)) ==> id == 0
    ensures (exists t :: HasPort(stations, t, a)) ==> HasPort(stations, id, a) && forall t: nat :: HasPort(stations, t, a) ==> t <= id
  {
    var s := Owner(stations, |stations|, a);
    if s < 0 then 0 else s
  }

  /** Interface `j` is the last of the first `n` whose other end goes by the number `k`. */
  ghost predicate LastFor(stations: Stations, i: nat, k: nat, n: nat, j: nat)
    requires i < |stations| && n <= |stations[i]|
  {
    && j < n && IdOf(stations, Peer(stations[i][j])) == k
    && forall l :: j < l < n ==> IdOf(stations, Peer(stations[i][l])) != k
  }

  /** What the first `n` interfaces of station `i` leave in row `i`, column `k`. */
  function EntryOf(stations: Stations, i: nat, k: nat, n: nat): (e: Entry)
    requires i < |stations| && n <= |stations[i]|
    ensures e.Address? ==> HasPort(stations, i, e.address) && IdOf(stations, Peer(e.address)) == k
    ensures e.Address? ==> exists j: nat :: LastFor(stations, i, k, n, j) && stations[i][j] == e.address
    ensures e.Unset? ==> forall j :: 0 <= j < n ==> IdOf(stations, Peer(stations[i][j])) != k
  {
    if n == 0 then Unset
    else if IdOf(stations, Peer(stations[i][n - 1])) == k then
      assert LastFor(stations, i, k, n, n - 1);
      Address(stations[i][n - 1])
    else
      assert forall j: nat :: LastFor(stations, i, k, n - 1, j) ==> LastFor(stations, i, k, n, j);
      EntryOf(stations, i, k, n - 1)
  }

  function Entries(stations: Stations, i: nat, k: nat): Entry
    requires i < |stations|
  {
    EntryOf(stations, i, k, |stations[i]|)
  }

  // ---------------------------------------------------------------- exactly when both ends are recorded

  /** Row `s`, column `t` holds `a`, and row `t`, column `s` the other end of its network. */
  ghost predicate InBoth(stations: Stations, s: nat, t: nat, a: nat, b: nat) {
    && s < |stations| && t < |stations| && s != t && Ends(a, b)
    && Entries(stations, s, t) == Address(a) && Entries(stations, t, s) == Address(b)
  }

  ghost predicate RecordedSomewhere(stations: Stations, s: nat, a: nat) {
    exists t, b :: InBoth(stations, s, t, a, b)
  }

  /** Every interface's own address stands in its row, in the column of the station at the other end,
      and the other end stands in the mirrored entry. */
  ghost predicate AllRecorded(stations: Stations) {
    forall s, a {:trigger RecordedSomewhere(stations, s, a)} ::
      HasPort(stations, s, a) ==> RecordedSomewhere(stations, s, a)
  }

  /** Both ends of every link are recorded exactly when the links are proper. */
  lemma AllRecordedIff(stations: Stations)
    ensures AllRecorded(stations) <==> ProperLinks(stations)
  {
    if ProperLinks(stations) {
      forall s, a | HasPort(stations, s, a) ensures RecordedSomewhere(stations, s, a) {
        assert LinkedElsewhere(stations, s, a);
        var t :| t != s && Link(stations, s, t, a);
        LinkIsRecorded(stations, s, t, a);
      }
    }
    if AllRecorded(stations) {
      forall s, a | HasPort(stations, s, a)
        ensures 1 <= Host(a) <= 2 && LinkedElsewhere(stations, s, a)
      {
        assert RecordedSomewhere(stations, s, a);
        var t := RecordedIsLinked(stations, s, a);
      }
      forall s, t, a | HasPort(stations, s, a) && HasPort(stations, t, a) ensures s == t {
        assert RecordedSomewhere(stations, s, a) && RecordedSomewhere(stations, t, a);
        var _ := RecordedIsLinked(stations, s, a);
        var _ := RecordedIsLinked(stations, t, a);
      }
      forall s, t, a, b | Link(stations, s, t, a) && Link(stations, s, t, b) ensures a == b {
        assert RecordedSomewhere(stations, s, a) && RecordedSomewhere(stations, s, b);
        assert RecordedSomewhere(stations, t, Peer(a)) && RecordedSomewhere(stations, t, Peer(b));
        var _ := RecordedIsLinked(stations, s, a);
        var _ := RecordedIsLinked(stations, s, b);
        var _ := RecordedIsLinked(stations, t, Peer(a));
        var _ := RecordedIsLinked(stations, t, Peer(b));
      }
    }
  }

  /** With proper links an entry is set exactly for a link, and holds the station's own end of it. */
  lemma EntryIffLink(stations: Stations, s: nat, t: nat, a: nat)
    requires ProperLinks(stations) && s < |stations|
    ensures Entries(stations, s, t) == Address(a) <==> Link(stations, s, t, a)
  {
    var e := Entries(stations, s, t);
    assert Link(stations, s, t, a) ==> IdOf(stations, Peer(a)) == t && e.Address?;
    if e.Address? {
      assert LinkedElsewhere(stations, s, e.address);
      var t' :| t' != s && Link(stations, s, t', e.address);
      assert IdOf(stations, Peer(e.address)) == t';
    }
  }

  lemma LinkIsRecorded(stations: Stations, s: nat, t: nat, a: nat)
    requires ProperLinks(stations) && s != t && Link(stations, s, t, a)
    ensures InBoth(stations, s, t, a, Peer(a))
  {
    EndsArePeers(a, Peer(a));
    EntryIffLink(stations, s, t, a);
    EntryIffLink(stations, t, s, Peer(a));
  }

  /** An interface recorded in both entries is linked, and its address is known under its own station. */
  lemma RecordedIsLinked(stations: Stations, s: nat, a: nat) returns (t: nat)
    requires RecordedSomewhere(stations, s, a)
    ensures t != s && Link(stations, s, t, a) && 1 <= Host(a) <= 2
    ensures IdOf(stations, a) == s && Entries(stations, s, IdOf(stations, Peer(a))) == Address(a)
  {
    var t', b :| InBoth(stations, s, t', a, b);
    EndsArePeers(a, b);
    t := t';
  }

  /** An interface without a counterpart overwrites what its station had recorded for station 0. */
  lemma DanglingOverwrites(network: nat, dangling: nat)
    requires Network(network) == network && Network(dangling) == dangling && network != dangling
    ensures var stations := [[network + 1], [network + 2, dangling + 1]];
            Entries(stations, 1, 0) == Address(dangling + 1) && Entries(stations, 0, 1) == Address(network + 1)
  {
    var stations := [[network + 1], [network + 2, dangling + 1]];
    assert Peer(network + 1) == network + 2 && Peer(network + 2) == network + 1 && Peer(dangling + 1) == dangling + 2;
    assert Owner(stations, 2, dangling + 2) == -1;
    assert Owner(stations, 2, network + 2) == 1;
  }

  /** Two links between the same stations, listed in opposite orders, leave ends of different networks. */
  lemma ParallelLinksMix(first: nat, second: nat)
    requires Network(first) == first && Network(second) == second && first != second
    ensures var stations := [[first + 1, second + 1], [second + 2, first + 2]];
            Entries(stations, 0, 1) == Address(second + 1) && Entries(stations, 1, 0) == Address(first + 2)
  {
    var stations := [[first + 1, second + 1], [second + 2, first + 2]];
    assert Peer(second + 1) == second + 2 && Peer(first + 2) == first + 1;
    assert Owner(stations, 2, second + 2) == 1;
    assert Owner(stations, 2, first + 1) == 0;
  }
}
