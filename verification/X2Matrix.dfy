/** `populate_x2_matrix` of scratch/simulation.cc on the matrix it fills, and its use after all links are set up. */
module X2Matrix {
  import opened Matriz
  import opened X2Addresses
  import opened X2Entries
  import opened X2Links

  ghost function Known(ip2id: map<nat, nat>, a: nat): int {
    if a in ip2id then ip2id[a] else -1
  }

  method CollectOwners(stations: Stations) returns (ip2id: map<nat, nat>)
    ensures forall a: nat :: Known(ip2id, a) == Owner(stations, |stations|, a)
  {
    ip2id := map[];
    for i := 0 to |stations|
      invariant forall a: nat :: Known(ip2id, a) == Owner(stations, i, a)
    {
      for j := 0 to |stations[i]|
        invariant forall a: nat :: Known(ip2id, a) == if a in stations[i][..j] then i else Owner(stations, i, a)
      {
        ip2id := ip2id[stations[i][j] := i];
        assert stations[i][..j + 1] == stations[i][..j] + [stations[i][j]];
      }
      assert stations[i][..|stations[i]|] == stations[i];
    }
  }

  ghost function Found(ip2id: map<nat, nat>, a: nat): nat {
    if a in ip2id then ip2id[a] else 0
  }

  /** Rows before `i` are complete, row `i` shows its first `j` interfaces, later rows are unset. */
  ghost function Progress(stations: Stations, i: nat, j: nat, i': nat, k: nat): Entry
    requires i' < |stations| && (i < |stations| ==> j <= |stations[i]|)
  {
    if i' < i then Entries(stations, i', k) else if i' == i then EntryOf(stations, i', k, j) else Unset
  }

  ghost predicate Shows(m: Matrix<Entry>, stations: Stations, i: nat, j: nat)
    requires i < |stations| ==> j <= |stations[i]|
    reads m
  {
    && m.Valid() && m.rows == m.columns == |stations|
    && forall i': nat, k: nat :: i' < |stations| && k < |stations| ==> m.At(i', k) == Progress(stations, i, j, i', k)
  }

  /** One interface of station `i`. */
  method Record(m: Matrix<Entry>, stations: Stations, ip2id: map<nat, nat>, i: nat, j: nat) returns (ip2id': map<nat, nat>)
    requires i < |stations| && j < |stations[i]| && Shows(m, stations, i, j)
    requires forall a: nat :: Found(ip2id, a) == IdOf(stations, a)
    modifies m`elements
    ensures Shows(m, stations, i, j + 1)
    ensures forall a: nat :: Found(ip2id', a) == IdOf(stations, a)
  {
    var addr := stations[i][j];
    var peer := Peer(addr);
    ip2id' := if peer in ip2id then ip2id else ip2id[peer := 0];
    assert Found(ip2id, peer) == IdOf(stations, peer);
    var id := ip2id'[peer];
    ghost var before := m.elements;
    ghost var n := |stations|;
    var ok := m.Set(i, id, Address(addr));
    forall i': nat, k: nat | i' < n && k < n ensures m.At(i', k) == Progress(stations, i, j + 1, i', k) {
      FlatSetAt(before, n, n, i, id, Address(addr), i', k);
      assert FlatAt(before, n, n, i', k) == Progress(stations, i, j, i', k);
    }
  }

  /** `populate_x2_matrix`, on a matrix that has just been given its size. */
  method PopulateX2Matrix(m: Matrix<Entry>, stations: Stations)
    requires m.Valid() && m.rows == m.columns == |stations|
    requires forall i: nat, k: nat :: i < |stations| && k < |stations| ==> m.At(i, k) == Unset
    modifies m`elements
    ensures m.Valid() && m.rows == m.columns == |stations|
    ensures forall i: nat, k: nat :: i < |stations| && k < |stations| ==> m.At(i, k) == Entries(stations, i, k)
  {
    var ip2id := CollectOwners(stations);
    assert forall a: nat :: Found(ip2id, a) == IdOf(stations, a) by {
      forall a: nat ensures Found(ip2id, a) == IdOf(stations, a) {
        assert Known(ip2id, a) == Owner(stations, |stations|, a);
      }
    }
    for i := 0 to |stations|
      invariant Shows(m, stations, i, 0)
      invariant forall a: nat :: Found(ip2id, a) == IdOf(stations, a)
    {
      for j := 0 to |stations[i]|
        invariant Shows(m, stations, i, j)
        invariant forall a: nat :: Found(ip2id, a) == IdOf(stations, a)
      {
        ip2id := Record(m, stations, ip2id, i, j);
      }
    }
  }

  /** Linking all base stations and then reading the matrix back. */
  method InstallX2(n: nat, base: nat) returns (m: Matrix<Entry>)
    ensures fresh(m) && m.Valid() && m.rows == m.columns == n
    ensures forall s: nat, t: nat :: s < t < n ==>
              && m.At(s, t).Address? && m.At(t, s).Address? && Ends(m.At(s, t).address, m.At(t, s).address)
              && Host(m.At(s, t).address) == 1
    ensures forall s: nat :: s < n ==> m.At(s, s) == Unset
  {
    m := new Matrix<Entry>(Unset);
    m.SetDimensions(n, n);
    SizeIsProduct(n, n);
    forall i: nat, k: nat | i < n && k < n ensures m.At(i, k) == Unset {
      IndexInRange(n, n, i, k);
    }
    var stations := AddX2Interfaces(n, base);
    PopulateX2Matrix(m, stations);
    forall s: nat, t: nat | s < t < n
      ensures m.At(s, t).Address? && m.At(t, s).Address? && Ends(m.At(s, t).address, m.At(t, s).address)
      ensures Host(m.At(s, t).address) == 1
    {
      assert Joined(stations, s, t);
      var a :| Link(stations, s, t, a);
      LinkIsRecorded(stations, s, t, a);
    }
    forall s: nat | s < n ensures m.At(s, s) == Unset {
      var e := Entries(stations, s, s);
      assert e.Address? ==> LinkedElsewhere(stations, s, e.address);
      if e.Address? { EntryIffLink(stations, s, s, e.address); }
    }
  }
}
