/** `AddX2Interface` of the LTE helper, which links every two base stations over a network of their own. */
module X2Links {
  import opened X2Addresses

  /** `AddX2Interface` of one pair: a new network, with its first address at `i` and its second at `j`. */
  function AddLink(stations: Stations, i: nat, j: nat, network: nat): Stations
    requires i < |stations| && j < |stations|
  {
    var one := stations[i := stations[i] + [4 * network + 1]];
    one[j := one[j] + [4 * network + 2]]
  }

  ghost predicate Below(stations: Stations, network: nat) {
    forall s: nat, a: nat :: HasPort(stations, s, a) ==> a < 4 * network
  }

  ghost predicate Joined(stations: Stations, s: nat, t: nat) {
    exists a :: Link(stations, s, t, a)
  }

  lemma AddLinkPorts(stations: Stations, i: nat, j: nat, network: nat, s: nat, a: nat)
    requires i < |stations| && j < |stations| && i != j
    ensures HasPort(AddLink(stations, i, j, network), s, a)
       <==> HasPort(stations, s, a) || (s == i && a == 4 * network + 1) || (s == j && a == 4 * network + 2)
  {
  }

  /** A new network brings one link in each direction and leaves the others. */
  lemma AddLinkLinks(stations: Stations, i: nat, j: nat, network: nat, s: nat, t: nat, a: nat)
    requires i < |stations| && j < |stations| && i != j && Below(stations, network)
    ensures Link(AddLink(stations, i, j, network), s, t, a)
       <==> Link(stations, s, t, a) || (s == i && t == j && a == 4 * network + 1) || (s == j && t == i && a == 4 * network + 2)
  {
    AddLinkPorts(stations, i, j, network, s, a);
    AddLinkPorts(stations, i, j, network, t, Peer(a));
    assert Peer(4 * network + 1) == 4 * network + 2 && Peer(4 * network + 2) == 4 * network + 1;
    assert a < 4 * network <==> Network(a) < 4 * network;
    assert Peer(a) < 4 * network <==> Network(a) < 4 * network;
  }

  lemma AddLinkKeepsProper(stations: Stations, i: nat, j: nat, network: nat)
    requires i < |stations| && j < |stations| && i != j && Below(stations, network)
    requires ProperLinks(stations) && !Joined(stations, i, j)
    ensures ProperLinks(AddLink(stations, i, j, network))
  {
    var after := AddLink(stations, i, j, network);
    assert !Joined(stations, j, i) by {
      if a :| Link(stations, j, i, a) {
        EndsArePeers(a, Peer(a));
        assert Link(stations, i, j, Peer(a));
      }
    }
    forall s: nat, a: nat | HasPort(after, s, a) ensures 1 <= Host(a) <= 2 && LinkedElsewhere(after, s, a) {
      AddLinkPorts(stations, i, j, network, s, a);
      var t: nat;
      if HasPort(stations, s, a) {
        assert LinkedElsewhere(stations, s, a);
        t :| t != s && Link(stations, s, t, a);
      } else {
        t := if s == i then j else i;
      }
      AddLinkLinks(stations, i, j, network, s, t, a);
    }
    forall s, t, a | HasPort(after, s, a) && HasPort(after, t, a) ensures s == t {
      AddLinkPorts(stations, i, j, network, s, a);
      AddLinkPorts(stations, i, j, network, t, a);
    }
    forall s, t, a, b | Link(after, s, t, a) && Link(after, s, t, b) ensures a == b {
      AddLinkLinks(stations, i, j, network, s, t, a);
      AddLinkLinks(stations, i, j, network, s, t, b);
    }
  }

  lemma AddLinkJoins(stations: Stations, i: nat, j: nat, network: nat, s: nat, t: nat)
    requires i < |stations| && j < |stations| && i != j && Below(stations, network)
    ensures Joined(AddLink(stations, i, j, network), s, t)
       <==> Joined(stations, s, t) || (s == i && t == j) || (s == j && t == i)
  {
    var after := AddLink(stations, i, j, network);
    if a :| Link(after, s, t, a) { AddLinkLinks(stations, i, j, network, s, t, a); }
    if a :| Link(stations, s, t, a) { AddLinkLinks(stations, i, j, network, s, t, a); }
    AddLinkLinks(stations, i, j, network, s, t, 4 * network + 1);
    AddLinkLinks(stations, i, j, network, s, t, 4 * network + 2);
  }

  /** The pairs that the nested loops have linked when they stand at `i` and `j`. */
  ghost predicate JoinedUpTo(stations: Stations, i: nat, j: nat) {
    forall s: nat, t: nat :: s < t < |stations| ==> (Joined(stations, s, t) <==> s < i || (s == i && t < j))
  }

  /** The station listed first gets the first address. */
  ghost predicate FirstIsOne(stations: Stations) {
    forall s, t, a :: s < t && Link(stations, s, t, a) ==> Host(a) == 1
  }

  /** Every station has its addresses in the order in which it was linked. */
  ghost predicate Ascending(stations: Stations) {
    forall s, j, k :: 0 <= s < |stations| && 0 <= j < k < |stations[s]| ==> stations[s][j] < stations[s][k]
  }

  lemma AddLinkAscends(stations: Stations, i: nat, j: nat, network: nat)
    requires i < |stations| && j < |stations| && i != j && Below(stations, network) && Ascending(stations)
    ensures Ascending(AddLink(stations, i, j, network))
  {
    forall s, k | 0 <= s < |stations| && 0 <= k < |stations[s]| ensures stations[s][k] < 4 * network {
      assert HasPort(stations, s, stations[s][k]);
    }
  }

  /** What `AddX2Interface` keeps while it goes through the pairs. */
  ghost predicate Linking(stations: Stations, network: nat, i: nat, j: nat) {
    ProperLinks(stations) && FirstIsOne(stations) && Ascending(stations) && Below(stations, network) && JoinedUpTo(stations, i, j)
  }

  lemma LinkingStep(stations: Stations, network: nat, i: nat, j: nat)
    requires i < j < |stations| && Linking(stations, network, i, j)
    ensures Linking(AddLink(stations, i, j, network), network + 1, i, j + 1)
  {
    var after := AddLink(stations, i, j, network);
    AddLinkKeepsProper(stations, i, j, network);
    AddLinkAscends(stations, i, j, network);
    forall s: nat, a: nat | HasPort(after, s, a) ensures a < 4 * (network + 1) {
      AddLinkPorts(stations, i, j, network, s, a);
    }
    forall s, t, a | s < t && Link(after, s, t, a) ensures Host(a) == 1 {
      AddLinkLinks(stations, i, j, network, s, t, a);
    }
    forall s: nat, t: nat | s < t < |after| ensures Joined(after, s, t) <==> s < i || (s == i && t < j + 1) {
      AddLinkJoins(stations, i, j, network, s, t);
    }
  }

  /** `LteHelper::AddX2Interface` over all base stations; `base` is the number of the first network used. */
  method AddX2Interfaces(n: nat, base: nat) returns (stations: Stations)
    ensures |stations| == n && ProperLinks(stations) && FirstIsOne(stations) && Ascending(stations)
    ensures forall s: nat, t: nat :: s < t < n ==> Joined(stations, s, t)
  {
    stations := seq(n, _ => []);
    var network := base;
    assert forall s, a :: !HasPort(stations, s, a);
    assert forall s, t :: !Joined(stations, s, t);
    for i := 0 to n
      invariant |stations| == n && Linking(stations, network, i, i + 1)
    {
      for j := i + 1 to n
        invariant |stations| == n && Linking(stations, network, i, j)
      {
        LinkingStep(stations, network, i, j);
        stations := AddLink(stations, i, j, network);
        network := network + 1;
      }
    }
  }
}
