/** The addresses of the X2 links between base stations. A station is the list of the addresses of its X2 interfaces. */
module X2Addresses {
  type Stations = seq<seq<nat>>

  // ---------------------------------------------------------------- networks of four addresses

  function Host(a: nat): nat { a % 4 }

  function Network(a: nat): nat { a - a % 4 }

  function Peer(a: nat): nat {
    Network(a) + if Host(a) == 1 then 2 else 1
  }

  /** The two usable addresses of one network. */
  predicate Ends(a: nat, b: nat) {
    Network(a) == Network(b) && ((Host(a) == 1 && Host(b) == 2) || (Host(a) == 2 && Host(b) == 1))
  }

  lemma EndsArePeers(a: nat, b: nat)
    ensures Ends(a, b) <==> b == Peer(a) && 1 <= Host(a) <= 2
    ensures Ends(a, b) ==> a == Peer(b) && Ends(b, a)
  {
    if b == Peer(a) { assert Host(b) == if Host(a) == 1 then 2 else 1; }
  }

  // ---------------------------------------------------------------- links

  ghost predicate HasPort(stations: Stations, s: nat, a: nat) {
    s < |stations| && a in stations[s]
  }

  /** Station `s` has address `a`, and station `t` the other end of that network. */
  ghost predicate Link(stations: Stations, s: nat, t: nat, a: nat) {
    HasPort(stations, s, a) && HasPort(stations, t, Peer(a))
  }

  ghost predicate LinkedElsewhere(stations: Stations, s: nat, a: nat) {
    exists t :: t != s && Link(stations, s, t, a)
  }

  /** Every interface has host number 1 or 2, no two stations share an address, the other end of every network is
      at another station, and no two networks join the same two stations. */
  ghost predicate ProperLinks(stations: Stations) {
    && (forall s, a :: HasPort(stations, s, a) ==> 1 <= Host(a) <= 2)
    && (forall s, t, a :: HasPort(stations, s, a) && HasPort(stations, t, a) ==> s == t)
    && (forall s, a {:trigger LinkedElsewhere(stations, s, a)} ::
          HasPort(stations, s, a) ==> LinkedElsewhere(stations, s, a))
    && (forall s, t, a, b :: Link(stations, s, t, a) && Link(stations, s, t, b) ==> a == b)
  }
}
