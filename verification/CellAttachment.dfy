/** Which cell serves which user: `cellUe`, `rnti_cells` and the callbacks of scratch/simulation.cc that
    write them. Cells and users are numbered from zero; an IMSI is a user number plus one. */
module CellAttachment {
  import opened Matriz

  /** `handing` are the users whose last callback was a handover start. */
  datatype State = State(cells: nat, users: nat, cellUe: seq<int>, imsiOf: map<(nat, nat), nat>, handing: set<nat>)

  datatype Event =
    | Connected(user: nat, cell: nat, rnti: nat)
    | HandoverStarted(user: nat, cell: nat)
    | HandoverEnded(user: nat, cell: nat, rnti: nat)
    | ImsiAsked(cell: nat, rnti: nat)

  ghost predicate Shaped(s: State) {
    |s.cellUe| == Size(s.cells, s.users)
  }

  function Rnti(s: State, cell: nat, user: nat): int
    requires Shaped(s) && cell < s.cells && user < s.users
  {
    FlatAt(s.cellUe, s.cells, s.users, cell, user)
  }

  function Write(s: State, cell: nat, user: nat, rnti: int): (s': State)
    requires Shaped(s) && cell < s.cells && user < s.users
    ensures Shaped(s')
  {
    s.(cellUe := FlatSet(s.cellUe, s.cells, s.users, cell, user, rnti))
  }

  lemma WriteRnti(s: State, cell: nat, user: nat, rnti: int)
    requires Shaped(s) && cell < s.cells && user < s.users
    ensures forall c: nat, u: nat :: c < s.cells && u < s.users ==>
              Rnti(Write(s, cell, user, rnti), c, u) == if c == cell && u == user then rnti else Rnti(s, c, u)
  {
    forall c: nat, u: nat | c < s.cells && u < s.users
      ensures Rnti(Write(s, cell, user, rnti), c, u) == if c == cell && u == user then rnti else Rnti(s, c, u)
    {
      FlatSetAt(s.cellUe, s.cells, s.users, cell, user, rnti, c, u);
    }
  }

  // ---------------------------------------------------------------- the scans

  /** `get_cell`, `getCellId`: the first cell with a nonzero entry from row `from` on, or -1. */
  function FirstMatch(s: State, user: nat, from: nat): (c: int)
    requires Shaped(s) && user < s.users && from <= s.cells
    ensures c == -1 || from <= c < s.cells
    ensures c >= 0 ==> Rnti(s, c, user) != 0
    ensures forall d: nat :: from <= d < (if c < 0 then s.cells else c) ==> Rnti(s, d, user) == 0
    decreases s.cells - from
  {
    if from == s.cells then -1
    else if Rnti(s, from, user) != 0 then from
    else FirstMatch(s, user, from + 1)
  }

  /** `get_cell_from_imsi`: the last cell with a nonzero entry among the first `n`, or cell 0. */
  function LastMatch(s: State, user: nat, n: nat): (c: nat)
    requires Shaped(s) && user < s.users && n <= s.cells
    ensures c == 0 || c < n
    ensures (forall d: nat :: d < n ==> Rnti(s, d, user) == 0) || (c < n && Rnti(s, c, user) != 0)
    ensures forall d: nat :: c < d < n ==> Rnti(s, d, user) == 0
  {
    if n == 0 then 0
    else if Rnti(s, n - 1, user) != 0 then n - 1
    else LastMatch(s, user, n - 1)
  }

  /** `get_imsi`: zero stands for an entry never written. */
  function GetImsi(s: State, cell: nat, rnti: nat): int {
    if (cell, rnti) in s.imsiOf && s.imsiOf[(cell, rnti)] != 0 then s.imsiOf[(cell, rnti)] else -1
  }

  // ---------------------------------------------------------------- the callbacks

  function Attach(s: State, user: nat, cell: nat, rnti: nat): State
    requires Shaped(s) && cell < s.cells && user < s.users
  {
    Write(s, cell, user, rnti).(imsiOf := s.imsiOf[(cell, rnti) := user + 1], handing := s.handing - {user})
  }

  function Apply(s: State, e: Event): State
    requires Shaped(s)
    requires !e.ImsiAsked? ==> e.user < s.users && e.cell < s.cells
  {
    match e
    case Connected(user, cell, rnti) =>
      var oldCell := FirstMatch(s, user, 0);
      Attach(if oldCell != -1 then Write(s, oldCell, user, 0) else s, user, cell, rnti)
    case HandoverStarted(user, cell) => Write(s, cell, user, 0).(handing := s.handing + {user})
    case HandoverEnded(user, cell, rnti) => Attach(s, user, cell, rnti)
    case ImsiAsked(cell, rnti) =>
      // subscripting the map inserts a zero
      if (cell, rnti) in s.imsiOf then s else s.(imsiOf := s.imsiOf[(cell, rnti) := 0])
  }

  /** No other user of the cell holds this RNTI; zero is not an RNTI. */
  ghost predicate Unused(s: State, user: nat, cell: nat, rnti: nat)
    requires Shaped(s) && cell < s.cells && user < s.users
  {
    rnti != 0 ==> forall u: nat :: u < s.users && u != user ==> Rnti(s, cell, u) != rnti
  }

  /** What the radio stack promises: a handover starts from the current cell and ends only after a
      start, and an RNTI in use is not given to a second user of the cell. */
  ghost predicate Plausible(s: State, e: Event)
    requires Shaped(s)
  {
    match e
    case Connected(user, cell, rnti) => user < s.users && cell < s.cells && Unused(s, user, cell, rnti)
    case HandoverStarted(user, cell) => user < s.users && cell < s.cells && Rnti(s, cell, user) != 0
    case HandoverEnded(user, cell, rnti) => user < s.users && cell < s.cells && Unused(s, user, cell, rnti) && user in s.handing
    case ImsiAsked(_, _) => true
  }

  function Init(cells: nat, users: nat): State {
    State(cells, users, Resized([], Size(cells, users), 0), map[], {})
  }

  ghost predicate Run(cells: nat, users: nat, events: seq<Event>, s: State)
    decreases |events|
  {
    if events == [] then s == Init(cells, users)
    else
      var n := |events| - 1;
      exists before :: Run(cells, users, events[..n], before) && Shaped(before)
                       && Plausible(before, events[n]) && s == Apply(before, events[n])
  }

  // ---------------------------------------------------------------- the invariant

  ghost predicate Serves(s: State, cell: nat, user: nat) {
    Shaped(s) && cell < s.cells && user < s.users && Rnti(s, cell, user) != 0
  }

  ghost predicate AtMostOneCell(s: State, user: nat) {
    forall c, d :: Serves(s, c, user) && Serves(s, d, user) ==> c == d
  }

  ghost predicate OneCellEach(s: State) {
    forall u: nat :: u < s.users ==> AtMostOneCell(s, u)
  }

  /** A user between two cells is served by none. */
  ghost predicate HandingUnserved(s: State) {
    forall c: nat, u: nat :: u in s.handing ==> !Serves(s, c, u)
  }

  /** The entry of a serving cell for the user's RNTI names that user, whatever stale entries say. */
  ghost predicate Named(s: State, c: nat, u: nat)
    requires Serves(s, c, u)
  {
    var rnti := Rnti(s, c, u);
    rnti > 0 && (c, rnti) in s.imsiOf && s.imsiOf[(c, rnti)] == u + 1
  }

  ghost predicate AllNamed(s: State) {
    forall c: nat, u: nat :: Serves(s, c, u) ==> Named(s, c, u)
  }

  ghost predicate Inv(s: State) {
    Shaped(s) && OneCellEach(s) && HandingUnserved(s) && AllNamed(s)
  }

  /** `s'` has the table of `s` except for one entry. */
  ghost predicate Wrote(s: State, s': State, cell: nat, user: nat, rnti: int) {
    && Shaped(s) && Shaped(s') && s'.cells == s.cells && s'.users == s.users && cell < s.cells && user < s.users
    && forall c: nat, u: nat :: c < s.cells && u < s.users ==>
                                  Rnti(s', c, u) == if c == cell && u == user then rnti else Rnti(s, c, u)
  }

  lemma AttachWrote(s: State, user: nat, cell: nat, rnti: nat)
    requires Shaped(s) && user < s.users && cell < s.cells
    ensures Wrote(s, Attach(s, user, cell, rnti), cell, user, rnti)
  {
    var s' := Attach(s, user, cell, rnti);
    assert s'.cellUe == FlatSet(s.cellUe, s.cells, s.users, cell, user, rnti);
    forall c: nat, u: nat | c < s.cells && u < s.users
      ensures Rnti(s', c, u) == if c == cell && u == user then rnti else Rnti(s, c, u)
    {
      FlatSetAt(s.cellUe, s.cells, s.users, cell, user, rnti, c, u);
    }
  }

  lemma WroteKeepsOneCell(s: State, s': State, cell: nat, user: nat, rnti: int)
    requires Wrote(s, s', cell, user, rnti) && OneCellEach(s)
    requires rnti == 0 || forall c: nat :: !Serves(s, c, user)
    ensures OneCellEach(s')
  {
    forall u: nat | u < s'.users ensures AtMostOneCell(s', u) {
      assert AtMostOneCell(s, u);
      forall c, d | Serves(s', c, u) && Serves(s', d, u) ensures c == d {
        assert (c == cell && u == user) || Serves(s, c, u);
        assert (d == cell && u == user) || Serves(s, d, u);
      }
    }
  }

  lemma AttachKeepsNames(s: State, user: nat, cell: nat, rnti: nat)
    requires Shaped(s) && AllNamed(s) && user < s.users && cell < s.cells && Unused(s, user, cell, rnti)
    requires forall c: nat :: !Serves(s, c, user)
    ensures AllNamed(Attach(s, user, cell, rnti))
  {
    AttachWrote(s, user, cell, rnti);
    var s' := Attach(s, user, cell, rnti);
    forall c: nat, u: nat | Serves(s', c, u) ensures Named(s', c, u) {
      if u != user || c != cell { assert Serves(s, c, u) && Named(s, c, u); }
    }
  }

  lemma AttachKeepsInv(s: State, user: nat, cell: nat, rnti: nat)
    requires Inv(s) && user < s.users && cell < s.cells && Unused(s, user, cell, rnti)
    requires forall c: nat :: !Serves(s, c, user)
    ensures Inv(Attach(s, user, cell, rnti))
  {
    AttachWrote(s, user, cell, rnti);
    var s' := Attach(s, user, cell, rnti);
    WroteKeepsOneCell(s, s', cell, user, rnti);
    AttachKeepsNames(s, user, cell, rnti);
    forall c: nat, u: nat | u in s'.handing ensures !Serves(s', c, u) {
      assert !Serves(s, c, u);
    }
  }

  lemma DetachKeepsInv(s: State, user: nat, cell: nat)
    requires Inv(s) && Serves(s, cell, user)
    ensures Inv(Write(s, cell, user, 0)) && Wrote(s, Write(s, cell, user, 0), cell, user, 0)
    ensures forall c: nat :: !Serves(Write(s, cell, user, 0), c, user)
  {
    WriteRnti(s, cell, user, 0);
    var s' := Write(s, cell, user, 0);
    forall c: nat, u: nat | Serves(s', c, u) ensures Serves(s, c, u) && Named(s', c, u) {
      assert Serves(s, c, u) && Named(s, c, u);
    }
    WroteKeepsOneCell(s, s', cell, user, 0);
    assert AtMostOneCell(s, user);
    forall c: nat ensures !Serves(s', c, user) {
      assert c != cell && Serves(s', c, user) ==> Serves(s, c, user);
    }
  }

  /** Marking and unmarking users, or adding entries for pairs not in the map, changes no serving cell. */
  lemma SameTable(s: State, s': State)
    requires Inv(s) && s'.cells == s.cells && s'.users == s.users && s'.cellUe == s.cellUe
    requires s'.handing == s.handing || exists u :: s'.handing == s.handing + {u} && forall c: nat :: !Serves(s, c, u)
    requires forall k :: k in s.imsiOf ==> k in s'.imsiOf && s'.imsiOf[k] == s.imsiOf[k]
    ensures Inv(s')
  {
    assert forall c: nat, u: nat :: Serves(s', c, u) <==> Serves(s, c, u);
    forall c: nat, u: nat | Serves(s', c, u) ensures Named(s', c, u) { assert Named(s, c, u); }
    forall u: nat | u < s.users ensures AtMostOneCell(s', u) { assert AtMostOneCell(s, u); }
  }

  lemma ConnectKeepsInv(s: State, user: nat, cell: nat, rnti: nat)
    requires Inv(s) && user < s.users && cell < s.cells && Unused(s, user, cell, rnti)
    ensures Inv(Apply(s, Connected(user, cell, rnti)))
  {
    var oldCell := FirstMatch(s, user, 0);
    if oldCell != -1 {
      DetachKeepsInv(s, user, oldCell);
      AttachKeepsInv(Write(s, oldCell, user, 0), user, cell, rnti);
    } else {
      AttachKeepsInv(s, user, cell, rnti);
    }
  }

  lemma StepKeepsInv(s: State, e: Event)
    requires Inv(s) && Plausible(s, e)
    ensures Inv(Apply(s, e))
  {
    match e {
      case Connected(user, cell, rnti) => ConnectKeepsInv(s, user, cell, rnti);
      case HandoverStarted(user, cell) =>
        DetachKeepsInv(s, user, cell);
        SameTable(Write(s, cell, user, 0), Apply(s, e));
      case HandoverEnded(user, cell, rnti) => AttachKeepsInv(s, user, cell, rnti);
      case ImsiAsked(cell, rnti) => SameTable(s, Apply(s, e));
    }
  }

  lemma {:induction false} EveryRunKeepsInv(cells: nat, users: nat, events: seq<Event>, s: State)
    requires Run(cells, users, events, s)
    ensures Inv(s)
    decreases |events|
  {
    if events == [] {
      forall c: nat, u: nat ensures !Serves(s, c, u) {
        if c < s.cells && u < s.users { IndexInRange(cells, users, c, u); }
      }
    } else {
      var n := |events| - 1;
      var before :| Run(cells, users, events[..n], before) && Shaped(before)
                    && Plausible(before, events[n]) && s == Apply(before, events[n]);
      EveryRunKeepsInv(cells, users, events[..n], before);
      StepKeepsInv(before, events[n]);
    }
  }
}
