/** What the attachment callbacks do to the tables, one by one and over whole runs. */
module AttachmentRuns {
  import opened Matriz
  import opened CellAttachment

  // ---------------------------------------------------------------- what a callback does to the tables

  /** The row of `user` shows `rnti` at `cell` and nothing elsewhere; the rows of all others are as before. */
  ghost predicate RowIs(s: State, s': State, user: nat, cell: int, rnti: int) {
    && Shaped(s) && Shaped(s') && s'.cells == s.cells && s'.users == s.users
    && forall c: nat, u: nat :: c < s.cells && u < s.users ==>
         Rnti(s', c, u) == if u != user then Rnti(s, c, u) else if c == cell then rnti else 0
  }

  ghost predicate NamesOnly(s: State, s': State, cell: nat, rnti: nat, imsi: nat) {
    && (forall k :: k in s'.imsiOf <==> k in s.imsiOf || k == (cell, rnti))
    && (forall k :: k in s'.imsiOf ==> s'.imsiOf[k] == if k == (cell, rnti) then imsi else s.imsiOf[k])
  }

  /** A user that was served nowhere is served by the cell it attaches to. */
  lemma AttachMovesRow(s: State, user: nat, cell: nat, rnti: nat)
    requires Shaped(s) && user < s.users && cell < s.cells && forall c: nat :: !Serves(s, c, user)
    ensures RowIs(s, Attach(s, user, cell, rnti), user, cell, rnti)
  {
    AttachWrote(s, user, cell, rnti);
    assert forall c: nat :: c < s.cells ==> (Serves(s, c, user) <==> Rnti(s, c, user) != 0);
  }

  /** A connected user is served by the cell it connected to and by no other, whatever served it before, and that cell's
      entry for the RNTI names it. */
  lemma ConnectedMoves(s: State, user: nat, cell: nat, rnti: nat)
    requires Inv(s) && Plausible(s, Connected(user, cell, rnti))
    ensures RowIs(s, Apply(s, Connected(user, cell, rnti)), user, cell, rnti)
    ensures NamesOnly(s, Apply(s, Connected(user, cell, rnti)), cell, rnti, user + 1)
  {
    var oldCell := FirstMatch(s, user, 0);
    if oldCell != -1 {
      DetachKeepsInv(s, user, oldCell);
      AttachMovesRow(Write(s, oldCell, user, 0), user, cell, rnti);
    } else {
      AttachMovesRow(s, user, cell, rnti);
    }
  }

  lemma HandoverEndedMoves(s: State, user: nat, cell: nat, rnti: nat)
    requires Inv(s) && Plausible(s, HandoverEnded(user, cell, rnti))
    ensures RowIs(s, Apply(s, HandoverEnded(user, cell, rnti)), user, cell, rnti)
    ensures NamesOnly(s, Apply(s, HandoverEnded(user, cell, rnti)), cell, rnti, user + 1)
  {
    AttachMovesRow(s, user, cell, rnti);
  }

  /** Between start and end of a handover no cell serves the user. */
  lemma HandoverStartedMoves(s: State, user: nat, cell: nat)
    requires Inv(s) && Plausible(s, HandoverStarted(user, cell))
    ensures RowIs(s, Apply(s, HandoverStarted(user, cell)), user, -1, 0)
    ensures Apply(s, HandoverStarted(user, cell)).imsiOf == s.imsiOf
  {
    WriteRnti(s, cell, user, 0);
    var s' := Apply(s, HandoverStarted(user, cell));
    assert AtMostOneCell(s, user) && Serves(s, cell, user);
    forall c: nat, u: nat | c < s.cells && u < s.users ensures Rnti(s', c, u) == if u == user then 0 else Rnti(s, c, u) {
      assert Rnti(s', c, u) == Rnti(Write(s, cell, user, 0), c, u);
      assert u == user && Rnti(s, c, u) != 0 ==> Serves(s, c, user);
    }
  }

  /** Where the last callback about a user put it. */
  datatype Place = Nowhere | At(cell: nat, rnti: nat)

  ghost function LastPlace(events: seq<Event>, user: nat): Place {
    if events == [] then Nowhere
    else
      var n := |events| - 1;
      match events[n]
      case Connected(u, cell, rnti) => if u == user then At(cell, rnti) else LastPlace(events[..n], user)
      case HandoverStarted(u, _) => if u == user then Nowhere else LastPlace(events[..n], user)
      case HandoverEnded(u, cell, rnti) => if u == user then At(cell, rnti) else LastPlace(events[..n], user)
      case ImsiAsked(_, _) => LastPlace(events[..n], user)
  }

  /** The IMSI of the last user that attached to `cell` with `rnti`, or -1. */
  ghost function LastNamed(events: seq<Event>, cell: nat, rnti: nat): int {
    if events == [] then -1
    else
      var n := |events| - 1;
      if (events[n].Connected? || events[n].HandoverEnded?) && events[n].cell == cell && events[n].rnti == rnti
      then events[n].user + 1
      else LastNamed(events[..n], cell, rnti)
  }

  ghost function Shown(p: Place, c: nat): int {
    if p.At? && p.cell == c then p.rnti else 0
  }

  ghost predicate FollowsEvents(events: seq<Event>, s: State) {
    && Shaped(s)
    && (forall c: nat, u: nat :: c < s.cells && u < s.users ==> Rnti(s, c, u) == Shown(LastPlace(events, u), c))
    && (forall c: nat, rnti: nat :: GetImsi(s, c, rnti) == LastNamed(events, c, rnti))
  }

  lemma StepFollows(events: seq<Event>, s: State, e: Event)
    requires Inv(s) && FollowsEvents(events, s) && Plausible(s, e)
    ensures FollowsEvents(events + [e], Apply(s, e))
  {
    assert (events + [e])[..|events|] == events;
    var s' := Apply(s, e);
    match e {
      case Connected(user, cell, rnti) => ConnectedMoves(s, user, cell, rnti);
      case HandoverStarted(user, cell) => HandoverStartedMoves(s, user, cell);
      case HandoverEnded(user, cell, rnti) => HandoverEndedMoves(s, user, cell, rnti);
      case ImsiAsked(cell, rnti) =>
        assert forall c: nat, u: nat :: c < s.cells && u < s.users ==> Rnti(s', c, u) == Rnti(s, c, u);
    }
    forall c: nat, u: nat | c < s.cells && u < s.users ensures Rnti(s', c, u) == Shown(LastPlace(events + [e], u), c) {
      assert Rnti(s, c, u) == Shown(LastPlace(events, u), c);
    }
  }

  lemma InitFollows(cells: nat, users: nat)
    ensures FollowsEvents([], Init(cells, users))
  {
    var s := Init(cells, users);
    forall c: nat, u: nat | c < cells && u < users ensures Rnti(s, c, u) == 0 { IndexInRange(cells, users, c, u); }
  }

  lemma ApplyKeepsSize(s: State, e: Event)
    requires Shaped(s) && Plausible(s, e)
    ensures Apply(s, e).cells == s.cells && Apply(s, e).users == s.users
  {
  }

  /** In every run each table entry is what the last callback about the user left: the RNTI at the cell of its last
      connect or handover end, nothing anywhere else, and nothing at all after a handover start. `get_imsi` answers with
      the last user that attached to the cell with that RNTI. */
  lemma {:induction false} TablesInEveryRun(cells: nat, users: nat, events: seq<Event>, s: State)
    requires Run(cells, users, events, s)
    ensures FollowsEvents(events, s) && s.cells == cells && s.users == users
    decreases |events|
  {
    if events == [] {
      InitFollows(cells, users);
    } else {
      var n := |events| - 1;
      var before :| Run(cells, users, events[..n], before) && Shaped(before)
                    && Plausible(before, events[n]) && s == Apply(before, events[n]);
      TablesInEveryRun(cells, users, events[..n], before);
      assert FollowsEvents(events[..n] + [events[n]], s) by {
        EveryRunKeepsInv(cells, users, events[..n], before);
        StepFollows(events[..n], before, events[n]);
      }
      ApplyKeepsSize(before, events[n]);
      assert events == events[..n] + [events[n]];
    }
  }

  /** The first-match and the last-match scan agree exactly for users with a cell. */
  lemma ScansAgreeIffServed(s: State, user: nat)
    requires Shaped(s) && user < s.users && AtMostOneCell(s, user)
    ensures FirstMatch(s, user, 0) == LastMatch(s, user, s.cells) <==> exists c :: Serves(s, c, user)
    ensures forall c: nat :: Serves(s, c, user) ==> FirstMatch(s, user, 0) == c == LastMatch(s, user, s.cells)
  {
    var first, last := FirstMatch(s, user, 0), LastMatch(s, user, s.cells);
    if first >= 0 {
      assert Serves(s, first, user) && Serves(s, last, user);
    }
  }

  /** In every run: a user has at most one serving cell, both scans find it, and `get_imsi` finds the user back. */
  lemma AttachmentInEveryRun(cells: nat, users: nat, events: seq<Event>, s: State, user: nat)
    requires Run(cells, users, events, s) && user < s.users
    ensures Shaped(s) && AtMostOneCell(s, user)
    ensures FirstMatch(s, user, 0) == LastMatch(s, user, s.cells) <==> exists c :: Serves(s, c, user)
    ensures forall c: nat :: Serves(s, c, user) ==> FirstMatch(s, user, 0) == c == LastMatch(s, user, s.cells)
    ensures forall c: nat :: Serves(s, c, user) ==> Rnti(s, c, user) > 0 && GetImsi(s, c, Rnti(s, c, user)) == user + 1
  {
    EveryRunKeepsInv(cells, users, events, s);
    ScansAgreeIffServed(s, user);
    forall c: nat | Serves(s, c, user) ensures Rnti(s, c, user) > 0 && GetImsi(s, c, Rnti(s, c, user)) == user + 1 {
      assert Named(s, c, user);
    }
  }

  /** Without the start: a handover end leaves the user with one cell exactly when it carries no RNTI or no
      other cell serves the user. */
  lemma LoneHandoverEndIff(s: State, user: nat, cell: nat, rnti: nat)
    requires Shaped(s) && AtMostOneCell(s, user) && user < s.users && cell < s.cells
    ensures AtMostOneCell(Apply(s, HandoverEnded(user, cell, rnti)), user)
       <==> rnti == 0 || forall c: nat :: Serves(s, c, user) ==> c == cell
  {
    AttachWrote(s, user, cell, rnti);
    ServesAfterWrite(s, Attach(s, user, cell, rnti), cell, user, rnti);
  }

  lemma ServesAfterWrite(s: State, s': State, cell: nat, user: nat, rnti: int)
    requires Wrote(s, s', cell, user, rnti) && AtMostOneCell(s, user)
    ensures AtMostOneCell(s', user) <==> rnti == 0 || forall c: nat :: Serves(s, c, user) ==> c == cell
  {
    assert forall c: nat :: Serves(s', c, user) <==> if c == cell then rnti != 0 else Serves(s, c, user);
    assert rnti != 0 ==> Serves(s', cell, user);
  }
}
