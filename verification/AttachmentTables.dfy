/** The callbacks and scans of scratch/simulation.cc over the mutable `cellUe` matrix, each proved to
    make the step that CellAttachment's theorems are about. */
module AttachmentTables {
  import opened Matriz
  import opened CellAttachment

  class Attachments {
    const cellUe: Matrix<int>
    var imsiOf: map<(nat, nat), nat>
    ghost var handing: set<nat>

    ghost predicate Valid()
      reads this, cellUe
    {
      cellUe.Valid()
    }

    ghost function View(): State
      reads this, cellUe
    {
      State(cellUe.rows, cellUe.columns, cellUe.elements, imsiOf, handing)
    }

    constructor (cells: nat, users: nat)
      ensures Valid() && fresh(cellUe) && View() == Init(cells, users)
    {
      var m := new Matrix<int>(0);
      m.SetDimensions(cells, users);
      SizeIsProduct(cells, users);
      cellUe, imsiOf, handing := m, map[], {};
    }

    method GetCell(user: nat) returns (c: int)
      requires Valid() && user < cellUe.columns
      ensures c == FirstMatch(View(), user, 0)
    {
      for i := 0 to cellUe.rows
        invariant FirstMatch(View(), user, 0) == FirstMatch(View(), user, i)
      {
        var entry := cellUe.Get(i, user);
        if entry.value != 0 { return i; }
      }
      return -1;
    }

    method GetCellFromImsi(imsi: nat) returns (servingCell: nat)
      requires Valid() && 1 <= imsi <= cellUe.columns
      ensures servingCell == LastMatch(View(), imsi - 1, cellUe.rows)
    {
      servingCell := 0;
      for i := 0 to cellUe.rows
        invariant servingCell == LastMatch(View(), imsi - 1, i)
      {
        var entry := cellUe.Get(i, imsi - 1);
        if entry.value != 0 { servingCell := i; }
      }
    }

    /** Subscripting inserts a zero entry for an unknown pair. */
    method AskImsi(cell: nat, rnti: nat) returns (imsi: int)
      requires Valid()
      modifies this
      ensures View() == Apply(old(View()), ImsiAsked(cell, rnti)) && Valid()
      ensures imsi == CellAttachment.GetImsi(old(View()), cell, rnti)
    {
      if (cell, rnti) !in imsiOf { imsiOf := imsiOf[(cell, rnti) := 0]; }
      imsi := if imsiOf[(cell, rnti)] == 0 then -1 else imsiOf[(cell, rnti)];
    }

    method ConnectionEstablished(user: nat, cell: nat, rnti: nat)
      requires Valid() && user < cellUe.columns && cell < cellUe.rows
      modifies this, cellUe
      ensures View() == Apply(old(View()), Connected(user, cell, rnti)) && Valid()
    {
      var oldCell := GetCell(user);
      var ok;
      if oldCell != -1 { ok := cellUe.Set(oldCell, user, 0); }
      ok := cellUe.Set(cell, user, rnti);
      imsiOf := imsiOf[(cell, rnti) := user + 1];
      handing := handing - {user};
    }

    method HandoverStart(user: nat, cell: nat)
      requires Valid() && user < cellUe.columns && cell < cellUe.rows
      modifies this, cellUe
      ensures View() == Apply(old(View()), HandoverStarted(user, cell)) && Valid()
    {
      var ok := cellUe.Set(cell, user, 0);
      handing := handing + {user};
    }

    method HandoverEndOk(user: nat, cell: nat, rnti: nat)
      requires Valid() && user < cellUe.columns && cell < cellUe.rows
      modifies this, cellUe
      ensures View() == Apply(old(View()), HandoverEnded(user, cell, rnti)) && Valid()
    {
      var ok := cellUe.Set(cell, user, rnti);
      imsiOf := imsiOf[(cell, rnti) := user + 1];
      handing := handing - {user};
    }
  }
}
