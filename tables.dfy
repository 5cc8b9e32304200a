/** Cell retrieval from table and collection views, and invoking a table
    row's edit action by title. */
module Tables {
  import opened ArmoryErrors
  import opened Locator

  /** The position of a cell: a section and a row (or item) within it. */
  datatype IndexPath = IndexPath(section: nat, row: nat)

  /** A cell: its identity and the classes it is an instance of (its own
      class and all its superclasses), which decide the `as? A` cast. */
  datatype Cell = Cell(id: nat, classes: set<string>)

  /** cell(at:fromTableView:) and cell(at:fromCollectionView:): `visible` holds
      the cells the view currently displays, by index path. No cell at the
      path, or a cell that is not an instance of the requested class, is
      `invalidCellType`; otherwise that very cell is returned. */
  function CellAt(visible: map<IndexPath, Cell>, at: IndexPath, requested: string): (r: Result<Cell>)
    ensures r.Ok? <==> at in visible && requested in visible[at].classes
    ensures r.Ok? ==> r.value == visible[at]
    ensures r.Err? ==> r.error == InvalidCellType
  {
    if at !in visible then Err(InvalidCellType)
    else if requested !in visible[at].classes then Err(InvalidCellType)
    else Ok(visible[at])
  }

  /** A row edit action: its optional title and its handler. */
  datatype RowAction = RowAction(title: Option<string>, handler: Handler)

  /** Looks up the edit action of a row by title: a nil action list is
      `cellNotEditable`; no action with the title is `titleLookupFailed`;
      several are `multipleMatchesFound`; exactly one gives its offset. */
  function EditAction(actions: Option<seq<RowAction>>, title: string): (r: Result<nat>)
    ensures r == Err(CellNotEditable) <==> actions.None?
    ensures r.Ok? ==> actions.Some? && r.value < |actions.value| && actions.value[r.value].title == Some(title)
    ensures r.Ok? ==> forall j :: 0 <= j < |actions.value| && j != r.value ==> actions.value[j].title != Some(title)
    ensures r == Err(TitleLookupFailed) <==>
              actions.Some? && forall j :: 0 <= j < |actions.value| ==> actions.value[j].title != Some(title)
    ensures r == Err(MultipleMatchesFound) <==>
              actions.Some? &&
              exists i, j :: 0 <= i < j < |actions.value| &&
                actions.value[i].title == Some(title) && actions.value[j].title == Some(title)
  {
    if actions.None? then Err(CellNotEditable)
    else
      var items := TitledItems(actions.value, (a: RowAction) => a.title);
      assert forall j :: 0 <= j < |items| ==> (Matches(items[j], ByTitle(title)) <==> actions.value[j].title == Some(title));
      Locate(items, ByTitle(title))
  }

  /** A handler run for the row at an index path. */
  datatype Invocation = Invocation(handler: Handler, at: IndexPath)

  /** A table view: the edit actions its delegate gives each row (a row
      missing from the map gets nil) and the handlers run so far, oldest
      first. */
  class TableView {
    var editActions: map<IndexPath, seq<RowAction>>
    var invoked: seq<Invocation>

    /** What the delegate's editActionsForRowAt answers for a row. */
    function EditActionsAt(at: IndexPath): (answer: Option<seq<RowAction>>)
      reads this
      ensures answer.None? <==> at !in editActions
      ensures answer.Some? ==> answer.value == editActions[at]
    {
      if at in editActions then Some(editActions[at]) else None
    }

    /** selectCellAction(withTitle:at:in:): the lookup's error, with no
        handler run, when the row has no edit actions or the title is not
        borne by exactly one of them; otherwise that action's handler runs
        once with the index path. */
    method SelectCellAction(title: string, at: IndexPath) returns (r: Outcome)
      modifies this`invoked
      ensures r == Fail(CellNotEditable) <==> at !in editActions
      ensures EditAction(EditActionsAt(at), title).Err? ==>
                r == Fail(EditAction(EditActionsAt(at), title).error) && invoked == old(invoked)
      ensures EditAction(EditActionsAt(at), title).Ok? ==>
                r == Pass &&
                invoked == old(invoked) + [Invocation(editActions[at][EditAction(EditActionsAt(at), title).value].handler, at)]
    {
      var found := EditAction(EditActionsAt(at), title);
      if found.Err? {
        return Fail(found.error);
      }
      var action := editActions[at][found.value];
      invoked := invoked + [Invocation(action.handler, at)];
      r := Pass;
    }
  }

  /** A row offering "Delete" and "Share": "Delete" runs the delete handler
      with the row's index path, "Invalid" fails to look up, and a row the
      delegate gives no actions is not editable. */
  method EditActionExample(delete: Handler, share: Handler)
  {
    var table := new TableView;
    var row := IndexPath(0, 1);
    table.editActions := map[row := [RowAction(Some("Delete"), delete), RowAction(Some("Share"), share)]];
    table.invoked := [];
    var r := table.SelectCellAction("Delete", row);
    assert table.editActions[row][0].title == Some("Delete");
    assert r == Pass && table.invoked == [Invocation(delete, row)];
    r := table.SelectCellAction("Invalid", row);
    assert r == Fail(TitleLookupFailed) && table.invoked == [Invocation(delete, row)];
    r := table.SelectCellAction("Delete", IndexPath(0, 2));
    assert r == Fail(CellNotEditable);
  }
}
