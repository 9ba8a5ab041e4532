/**
 * The `Board` component of src/Board.js without its markup: the state it
 * keeps, the guard of its "drop" handler, the column-name-to-status mapping
 * of `renderSwimlane`, and what a drop does to the state.
 */
module BoardComponent {
  import opened Wrappers
  import opened Clients
  import opened Partition

  /** The dragged card as the drop handler sees it: `el.dataset.clientid`, when set. */
  datatype DragElement = DragElement(clientId: Option<string>)

  /** A container's `dataset`: its `swimlane` entry, when set. */
  datatype Dataset = Dataset(swimlane: Option<string>)

  /** The container a card is dropped on; its `dataset` may be missing. */
  datatype DropTarget = DropTarget(dataset: Option<Dataset>)

  /** A JavaScript string value that is truthy: present and not empty. */
  predicate Truthy(v: Option<string>)
  {
    v.Some? && v.value != ""
  }

  /**
   * The guard of the "drop" handler: the client id and the new status it
   * passes on, or None when the element, the target, the target's dataset,
   * the id or the status is missing or empty.
   */
  function DropRequest(el: Option<DragElement>, target: Option<DropTarget>): (r: Option<(string, string)>)
    ensures r.Some? <==>
              && el.Some? && target.Some? && target.value.dataset.Some?
              && Truthy(el.value.clientId) && Truthy(target.value.dataset.value.swimlane)
    ensures r.Some? ==>
              && r.value.0 != "" && r.value.1 != ""
              && el.value.clientId == Some(r.value.0)
              && target.value.dataset.value.swimlane == Some(r.value.1)
  {
    if el.Some? && target.Some? && target.value.dataset.Some? then
      var clientId := el.value.clientId;
      var newStatus := target.value.dataset.value.swimlane;
      if Truthy(clientId) && Truthy(newStatus) then Some((clientId.value, newStatus.value)) else None
    else
      None
  }

  /** The names of the three columns `render` draws, left to right. */
  const ColumnNames: seq<string> := ["Backlog", "In Progress", "Complete"]

  /** `renderSwimlane`'s choice of status for a column name; undefined for any other name. */
  function SwimlaneStatus(name: string): (r: Option<string>)
    ensures r.Some? <==> name in ColumnNames
    ensures r.Some? ==> ValidStatus(r.value)
  {
    if name == "Backlog" then Some("backlog")
    else if name == "In Progress" then Some("in-progress")
    else if name == "Complete" then Some("complete")
    else None
  }

  /**
   * The mapping is one-to-one between the three column names and the three
   * statuses: no two names share a status, and every status has a column.
   */
  lemma SwimlaneStatusBijective()
    ensures forall a, b :: SwimlaneStatus(a).Some? && SwimlaneStatus(a) == SwimlaneStatus(b) ==> a == b
    ensures forall status :: ValidStatus(status) ==> exists name :: SwimlaneStatus(name) == Some(status)
  {
    forall status | ValidStatus(status)
      ensures exists name :: SwimlaneStatus(name) == Some(status)
    {
      var name := if status == "backlog" then "Backlog"
                  else if status == "in-progress" then "In Progress"
                  else "Complete";
      assert SwimlaneStatus(name) == Some(status);
    }
  }

  /**
   * The three `renderSwimlane` calls of `render`, left to right: the name of
   * each column and the bucket of the state it shows.
   */
  function Rendered(b: Buckets): seq<(string, seq<Client>)>
  {
    [("Backlog", b.backlog), ("In Progress", b.inProgress), ("Complete", b.complete)]
  }

  /**
   * Each column `render` draws is named as in `ColumnNames`, and the status
   * `renderSwimlane` gives it is the status of the records in the bucket it
   * shows, so a drop on a column asks for that column's own status.
   */
  lemma ColumnsShowTheirStatus(b: Buckets)
    ensures |Rendered(b)| == |ColumnNames|
    ensures forall j :: 0 <= j < |Rendered(b)| ==>
              && Rendered(b)[j].0 == ColumnNames[j]
              && SwimlaneStatus(Rendered(b)[j].0).Some?
              && b.Column(SwimlaneStatus(Rendered(b)[j].0).value) == Rendered(b)[j].1
  {
  }

  /** The status of the `j`-th column from the left. */
  function ColumnStatus(j: nat): string
    requires j < |ColumnNames|
  {
    SwimlaneStatus(ColumnNames[j]).value
  }

  /**
   * A container of the column called `name`. The Swimlane component, which
   * is not part of this model, is taken to write the status `renderSwimlane`
   * passes it into the container's `data-swimlane` attribute.
   */
  function ColumnTarget(name: string): DropTarget
  {
    DropTarget(Some(Dataset(SwimlaneStatus(name))))
  }

  /**
   * `Board`: the component's `this.state.clients`, set by the constructor
   * and replaced as a whole by `updateClientStatus` (React's `setState`
   * taken as a synchronous assignment).
   */
  class Board {
    var clients: Buckets

    /** The state is the seed split after rewriting the status of at most one id. */
    ghost predicate Valid()
      reads this
    {
      exists id: string, status: string :: clients == StateAfterUpdate(id, status)
    }

    constructor ()
      ensures clients == InitialState()
      ensures Valid()
    {
      new;
      clients := InitialState();
      InitialStateIsSomeUpdate();
    }

    /** `updateClientStatus`: rebuilds the state from the seed with one status rewritten. */
    method UpdateClientStatus(clientId: string, newStatus: string)
      modifies this
      ensures clients == StateAfterUpdate(clientId, newStatus)
      ensures Valid()
    {
      var updatedClients := SetStatus(GetClients(), clientId, newStatus);
      clients := PartitionByStatus(updatedClients);
    }

    /** The "drop" handler: updates only when its guard lets the payload through. */
    method OnDrop(el: Option<DragElement>, target: Option<DropTarget>)
      requires Valid()
      modifies this
      ensures match DropRequest(el, target)
              case None => clients == old(clients)
              case Some(request) => clients == StateAfterUpdate(request.0, request.1)
      ensures Valid()
    {
      if el.Some? && target.Some? && target.value.dataset.Some? {
        var clientId := el.value.clientId;
        var newStatus := target.value.dataset.value.swimlane;
        if Truthy(clientId) && Truthy(newStatus) {
          UpdateClientStatus(clientId.value, newStatus.value);
        }
      }
    }
  }

  /** The initial state is the state of some update, so a new board is valid. */
  lemma InitialStateIsSomeUpdate()
    ensures exists id: string, status: string :: InitialState() == StateAfterUpdate(id, status)
  {
    InitialStateIsUpdate();
  }

  /**
   * A valid board shows no record in two columns and no id twice in one
   * column, and shows seed records only, with at most the status of one id
   * rewritten.
   */
  lemma ValidBoardShape(b: Board)
    requires b.Valid()
    ensures Disjoint(b.clients)
    ensures ColumnsDistinct(b.clients)
    ensures exists id: string, status: string :: ShowsRewriteOf(b.clients, GetClients(), id, status)
  {
    var id: string, status: string :| b.clients == StateAfterUpdate(id, status);
    UpdateShowsSeedRecords(id, status);
    assert ShowsRewriteOf(b.clients, GetClients(), id, status);
  }

  /**
   * Dropping a card with a non-empty id on the `j`-th column passes the
   * guard and asks for that column's status, one of the three. Afterwards
   * the seed card with that id, with only its status changed, is in the
   * bucket that column shows, and every card with that id is there.
   */
  lemma DropOnColumn(id: string, j: nat)
    requires id != "" && j < |ColumnNames|
    ensures ValidStatus(ColumnStatus(j))
    ensures DropRequest(Some(DragElement(Some(id))), Some(ColumnTarget(ColumnNames[j]))) == Some((id, ColumnStatus(j)))
    ensures forall i :: 0 <= i < |GetClients()| && GetClients()[i].id == id ==>
              GetClients()[i].(status := ColumnStatus(j)) in Rendered(StateAfterUpdate(id, ColumnStatus(j)))[j].1
    ensures forall c :: c in StateAfterUpdate(id, ColumnStatus(j)).All() && c.id == id ==>
              c in Rendered(StateAfterUpdate(id, ColumnStatus(j)))[j].1
  {
    var status := ColumnStatus(j);
    var b := StateAfterUpdate(id, status);
    assert status != "";
    UpdateToValidStatus(id, status);
    ColumnsShowTheirStatus(b);
    forall c | c in b.All() && c.id == id
      ensures c in b.Column(status)
    {
      assert c.status == status;
    }
  }

  /** The card "Nolan LLC" as the seed has it. */
  function Nolan(): Client
  {
    Client("3", "Nolan LLC", "Vision-Oriented 4Thgeneration Graphicaluserinterface", "backlog")
  }

  /** The seed record with id `Numeral(n)` is at position `n - 1`. */
  lemma SeedPosition(n: nat, i: nat)
    requires 1 <= n <= SeedSize && i < |GetClients()| && GetClients()[i].id == Numeral(n)
    ensures i == n - 1
  {
    SeedShape();
    NumeralInjective(i + 1, n);
  }

  /**
   * Moving card "3" from the backlog to "in-progress": the in-progress
   * column holds it with its name and description unchanged, and no card
   * with id "3" is left in the backlog.
   */
  lemma MoveNolanToInProgress()
    ensures Nolan().(status := "in-progress") in StateAfterUpdate("3", "in-progress").inProgress
    ensures forall c :: c in StateAfterUpdate("3", "in-progress").backlog ==> c.id != "3"
  {
    assert GetClients()[2] == Nolan();
    UpdateToValidStatus("3", "in-progress");
  }

  /** Dropping card "17" on "complete", the status it already has, leaves the initial state. */
  lemma DropCompleteOnComplete()
    ensures StateAfterUpdate("17", "complete") == InitialState()
  {
    assert Numeral(17) == "17";
    forall i | 0 <= i < |GetClients()| && GetClients()[i].id == "17"
      ensures GetClients()[i].status == "complete"
    {
      SeedPosition(17, i);
    }
    UpdateUnchangedIsInitial("17", "complete");
  }

  /** The only seed record with id "3" is Nolan LLC, in the backlog. */
  lemma SeedRecordThree(k: nat)
    requires k < |GetClients()| && GetClients()[k].id == "3"
    ensures GetClients()[k] == Nolan()
  {
    assert Numeral(3) == "3";
    SeedPosition(3, k);
    assert GetClients()[2] == Nolan();
  }

  /** After card "5" is moved, card "3" is back in the backlog with its seed status. */
  lemma SecondDropRestoresThree()
    ensures Nolan() in StateAfterUpdate("5", "complete").backlog
  {
    var r := SetStatus(GetClients(), "5", "complete");
    assert GetClients()[2] == Nolan();
    assert r[2] == Nolan();
    ColumnMembership(r, "backlog", Nolan());
  }

  /** After card "5" is moved, no card with id "3" is in progress. */
  lemma SecondDropEmptiesThree()
    ensures forall c :: c in StateAfterUpdate("5", "complete").inProgress ==> c.id != "3"
  {
    var cs := GetClients();
    var r := SetStatus(cs, "5", "complete");
    forall c | c in PartitionByStatus(r).inProgress
      ensures c.id != "3"
    {
      if c.id == "3" {
        var k :| 0 <= k < |r| && r[k] == c;
        SeedRecordThree(k);
        assert false;
      }
    }
  }

  /**
   * As written, a drop forgets every earlier drop: after card "3" has been
   * moved to "in-progress", moving card "5" to "complete" puts card "3"
   * back in the backlog with its seed status.
   */
  lemma SecondDropUndoesFirst()
    ensures Nolan().(status := "in-progress") in StateAfterUpdate("3", "in-progress").inProgress
    ensures Nolan() in StateAfterUpdate("5", "complete").backlog
    ensures forall c :: c in StateAfterUpdate("5", "complete").inProgress ==> c.id != "3"
  {
    MoveNolanToInProgress();
    SecondDropRestoresThree();
    SecondDropEmptiesThree();
  }

  /**
   * The update the source's own comment describes ("get latest data"):
   * rewrite the status in the records currently on the board instead of in
   * a fresh copy of the seed, then split them again.
   */
  function UpdateCurrent(b: Buckets, id: string, status: string): Buckets
  {
    PartitionByStatus(SetStatus(b.All(), id, status))
  }

  /** With the corrected update, a card whose id was not dropped stays in its column. */
  lemma UpdateCurrentKeepsCard(b: Buckets, id: string, status: string, c: Client)
    requires c in b.All() && c.id != id && ValidStatus(c.status)
    ensures c in UpdateCurrent(b, id, status).Column(c.status)
  {
    var r := SetStatus(b.All(), id, status);
    var k :| 0 <= k < |b.All()| && b.All()[k] == c;
    assert r[k] == c;
    ColumnMembership(r, c.status, c);
  }

  /**
   * With the corrected update, a drop leaves every other card where it was,
   * and the moved card lands in the column of its new status.
   */
  lemma UpdateCurrentKeepsOtherCards(b: Buckets, id: string, status: string)
    ensures forall c :: c in b.All() && c.id != id && ValidStatus(c.status) ==>
              c in UpdateCurrent(b, id, status).Column(c.status)
    ensures ValidStatus(status) ==>
              forall c :: c in b.All() && c.id == id ==> c.(status := status) in UpdateCurrent(b, id, status).Column(status)
  {
    var r := SetStatus(b.All(), id, status);
    forall c | c in b.All() && c.id != id && ValidStatus(c.status)
      ensures c in UpdateCurrent(b, id, status).Column(c.status)
    {
      UpdateCurrentKeepsCard(b, id, status, c);
    }
    if ValidStatus(status) {
      forall c | c in b.All() && c.id == id
        ensures c.(status := status) in UpdateCurrent(b, id, status).Column(status)
      {
        var k :| 0 <= k < |b.All()| && b.All()[k] == c;
        assert r[k] == c.(status := status);
        ColumnMembership(r, status, r[k]);
      }
    }
  }

  /** With the corrected update, card "3" stays in progress when card "5" is moved next. */
  lemma SecondDropKeepsFirst()
    ensures Nolan().(status := "in-progress") in
              UpdateCurrent(StateAfterUpdate("3", "in-progress"), "5", "complete").inProgress
  {
    MoveNolanToInProgress();
    UpdateCurrentKeepsCard(StateAfterUpdate("3", "in-progress"), "5", "complete", Nolan().(status := "in-progress"));
  }

}
