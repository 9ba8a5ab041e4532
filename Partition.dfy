/**
 * The three columns of the board and the two ways src/Board.js fills them:
 * the constructor's split of the seed (a missing status counts as backlog)
 * and `updateClientStatus`, which rewrites one status in a fresh copy of the
 * seed and splits the result with plain equality tests.
 */
module Partition {
  import opened Filtering
  import opened Clients

  /** `this.state.clients`: one sequence of records per column. */
  datatype Buckets = Buckets(backlog: seq<Client>, inProgress: seq<Client>, complete: seq<Client>)
  {
    /** Every record on the board, column after column. */
    function All(): seq<Client>
    {
      backlog + inProgress + complete
    }

    /** The column that shows records with status `status`; none for any other string. */
    function Column(status: string): seq<Client>
    {
      if status == "backlog" then backlog
      else if status == "in-progress" then inProgress
      else if status == "complete" then complete
      else []
    }
  }

  // The constructor's three filter callbacks; "" is the only falsy string.
  predicate LoadsIntoBacklog(c: Client) { c.status == "" || c.status == "backlog" }
  predicate LoadsIntoInProgress(c: Client) { c.status != "" && c.status == "in-progress" }
  predicate LoadsIntoComplete(c: Client) { c.status != "" && c.status == "complete" }

  // The filter callbacks of `updateClientStatus`: plain equality, no default.
  predicate IsBacklog(c: Client) { c.status == "backlog" }
  predicate IsInProgress(c: Client) { c.status == "in-progress" }
  predicate IsComplete(c: Client) { c.status == "complete" }

  /**
   * The constructor's split of a client list into the three columns: each
   * column holds exactly the records of `cs` that its callback accepts.
   */
  function PartitionOnLoad(cs: seq<Client>): (r: Buckets)
    ensures forall c :: c in r.backlog <==> c in cs && LoadsIntoBacklog(c)
    ensures forall c :: c in r.inProgress <==> c in cs && LoadsIntoInProgress(c)
    ensures forall c :: c in r.complete <==> c in cs && LoadsIntoComplete(c)
  {
    Buckets(Filter(cs, LoadsIntoBacklog), Filter(cs, LoadsIntoInProgress), Filter(cs, LoadsIntoComplete))
  }

  /**
   * The split `updateClientStatus` applies to the updated list: each column
   * holds exactly the records of `cs` with its status.
   */
  function PartitionByStatus(cs: seq<Client>): (r: Buckets)
    ensures forall c :: c in r.backlog <==> c in cs && IsBacklog(c)
    ensures forall c :: c in r.inProgress <==> c in cs && IsInProgress(c)
    ensures forall c :: c in r.complete <==> c in cs && IsComplete(c)
  {
    Buckets(Filter(cs, IsBacklog), Filter(cs, IsInProgress), Filter(cs, IsComplete))
  }

  /** The state the constructor sets up. */
  function InitialState(): Buckets
  {
    PartitionOnLoad(GetClients())
  }

  /**
   * The `map` in `updateClientStatus`: the record whose id is `id` gets
   * status `status`, keeping its other fields; every other record is kept.
   */
  function SetStatus(cs: seq<Client>, id: string, status: string): (r: seq<Client>)
    ensures |r| == |cs|
    ensures forall i :: 0 <= i < |cs| ==>
              r[i].id == cs[i].id && r[i].name == cs[i].name && r[i].description == cs[i].description
    ensures forall i :: 0 <= i < |cs| && cs[i].id == id ==> r[i].status == status
    ensures forall i :: 0 <= i < |cs| && cs[i].id != id ==> r[i] == cs[i]
  {
    seq(|cs|, i requires 0 <= i < |cs| => if cs[i].id == id then cs[i].(status := status) else cs[i])
  }

  /** The state `updateClientStatus(id, status)` sets: built from the seed, whatever came before. */
  function StateAfterUpdate(id: string, status: string): Buckets
  {
    PartitionByStatus(SetStatus(GetClients(), id, status))
  }

  /** `cs` without the records whose id is `id`, in order. */
  function WithoutId(cs: seq<Client>, id: string): seq<Client>
  {
    Filter(cs, (c: Client) => c.id != id)
  }

  /** `r` is exactly the elements of `cs` that satisfy `p`, in the order of `cs`. */
  ghost predicate Selects(r: seq<Client>, cs: seq<Client>, p: Client -> bool)
  {
    && |r| == |Matching(cs, p)|
    && forall k :: 0 <= k < |r| ==> r[k] == cs[Matching(cs, p)[k]]
  }

  /** No record is shown in two columns. */
  ghost predicate Disjoint(b: Buckets)
  {
    && (forall c :: c in b.backlog ==> c !in b.inProgress && c !in b.complete)
    && (forall c :: c in b.inProgress ==> c !in b.complete)
  }

  /**
   * Every record shown in `b` is a record of `cs` with at most its status
   * changed: to `status` when its id is `id`, and not at all otherwise; and
   * its status is one of the three.
   */
  ghost predicate ShowsRewriteOf(b: Buckets, cs: seq<Client>, id: string, status: string)
  {
    forall c :: c in b.All() ==>
      && ValidStatus(c.status)
      && (c.id == id ==> c.status == status)
      && (c.id != id ==> c in cs)
      && exists k :: 0 <= k < |cs| && c == cs[k].(status := c.status)
  }

  /** No column shows two records with the same id, so none shows a record twice. */
  ghost predicate ColumnsDistinct(b: Buckets)
  {
    DistinctIds(b.backlog) && DistinctIds(b.inProgress) && DistinctIds(b.complete)
  }

  /** The columns together hold every record of `cs` exactly as often as `cs` does. */
  ghost predicate Covers(b: Buckets, cs: seq<Client>)
  {
    multiset(b.All()) == multiset(cs)
  }

  /** Each element of `s` satisfies exactly one of `p`, `q` and `r`. */
  ghost predicate ExactlyOne(s: seq<Client>, p: Client -> bool, q: Client -> bool, r: Client -> bool)
  {
    forall i :: 0 <= i < |s| ==>
      (p(s[i]) && !q(s[i]) && !r(s[i])) || (!p(s[i]) && q(s[i]) && !r(s[i])) || (!p(s[i]) && !q(s[i]) && r(s[i]))
  }

  /** Three filters that split `s` without overlap hold its elements exactly as often as `s`. */
  lemma FilterPartition3(s: seq<Client>, p: Client -> bool, q: Client -> bool, r: Client -> bool)
    requires ExactlyOne(s, p, q, r)
    ensures multiset(Filter(s, p) + Filter(s, q) + Filter(s, r)) == multiset(s)
  {
    var a, b, c := Filter(s, p), Filter(s, q), Filter(s, r);
    assert multiset(a + b + c) == multiset(a) + multiset(b) + multiset(c);
    forall x: Client
      ensures multiset(a)[x] + multiset(b)[x] + multiset(c)[x] == multiset(s)[x]
    {
      FilterMultiplicity(s, p, x);
      FilterMultiplicity(s, q, x);
      FilterMultiplicity(s, r, x);
      if x in s {
        var i :| 0 <= i < |s| && s[i] == x;
      }
    }
  }

  /**
   * The constructor's columns: each holds exactly the records its callback
   * accepts, in list order; a record with a missing status is in the
   * backlog; no record is in two columns; and when every status is missing
   * or one of the three, every record is in exactly one column.
   */
  lemma PartitionOnLoadSound(cs: seq<Client>)
    ensures Selects(PartitionOnLoad(cs).backlog, cs, LoadsIntoBacklog)
    ensures Selects(PartitionOnLoad(cs).inProgress, cs, LoadsIntoInProgress)
    ensures Selects(PartitionOnLoad(cs).complete, cs, LoadsIntoComplete)
    ensures forall i :: 0 <= i < |cs| && cs[i].status == "" ==> cs[i] in PartitionOnLoad(cs).backlog
    ensures Disjoint(PartitionOnLoad(cs))
    ensures (forall i :: 0 <= i < |cs| ==> cs[i].status == "" || ValidStatus(cs[i].status)) ==>
              Covers(PartitionOnLoad(cs), cs)
  {
    FilterKeepsOrder(cs, LoadsIntoBacklog);
    FilterKeepsOrder(cs, LoadsIntoInProgress);
    FilterKeepsOrder(cs, LoadsIntoComplete);
    if forall i :: 0 <= i < |cs| ==> cs[i].status == "" || ValidStatus(cs[i].status) {
      assert ExactlyOne(cs, LoadsIntoBacklog, LoadsIntoInProgress, LoadsIntoComplete);
      FilterPartition3(cs, LoadsIntoBacklog, LoadsIntoInProgress, LoadsIntoComplete);
    }
  }

  /**
   * The columns after an update: each holds exactly the records with its
   * status, in list order; no record is in two columns; and when every
   * status is one of the three, every record is in exactly one column.
   */
  lemma PartitionByStatusSound(cs: seq<Client>)
    ensures Selects(PartitionByStatus(cs).backlog, cs, IsBacklog)
    ensures Selects(PartitionByStatus(cs).inProgress, cs, IsInProgress)
    ensures Selects(PartitionByStatus(cs).complete, cs, IsComplete)
    ensures Disjoint(PartitionByStatus(cs))
    ensures (forall i :: 0 <= i < |cs| ==> ValidStatus(cs[i].status)) ==> Covers(PartitionByStatus(cs), cs)
  {
    FilterKeepsOrder(cs, IsBacklog);
    FilterKeepsOrder(cs, IsInProgress);
    FilterKeepsOrder(cs, IsComplete);
    if forall i :: 0 <= i < |cs| ==> ValidStatus(cs[i].status) {
      assert ExactlyOne(cs, IsBacklog, IsInProgress, IsComplete);
      FilterPartition3(cs, IsBacklog, IsInProgress, IsComplete);
    }
  }

  /** A record is in a column after an update exactly when it is in the list with that column's status. */
  lemma ColumnMembership(cs: seq<Client>, status: string, c: Client)
    requires ValidStatus(status)
    ensures c in PartitionByStatus(cs).Column(status) <==> c in cs && c.status == status
  {
  }

  /** On a list where no status is missing, the constructor's split equals the split by plain equality. */
  lemma OnLoadMatchesByStatus(cs: seq<Client>)
    requires forall i :: 0 <= i < |cs| ==> cs[i].status != ""
    ensures PartitionOnLoad(cs) == PartitionByStatus(cs)
  {
    FilterCongruent(cs, LoadsIntoBacklog, IsBacklog);
    FilterCongruent(cs, LoadsIntoInProgress, IsInProgress);
    FilterCongruent(cs, LoadsIntoComplete, IsComplete);
  }

  /** Every seed status is one of the three, so the initial state is the seed split by plain equality. */
  lemma InitialStateByStatus()
    ensures InitialState() == PartitionByStatus(GetClients())
  {
    SeedStatusesValid();
    OnLoadMatchesByStatus(GetClients());
  }

  /**
   * The initial state: every seed record is in exactly one column, and each
   * column holds exactly the seed records with its status, in seed order.
   */
  lemma InitialStateSound()
    ensures Covers(InitialState(), GetClients())
    ensures Disjoint(InitialState())
    ensures Selects(InitialState().backlog, GetClients(), IsBacklog)
    ensures Selects(InitialState().inProgress, GetClients(), IsInProgress)
    ensures Selects(InitialState().complete, GetClients(), IsComplete)
  {
    InitialStateByStatus();
    SeedStatusesValid();
    PartitionByStatusSound(GetClients());
  }

  /** With distinct ids, an update changes at most one record. */
  lemma SetStatusChangesOne(cs: seq<Client>, id: string, status: string)
    requires DistinctIds(cs)
    ensures forall i, j ::
              (0 <= i < |cs| && 0 <= j < |cs| &&
               SetStatus(cs, id, status)[i] != cs[i] && SetStatus(cs, id, status)[j] != cs[j]) ==> i == j
  {
  }

  /** An update that gives every record with that id the status it already has changes nothing. */
  lemma SetStatusUnchanged(cs: seq<Client>, id: string, status: string)
    requires forall i :: 0 <= i < |cs| && cs[i].id == id ==> cs[i].status == status
    ensures SetStatus(cs, id, status) == cs
  {
    var r := SetStatus(cs, id, status);
    assert forall i :: 0 <= i < |cs| ==> r[i] == cs[i];
  }

  /**
   * An update that moves nothing (the id is unknown, or the record already
   * has that status) yields the initial state.
   */
  lemma UpdateUnchangedIsInitial(id: string, status: string)
    requires forall i :: 0 <= i < |GetClients()| && GetClients()[i].id == id ==> GetClients()[i].status == status
    ensures StateAfterUpdate(id, status) == InitialState()
  {
    SetStatusUnchanged(GetClients(), id, status);
    InitialStateByStatus();
  }

  /** The initial state is itself a state an update can produce: one for the empty id, which no seed record has. */
  lemma InitialStateIsUpdate()
    ensures InitialState() == StateAfterUpdate("", "backlog")
  {
    SeedShape();
    UpdateUnknownIdIsInitial("", "backlog");
  }

  /** An update for an id that no seed record has yields the initial state. */
  lemma UpdateUnknownIdIsInitial(id: string, status: string)
    requires forall i :: 0 <= i < |GetClients()| ==> GetClients()[i].id != id
    ensures StateAfterUpdate(id, status) == InitialState()
  {
    UpdateUnchangedIsInitial(id, status);
  }

  /**
   * Rewriting one status to one of the three in a list whose statuses are
   * all among the three: every record of the new list is in exactly one
   * column, and each rewritten record is in the column of its new status.
   */
  lemma SetValidStatusSound(cs: seq<Client>, id: string, status: string)
    requires ValidStatus(status)
    requires forall i :: 0 <= i < |cs| ==> ValidStatus(cs[i].status)
    ensures Covers(PartitionByStatus(SetStatus(cs, id, status)), SetStatus(cs, id, status))
    ensures Disjoint(PartitionByStatus(SetStatus(cs, id, status)))
    ensures forall i :: 0 <= i < |cs| && cs[i].id == id ==>
              cs[i].(status := status) in PartitionByStatus(SetStatus(cs, id, status)).Column(status)
  {
    var r := SetStatus(cs, id, status);
    PartitionByStatusSound(r);
    forall i | 0 <= i < |cs| && cs[i].id == id
      ensures cs[i].(status := status) in PartitionByStatus(r).Column(status)
    {
      assert r[i] == cs[i].(status := status);
      ColumnMembership(r, status, r[i]);
    }
  }

  /**
   * After an update, every record on the board is a record of the list with
   * at most its status rewritten, and only a record with that id has the
   * new status written into it.
   */
  lemma SetStatusOnBoard(cs: seq<Client>, id: string, status: string)
    ensures ShowsRewriteOf(PartitionByStatus(SetStatus(cs, id, status)), cs, id, status)
  {
    var r := SetStatus(cs, id, status);
    forall c | c in PartitionByStatus(r).All()
      ensures ValidStatus(c.status)
      ensures c.id == id ==> c.status == status
      ensures c.id != id ==> c in cs
      ensures exists k :: 0 <= k < |cs| && c == cs[k].(status := c.status)
    {
      assert c in r;
      var i :| 0 <= i < |r| && r[i] == c;
      assert c == cs[i].(status := c.status);
    }
  }

  /** Filtering a list with distinct ids keeps the ids distinct. */
  lemma FilterDistinct(cs: seq<Client>, p: Client -> bool)
    requires DistinctIds(cs)
    ensures DistinctIds(Filter(cs, p))
  {
    FilterKeepsOrder(cs, p);
    var r, m := Filter(cs, p), Matching(cs, p);
    forall i, j | 0 <= i < j < |r|
      ensures r[i].id != r[j].id
    {
      assert m[i] < m[j];
    }
  }

  /** Splitting a list with distinct ids gives columns with distinct ids. */
  lemma ByStatusDistinct(cs: seq<Client>)
    requires DistinctIds(cs)
    ensures ColumnsDistinct(PartitionByStatus(cs))
  {
    FilterDistinct(cs, IsBacklog);
    FilterDistinct(cs, IsInProgress);
    FilterDistinct(cs, IsComplete);
  }

  /**
   * Whatever the id and the status, the state after an update shows seed
   * records only, no record in two columns, no two records with the same id
   * in one column, and no status changed except that of the records with id
   * `id`.
   */
  lemma UpdateShowsSeedRecords(id: string, status: string)
    ensures Disjoint(StateAfterUpdate(id, status))
    ensures ColumnsDistinct(StateAfterUpdate(id, status))
    ensures ShowsRewriteOf(StateAfterUpdate(id, status), GetClients(), id, status)
  {
    var cs := GetClients();
    SetStatusOnBoard(cs, id, status);
    SeedShape();
    assert DistinctIds(SetStatus(cs, id, status));
    ByStatusDistinct(SetStatus(cs, id, status));
  }

  /**
   * An update to one of the three statuses: every record of the updated list
   * is in exactly one column, and the moved record, with its new status and
   * its other fields unchanged, is in the target column.
   */
  lemma UpdateToValidStatus(id: string, status: string)
    requires ValidStatus(status)
    ensures Covers(StateAfterUpdate(id, status), SetStatus(GetClients(), id, status))
    ensures Disjoint(StateAfterUpdate(id, status))
    ensures forall i :: 0 <= i < |GetClients()| && GetClients()[i].id == id ==>
              GetClients()[i].(status := status) in StateAfterUpdate(id, status).Column(status)
    ensures forall c :: c in StateAfterUpdate(id, status).All() && c.id == id ==> c.status == status
  {
    SeedStatusesValid();
    SetValidStatusSound(GetClients(), id, status);
    SetStatusOnBoard(GetClients(), id, status);
  }

  /** Filtering a list with one status rewritten, where no column accepts the new status. */
  lemma {:induction false} FilterSetStatusRejected(cs: seq<Client>, id: string, status: string, p: Client -> bool)
    requires forall c: Client :: c.status == status ==> !p(c)
    ensures Filter(SetStatus(cs, id, status), p) == Filter(WithoutId(cs, id), p)
    decreases |cs|
  {
    if cs != [] {
      var r := SetStatus(cs, id, status);
      FilterSetStatusRejected(cs[1..], id, status, p);
      assert r[1..] == SetStatus(cs[1..], id, status);
      var rest := WithoutId(cs[1..], id);
      if cs[0].id != id {
        assert WithoutId(cs, id) == [cs[0]] + rest;
        assert ([cs[0]] + rest)[1..] == rest;
      } else {
        assert WithoutId(cs, id) == rest;
        assert !p(r[0]);
      }
    }
  }

  /** A list without the records of one id puts no record of that id on the board. */
  lemma WithoutIdOnBoard(cs: seq<Client>, id: string)
    ensures forall c :: c in PartitionByStatus(WithoutId(cs, id)).All() ==> c.id != id
  {
    var w := WithoutId(cs, id);
    forall c | c in PartitionByStatus(w).All()
      ensures c.id != id
    {
      assert c in w;
      var k :| 0 <= k < |w| && w[k] == c;
    }
  }

  /**
   * Rewriting one status to a string no column accepts: the rewritten
   * records drop out of every column, and the rest are split as before.
   */
  lemma SetInvalidStatusDrops(cs: seq<Client>, id: string, status: string)
    requires !ValidStatus(status)
    ensures PartitionByStatus(SetStatus(cs, id, status)) == PartitionByStatus(WithoutId(cs, id))
    ensures forall c :: c in PartitionByStatus(SetStatus(cs, id, status)).All() ==> c.id != id
  {
    FilterSetStatusRejected(cs, id, status, IsBacklog);
    FilterSetStatusRejected(cs, id, status, IsInProgress);
    FilterSetStatusRejected(cs, id, status, IsComplete);
    WithoutIdOnBoard(cs, id);
  }

  /**
   * An update to a status that is none of the three: the moved record is in
   * no column, and the other records are split as in the seed.
   */
  lemma UpdateToInvalidStatus(id: string, status: string)
    requires !ValidStatus(status)
    ensures StateAfterUpdate(id, status) == PartitionByStatus(WithoutId(GetClients(), id))
    ensures forall c :: c in StateAfterUpdate(id, status).All() ==> c.id != id
  {
    SetInvalidStatusDrops(GetClients(), id, status);
  }

}
