/** Reloading every table of a dump under immediate foreign-key checks. */
module RestoreTables {
  import opened Dump
  import opened Prelude
  import opened SortedOrder
  import opened TopologicalSort

  type Database = map<Ref, Row>

  /** A dump of live tables: keys are unique, and a row only has the columns of its table. */
  type Archive = map<Table, seq<Row>>

  function Rows(a: Archive, t: Table): seq<Row> { if t in a then a[t] else [] }

  ghost predicate RowFits(t: Table, r: Row)
  {
    && (forall k :: k in r.refs ==> k.table in Parents(t))
    && (r.parent.Some? ==> SelfReferential(t))
    && (r.replyTo.Some? ==> t == Annotations)
    && (r.deferred != map[] ==> t == PullRequests)
  }

  ghost predicate FromTables(a: Archive)
  {
    forall t :: TableFits(a, t)
  }

  ghost predicate TableFits(a: Archive, t: Table)
  {
    Distinct(Rows(a, t)) && forall r :: r in Rows(a, t) ==> RowFits(t, r)
  }

  // ── Statements ──────────────────────────────────────────────────────────────

  /** A same-table reference is satisfied by an existing row or by the row itself. */
  predicate Points(db: Database, t: Table, self: Id, target: Id)
  {
    target == self || Ref(t, target) in db
  }

  predicate Held(db: Database, t: Table, r: Row)
  {
    && r.refs <= db.Keys
    && (r.parent.Some? ==> Points(db, t, r.id, r.parent.value))
    && (r.replyTo.Some? ==> Points(db, t, r.id, r.replyTo.value))
    && forall c :: c in r.deferred ==> Points(db, t, r.id, r.deferred[c])
  }

  /** INSERT: `None` is a constraint error, which aborts the transaction. */
  function Insert(db: Database, t: Table, r: Row): Option<Database>
  {
    if Ref(t, r.id) in db || !Held(db, t, r) then None else Some(db[Ref(t, r.id) := r])
  }

  function InsertAll(db: Database, t: Table, rows: seq<Row>): Option<Database>
  {
    if rows == [] then Some(db)
    else
      var front := InsertAll(db, t, rows[..|rows| - 1]);
      if front.None? then None else Insert(front.value, t, rows[|rows| - 1])
  }

  /** UPDATE of the pull-request cross-references that are not null. */
  function Update(db: Database, t: Table, id: Id, crossRefs: map<string, Id>): Option<Database>
  {
    var k := Ref(t, id);
    if k !in db then Some(db)
    else if forall c :: c in crossRefs ==> Points(db, t, id, crossRefs[c]) then
      Some(db[k := db[k].(deferred := db[k].deferred + crossRefs)])
    else None
  }

  function UpdateAll(db: Database, t: Table, rows: seq<Row>): Option<Database>
  {
    if rows == [] then Some(db)
    else
      var front, row := UpdateAll(db, t, rows[..|rows| - 1]), rows[|rows| - 1];
      if front.None? || row.deferred == map[] then front
      else Update(front.value, t, row.id, row.deferred)
  }

  function Cleaned(rows: seq<Row>): seq<Row>
  {
    seq(|rows|, i requires 0 <= i < |rows| => rows[i].(deferred := map[]))
  }

  function RestoreTable(db: Database, t: Table, rows: seq<Row>): Option<Database>
  {
    var ordered := if SelfReferential(t) then Sorted(rows) else rows;
    if t == PullRequests then
      var inserted := InsertAll(db, t, Cleaned(ordered));
      if inserted.None? then None else UpdateAll(inserted.value, t, ordered)
    else InsertAll(db, t, ordered)
  }

  function RestoreTables(db: Database, a: Archive, n: nat): Option<Database>
    requires n <= |TABLE_INSERT_ORDER|
  {
    if n == 0 then Some(db)
    else
      var before := RestoreTables(db, a, n - 1);
      if before.None? then None
      else RestoreTable(before.value, TABLE_INSERT_ORDER[n - 1], Rows(a, TABLE_INSERT_ORDER[n - 1]))
  }

  function DeleteTable(db: Database, t: Table): Database
  {
    map k | k in db && k.table != t :: db[k]
  }

  function Wipe(db: Database, n: nat): Database
    requires n <= |TABLE_INSERT_ORDER|
  {
    if n == 0 then db else DeleteTable(Wipe(db, n - 1), TABLE_INSERT_ORDER[|TABLE_INSERT_ORDER| - n])
  }

  function Restore(db: Database, a: Archive): Option<Database>
  {
    RestoreTables(Wipe(db, |TABLE_INSERT_ORDER|), a, |TABLE_INSERT_ORDER|)
  }

  // ── Which archives can be restored ──────────────────────────────────────────

  ghost predicate ForeignKeysClosed(a: Archive, rows: seq<Row>)
  {
    forall r, k :: r in rows && k in r.refs ==> k.id in Ids(Rows(a, k.table))
  }

  ghost predicate SelfKeysClosed(rows: seq<Row>)
  {
    && (forall r :: r in rows && r.parent.Some? ==> r.parent.value in Ids(rows))
    && (forall r, c :: r in rows && c in r.deferred ==> r.deferred[c] in Ids(rows))
  }

  /** All of it said of the rows as they were dumped. */
  ghost predicate TableRestorable(a: Archive, t: Table)
  {
    var rows := Rows(a, t);
    ForeignKeysClosed(a, rows) && SelfKeysClosed(rows) && Acyclic(rows) && RepliesOrdered(rows)
  }

  /** The rows of the first `n` tables and nothing else. */
  ghost predicate Holds(db: Database, a: Archive, n: nat)
  {
    && (forall k: Ref :: k in db <==> Rank(k.table) < n && k.id in Ids(Rows(a, k.table)))
    && (forall t :: Rank(t) < n ==> HoldsRows(db, a, t))
  }

  ghost predicate HoldsRows(db: Database, a: Archive, t: Table)
  {
    forall r :: r in Rows(a, t) && Ref(t, r.id) in db ==> db[Ref(t, r.id)] == r
  }

  // ── Inserting rows in a given order ─────────────────────────────────────────

  /** `db` plus the rows of `t`, whatever order they went in. */
  ghost predicate Plus(db: Database, t: Table, rows: seq<Row>, db': Database)
  {
    && (forall k: Ref :: k in db' <==> k in db || (k.table == t && k.id in Ids(rows)))
    && (forall k :: k in db && !(k.table == t && k.id in Ids(rows)) ==> k in db' && db'[k] == db[k])
    && (forall r :: r in rows && Ref(t, r.id) in db' ==> db'[Ref(t, r.id)] == r)
  }

  ghost predicate Lacks(db: Database, t: Table) { forall k :: k in db ==> k.table != t }

  /** A same-table reference that the rows inserted so far, or the row itself, satisfy. */
  predicate Known(rows: seq<Row>, n: nat, target: Id)
    requires n < |rows|
  {
    target == rows[n].id || target in Ids(rows[..n])
  }

  ghost predicate Insertable(db: Database, rows: seq<Row>, n: nat)
    requires n < |rows|
  {
    var r := rows[n];
    && r.refs <= db.Keys
    && (r.parent.Some? ==> Known(rows, n, r.parent.value))
    && (r.replyTo.Some? ==> Known(rows, n, r.replyTo.value))
    && forall c :: c in r.deferred ==> Known(rows, n, r.deferred[c])
  }

  lemma HeldIff(db: Database, db': Database, t: Table, rows: seq<Row>, n: nat)
    requires Lacks(db, t) && t !in Parents(t) && n < |rows| && RowFits(t, rows[n])
    requires Plus(db, t, rows[..n], db')
    ensures Held(db', t, rows[n]) <==> Insertable(db, rows, n)
  {
    var r := rows[n];
    assert forall id :: Ref(t, id) in db' <==> id in Ids(rows[..n]);
    assert forall k :: k in r.refs ==> (k in db <==> k in db');
    assert r.refs <= db.Keys <==> r.refs <= db'.Keys;
  }

  lemma PlusRow(db: Database, db': Database, t: Table, front: seq<Row>, r: Row)
    requires Lacks(db, t) && r.id !in Ids(front) && Plus(db, t, front, db')
    ensures Ref(t, r.id) !in db' && Plus(db, t, front + [r], db'[Ref(t, r.id) := r])
  {}

  lemma InsertStep(db: Database, db': Database, t: Table, rows: seq<Row>, n: nat)
    requires Lacks(db, t) && t !in Parents(t) && Distinct(rows) && n < |rows| && RowFits(t, rows[n])
    requires Plus(db, t, rows[..n], db')
    ensures var next := Insert(db', t, rows[n]);
            && (next.Some? <==> Insertable(db, rows, n))
            && (next.Some? ==> Plus(db, t, rows[..n + 1], next.value))
  {
    HeldIff(db, db', t, rows, n);
    NextRow(rows, n);
    PlusRow(db, db', t, rows[..n], rows[n]);
  }

  lemma InsertAllUnfolds(db: Database, t: Table, rows: seq<Row>, n: nat)
    requires n < |rows|
    ensures var front := InsertAll(db, t, rows[..n]);
            InsertAll(db, t, rows[..n + 1]) == if front.None? then None else Insert(front.value, t, rows[n])
  {
    assert rows[..n + 1][..n] == rows[..n];
  }

  ghost predicate AllInsertable(db: Database, rows: seq<Row>, n: nat)
    requires n <= |rows|
  {
    forall i :: 0 <= i < n ==> Insertable(db, rows, i)
  }

  lemma InsertableOneMore(db: Database, rows: seq<Row>, n: nat)
    requires n < |rows|
    ensures AllInsertable(db, rows, n + 1) <==> AllInsertable(db, rows, n) && Insertable(db, rows, n)
    ensures rows[n] in rows
  {}

  /** Inserting a list of rows succeeds exactly when each finds its references among the rows
      before it, and then adds precisely those rows. */
  lemma {:induction false} InsertAllIff(db: Database, t: Table, rows: seq<Row>, n: nat)
    requires Lacks(db, t) && t !in Parents(t) && Distinct(rows) && n <= |rows|
    requires forall r :: r in rows ==> RowFits(t, r)
    ensures InsertAll(db, t, rows[..n]).Some? <==> AllInsertable(db, rows, n)
    ensures InsertAll(db, t, rows[..n]).Some? ==> Plus(db, t, rows[..n], InsertAll(db, t, rows[..n]).value)
  {
    if n > 0 {
      InsertAllIff(db, t, rows, n - 1);
      InsertAllUnfolds(db, t, rows, n - 1);
      InsertableOneMore(db, rows, n - 1);
      var front := InsertAll(db, t, rows[..n - 1]);
      if front.Some? { InsertStep(db, front.value, t, rows, n - 1); }
    }
  }

  // ── Pull requests: cross-references are nulled first and set afterwards ─────

  lemma CleanedKeepsIds(rows: seq<Row>, n: nat)
    requires n <= |rows|
    ensures Ids(Cleaned(rows)[..n]) == Ids(rows[..n])
    ensures Distinct(rows) ==> Distinct(Cleaned(rows))
  {
    var cleaned := Cleaned(rows);
    forall id | id in Ids(rows[..n]) ensures id in Ids(cleaned[..n]) {
      var i :| 0 <= i < n && rows[i].id == id;
      assert cleaned[i] in cleaned[..n];
    }
    forall id | id in Ids(cleaned[..n]) ensures id in Ids(rows[..n]) {
      var i :| 0 <= i < n && cleaned[i].id == id;
      assert rows[i] in rows[..n];
    }
  }

  /** The cleaned rows of the table with the cross-references of the first `n` filled in. */
  ghost predicate Filled(db0: Database, t: Table, rows: seq<Row>, n: nat, db: Database)
    requires n <= |rows|
  {
    && (forall k: Ref :: k in db <==> k in db0 || (k.table == t && k.id in Ids(rows)))
    && (forall k :: k in db0 && k.table != t ==> k in db && db[k] == db0[k])
    && (forall i :: 0 <= i < |rows| && Ref(t, rows[i].id) in db ==>
          db[Ref(t, rows[i].id)] == if i < n then rows[i] else rows[i].(deferred := map[]))
  }

  /** The cross-references of row `i` name rows of the table. */
  ghost predicate CrossReferencesKnown(rows: seq<Row>, i: nat)
    requires i < |rows|
  {
    forall c :: c in rows[i].deferred ==> rows[i].deferred[c] in Ids(rows)
  }

  lemma UpdateOne(db0: Database, db: Database, t: Table, rows: seq<Row>, n: nat)
    requires Distinct(rows) && n < |rows| && Lacks(db0, t) && Filled(db0, t, rows, n, db)
    ensures var r := rows[n];
            var after := if r.deferred == map[] then Some(db) else Update(db, t, r.id, r.deferred);
            && (after.Some? <==> CrossReferencesKnown(rows, n))
            && (after.Some? ==> Filled(db0, t, rows, n + 1, after.value))
  {
    var row := rows[n];
    assert row in rows && row.id in Ids(rows);
    var k, none: map<string, Id> := Ref(t, row.id), map[];
    assert k in db && db[k] == row.(deferred := none);
    assert none + row.deferred == row.deferred;
    assert forall id :: Ref(t, id) in db <==> id in Ids(rows);
    forall i | 0 <= i < |rows| && i != n ensures Ref(t, rows[i].id) != k {}
  }

  function UpdateNext(front: Option<Database>, t: Table, row: Row): Option<Database>
  {
    if front.None? || row.deferred == map[] then front else Update(front.value, t, row.id, row.deferred)
  }

  lemma UpdateAllUnfolds(db: Database, t: Table, rows: seq<Row>, n: nat)
    requires n < |rows|
    ensures UpdateAll(db, t, rows[..n + 1]) == UpdateNext(UpdateAll(db, t, rows[..n]), t, rows[n])
  {
    assert rows[..n + 1][..n] == rows[..n];
  }

  ghost predicate AllCrossReferencesKnown(rows: seq<Row>, n: nat)
    requires n <= |rows|
  {
    forall i :: 0 <= i < n ==> CrossReferencesKnown(rows, i)
  }

  lemma {:induction false} UpdateAllIff(db0: Database, db: Database, t: Table, rows: seq<Row>, n: nat)
    requires Distinct(rows) && n <= |rows| && Lacks(db0, t) && Filled(db0, t, rows, 0, db)
    ensures UpdateAll(db, t, rows[..n]).Some? <==> AllCrossReferencesKnown(rows, n)
    ensures UpdateAll(db, t, rows[..n]).Some? ==> Filled(db0, t, rows, n, UpdateAll(db, t, rows[..n]).value)
  {
    if n > 0 {
      UpdateAllIff(db0, db, t, rows, n - 1);
      UpdateAllUnfolds(db, t, rows, n - 1);
      assert AllCrossReferencesKnown(rows, n) <==>
               AllCrossReferencesKnown(rows, n - 1) && CrossReferencesKnown(rows, n - 1);
      var front := UpdateAll(db, t, rows[..n - 1]);
      if front.Some? { UpdateOne(db0, front.value, t, rows, n - 1); }
    }
  }

  lemma CleanedInsertable(db: Database, rows: seq<Row>, i: nat)
    requires i < |rows| && RowFits(PullRequests, rows[i])
    ensures RowFits(PullRequests, Cleaned(rows)[i])
    ensures Insertable(db, Cleaned(rows), i) <==> rows[i].refs <= db.Keys
  {}

  lemma PlusCleanedIsFilled(db: Database, rows: seq<Row>, db': Database)
    requires Lacks(db, PullRequests) && Distinct(rows) && Plus(db, PullRequests, Cleaned(rows), db')
    ensures Filled(db, PullRequests, rows, 0, db')
  {
    CleanedKeepsIds(rows, |rows|);
    assert rows[..|rows|] == rows && Cleaned(rows)[..|rows|] == Cleaned(rows);
    forall i | 0 <= i < |rows| && Ref(PullRequests, rows[i].id) in db'
      ensures db'[Ref(PullRequests, rows[i].id)] == rows[i].(deferred := map[])
    {
      assert Cleaned(rows)[i] in Cleaned(rows);
    }
  }

  lemma InsertCleanedIff(db: Database, rows: seq<Row>)
    requires Lacks(db, PullRequests) && Distinct(rows) && forall r :: r in rows ==> RowFits(PullRequests, r)
    ensures var inserted := InsertAll(db, PullRequests, Cleaned(rows));
            && (inserted.Some? <==> forall i :: 0 <= i < |rows| ==> rows[i].refs <= db.Keys)
            && (inserted.Some? ==> Filled(db, PullRequests, rows, 0, inserted.value))
  {
    var cleaned, n := Cleaned(rows), |rows|;
    CleanedKeepsIds(rows, n);
    forall i | 0 <= i < n
      ensures RowFits(PullRequests, cleaned[i])
      ensures Insertable(db, cleaned, i) <==> rows[i].refs <= db.Keys
    {
      assert rows[i] in rows;
      CleanedInsertable(db, rows, i);
    }
    assert AllInsertable(db, cleaned, n) <==> forall i :: 0 <= i < n ==> rows[i].refs <= db.Keys;
    NotOwnParent(PullRequests);
    InsertAllIff(db, PullRequests, cleaned, n);
    assert cleaned[..n] == cleaned;
    var inserted := InsertAll(db, PullRequests, cleaned);
    if inserted.Some? { PlusCleanedIsFilled(db, rows, inserted.value); }
  }

  lemma FilledIsPlus(db: Database, rows: seq<Row>, db': Database)
    requires Lacks(db, PullRequests) && Filled(db, PullRequests, rows, |rows|, db')
    ensures Plus(db, PullRequests, rows, db')
  {}

  /** For any graph of cross-references, cycles included. */
  lemma RestorePullRequestsIff(db: Database, rows: seq<Row>)
    requires Lacks(db, PullRequests) && Distinct(rows) && forall r :: r in rows ==> RowFits(PullRequests, r)
    ensures RestoreTable(db, PullRequests, rows).Some? <==>
              (forall i :: 0 <= i < |rows| ==> rows[i].refs <= db.Keys) && AllCrossReferencesKnown(rows, |rows|)
    ensures RestoreTable(db, PullRequests, rows).Some? ==>
              Plus(db, PullRequests, rows, RestoreTable(db, PullRequests, rows).value)
  {
    InsertCleanedIff(db, rows);
    assert rows[..|rows|] == rows;
    var inserted := InsertAll(db, PullRequests, Cleaned(rows));
    if inserted.Some? {
      UpdateAllIff(db, inserted.value, PullRequests, rows, |rows|);
      var updated := UpdateAll(inserted.value, PullRequests, rows);
      if updated.Some? { FilledIsPlus(db, rows, updated.value); }
    }
  }

  // ── Any table ───────────────────────────────────────────────────────────────

  lemma SelfKeysInOrder(rows: seq<Row>, ordered: seq<Row>)
    requires multiset(ordered) == multiset(rows) && Ids(ordered) == Ids(rows) && ParentsFirst(ordered)
    requires forall r :: r in rows ==> r.deferred == map[]
    requires SelfKeysClosed(rows)
    ensures forall i :: 0 <= i < |ordered| && ordered[i].parent.Some? ==> Known(ordered, i, ordered[i].parent.value)
  {
    forall i | 0 <= i < |ordered| && ordered[i].parent.Some?
      ensures Known(ordered, i, ordered[i].parent.value)
    {
      assert ordered[i] in multiset(rows);
      assert ParentOk(ordered, i);
    }
  }

  lemma InOrderIsClosed(rows: seq<Row>, ordered: seq<Row>)
    requires multiset(ordered) == multiset(rows) && Ids(ordered) == Ids(rows)
    requires forall r :: r in rows ==> r.deferred == map[]
    requires forall i :: 0 <= i < |ordered| && ordered[i].parent.Some? ==> Known(ordered, i, ordered[i].parent.value)
    ensures SelfKeysClosed(rows) && ParentsFirst(ordered)
  {
    forall r | r in rows && r.parent.Some? ensures r.parent.value in Ids(rows) {
      assert r in multiset(ordered);
      var i :| 0 <= i < |ordered| && ordered[i] == r;
      assert Known(ordered, i, r.parent.value);
      assert forall q :: q in ordered[..i] ==> q in ordered;
    }
    forall i | 0 <= i < |ordered| && ordered[i].parent.Some? ensures ParentOk(ordered, i) {
      assert Known(ordered, i, ordered[i].parent.value);
    }
  }

  lemma NotOwnParent(t: Table)
    ensures t !in Parents(t)
  {}

  lemma NoParentIsAcyclic(rows: seq<Row>)
    requires forall r :: r in rows ==> r.parent.None?
    ensures Acyclic(rows)
  {
    assert Ranked(rows, map id | id in Ids(rows) :: 0);
  }

  /** The order the rows go in: sorted when the table refers to itself. */
  function Ordered(t: Table, rows: seq<Row>): seq<Row> { if SelfReferential(t) then Sorted(rows) else rows }

  lemma OrderedIsPermutation(t: Table, rows: seq<Row>)
    requires Distinct(rows) && forall r :: r in rows ==> RowFits(t, r)
    ensures multiset(Ordered(t, rows)) == multiset(rows) && Distinct(Ordered(t, rows))
    ensures Ids(Ordered(t, rows)) == Ids(rows)
    ensures ParentsFirst(Ordered(t, rows)) <==> Acyclic(rows)
    ensures forall r :: r in Ordered(t, rows) <==> r in rows
  {
    if SelfReferential(t) {
      SortIsPermutation(rows);
      SortOrdersIffAcyclic(rows);
    } else {
      NoParentIsAcyclic(rows);
    }
    assert forall r :: r in Ordered(t, rows) <==> r in multiset(Ordered(t, rows));
    assert forall r :: r in rows <==> r in multiset(rows);
  }

  lemma RepliesOrderedIff(t: Table, rows: seq<Row>)
    requires Distinct(rows) && Acyclic(rows) && forall r :: r in rows ==> RowFits(t, r)
    ensures RepliesFirst(Ordered(t, rows)) <==> RepliesOrdered(rows)
  {
    if SelfReferential(t) {
      RepliesSortedIff(rows);
    } else {
      forall r | r in rows ensures r.replyTo.None? { assert RowFits(t, r); }
    }
  }

  lemma InsertableIf(db: Database, rows: seq<Row>, ordered: seq<Row>)
    requires multiset(ordered) == multiset(rows) && Ids(ordered) == Ids(rows) && ParentsFirst(ordered)
    requires forall r :: r in rows ==> r.deferred == map[] && r.refs <= db.Keys
    requires SelfKeysClosed(rows) && RepliesFirst(ordered)
    ensures AllInsertable(db, ordered, |ordered|)
  {
    SelfKeysInOrder(rows, ordered);
    forall i | 0 <= i < |ordered| ensures Insertable(db, ordered, i) {
      assert ordered[i] in multiset(rows);
    }
  }

  lemma InsertableOnlyIf(db: Database, rows: seq<Row>, ordered: seq<Row>)
    requires multiset(ordered) == multiset(rows) && Ids(ordered) == Ids(rows)
    requires forall r :: r in rows ==> r.deferred == map[]
    requires AllInsertable(db, ordered, |ordered|)
    ensures (forall r :: r in rows ==> r.refs <= db.Keys)
    ensures SelfKeysClosed(rows) && ParentsFirst(ordered) && RepliesFirst(ordered)
  {
    forall i | 0 <= i < |ordered| && ordered[i].parent.Some?
      ensures Known(ordered, i, ordered[i].parent.value)
    {
      assert Insertable(db, ordered, i);
    }
    InOrderIsClosed(rows, ordered);
    forall r | r in rows ensures r.refs <= db.Keys {
      assert r in multiset(ordered);
      var i :| 0 <= i < |ordered| && ordered[i] == r;
      assert Insertable(db, ordered, i);
    }
    forall i | 0 <= i < |ordered| && ordered[i].replyTo.Some?
      ensures Known(ordered, i, ordered[i].replyTo.value)
    {
      assert Insertable(db, ordered, i);
    }
  }

  lemma RestoreOrdinaryIff(db: Database, t: Table, rows: seq<Row>)
    requires t != PullRequests
    requires Lacks(db, t) && Distinct(rows) && forall r :: r in rows ==> RowFits(t, r)
    ensures RestoreTable(db, t, rows).Some? <==>
              && (forall r :: r in rows ==> r.refs <= db.Keys)
              && SelfKeysClosed(rows) && Acyclic(rows) && RepliesOrdered(rows)
    ensures RestoreTable(db, t, rows).Some? ==> Plus(db, t, rows, RestoreTable(db, t, rows).value)
  {
    var ordered := Ordered(t, rows);
    OrderedIsPermutation(t, rows);
    NotOwnParent(t);
    assert ordered[..|ordered|] == ordered;
    InsertAllIff(db, t, ordered, |ordered|);
    assert RestoreTable(db, t, rows).Some? <==> AllInsertable(db, ordered, |ordered|);
    if Acyclic(rows) { RepliesOrderedIff(t, rows); }
    if AllInsertable(db, ordered, |ordered|) {
      InsertableOnlyIf(db, rows, ordered);
    } else if (forall r :: r in rows ==> r.refs <= db.Keys) && SelfKeysClosed(rows) && Acyclic(rows)
              && RepliesOrdered(rows) {
      InsertableIf(db, rows, ordered);
    }
  }

  // ── The whole restore ───────────────────────────────────────────────────────

  lemma HoldsOneMore(db: Database, db': Database, a: Archive, n: nat)
    requires n < |TABLE_INSERT_ORDER| && Holds(db, a, n)
    requires Plus(db, TABLE_INSERT_ORDER[n], Rows(a, TABLE_INSERT_ORDER[n]), db')
    ensures Holds(db', a, n + 1)
  {
    RankOfEntry(n);
    forall t | Rank(t) == n ensures t == TABLE_INSERT_ORDER[n] { RankLocates(t); }
    forall k: Ref ensures k in db' <==> Rank(k.table) < n + 1 && k.id in Ids(Rows(a, k.table)) {}
    forall t | Rank(t) < n + 1 ensures HoldsRows(db', a, t) {
      forall r | r in Rows(a, t) && Ref(t, r.id) in db' ensures db'[Ref(t, r.id)] == r {
        assert r.id in Ids(Rows(a, t));
        if Rank(t) < n { assert HoldsRows(db, a, t); }
      }
    }
  }

  lemma RefsHeldIffClosed(db: Database, a: Archive, t: Table)
    requires FromTables(a) && Holds(db, a, Rank(t))
    ensures (forall r :: r in Rows(a, t) ==> r.refs <= db.Keys) <==> ForeignKeysClosed(a, Rows(a, t))
  {
    assert TableFits(a, t);
    forall r, k | r in Rows(a, t) && k in r.refs ensures k in db <==> k.id in Ids(Rows(a, k.table)) {
      assert RowFits(t, r);
      OrderRespectsForeignKeys(t, k.table);
    }
    if forall r :: r in Rows(a, t) ==> r.refs <= db.Keys {
      forall r, k | r in Rows(a, t) && k in r.refs ensures k.id in Ids(Rows(a, k.table)) {
        assert k in db;
      }
    }
  }

  lemma CrossReferencesAreSelfKeys(rows: seq<Row>)
    requires forall r :: r in rows ==> r.parent.None?
    ensures AllCrossReferencesKnown(rows, |rows|) <==> SelfKeysClosed(rows)
  {
    if AllCrossReferencesKnown(rows, |rows|) {
      forall r, c | r in rows && c in r.deferred ensures r.deferred[c] in Ids(rows) {
        var i :| 0 <= i < |rows| && rows[i] == r;
        assert CrossReferencesKnown(rows, i);
      }
    }
    if SelfKeysClosed(rows) {
      forall i | 0 <= i < |rows| ensures CrossReferencesKnown(rows, i) { assert rows[i] in rows; }
    }
  }

  lemma PullRequestsRestorableIff(a: Archive)
    requires FromTables(a)
    ensures TableRestorable(a, PullRequests) <==>
              ForeignKeysClosed(a, Rows(a, PullRequests)) && SelfKeysClosed(Rows(a, PullRequests))
  {
    var rows := Rows(a, PullRequests);
    assert TableFits(a, PullRequests);
    forall r | r in rows ensures r.parent.None? && r.replyTo.None? { assert RowFits(PullRequests, r); }
    NoParentIsAcyclic(rows);
    forall i | 0 <= i < |rows| ensures rows[i] in rows {}
  }

  lemma PullRequestsRestorable(db: Database, a: Archive)
    requires FromTables(a) && Holds(db, a, Rank(PullRequests)) && Lacks(db, PullRequests)
    ensures var next := RestoreTable(db, PullRequests, Rows(a, PullRequests));
            && (next.Some? <==> TableRestorable(a, PullRequests))
            && (next.Some? ==> Plus(db, PullRequests, Rows(a, PullRequests), next.value))
  {
    var rows := Rows(a, PullRequests);
    assert TableFits(a, PullRequests);
    RefsHeldIffClosed(db, a, PullRequests);
    PullRequestsRestorableIff(a);
    RestorePullRequestsIff(db, rows);
    forall r | r in rows ensures r.parent.None? { assert RowFits(PullRequests, r); }
    CrossReferencesAreSelfKeys(rows);
    assert (forall i :: 0 <= i < |rows| ==> rows[i].refs <= db.Keys) <==> forall r :: r in rows ==> r.refs <= db.Keys;
  }

  lemma OrdinaryRestorable(db: Database, a: Archive, t: Table)
    requires FromTables(a) && Holds(db, a, Rank(t)) && Lacks(db, t) && t != PullRequests
    ensures var next := RestoreTable(db, t, Rows(a, t));
            && (next.Some? <==> TableRestorable(a, t))
            && (next.Some? ==> Plus(db, t, Rows(a, t), next.value))
  {
    RefsHeldIffClosed(db, a, t);
    assert TableFits(a, t);
    RestoreOrdinaryIff(db, t, Rows(a, t));
  }

  lemma RestoreNextIff(db: Database, a: Archive, n: nat)
    requires FromTables(a) && n < |TABLE_INSERT_ORDER| && Holds(db, a, n)
    ensures var t := TABLE_INSERT_ORDER[n];
            var next := RestoreTable(db, t, Rows(a, t));
            && (next.Some? <==> TableRestorable(a, t))
            && (next.Some? ==> Holds(next.value, a, n + 1))
  {
    var t := TABLE_INSERT_ORDER[n];
    RankOfEntry(n);
    HoldsLacks(db, a, t);
    if t == PullRequests { PullRequestsRestorable(db, a); } else { OrdinaryRestorable(db, a, t); }
    var next := RestoreTable(db, t, Rows(a, t));
    if next.Some? { HoldsOneMore(db, next.value, a, n); }
  }

  lemma HoldsLacks(db: Database, a: Archive, t: Table)
    requires Holds(db, a, Rank(t))
    ensures Lacks(db, t)
  {}

  ghost predicate AllRestorable(a: Archive, n: nat)
  {
    forall t :: Rank(t) < n ==> TableRestorable(a, t)
  }

  lemma AllRestorableStep(a: Archive, n: nat)
    requires n < |TABLE_INSERT_ORDER|
    ensures AllRestorable(a, n + 1) <==> AllRestorable(a, n) && TableRestorable(a, TABLE_INSERT_ORDER[n])
  {
    RankOfEntry(n);
    forall t | Rank(t) == n ensures t == TABLE_INSERT_ORDER[n] { RankLocates(t); }
  }

  /** Restoring the first `n` tables succeeds exactly when they are restorable, and holds their rows. */
  ghost predicate RestoredIff(empty: Database, a: Archive, n: nat)
    requires n <= |TABLE_INSERT_ORDER|
  {
    var db := RestoreTables(empty, a, n);
    (db.Some? <==> AllRestorable(a, n)) && (db.Some? ==> Holds(db.value, a, n))
  }

  lemma RestoredIffStep(empty: Database, a: Archive, n: nat)
    requires FromTables(a) && n < |TABLE_INSERT_ORDER| && RestoredIff(empty, a, n)
    ensures RestoredIff(empty, a, n + 1)
  {
    AllRestorableStep(a, n);
    var before := RestoreTables(empty, a, n);
    if before.Some? { RestoreNextIff(before.value, a, n); }
  }

  lemma {:induction false} RestoreTablesIff(empty: Database, a: Archive, n: nat)
    requires FromTables(a) && n <= |TABLE_INSERT_ORDER| && empty == map[]
    ensures RestoredIff(empty, a, n)
  {
    if n > 0 {
      RestoreTablesIff(empty, a, n - 1);
      RestoredIffStep(empty, a, n - 1);
    }
  }

  /** Deleting the table of rank `n` leaves only lower ranks where there were none above it. */
  lemma DeleteLowersRank(db: Database, n: nat)
    requires n < |TABLE_INSERT_ORDER| && forall k: Ref :: k in db ==> Rank(k.table) < n + 1
    ensures forall k: Ref :: k in DeleteTable(db, TABLE_INSERT_ORDER[n]) ==> Rank(k.table) < n
  {
    forall k: Ref | k in DeleteTable(db, TABLE_INSERT_ORDER[n]) ensures Rank(k.table) < n { RankLocates(k.table); }
  }

  lemma {:induction false} WipeRemoves(db: Database, n: nat)
    requires n <= |TABLE_INSERT_ORDER|
    ensures forall k: Ref :: k in Wipe(db, n) ==> Rank(k.table) < |TABLE_INSERT_ORDER| - n
  {
    if n == 0 {
      forall k: Ref | k in db ensures Rank(k.table) < |TABLE_INSERT_ORDER| { RankLocates(k.table); }
    } else {
      WipeRemoves(db, n - 1);
      DeleteLowersRank(Wipe(db, n - 1), |TABLE_INSERT_ORDER| - n);
    }
  }

  lemma EveryTable(a: Archive)
    ensures AllRestorable(a, |TABLE_INSERT_ORDER|) <==> forall t :: TableRestorable(a, t)
  {
    forall t ensures Rank(t) < |TABLE_INSERT_ORDER| { RankLocates(t); }
  }

  lemma HoldsEverything(db: Database, a: Archive)
    requires Holds(db, a, |TABLE_INSERT_ORDER|)
    ensures forall k: Ref :: k in db <==> k.id in Ids(Rows(a, k.table))
    ensures forall t, r :: r in Rows(a, t) ==> db[Ref(t, r.id)] == r
  {
    forall t ensures Rank(t) < |TABLE_INSERT_ORDER| && HoldsRows(db, a, t) { RankLocates(t); }
  }

  /** Restoring any dump over any database succeeds exactly when the dump is closed under its
      references, its sorted self-references are acyclic and every reply answers an annotation whose
      thread comes earlier in the dump, an ancestor or itself; the database then holds exactly the dumped rows. */
  lemma RestoreIff(db: Database, a: Archive)
    requires FromTables(a)
    ensures Restore(db, a).Some? <==> forall t :: TableRestorable(a, t)
    ensures Restore(db, a).Some? ==>
              && (forall k: Ref :: k in Restore(db, a).value <==> k.id in Ids(Rows(a, k.table)))
              && (forall t, r :: r in Rows(a, t) ==> Restore(db, a).value[Ref(t, r.id)] == r)
  {
    var n := |TABLE_INSERT_ORDER|;
    WipeRemoves(db, n);
    assert Wipe(db, n) == map[];
    RestoreTablesIff(Wipe(db, n), a, n);
    EveryTable(a);
    if Restore(db, a).Some? { HoldsEverything(Restore(db, a).value, a); }
  }

  /** Annotations dumped with threads and replies in order can be restored: the sort leaves their
      order alone. */
  lemma OrderedAnnotationsRestore(a: Archive)
    requires FromTables(a)
    requires ForeignKeysClosed(a, Rows(a, Annotations)) && SelfKeysClosed(Rows(a, Annotations))
    requires ParentsFirst(Rows(a, Annotations)) && RepliesFirst(Rows(a, Annotations))
    ensures TableRestorable(a, Annotations)
  {
    assert TableFits(a, Annotations);
    SortKeepsSorted(Rows(a, Annotations));
    SortOrdersIffAcyclic(Rows(a, Annotations));
    RepliesSortedIff(Rows(a, Annotations));
  }

  const ROOT := Row("a", None, None, {}, map[], "")
  const REPLY := Row("b", Some("a"), Some("c"), {}, map[], "")
  const TARGET := Row("c", Some("a"), None, {}, map[], "")

  lemma ReplyThreadShape(rows: seq<Row>)
    requires rows == [ROOT, REPLY, TARGET]
    ensures Distinct(rows) && ParentsFirst(rows) && SelfKeysClosed(rows) && !RepliesFirst(rows)
  {
    assert rows[..1] == [ROOT] && rows[..2] == [ROOT, REPLY];
    assert ROOT in rows && REPLY in rows && TARGET in rows;
    assert ROOT in rows[..1] && ROOT in rows[..2];
    assert "a" in Ids(rows[..1]) && "a" in Ids(rows[..2]) && "a" in Ids(rows) && "c" in Ids(rows);
    assert Ids(rows[..1]) == {"a"};
    forall i | 0 <= i < 3 && rows[i].parent.Some? ensures ParentOk(rows, i) {
      assert i == 1 || i == 2;
    }
    assert rows[1].replyTo.Some?;
  }

  /** The sort ignores `reply_to_id`: a thread whose reply was dumped before its target is closed
      and acyclic, and still cannot be restored. */
  lemma ReplyOrderCanFail()
    ensures var a: Archive := map[Annotations := [ROOT, REPLY, TARGET]];
            && FromTables(a) && SelfKeysClosed(Rows(a, Annotations)) && Acyclic(Rows(a, Annotations))
            && !RepliesOrdered(Rows(a, Annotations)) && Restore(map[], a).None?
  {
    var a: Archive := map[Annotations := [ROOT, REPLY, TARGET]];
    var rows := Rows(a, Annotations);
    ReplyThreadShape(rows);
    SortKeepsSorted(rows);
    SortOrdersIffAcyclic(rows);
    RepliesSortedIff(rows);
    RestoreIff(map[], a);
    assert !TableRestorable(a, Annotations);
  }
}

/** The same statements on a session whose transaction is aborted by the first error. */
module RestoreTablesSession {
  import opened Dump
  import opened Prelude
  import opened TopologicalSort
  import TopologicalSorter
  import Spec = RestoreTables

  class Session {
    /** `None` once a statement has failed. */
    var db: Option<Spec.Database>

    method Insert(t: Table, r: Row)
      requires db.Some?
      modifies this
      ensures db == Spec.Insert(old(db.value), t, r)
    {
      if Ref(t, r.id) in db.value || !Spec.Held(db.value, t, r) {
        db := None;
      } else {
        db := Some(db.value[Ref(t, r.id) := r]);
      }
    }

    method InsertAll(t: Table, rows: seq<Row>)
      requires db.Some?
      modifies this
      ensures db == Spec.InsertAll(old(db.value), t, rows)
    {
      for i := 0 to |rows|
        invariant db.Some? && db == Spec.InsertAll(old(db.value), t, rows[..i])
      {
        assert rows[..i + 1][..i] == rows[..i];
        Insert(t, rows[i]);
        if db.None? {
          InsertAllStops(old(db.value), t, rows, i + 1);
          return;
        }
      }
      assert rows[..|rows|] == rows;
    }

    method RestorePullRequests(rows: seq<Row>)
      requires db.Some?
      modifies this
      ensures db == Spec.RestoreTable(old(db.value), PullRequests, rows)
    {
      InsertAll(PullRequests, Spec.Cleaned(rows));
      if db.None? { return; }
      ghost var inserted := db.value;
      for i := 0 to |rows|
        invariant db.Some? && db == Spec.UpdateAll(inserted, PullRequests, rows[..i])
      {
        assert rows[..i + 1][..i] == rows[..i];
        if rows[i].deferred != map[] {
          db := Spec.Update(db.value, PullRequests, rows[i].id, rows[i].deferred);
          if db.None? {
            UpdateAllStops(inserted, PullRequests, rows, i + 1);
            return;
          }
        }
      }
      assert rows[..|rows|] == rows;
    }

    method RestoreTable(t: Table, rows: seq<Row>)
      requires db.Some?
      modifies this
      ensures db == Spec.RestoreTable(old(db.value), t, rows)
    {
      if t == PullRequests {
        RestorePullRequests(rows);
      } else {
        var ordered := rows;
        if SelfReferential(t) { ordered := TopologicalSorter.Sort(rows); }
        InsertAll(t, ordered);
      }
    }

    /** Wipe in reverse order, then reload in insertion order. */
    method Restore(a: Spec.Archive)
      requires db.Some?
      modifies this
      ensures db == Spec.Restore(old(db.value), a)
    {
      var order := TABLE_INSERT_ORDER;
      for n := 0 to |order|
        invariant db == Some(Spec.Wipe(old(db.value), n))
      {
        db := Some(Spec.DeleteTable(db.value, order[|order| - 1 - n]));
      }
      ghost var empty := db.value;
      for n := 0 to |order|
        invariant db.Some? && db == Spec.RestoreTables(empty, a, n)
      {
        RestoreTable(order[n], Spec.Rows(a, order[n]));
        if db.None? {
          RestoreTablesStops(empty, a, n + 1);
          return;
        }
      }
    }
  }

  lemma {:induction false} InsertAllStops(db: Spec.Database, t: Table, rows: seq<Row>, n: nat)
    requires n <= |rows| && Spec.InsertAll(db, t, rows[..n]).None?
    ensures Spec.InsertAll(db, t, rows).None?
    decreases |rows| - n
  {
    if n == |rows| {
      assert rows[..n] == rows;
    } else {
      assert rows[..n + 1][..n] == rows[..n];
      InsertAllStops(db, t, rows, n + 1);
    }
  }

  lemma {:induction false} UpdateAllStops(db: Spec.Database, t: Table, rows: seq<Row>, n: nat)
    requires n <= |rows| && Spec.UpdateAll(db, t, rows[..n]).None?
    ensures Spec.UpdateAll(db, t, rows).None?
    decreases |rows| - n
  {
    if n == |rows| {
      assert rows[..n] == rows;
    } else {
      assert rows[..n + 1][..n] == rows[..n];
      UpdateAllStops(db, t, rows, n + 1);
    }
  }

  lemma {:induction false} RestoreTablesStops(db: Spec.Database, a: Spec.Archive, n: nat)
    requires n <= |TABLE_INSERT_ORDER| && Spec.RestoreTables(db, a, n).None?
    ensures Spec.RestoreTables(db, a, |TABLE_INSERT_ORDER|).None?
    decreases |TABLE_INSERT_ORDER| - n
  {
    if n < |TABLE_INSERT_ORDER| { RestoreTablesStops(db, a, n + 1); }
  }
}
