/** The order in which the sort lists rows, in terms of the order they were dumped in. */
module SortedOrder {
  import opened Dump
  import opened Prelude
  import opened TopologicalSort

  // ── Threads ─────────────────────────────────────────────────────────────────

  /** A row's parent when it is among the rows, else the row itself. */
  function Parent(byId: map<Id, Row>, id: Id): Id
  {
    if id in byId && byId[id].parent.Some? && byId[id].parent.value in byId then byId[id].parent.value else id
  }

  function Up(byId: map<Id, Row>, id: Id, n: nat): Id
  {
    if n == 0 then id else Parent(byId, Up(byId, id, n - 1))
  }

  /** `x` is `y` or one of its ancestors. */
  ghost predicate AtOrAbove(byId: map<Id, Row>, x: Id, y: Id) { exists n: nat :: Up(byId, y, n) == x }

  /** The least dump index, from `i` on, of a row of the thread below `x`, its own included. */
  ghost function First(rows: seq<Row>, x: Id, i: nat): (n: nat)
    requires i <= |rows|
    ensures i <= n <= |rows|
    ensures n < |rows| ==> AtOrAbove(ById(rows), x, rows[n].id)
    ensures forall j :: i <= j < n ==> !AtOrAbove(ById(rows), x, rows[j].id)
    decreases |rows| - i
  {
    if i == |rows| || AtOrAbove(ById(rows), x, rows[i].id) then i else First(rows, x, i + 1)
  }

  /** When the sort lists `q` before `r`: its thread was dumped first, or both were reached through the
      same row and `q` is an ancestor of `r`. */
  ghost predicate Earlier(rows: seq<Row>, q: Id, r: Id)
  {
    || First(rows, q, 0) < First(rows, r, 0)
    || (First(rows, q, 0) == First(rows, r, 0) && q != r && AtOrAbove(ById(rows), q, r))
  }

  /** Every reply answers itself or an annotation whose thread comes earlier in the dump. */
  ghost predicate RepliesOrdered(rows: seq<Row>)
  {
    forall r :: r in rows && r.replyTo.Some? ==>
      r.replyTo.value == r.id || (r.replyTo.value in Ids(rows) && Earlier(rows, r.replyTo.value, r.id))
  }

  /** Every reply comes after the annotation it answers, or names itself. */
  ghost predicate RepliesFirst(rows: seq<Row>)
  {
    forall i :: 0 <= i < |rows| && rows[i].replyTo.Some? ==>
      rows[i].replyTo.value == rows[i].id || rows[i].replyTo.value in Ids(rows[..i])
  }

  // ── One visit ───────────────────────────────────────────────────────────────

  ghost predicate Climbs(byId: map<Id, Row>, rank: map<Id, nat>)
  {
    && byId.Keys <= rank.Keys
    && forall k :: k in byId ==> byId[k].id == k && (Parent(byId, k) != k ==> rank[Parent(byId, k)] < rank[k])
  }

  /** The unvisited rows from the root of a thread down to `id`. */
  function Path(byId: map<Id, Row>, rank: map<Id, nat>, visited: set<Id>, id: Id): seq<Row>
    requires Climbs(byId, rank) && id in byId
    decreases rank[id]
  {
    if id in visited then []
    else (if Parent(byId, id) != id then Path(byId, rank, visited, Parent(byId, id)) else []) + [byId[id]]
  }

  lemma {:induction false} PathIgnores(byId: map<Id, Row>, rank: map<Id, nat>, visited: set<Id>, extra: Id, id: Id)
    requires Climbs(byId, rank) && id in byId && extra in byId && rank[id] < rank[extra]
    ensures Path(byId, rank, visited + {extra}, id) == Path(byId, rank, visited, id)
    decreases rank[id]
  {
    if id !in visited && Parent(byId, id) != id { PathIgnores(byId, rank, visited, extra, Parent(byId, id)); }
  }

  /** A visit marks and lists exactly that path. */
  lemma {:induction false} VisitIsPath(byId: map<Id, Row>, rank: map<Id, nat>, s: Progress, id: Id)
    requires Climbs(byId, rank) && id in byId
    ensures var path := Path(byId, rank, s.visited, id);
            Visit(byId, s, id) == Progress(s.visited + Ids(path), s.result + path)
    decreases rank[id]
  {
    var path := Path(byId, rank, s.visited, id);
    if id !in s.visited {
      var s1, p := s.(visited := s.visited + {id}), Parent(byId, id);
      var above := if p != id then Path(byId, rank, s.visited, p) else [];
      assert Ids(above + [byId[id]]) == Ids(above) + {id};
      if p != id {
        VisitIsPath(byId, rank, s1, p);
        PathIgnores(byId, rank, s.visited, id, p);
      }
      assert s.result + (above + [byId[id]]) == (s.result + above) + [byId[id]];
      assert s.visited + {id} + Ids(above) == s.visited + (Ids(above) + {id});
      assert above == [] ==> s.result + above == s.result && Ids(above) == {};
      assert Visit(byId, s, id)
          == Progress(s.visited + {id} + Ids(above), (s.result + above) + [byId[id]]);
    }
  }

  // ── Ancestors ───────────────────────────────────────────────────────────────

  lemma {:induction false} UpFromParent(byId: map<Id, Row>, id: Id, n: nat)
    ensures Up(byId, id, n + 1) == Up(byId, Parent(byId, id), n)
  {
    if n > 0 { UpFromParent(byId, id, n - 1); }
  }

  lemma AboveParent(byId: map<Id, Row>, x: Id, y: Id)
    ensures AtOrAbove(byId, x, y) <==> x == y || AtOrAbove(byId, x, Parent(byId, y))
  {
    if AtOrAbove(byId, x, y) {
      var n: nat :| Up(byId, y, n) == x;
      if n > 0 { UpFromParent(byId, y, n - 1); }
    }
    if AtOrAbove(byId, x, Parent(byId, y)) {
      var n: nat :| Up(byId, Parent(byId, y), n) == x;
      UpFromParent(byId, y, n);
      assert Up(byId, y, n + 1) == x;
    }
    if x == y { assert Up(byId, y, 0) == x; }
  }

  lemma {:induction false} UpClimbs(byId: map<Id, Row>, rank: map<Id, nat>, id: Id, n: nat)
    requires Climbs(byId, rank) && id in byId
    ensures Up(byId, id, n) in byId
    ensures Up(byId, id, n) == id || rank[Up(byId, id, n)] < rank[id]
  {
    if n > 0 { UpClimbs(byId, rank, id, n - 1); }
  }

  lemma AboveClimbs(byId: map<Id, Row>, rank: map<Id, nat>, x: Id, y: Id)
    requires Climbs(byId, rank) && y in byId && AtOrAbove(byId, x, y)
    ensures x in byId && (x == y || rank[x] < rank[y])
  {
    var n: nat :| Up(byId, y, n) == x;
    UpClimbs(byId, rank, y, n);
  }

  /** Visited rows have visited parents. */
  ghost predicate Upward(byId: map<Id, Row>, visited: set<Id>)
  {
    forall x :: x in visited ==> Parent(byId, x) in visited
  }

  lemma {:induction false} UpwardStays(byId: map<Id, Row>, visited: set<Id>, id: Id, n: nat)
    requires Upward(byId, visited) && id in visited
    ensures Up(byId, id, n) in visited
  {
    if n > 0 { UpwardStays(byId, visited, id, n - 1); }
  }

  /** The path lists the unvisited ancestors, each above the ones after it. */
  lemma {:induction false} PathIsAncestors(byId: map<Id, Row>, rank: map<Id, nat>, visited: set<Id>, id: Id)
    requires Climbs(byId, rank) && id in byId && Upward(byId, visited)
    ensures var path := Path(byId, rank, visited, id);
            && (forall x :: x in Ids(path) <==> AtOrAbove(byId, x, id) && x !in visited)
            && (forall a, b :: 0 <= a < b < |path| ==>
                  AtOrAbove(byId, path[a].id, path[b].id) && path[a].id != path[b].id)
    decreases rank[id]
  {
    var path := Path(byId, rank, visited, id);
    if id in visited {
      forall x | AtOrAbove(byId, x, id) ensures x in visited {
        var n: nat :| Up(byId, id, n) == x;
        UpwardStays(byId, visited, id, n);
      }
      assert Ids(path) == {};
    } else {
      var p := Parent(byId, id);
      var above := if p != id then Path(byId, rank, visited, p) else [];
      assert path == above + [byId[id]];
      assert Ids(path) == Ids(above) + {id};
      if p != id { PathIsAncestors(byId, rank, visited, p); }
      forall x ensures x in Ids(path) <==> AtOrAbove(byId, x, id) && x !in visited {
        AboveParent(byId, x, id);
        if p == id { OnlySelfAbove(byId, x, id); }
      }
      forall a | 0 <= a < |above| ensures AtOrAbove(byId, above[a].id, id) && above[a].id != id {
        assert above[a].id in Ids(above);
        AboveParent(byId, above[a].id, id);
        AboveClimbs(byId, rank, above[a].id, p);
      }
    }
  }

  lemma OnlySelfAbove(byId: map<Id, Row>, x: Id, y: Id)
    requires Parent(byId, y) == y
    ensures AtOrAbove(byId, x, y) <==> x == y
  {
    if AtOrAbove(byId, x, y) {
      var n: nat :| Up(byId, y, n) == x;
      UpOfRoot(byId, y, n);
    }
    assert Up(byId, y, 0) == y;
  }

  lemma {:induction false} UpOfRoot(byId: map<Id, Row>, y: Id, n: nat)
    requires Parent(byId, y) == y
    ensures Up(byId, y, n) == y
  {
    if n > 0 { UpOfRoot(byId, y, n - 1); }
  }

  // ── The whole sort ──────────────────────────────────────────────────────────

  /** The visited rows are those whose thread begins among the first `n` dumped rows, and they are
      listed in the order of `Earlier`. */
  ghost predicate InOrder(rows: seq<Row>, n: nat, s: Progress)
  {
    && Ids(s.result) == s.visited
    && (forall x :: x in s.visited <==> x in ById(rows) && First(rows, x, 0) < n)
    && (forall a, b :: 0 <= a < b < |s.result| ==> Earlier(rows, s.result[a].id, s.result[b].id))
  }

  lemma FirstIsLeast(rows: seq<Row>, x: Id, i: nat)
    requires i < |rows| && AtOrAbove(ById(rows), x, rows[i].id)
    ensures First(rows, x, 0) <= i
  {}

  lemma ParentNoLater(rows: seq<Row>, x: Id)
    requires First(rows, x, 0) < |rows|
    ensures First(rows, Parent(ById(rows), x), 0) <= First(rows, x, 0)
  {
    var i, byId := First(rows, x, 0), ById(rows);
    var n: nat :| Up(byId, rows[i].id, n) == x;
    assert Up(byId, rows[i].id, n + 1) == Parent(byId, x);
    FirstIsLeast(rows, Parent(byId, x), i);
  }

  lemma VisitedIsUpward(rows: seq<Row>, n: nat, s: Progress)
    requires n <= |rows| && InOrder(rows, n, s)
    ensures Upward(ById(rows), s.visited)
  {
    forall x | x in s.visited ensures Parent(ById(rows), x) in s.visited { ParentNoLater(rows, x); }
  }

  lemma FirstOfPath(rows: seq<Row>, rank: map<Id, nat>, n: nat, s: Progress, x: Id)
    requires Climbs(ById(rows), rank) && n < |rows| && rows[n].id in ById(rows) && InOrder(rows, n, s)
    ensures AtOrAbove(ById(rows), x, rows[n].id) && x !in s.visited <==>
              x in ById(rows) && First(rows, x, 0) == n
  {
    if AtOrAbove(ById(rows), x, rows[n].id) && x !in s.visited {
      AboveClimbs(ById(rows), rank, x, rows[n].id);
      FirstIsLeast(rows, x, n);
    }
  }

  lemma OrderStep(rows: seq<Row>, rank: map<Id, nat>, n: nat, s: Progress)
    requires Climbs(ById(rows), rank) && n < |rows| && rows[n].id in ById(rows) && InOrder(rows, n, s)
    ensures InOrder(rows, n + 1, Visit(ById(rows), s, rows[n].id))
  {
    var byId := ById(rows);
    var path := Path(byId, rank, s.visited, rows[n].id);
    VisitIsPath(byId, rank, s, rows[n].id);
    VisitedIsUpward(rows, n, s);
    PathIsAncestors(byId, rank, s.visited, rows[n].id);
    forall x ensures x in Ids(path) <==> x in byId && First(rows, x, 0) == n {
      FirstOfPath(rows, rank, n, s, x);
    }
    OrderAppend(rows, n, s, path);
  }

  lemma OrderAppend(rows: seq<Row>, n: nat, s: Progress, path: seq<Row>)
    requires InOrder(rows, n, s)
    requires forall x :: x in Ids(path) <==> x in ById(rows) && First(rows, x, 0) == n
    requires forall a, b :: 0 <= a < b < |path| ==>
               AtOrAbove(ById(rows), path[a].id, path[b].id) && path[a].id != path[b].id
    ensures InOrder(rows, n + 1, Progress(s.visited + Ids(path), s.result + path))
  {
    var all := s.result + path;
    assert Ids(all) == Ids(s.result) + Ids(path);
    forall a, b | 0 <= a < b < |all| ensures Earlier(rows, all[a].id, all[b].id) {
      if b >= |s.result| {
        assert path[b - |s.result|].id in Ids(path);
        if a >= |s.result| {
          assert path[a - |s.result|].id in Ids(path);
        } else {
          assert s.result[a].id in Ids(s.result);
        }
      }
    }
  }

  lemma {:induction false} AllInOrder(rows: seq<Row>, rank: map<Id, nat>, n: nat)
    requires Climbs(ById(rows), rank) && n <= |rows| && forall r :: r in rows ==> r.id in ById(rows)
    ensures InOrder(rows, n, VisitAll(ById(rows), Progress({}, []), rows[..n]))
  {
    if n > 0 {
      AllInOrder(rows, rank, n - 1);
      assert rows[..n][..n - 1] == rows[..n - 1];
      assert rows[n - 1] in rows;
      OrderStep(rows, rank, n - 1, VisitAll(ById(rows), Progress({}, []), rows[..n - 1]));
    }
  }

  lemma RankedClimbs(rows: seq<Row>, rank: map<Id, nat>)
    requires Distinct(rows) && Ranked(rows, rank)
    ensures Climbs(ById(rows), rank)
  {
    ByIdLookup(rows);
  }

  lemma EarlierIsAsymmetric(rows: seq<Row>, rank: map<Id, nat>, q: Id, r: Id)
    requires Climbs(ById(rows), rank) && q in ById(rows) && r in ById(rows) && Earlier(rows, q, r)
    ensures !Earlier(rows, r, q)
  {
    if AtOrAbove(ById(rows), q, r) { AboveClimbs(ById(rows), rank, q, r); }
    if AtOrAbove(ById(rows), r, q) { AboveClimbs(ById(rows), rank, r, q); }
  }

  /** The sorted order is exactly `Earlier`: of two rows the one whose thread begins earlier in the dump
      comes first, and within a thread reached at one place ancestors come first. */
  lemma SortedOrderIff(rows: seq<Row>, i: nat, j: nat)
    requires Distinct(rows) && Acyclic(rows) && i < |Sorted(rows)| && j < |Sorted(rows)| && i != j
    ensures i < j <==> Earlier(rows, Sorted(rows)[i].id, Sorted(rows)[j].id)
  {
    var rank :| Ranked(rows, rank);
    var sorted := Sorted(rows);
    RankedClimbs(rows, rank);
    ByIdLookup(rows);
    AllInOrder(rows, rank, |rows|);
    assert rows[..|rows|] == rows;
    SortIsPermutation(rows);
    assert sorted[i].id in Ids(sorted) && sorted[j].id in Ids(sorted);
    if j < i { EarlierIsAsymmetric(rows, rank, sorted[j].id, sorted[i].id); }
  }

  /** Replies come out after their targets exactly when the dump orders their threads so. */
  lemma RepliesSortedIff(rows: seq<Row>)
    requires Distinct(rows) && Acyclic(rows)
    ensures RepliesFirst(Sorted(rows)) <==> RepliesOrdered(rows)
  {
    var sorted := Sorted(rows);
    SortIsPermutation(rows);
    assert forall r :: r in sorted <==> r in multiset(sorted);
    assert forall r :: r in rows <==> r in multiset(rows);
    forall i | 0 <= i < |sorted| && sorted[i].replyTo.Some? && sorted[i].replyTo.value != sorted[i].id
      ensures var q := sorted[i].replyTo.value;
              q in Ids(sorted[..i]) <==> q in Ids(rows) && Earlier(rows, q, sorted[i].id)
    {
      TargetBeforeIff(rows, i, sorted[i].replyTo.value);
    }
    if RepliesFirst(sorted) {
      forall r | r in rows && r.replyTo.Some?
        ensures r.replyTo.value == r.id || (r.replyTo.value in Ids(rows) && Earlier(rows, r.replyTo.value, r.id))
      {
        assert r in sorted;
        var i :| 0 <= i < |sorted| && sorted[i] == r;
      }
    }
    if RepliesOrdered(rows) {
      forall i | 0 <= i < |sorted| && sorted[i].replyTo.Some?
        ensures sorted[i].replyTo.value == sorted[i].id || sorted[i].replyTo.value in Ids(sorted[..i])
      {
        assert sorted[i] in sorted && sorted[i] in rows;
      }
    }
  }

  lemma TargetBeforeIff(rows: seq<Row>, i: nat, q: Id)
    requires Distinct(rows) && Acyclic(rows) && i < |Sorted(rows)| && q != Sorted(rows)[i].id
    ensures q in Ids(Sorted(rows)[..i]) <==> q in Ids(rows) && Earlier(rows, q, Sorted(rows)[i].id)
  {
    var sorted := Sorted(rows);
    SortIsPermutation(rows);
    if q in Ids(sorted[..i]) {
      var j :| 0 <= j < i && sorted[..i][j].id == q;
      assert sorted[j] in sorted;
      SortedOrderIff(rows, j, i);
    }
    if q in Ids(rows) && Earlier(rows, q, sorted[i].id) {
      assert q in Ids(sorted);
      var j :| 0 <= j < |sorted| && sorted[j].id == q;
      SortedOrderIff(rows, j, i);
      assert sorted[..i][j] in sorted[..i];
    }
  }
}
