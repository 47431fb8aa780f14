/** `_topological_sort`: order the rows of a self-referential table so that parents come first. */
module TopologicalSort {
  import opened Dump
  import opened Prelude

  predicate Distinct(rows: seq<Row>)
  {
    forall i, j :: 0 <= i < j < |rows| ==> rows[i].id != rows[j].id
  }

  function Ids(rows: seq<Row>): set<Id> { set r | r in rows :: r.id }

  function ById(rows: seq<Row>): map<Id, Row>
  {
    if rows == [] then map[] else ById(rows[..|rows| - 1])[rows[|rows| - 1].id := rows[|rows| - 1]]
  }

  /** Every parent that is among the rows precedes its child; a row may name itself. */
  ghost predicate ParentsFirst(rows: seq<Row>)
  {
    forall i :: 0 <= i < |rows| && rows[i].parent.Some? ==> ParentOk(rows, i)
  }

  ghost predicate ParentOk(rows: seq<Row>, i: nat)
    requires i < |rows| && rows[i].parent.Some?
  {
    var p := rows[i].parent.value;
    p == rows[i].id || p !in Ids(rows) || p in Ids(rows[..i])
  }

  /** `rank` grows along every parent link except self-loops and dangling links. */
  ghost predicate Ranked(rows: seq<Row>, rank: map<Id, nat>)
  {
    && Ids(rows) <= rank.Keys
    && forall r :: r in rows && r.parent.Some? && r.parent.value != r.id && r.parent.value in Ids(rows) ==>
         rank[r.parent.value] < rank[r.id]
  }

  /** The parent links have no cycle longer than one. */
  ghost predicate Acyclic(rows: seq<Row>) { exists rank :: Ranked(rows, rank) }

  // ── The sort ────────────────────────────────────────────────────────────────

  datatype Progress = Progress(visited: set<Id>, result: seq<Row>)

  function Visit(byId: map<Id, Row>, s: Progress, id: Id): Progress
    decreases byId.Keys - s.visited
  {
    if id in s.visited then s
    else
      var s1 := s.(visited := s.visited + {id});
      if id !in byId then s1
      else
        assert id in byId.Keys - s.visited;
        var row := byId[id];
        var s2 := if row.parent.Some? && row.parent.value in byId then Visit(byId, s1, row.parent.value) else s1;
        s2.(result := s2.result + [row])
  }

  function VisitAll(byId: map<Id, Row>, s: Progress, rows: seq<Row>): Progress
  {
    if rows == [] then s else Visit(byId, VisitAll(byId, s, rows[..|rows| - 1]), rows[|rows| - 1].id)
  }

  function Sorted(rows: seq<Row>): seq<Row>
  {
    VisitAll(ById(rows), Progress({}, []), rows).result
  }

  // ── What the sort returns ───────────────────────────────────────────────────

  lemma {:induction false} ByIdLookup(rows: seq<Row>)
    ensures ById(rows).Keys == Ids(rows)
    ensures forall id :: id in ById(rows) ==> ById(rows)[id] in rows && ById(rows)[id].id == id
    ensures Distinct(rows) ==> forall r :: r in rows ==> ById(rows)[r.id] == r
  {
    if rows != [] {
      var front, last := rows[..|rows| - 1], rows[|rows| - 1];
      assert rows == front + [last];
      ByIdLookup(front);
      if Distinct(rows) {
        forall r | r in rows ensures ById(rows)[r.id] == r {
          if r != last {
            var i :| 0 <= i < |rows| && rows[i] == r;
            assert r in front;
          }
        }
      }
    }
  }

  /** One visit appends exactly the rows it newly marks, each once. */
  ghost predicate Extends(byId: map<Id, Row>, s: Progress, s': Progress)
  {
    && s.result <= s'.result
    && s.visited <= s'.visited
    && var added := s'.result[|s.result|..];
       && Distinct(added)
       && Ids(added) == (s'.visited - s.visited) * byId.Keys
       && (forall r :: r in added ==> r.id in byId && byId[r.id] == r)
  }

  /** Emitting the row that was marked before the parent's visit. */
  lemma ExtendsEmit(byId: map<Id, Row>, s: Progress, s2: Progress, row: Row)
    requires row.id in byId && byId[row.id] == row && row.id !in s.visited
    requires Extends(byId, s.(visited := s.visited + {row.id}), s2)
    ensures Extends(byId, s, s2.(result := s2.result + [row]))
  {
    var added, all := s2.result[|s.result|..], (s2.result + [row])[|s.result|..];
    assert all == added + [row];
    assert forall r :: r in added ==> r.id in Ids(added);
    assert row.id !in Ids(added);
    assert Ids(all) == Ids(added) + {row.id};
  }

  lemma {:induction false} VisitExtends(byId: map<Id, Row>, s: Progress, id: Id)
    requires forall k :: k in byId ==> byId[k].id == k
    ensures Extends(byId, s, Visit(byId, s, id)) && id in Visit(byId, s, id).visited
    decreases byId.Keys - s.visited
  {
    if id !in s.visited {
      var s1 := s.(visited := s.visited + {id});
      if id in byId {
        assert id in byId.Keys - s.visited;
        var row := byId[id];
        var s2 := s1;
        if row.parent.Some? && row.parent.value in byId {
          VisitExtends(byId, s1, row.parent.value);
          s2 := Visit(byId, s1, row.parent.value);
        }
        ExtendsEmit(byId, s, s2, row);
      }
    }
  }

  lemma {:induction false} VisitAllExtends(byId: map<Id, Row>, rows: seq<Row>)
    requires forall k :: k in byId ==> byId[k].id == k
    ensures var s := VisitAll(byId, Progress({}, []), rows);
            Extends(byId, Progress({}, []), s) && Ids(rows) <= s.visited
  {
    if rows != [] {
      var front, last := rows[..|rows| - 1], rows[|rows| - 1];
      assert rows == front + [last];
      VisitAllExtends(byId, front);
      var s := VisitAll(byId, Progress({}, []), front);
      VisitExtends(byId, s, last.id);
      var s' := Visit(byId, s, last.id);
      var added := s'.result[|s.result|..];
      assert s'.result == s.result + added;
      assert Ids(s.result) !! Ids(added);
      assert forall r :: r in s.result ==> r.id in Ids(s.result);
      assert forall r :: r in added ==> r.id in Ids(added);
      assert Ids(s'.result) == Ids(s.result) + Ids(added);
      assert s'.result[0..] == s'.result;
      assert s.result[0..] == s.result;
    }
  }

  lemma {:induction false} MultisetOfDistinct(rows: seq<Row>, r: Row)
    requires Distinct(rows)
    ensures multiset(rows)[r] == if r in rows then 1 else 0
  {
    if rows != [] {
      var front, last := rows[..|rows| - 1], rows[|rows| - 1];
      assert rows == front + [last];
      MultisetOfDistinct(front, r);
      assert forall i :: 0 <= i < |front| ==> front[i] == rows[i] && rows[i].id != last.id;
    }
  }

  /** For any link graph, cycles, self-loops and dangling parents included, the sort returns a
      permutation of the rows. */
  lemma SortIsPermutation(rows: seq<Row>)
    requires Distinct(rows)
    ensures multiset(Sorted(rows)) == multiset(rows) && Distinct(Sorted(rows))
    ensures Ids(Sorted(rows)) == Ids(rows)
  {
    var byId, result := ById(rows), Sorted(rows);
    ByIdLookup(rows);
    VisitAllExtends(byId, rows);
    assert result[0..] == result;
    forall r: Row ensures multiset(result)[r] == multiset(rows)[r] {
      MultisetOfDistinct(result, r);
      MultisetOfDistinct(rows, r);
      if r in rows {
        assert r.id in Ids(rows) && r.id in Ids(result);
        var q :| q in result && q.id == r.id;
        assert q == byId[q.id] == r;
      }
    }
  }

  // ── Parents first ───────────────────────────────────────────────────────────

  /** Marked but not yet emitted: the ids whose visit is still in progress. */
  function Open(byId: map<Id, Row>, s: Progress): set<Id> { s.visited * byId.Keys - Ids(s.result) }

  ghost predicate Above(byId: map<Id, Row>, s: Progress, rank: map<Id, nat>, n: nat)
    requires byId.Keys <= rank.Keys
  {
    forall x :: x in Open(byId, s) ==> rank[x] > n
  }

  /** Parents first, judged against all rows rather than only those emitted so far. */
  ghost predicate EmittedFirst(byId: map<Id, Row>, result: seq<Row>)
  {
    forall i :: 0 <= i < |result| && result[i].parent.Some? ==>
      var p := result[i].parent.value; p == result[i].id || p !in byId || p in Ids(result[..i])
  }

  lemma EmittedFirstAppend(byId: map<Id, Row>, result: seq<Row>, row: Row)
    requires EmittedFirst(byId, result)
    requires row.parent.Some? ==> var p := row.parent.value; p == row.id || p !in byId || p in Ids(result)
    ensures EmittedFirst(byId, result + [row])
  {
    var all := result + [row];
    forall i | 0 <= i < |all| && all[i].parent.Some?
      ensures var p := all[i].parent.value; p == all[i].id || p !in byId || p in Ids(all[..i])
    {
      if i < |result| { assert all[..i] == result[..i]; } else { assert all[..i] == result; }
    }
  }

  lemma {:induction false} VisitKeepsOrder(byId: map<Id, Row>, s: Progress, id: Id, rank: map<Id, nat>)
    requires forall k :: k in byId ==> byId[k].id == k
    requires byId.Keys <= rank.Keys && id in byId
    requires forall k ::
               k in byId && byId[k].parent.Some? && byId[k].parent.value != k && byId[k].parent.value in byId ==>
               rank[byId[k].parent.value] < rank[k]
    requires id !in s.visited ==> Above(byId, s, rank, rank[id])
    requires EmittedFirst(byId, s.result) && Ids(s.result) <= s.visited
    ensures var s' := Visit(byId, s, id);
            && EmittedFirst(byId, s'.result) && Ids(s'.result) <= s'.visited
            && Open(byId, s') == Open(byId, s)
            && (id !in Open(byId, s) ==> id in Ids(s'.result))
    decreases byId.Keys - s.visited
  {
    if id !in s.visited {
      assert id in byId.Keys - s.visited;
      var s1 := s.(visited := s.visited + {id});
      var row := byId[id];
      assert Open(byId, s1) == Open(byId, s) + {id};
      var s2 := s1;
      if row.parent.Some? && row.parent.value in byId {
        var p := row.parent.value;
        s2 := Visit(byId, s1, p);
        if p != id { VisitKeepsOrder(byId, s1, p, rank); }
        if p != id { assert p !in Open(byId, s1); }
      }
      EmittedFirstAppend(byId, s2.result, row);
      assert Ids(s2.result + [row]) == Ids(s2.result) + {id};
    }
  }

  lemma {:induction false} VisitAllKeepsOrder(byId: map<Id, Row>, rows: seq<Row>, rank: map<Id, nat>)
    requires forall k :: k in byId ==> byId[k].id == k
    requires byId.Keys <= rank.Keys && Ids(rows) <= byId.Keys
    requires forall k ::
               k in byId && byId[k].parent.Some? && byId[k].parent.value != k && byId[k].parent.value in byId ==>
               rank[byId[k].parent.value] < rank[k]
    ensures var s := VisitAll(byId, Progress({}, []), rows);
            EmittedFirst(byId, s.result) && Ids(s.result) <= s.visited && Open(byId, s) == {}
  {
    if rows != [] {
      var front, last := rows[..|rows| - 1], rows[|rows| - 1];
      assert rows == front + [last];
      assert last.id in Ids(rows);
      VisitAllKeepsOrder(byId, front, rank);
      VisitKeepsOrder(byId, VisitAll(byId, Progress({}, []), front), last.id, rank);
    }
  }

  /** The result is parents-first exactly when the links have no cycle longer than one. */
  lemma SortOrdersIffAcyclic(rows: seq<Row>)
    requires Distinct(rows)
    ensures ParentsFirst(Sorted(rows)) <==> Acyclic(rows)
  {
    var byId, result := ById(rows), Sorted(rows);
    ByIdLookup(rows);
    SortIsPermutation(rows);
    if Acyclic(rows) {
      var rank :| Ranked(rows, rank);
      VisitAllKeepsOrder(byId, rows, rank);
      assert ParentsFirst(result);
    }
    if ParentsFirst(result) {
      PositionRanks(rows, result);
    }
  }

  function Position(rows: seq<Row>): map<Id, nat>
  {
    if rows == [] then map[] else Position(rows[..|rows| - 1])[rows[|rows| - 1].id := |rows| - 1]
  }

  lemma {:induction false} PositionOf(rows: seq<Row>)
    requires Distinct(rows)
    ensures Position(rows).Keys == Ids(rows)
    ensures forall i :: 0 <= i < |rows| ==> rows[i].id in Position(rows) && Position(rows)[rows[i].id] == i
  {
    if rows != [] {
      var front := rows[..|rows| - 1];
      assert rows == front + [rows[|rows| - 1]];
      PositionOf(front);
    }
  }

  lemma IdAt(rows: seq<Row>, n: nat, id: Id)
    requires n <= |rows| && id in Ids(rows[..n])
    ensures exists j :: 0 <= j < n && rows[j].id == id
  {
    var q :| q in rows[..n] && q.id == id;
    var j :| 0 <= j < n && rows[j] == q;
  }

  lemma PositionRanks(rows: seq<Row>, result: seq<Row>)
    requires Distinct(result) && ParentsFirst(result) && multiset(result) == multiset(rows)
    ensures Ranked(rows, Position(result))
  {
    PositionOf(result);
    assert forall r :: r in rows <==> r in multiset(rows);
    assert forall r :: r in result <==> r in multiset(result);
    forall r | r in rows && r.parent.Some? && r.parent.value != r.id && r.parent.value in Ids(rows)
      ensures Position(result)[r.parent.value] < Position(result)[r.id]
    {
      var i :| 0 <= i < |result| && result[i] == r;
      assert ParentOk(result, i);
      IdAt(result, i, r.parent.value);
    }
  }

  /** A list that is already parents-first comes back unchanged. */
  lemma SortKeepsSorted(rows: seq<Row>)
    requires Distinct(rows) && ParentsFirst(rows)
    ensures Sorted(rows) == rows
  {
    ByIdLookup(rows);
    assert forall r :: r in rows ==> r.id in Ids(rows);
    SortedPrefix(rows, |rows|);
    assert rows[..|rows|] == rows;
  }

  lemma NextRow(rows: seq<Row>, n: nat)
    requires Distinct(rows) && n < |rows|
    ensures rows[..n + 1] == rows[..n] + [rows[n]] && Ids(rows[..n + 1]) == Ids(rows[..n]) + {rows[n].id}
    ensures rows[n].id !in Ids(rows[..n])
  {}

  lemma {:induction false} SortedPrefix(rows: seq<Row>, n: nat)
    requires Distinct(rows) && ParentsFirst(rows) && n <= |rows|
    requires forall r :: r in rows ==> r.id in ById(rows) && ById(rows)[r.id] == r
    requires ById(rows).Keys == Ids(rows)
    ensures VisitAll(ById(rows), Progress({}, []), rows[..n]) == Progress(Ids(rows[..n]), rows[..n])
  {
    if n > 0 {
      SortedPrefix(rows, n - 1);
      NextRow(rows, n - 1);
      var front, row, s := rows[..n - 1], rows[n - 1], Progress(Ids(rows[..n - 1]), rows[..n - 1]);
      assert rows[..n][..n - 1] == front;
      assert VisitAll(ById(rows), Progress({}, []), rows[..n]) == Visit(ById(rows), s, row.id);
      if row.parent.Some? { assert ParentOk(rows, n - 1); }
      assert Visit(ById(rows), s, row.id) == Progress(s.visited + {row.id}, s.result + [row]);
    }
  }
}

/** The sort as it runs: `visit` recurses while updating two shared collections. */
module TopologicalSorter {
  import opened Dump
  import opened Spec = TopologicalSort
  import opened Prelude

  class Sorter {
    const byId: map<Id, Row>
    var visited: set<Id>
    var result: seq<Row>

    ghost function State(): Progress reads this { Progress(visited, result) }

    constructor (rows: seq<Row>)
      ensures byId == ById(rows) && State() == Progress({}, [])
    {
      var m: map<Id, Row> := map[];
      for i := 0 to |rows|
        invariant m == ById(rows[..i])
      {
        assert rows[..i + 1][..i] == rows[..i];
        m := m[rows[i].id := rows[i]];
      }
      assert rows[..|rows|] == rows;
      byId, visited, result := m, {}, [];
    }

    method Visit(id: Id)
      modifies this
      ensures State() == Spec.Visit(byId, old(State()), id)
      decreases byId.Keys - visited
    {
      if id in visited { return; }
      visited := visited + {id};
      if id !in byId { return; }
      assert id in byId.Keys - old(visited);
      var row := byId[id];
      if row.parent.Some? && row.parent.value in byId {
        Visit(row.parent.value);
      }
      result := result + [row];
    }
  }

  method Sort(rows: seq<Row>) returns (result: seq<Row>)
    ensures result == Sorted(rows)
  {
    var sorter := new Sorter(rows);
    for i := 0 to |rows|
      invariant sorter.byId == ById(rows)
      invariant sorter.State() == VisitAll(ById(rows), Progress({}, []), rows[..i])
    {
      assert rows[..i + 1][..i] == rows[..i];
      sorter.Visit(rows[i].id);
    }
    assert rows[..|rows|] == rows;
    result := sorter.result;
  }
}
