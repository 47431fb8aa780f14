/** Cursor paging in (created_at, id) descending order, over a table that changes between pages. */
module KeysetPaging {
  import opened Prelude

  datatype Key = Key(created: int, id: int)

  predicate Before(a: Key, b: Key) { a.created < b.created || (a.created == b.created && a.id < b.id) }

  /** What the query's `order_by` yields: newest first, no key twice. */
  ghost predicate Descending(rows: seq<Key>)
  {
    forall i, j :: 0 <= i < j < |rows| ==> Before(rows[j], rows[i])
  }

  predicate Passes(cursor: Option<Key>, k: Key) { cursor.Some? ==> Before(k, cursor.value) }

  function Filtered(rows: seq<Key>, cursor: Option<Key>): seq<Key>
  {
    if rows == [] then []
    else (if Passes(cursor, rows[0]) then [rows[0]] else []) + Filtered(rows[1..], cursor)
  }

  datatype Page = Page(rows: seq<Key>, next: Option<Key>)

  /** Fetch `limit + 1` rows; the extra one only says whether there are more. */
  function GetPage(rows: seq<Key>, cursor: Option<Key>, limit: nat): Page
    requires limit >= 1
  {
    var below := Filtered(rows, cursor);
    var fetched := if |below| <= limit + 1 then below else below[..limit + 1];
    if |fetched| > limit then Page(fetched[..limit], Some(fetched[limit - 1])) else Page(fetched, None)
  }

  /** A client following cursors; `tables` are the states its requests find. The flag says whether
      it reached a null cursor. */
  function Follow(tables: seq<seq<Key>>, cursor: Option<Key>, limit: nat): (seq<Key>, bool)
    requires limit >= 1
  {
    if tables == [] then ([], false)
    else
      var page := GetPage(tables[0], cursor, limit);
      if page.next.None? then (page.rows, true)
      else
        var rest := Follow(tables[1..], page.next, limit);
        (page.rows + rest.0, rest.1)
  }

  lemma {:induction false} FilteredOk(rows: seq<Key>, cursor: Option<Key>)
    requires Descending(rows)
    ensures Descending(Filtered(rows, cursor))
    ensures forall k :: k in Filtered(rows, cursor) <==> k in rows && Passes(cursor, k)
  {
    if rows != [] {
      var tail := Filtered(rows[1..], cursor);
      assert rows == [rows[0]] + rows[1..];
      FilteredOk(rows[1..], cursor);
      forall k | k in tail ensures Before(k, rows[0]) {
        assert k in rows[1..];
      }
    }
  }

  lemma PageOk(rows: seq<Key>, cursor: Option<Key>, limit: nat)
    requires Descending(rows) && limit >= 1
    ensures var page := GetPage(rows, cursor, limit);
            && Descending(page.rows) && |page.rows| <= limit
            && (forall k :: k in page.rows ==> k in rows && Passes(cursor, k))
            && (page.next.Some? ==> page.rows != [] && page.next.value == page.rows[|page.rows| - 1])
            && (forall k :: k in rows && Passes(cursor, k) && k !in page.rows ==>
                  page.next.Some? && Before(k, page.next.value))
  {
    FilteredOk(rows, cursor);
    var below, page := Filtered(rows, cursor), GetPage(rows, cursor, limit);
    if |below| > limit {
      assert page.rows == below[..limit];
      forall j | 0 <= j < limit ensures below[j] in page.rows { assert page.rows[j] == below[j]; }
      forall k | k in below && k !in page.rows ensures Before(k, below[limit - 1]) {
        var i :| 0 <= i < |below| && below[i] == k;
      }
    }
  }

  /** The pages never repeat a row and come in one descending order, whatever is inserted or deleted
      in between. */
  lemma {:induction false} FollowDescends(tables: seq<seq<Key>>, cursor: Option<Key>, limit: nat)
    requires limit >= 1 && forall t :: t in tables ==> Descending(t)
    ensures Descending(Follow(tables, cursor, limit).0)
    ensures forall k :: k in Follow(tables, cursor, limit).0 ==> Passes(cursor, k)
  {
    if tables != [] {
      PageOk(tables[0], cursor, limit);
      var page := GetPage(tables[0], cursor, limit);
      if page.next.Some? {
        FollowDescends(tables[1..], page.next, limit);
        var rest := Follow(tables[1..], page.next, limit).0;
        forall a, b | a in page.rows && b in rest ensures Before(b, a) {
          var i :| 0 <= i < |page.rows| && page.rows[i] == a;
          assert Passes(page.next, b);
        }
        JoinDescending(page.rows, rest);
        assert page.next.value in page.rows && Passes(cursor, page.next.value);
        forall k | k in rest ensures Passes(cursor, k) {
          assert Passes(page.next, k);
        }
      }
    }
  }

  lemma JoinDescending(a: seq<Key>, b: seq<Key>)
    requires Descending(a) && Descending(b) && forall x, y :: x in a && y in b ==> Before(y, x)
    ensures Descending(a + b)
  {}

  /** A client that reaches the null cursor has seen every row that was there throughout, exactly
      once, whatever was inserted or deleted between its requests. */
  lemma {:induction false} FollowVisitsAll(tables: seq<seq<Key>>, cursor: Option<Key>, limit: nat, k: Key)
    requires limit >= 1 && forall t :: t in tables ==> Descending(t) && k in t
    requires Passes(cursor, k) && Follow(tables, cursor, limit).1
    ensures multiset(Follow(tables, cursor, limit).0)[k] == 1
  {
    var out := Follow(tables, cursor, limit).0;
    FollowContains(tables, cursor, limit, k);
    FollowDescends(tables, cursor, limit);
    OnceIfDescending(out, k);
  }

  lemma OnceIfDescending(rows: seq<Key>, k: Key)
    requires Descending(rows) && k in rows
    ensures multiset(rows)[k] == 1
  {
    var i :| 0 <= i < |rows| && rows[i] == k;
    assert rows == rows[..i] + [k] + rows[i + 1..];
    assert k !in rows[..i] && k !in rows[i + 1..];
  }

  lemma {:induction false} FollowContains(tables: seq<seq<Key>>, cursor: Option<Key>, limit: nat, k: Key)
    requires limit >= 1 && forall t :: t in tables ==> Descending(t) && k in t
    requires Passes(cursor, k) && Follow(tables, cursor, limit).1
    ensures k in Follow(tables, cursor, limit).0
  {
    PageOk(tables[0], cursor, limit);
    var page := GetPage(tables[0], cursor, limit);
    if k !in page.rows { FollowContains(tables[1..], page.next, limit, k); }
  }

  function Repeat(rows: seq<Key>, n: nat): seq<seq<Key>> { seq(n, _ => rows) }

  lemma FilteredAfter(rows: seq<Key>, cursor: Option<Key>, n: nat)
    requires Descending(rows) && 1 <= n <= |Filtered(rows, cursor)|
    ensures Filtered(rows, Some(Filtered(rows, cursor)[n - 1])) == Filtered(rows, cursor)[n..]
  {
    FilteredOk(rows, cursor);
    var below := Filtered(rows, cursor);
    FilteredOk(rows, Some(below[n - 1]));
    SameDescending(Filtered(rows, Some(below[n - 1])), below[n..], rows, cursor, n);
  }

  lemma SameDescending(a: seq<Key>, b: seq<Key>, rows: seq<Key>, cursor: Option<Key>, n: nat)
    requires Descending(rows) && 1 <= n <= |Filtered(rows, cursor)|
    requires a == Filtered(rows, Some(Filtered(rows, cursor)[n - 1])) && b == Filtered(rows, cursor)[n..]
    ensures a == b
  {
    FilteredOk(rows, cursor);
    var below := Filtered(rows, cursor);
    var c := below[n - 1];
    FilteredOk(rows, Some(c));
    assert forall k :: k in b ==> Before(k, c);
    forall k | k in a ensures k in b {
      assert c in rows && Passes(cursor, c) && Passes(cursor, k);
      var i :| 0 <= i < |below| && below[i] == k;
      assert below[n..][i - n] == k;
    }
    Extensional(a, b);
  }

  lemma {:induction false} Extensional(a: seq<Key>, b: seq<Key>)
    requires Descending(a) && Descending(b) && forall k :: k in a <==> k in b
    ensures a == b
  {
    assert a != [] ==> a[0] in b;
    assert b != [] ==> b[0] in a;
    if a != [] && b != [] {
      assert a[0] == b[0];
      forall k ensures k in a[1..] <==> k in b[1..] {
        assert k in a <==> k == a[0] || k in a[1..];
        assert k in b <==> k == b[0] || k in b[1..];
      }
      Extensional(a[1..], b[1..]);
      assert a == [a[0]] + a[1..] && b == [b[0]] + b[1..];
    }
  }

  lemma FullPage(rows: seq<Key>, cursor: Option<Key>, limit: nat)
    requires limit >= 1 && |Filtered(rows, cursor)| > limit
    ensures var below := Filtered(rows, cursor);
            GetPage(rows, cursor, limit) == Page(below[..limit], Some(below[limit - 1]))
  {
    var below := Filtered(rows, cursor);
    assert below[..limit + 1][..limit] == below[..limit];
  }

  lemma RepeatUnfolds(rows: seq<Key>, n: nat)
    requires n > 0
    ensures Repeat(rows, n) != [] && Repeat(rows, n)[0] == rows && Repeat(rows, n)[1..] == Repeat(rows, n - 1)
  {}

  /** A full page and what follows it. */
  lemma OneMoreRequest(rows: seq<Key>, cursor: Option<Key>, limit: nat, n: nat)
    requires n > 0 && limit >= 1 && |Filtered(rows, cursor)| > limit
    ensures var below := Filtered(rows, cursor);
            var rest := Follow(Repeat(rows, n - 1), Some(below[limit - 1]), limit);
            Follow(Repeat(rows, n), cursor, limit) == (below[..limit] + rest.0, rest.1)
  {
    RepeatUnfolds(rows, n);
    FullPage(rows, cursor, limit);
  }

  /** The page that ends with the null cursor. */
  lemma LastRequest(rows: seq<Key>, cursor: Option<Key>, limit: nat, n: nat)
    requires n > 0 && limit >= 1 && |Filtered(rows, cursor)| <= limit
    ensures Follow(Repeat(rows, n), cursor, limit) == (Filtered(rows, cursor), true)
  {
    RepeatUnfolds(rows, n);
  }

  /** On a table that stays put the client reads exactly the rows below its cursor, and is done after
      as many requests as those rows fill pages. */
  lemma {:induction false} FollowStatic(rows: seq<Key>, cursor: Option<Key>, limit: nat, n: nat)
    requires limit >= 1 && Descending(rows)
    ensures Follow(Repeat(rows, n), cursor, limit).1 <==> n >= 1 && |Filtered(rows, cursor)| <= n * limit
    ensures Follow(Repeat(rows, n), cursor, limit).1 ==>
              Follow(Repeat(rows, n), cursor, limit).0 == Filtered(rows, cursor)
    decreases n
  {
    if n > 0 {
      var below := Filtered(rows, cursor);
      if |below| > limit {
        OneMoreRequest(rows, cursor, limit, n);
        FilteredAfter(rows, cursor, limit);
        FollowStatic(rows, Some(below[limit - 1]), limit, n - 1);
        FillsPages(|below|, limit, n);
        assert below == below[..limit] + below[limit..];
      } else {
        LastRequest(rows, cursor, limit, n);
        AtLeastOnePage(|below|, limit, n);
      }
    }
  }

  lemma FillsPages(rows: nat, limit: nat, n: nat)
    requires limit >= 1 && n >= 1 && rows > limit
    ensures n - 1 >= 1 && rows - limit <= (n - 1) * limit <==> rows <= n * limit
  {
    assert n * limit == limit + (n - 1) * limit;
  }

  lemma AtLeastOnePage(rows: nat, limit: nat, n: nat)
    requires n >= 1 && rows <= limit
    ensures rows <= n * limit
  {
    assert n * limit == limit + (n - 1) * limit;
  }
}
