/** Recommendation rows as both recommender classes produce them, and the per-user dictionaries
    that their JSON exports are made of. */
module Recs {
  import opened Common

  /** One recommendation: `[user_id, item_id, score]`. */
  datatype RecRow = RecRow(userId: string, itemId: int, score: real)

  /** `{row[1]: row[2] for row in rows}` written as a loop: a later row for the same item
      overrides an earlier one. */
  function DictOf(rows: seq<RecRow>): (d: map<int, real>)
  {
    if rows == [] then map[]
    else
      var last := rows[|rows| - 1];
      DictOf(rows[..|rows| - 1])[last.itemId := last.score]
  }

  /** The keys are exactly the items of the rows. */
  lemma {:induction false} DictOfKeys(rows: seq<RecRow>)
    ensures forall i :: 0 <= i < |rows| ==> rows[i].itemId in DictOf(rows)
    ensures forall k :: k in DictOf(rows) ==> exists i :: 0 <= i < |rows| && rows[i].itemId == k
  {
    if rows != [] {
      var init := rows[..|rows| - 1];
      DictOfKeys(init);
      forall k | k in DictOf(rows) ensures exists i :: 0 <= i < |rows| && rows[i].itemId == k {
        if k != rows[|rows| - 1].itemId {
          assert k in DictOf(init);
          var i :| 0 <= i < |init| && init[i].itemId == k;
          assert rows[i] == init[i];
        }
      }
    }
  }

  /** The value kept for an item is the score of its last row. */
  lemma {:induction false} DictOfLastWins(rows: seq<RecRow>, i: nat)
    requires i < |rows|
    requires forall j :: i < j < |rows| ==> rows[j].itemId != rows[i].itemId
    ensures rows[i].itemId in DictOf(rows)
    ensures DictOf(rows)[rows[i].itemId] == rows[i].score
  {
    DictOfKeys(rows);
    if i < |rows| - 1 {
      DictOfLastWins(rows[..|rows| - 1], i);
    }
  }

  lemma {:induction false} DictOfAppend(rows: seq<RecRow>, r: RecRow)
    ensures DictOf(rows + [r]) == DictOf(rows)[r.itemId := r.score]
  {
    assert (rows + [r])[..|rows|] == rows;
  }

  /** The rows of one user, in order (`df[df.user_id == u]`). */
  function RowsOf(rows: seq<RecRow>, u: string): (r: seq<RecRow>)
    ensures forall x :: x in r <==> x in rows && x.userId == u
  {
    if rows == [] then []
    else
      var init := rows[..|rows| - 1];
      var last := rows[|rows| - 1];
      assert rows == init + [last];
      if last.userId == u then RowsOf(init, u) + [last] else RowsOf(init, u)
  }

  /** Explicit grouping by user: every user with rows gets the dictionary of all of its rows,
      wherever they stand in the sequence. */
  function GroupByUser(rows: seq<RecRow>): (g: map<string, map<int, real>>)
  {
    map u | u in UsersOf(rows) :: DictOf(RowsOf(rows, u))
  }

  /** The users that have rows. */
  function UsersOf(rows: seq<RecRow>): set<string> {
    set i | 0 <= i < |rows| :: rows[i].userId
  }

  /** A row's item is a key of the dictionary built from rows containing it. */
  lemma {:induction false} DictOfHas(rows: seq<RecRow>, r: RecRow)
    requires r in rows
    ensures r.itemId in DictOf(rows)
  {
    var i :| 0 <= i < |rows| && rows[i] == r;
    DictOfKeys(rows);
  }

  /** Grouping loses no row: a user is a key exactly when it has a row, and an item is in its
      dictionary exactly when the user has a row for the item, with the score of the last such row. */
  lemma {:induction false} GroupByUserComplete(rows: seq<RecRow>)
    ensures forall u :: u in GroupByUser(rows) <==> exists i :: 0 <= i < |rows| && rows[i].userId == u
    ensures forall i :: 0 <= i < |rows| ==>
              rows[i].userId in GroupByUser(rows) && rows[i].itemId in GroupByUser(rows)[rows[i].userId]
    ensures forall u, k :: u in GroupByUser(rows) && k in GroupByUser(rows)[u] ==>
              exists i :: 0 <= i < |rows| && rows[i].userId == u && rows[i].itemId == k
  {
    var g := GroupByUser(rows);
    forall i | 0 <= i < |rows|
      ensures rows[i].userId in g && rows[i].itemId in g[rows[i].userId]
    {
      var u := rows[i].userId;
      assert u in UsersOf(rows);
      assert rows[i] in rows;
      DictOfHas(RowsOf(rows, u), rows[i]);
    }
    forall u, k | u in g && k in g[u]
      ensures exists i :: 0 <= i < |rows| && rows[i].userId == u && rows[i].itemId == k
    {
      var ru := RowsOf(rows, u);
      DictOfKeys(ru);
      var j :| 0 <= j < |ru| && ru[j].itemId == k;
      assert ru[j] in rows;
      var i :| 0 <= i < |rows| && rows[i] == ru[j];
    }
  }

  /** The score kept for `(u, k)` is that of the last row for `u` and `k`. */
  lemma {:induction false} GroupByUserLastWins(rows: seq<RecRow>, i: nat)
    requires i < |rows|
    requires forall j :: i < j < |rows| ==> rows[j].userId != rows[i].userId || rows[j].itemId != rows[i].itemId
    ensures rows[i].userId in GroupByUser(rows)
    ensures rows[i].itemId in GroupByUser(rows)[rows[i].userId]
    ensures GroupByUser(rows)[rows[i].userId][rows[i].itemId] == rows[i].score
  {
    var u := rows[i].userId;
    assert u in UsersOf(rows);
    FilterLastOccurrence(rows, u, i);
  }

  /** Filtering by user keeps row `i` at a position that no later row for the same item follows. */
  lemma {:induction false} FilterLastOccurrence(rows: seq<RecRow>, u: string, i: nat)
    requires i < |rows| && rows[i].userId == u
    requires forall j :: i < j < |rows| ==> rows[j].userId != u || rows[j].itemId != rows[i].itemId
    ensures rows[i].itemId in DictOf(RowsOf(rows, u))
    ensures DictOf(RowsOf(rows, u))[rows[i].itemId] == rows[i].score
  {
    assert rows[i] in rows;
    DictOfHas(RowsOf(rows, u), rows[i]);
    var init := rows[..|rows| - 1];
    var last := rows[|rows| - 1];
    if i == |rows| - 1 {
      DictOfAppend(RowsOf(init, u), last);
    } else {
      FilterLastOccurrence(init, u, i);
      if last.userId == u {
        DictOfAppend(RowsOf(init, u), last);
      }
    }
  }

  /** Highest score first (`sort_values(by='score', ascending=False)`). */
  ghost predicate SortedByScore(s: seq<RecRow>) {
    forall i, j :: 0 <= i < j < |s| ==> s[j].score <= s[i].score
  }

  /** Puts `x` into `s` before the first row scoring less than it. */
  function InsertByScore(x: RecRow, s: seq<RecRow>): (r: seq<RecRow>)
    ensures |r| == |s| + 1
  {
    if s == [] then [x]
    else if s[0].score < x.score then [x] + s
    else [s[0]] + InsertByScore(x, s[1..])
  }

  /** Insertion adds exactly `x`. */
  lemma {:induction false} InsertByScoreMultiset(x: RecRow, s: seq<RecRow>)
    ensures multiset(InsertByScore(x, s)) == multiset(s) + multiset{x}
  {
    if s != [] && s[0].score >= x.score {
      InsertByScoreMultiset(x, s[1..]);
      assert s == [s[0]] + s[1..];
    }
  }

  /** Insertion into an ordered sequence keeps it ordered. */
  lemma {:induction false} InsertByScoreSorted(x: RecRow, s: seq<RecRow>)
    requires SortedByScore(s)
    ensures SortedByScore(InsertByScore(x, s))
  {
    if s != [] && s[0].score >= x.score {
      InsertByScoreSorted(x, s[1..]);
      var r := InsertByScore(x, s[1..]);
      InsertByScoreMultiset(x, s[1..]);
      forall k | 0 <= k < |r| ensures r[k].score <= s[0].score {
        assert r[k] in multiset(r);
        if r[k] != x {
          assert r[k] in multiset(s[1..]);
          var j :| 0 <= j < |s[1..]| && s[1..][j] == r[k];
          assert s[j + 1] == r[k];
        }
      }
      assert InsertByScore(x, s) == [s[0]] + r;
    }
  }

  /** The rows ordered by descending score. Ties may come out in any order in the source (its
      sort is not stable); this one keeps them in reverse input order. */
  function SortByScore(s: seq<RecRow>): (r: seq<RecRow>)
    ensures |r| == |s|
  {
    if s == [] then [] else InsertByScore(s[0], SortByScore(s[1..]))
  }

  /** Sorting orders the rows and neither loses nor adds one. */
  lemma {:induction false} SortByScoreSpec(s: seq<RecRow>)
    ensures SortedByScore(SortByScore(s))
    ensures multiset(SortByScore(s)) == multiset(s)
  {
    if s != [] {
      SortByScoreSpec(s[1..]);
      InsertByScoreSorted(s[0], SortByScore(s[1..]));
      InsertByScoreMultiset(s[0], SortByScore(s[1..]));
      assert s == [s[0]] + s[1..];
    }
  }

  /** Where Python's `s[:n]` stops on a sequence of length `len`: a negative `n` counts from the end. */
  function SliceEnd(len: nat, n: int): (e: nat)
    ensures e <= len
    ensures n >= 0 ==> e == if n < len then n else len
    ensures n < 0 ==> e == if len + n > 0 then len + n else 0
  {
    if n >= 0 then (if n < len then n else len)
    else if len + n > 0 then len + n else 0
  }

  /** The rows of one event, in order (`df[df.event_id == e]`). */
  function RowsOfEvent(rows: seq<RecRow>, eventId: int): (r: seq<RecRow>)
    ensures forall x :: x in r <==> x in rows && x.itemId == eventId
  {
    if rows == [] then []
    else
      var init := rows[..|rows| - 1];
      var last := rows[|rows| - 1];
      assert rows == init + [last];
      if last.itemId == eventId then RowsOfEvent(init, eventId) + [last] else RowsOfEvent(init, eventId)
  }

  /** Cutting an ordered sequence: the kept part is ordered, the two parts together are the whole,
      and nothing cut off scores more than anything kept. */
  lemma {:induction false} SplitSorted(sorted: seq<RecRow>, e: nat)
    requires SortedByScore(sorted) && e <= |sorted|
    ensures SortedByScore(sorted[..e])
    ensures multiset(sorted[..e]) + multiset(sorted[e..]) == multiset(sorted)
    ensures forall i, j :: 0 <= i < e && 0 <= j < |sorted| - e ==> sorted[e..][j].score <= sorted[..e][i].score
  {
    assert sorted == sorted[..e] + sorted[e..];
  }

  /** The `n_users` most interested users of an event: its rows, best score first, cut by the
      slice `[:n]`. */
  function TopRows(rows: seq<RecRow>, eventId: int, n: int): (r: seq<RecRow>)
    ensures |r| == SliceEnd(|RowsOfEvent(rows, eventId)|, n)
  {
    var sorted := SortByScore(RowsOfEvent(rows, eventId));
    sorted[..SliceEnd(|sorted|, n)]
  }

  /** The rows of the event that the slice leaves out. */
  function CutRows(rows: seq<RecRow>, eventId: int, n: int): (r: seq<RecRow>)
    ensures |TopRows(rows, eventId, n)| + |r| == |RowsOfEvent(rows, eventId)|
  {
    var sorted := SortByScore(RowsOfEvent(rows, eventId));
    sorted[SliceEnd(|sorted|, n)..]
  }

  /** The top rows are rows of the event, best first. */
  lemma {:induction false} TopRowsOrdered(rows: seq<RecRow>, eventId: int, n: int)
    ensures SortedByScore(TopRows(rows, eventId, n))
    ensures forall x :: x in TopRows(rows, eventId, n) ==> x.itemId == eventId && x in rows
  {
    var f := RowsOfEvent(rows, eventId);
    var sorted := SortByScore(f);
    SortByScoreSpec(f);
    var e := SliceEnd(|sorted|, n);
    SplitSorted(sorted, e);
    var top := sorted[..e];
    forall x | x in top ensures x.itemId == eventId && x in rows {
      assert x in multiset(sorted);
      assert x in multiset(f);
      assert x in f;
    }
  }

  /** Kept and cut-off rows together are the event's rows, and no cut-off row scores more than a
      kept one. */
  lemma {:induction false} TopRowsBest(rows: seq<RecRow>, eventId: int, n: int)
    ensures multiset(TopRows(rows, eventId, n)) + multiset(CutRows(rows, eventId, n)) ==
            multiset(RowsOfEvent(rows, eventId))
    ensures forall i, j :: 0 <= i < |TopRows(rows, eventId, n)| && 0 <= j < |CutRows(rows, eventId, n)| ==>
              CutRows(rows, eventId, n)[j].score <= TopRows(rows, eventId, n)[i].score
  {
    var f := RowsOfEvent(rows, eventId);
    var sorted := SortByScore(f);
    SortByScoreSpec(f);
    SplitSorted(sorted, SliceEnd(|sorted|, n));
  }

  /** `save_as_json`'s dictionary: every listed user mapped to the dictionary of its rows. */
  function JsonOf(users: seq<string>, rows: seq<RecRow>): (j: map<string, map<int, real>>)
  {
    map u | u in users :: DictOf(RowsOf(rows, u))
  }

  /** One more listed user adds its dictionary. */
  lemma {:induction false} JsonOfSnoc(users: seq<string>, u: string, rows: seq<RecRow>)
    ensures JsonOf(users + [u], rows) == JsonOf(users, rows)[u := DictOf(RowsOf(rows, u))]
  {
    var a, b := JsonOf(users + [u], rows), JsonOf(users, rows)[u := DictOf(RowsOf(rows, u))];
    forall v ensures v in a <==> v in b {
      assert v in users + [u] <==> v in users || v == u;
    }
    assert a.Keys == b.Keys;
    forall v | v in a ensures a[v] == b[v] {
    }
  }

  /** The listed users are exactly the keys; a user with rows gets its group of `GroupByUser`, a
      user without rows an empty dictionary. */
  lemma {:induction false} JsonOfGroups(users: seq<string>, rows: seq<RecRow>)
    ensures forall u :: u in JsonOf(users, rows) <==> u in users
    ensures forall u :: u in users && u in GroupByUser(rows) ==> JsonOf(users, rows)[u] == GroupByUser(rows)[u]
    ensures forall u :: u in users && u !in GroupByUser(rows) ==> JsonOf(users, rows)[u] == map[]
  {
    forall u | u in users && u !in GroupByUser(rows) ensures JsonOf(users, rows)[u] == map[] {
      assert u !in UsersOf(rows);
    }
  }
}
