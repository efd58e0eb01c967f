/** The history listing of `GET /api/history/{user_id}` in `api/main.py`:
    the user's records in registry order, sorted newest first by a stable
    sort, then cut to one page with Python's slice semantics. */
module History {
  import opened Wrappers
  import opened Records

  /** The response body: one page of records and the user's total count. */
  datatype HistoryPage = HistoryPage(analyses: seq<Record>, totalCount: nat, page: int, limit: int)

  /** Newest first: creation times never increase along the sequence. */
  predicate NewestFirst(s: seq<Record>) {
    forall i, j :: 0 <= i < j < |s| ==> s[i].createdAt >= s[j].createdAt
  }

  /** The records created at time `t`, in sequence order. */
  function At(s: seq<Record>, t: nat): (r: seq<Record>)
    ensures |r| <= |s|
    ensures forall x :: x in r ==> x in s && x.createdAt == t
  {
    if |s| == 0 then []
    else (if s[0].createdAt == t then [s[0]] else []) + At(s[1..], t)
  }

  /** Places `x` after every record at least as new, and before the first
      older one. */
  function InsertByTime(s: seq<Record>, x: Record): (r: seq<Record>)
    ensures |r| == |s| + 1
    ensures r[0] == x || (|s| > 0 && r[0] == s[0])
  {
    if |s| == 0 then [x]
    else if s[0].createdAt < x.createdAt then [x] + s
    else [s[0]] + InsertByTime(s[1..], x)
  }

  /** Insertion adds `x` and loses nothing. */
  lemma {:induction false} InsertPermutes(s: seq<Record>, x: Record)
    ensures multiset(InsertByTime(s, x)) == multiset(s) + multiset{x}
  {
    if |s| > 0 && s[0].createdAt >= x.createdAt {
      InsertPermutes(s[1..], x);
      assert s == [s[0]] + s[1..];
    }
  }

  /** Insertion into a newest-first sequence keeps it newest first. */
  lemma {:induction false} InsertKeepsOrder(s: seq<Record>, x: Record)
    requires NewestFirst(s)
    ensures NewestFirst(InsertByTime(s, x))
  {
    if |s| == 0 {
    } else if s[0].createdAt < x.createdAt {
      ConsNewestFirst(x, s);
    } else {
      TailNewestFirst(s);
      InsertKeepsOrder(s[1..], x);
      ConsNewestFirst(s[0], InsertByTime(s[1..], x));
    }
  }

  /** The tail of a newest-first sequence is newest first. */
  lemma TailNewestFirst(s: seq<Record>)
    requires |s| > 0 && NewestFirst(s)
    ensures NewestFirst(s[1..])
    ensures |s| > 1 ==> s[0].createdAt >= s[1].createdAt
  {
    assert forall i :: 0 <= i < |s| - 1 ==> s[1..][i] == s[i + 1];
  }

  /** A record at least as new as the head of a newest-first sequence can be put in front. */
  lemma ConsNewestFirst(x: Record, s: seq<Record>)
    requires NewestFirst(s)
    requires |s| > 0 ==> x.createdAt >= s[0].createdAt
    ensures NewestFirst([x] + s)
  {
    var r := [x] + s;
    forall i, j | 0 <= i < j < |r| ensures r[i].createdAt >= r[j].createdAt {
      if i == 0 {
        assert r[j] == s[j - 1];
      } else {
        assert r[i] == s[i - 1] && r[j] == s[j - 1];
      }
    }
  }

  /** `list.sort(key=created_at, reverse=True)`: an insertion sort that keeps
      records with equal creation times in their original order. */
  function SortNewestFirst(s: seq<Record>): (r: seq<Record>)
    ensures |r| == |s|
  {
    if |s| == 0 then []
    else InsertByTime(SortNewestFirst(s[..|s| - 1]), s[|s| - 1])
  }

  /** Sorting loses and adds nothing. */
  lemma {:induction false} SortPermutes(s: seq<Record>)
    ensures multiset(SortNewestFirst(s)) == multiset(s)
  {
    if |s| > 0 {
      var init := s[..|s| - 1];
      SortPermutes(init);
      InsertPermutes(SortNewestFirst(init), s[|s| - 1]);
      assert s == init + [s[|s| - 1]];
    }
  }

  /** The sorted sequence is newest first. */
  lemma {:induction false} SortOrders(s: seq<Record>)
    ensures NewestFirst(SortNewestFirst(s))
  {
    if |s| > 0 {
      SortOrders(s[..|s| - 1]);
      InsertKeepsOrder(SortNewestFirst(s[..|s| - 1]), s[|s| - 1]);
    }
  }

  /** Inserting into a newest-first sequence keeps every group of equal
      creation times in order, with the new record last in its group. */
  lemma {:induction false} AtInsert(s: seq<Record>, x: Record, t: nat)
    requires NewestFirst(s)
    ensures At(InsertByTime(s, x), t) == At(s, t) + (if x.createdAt == t then [x] else [])
  {
    if |s| == 0 {
      AtCons(x, [], t);
    } else if s[0].createdAt < x.createdAt {
      AtCons(x, s, t);
      if x.createdAt == t {
        AtNone(s, t);
      }
    } else {
      TailNewestFirst(s);
      AtInsert(s[1..], x, t);
      var rest := InsertByTime(s[1..], x);
      AtCons(s[0], rest, t);
      AtCons(s[0], s[1..], t);
      assert [s[0]] + s[1..] == s;
    }
  }

  /** The records at `t` of a sequence with `x` in front. */
  lemma AtCons(x: Record, s: seq<Record>, t: nat)
    ensures At([x] + s, t) == (if x.createdAt == t then [x] else []) + At(s, t)
  {
    assert ([x] + s)[1..] == s;
  }

  /** A newest-first sequence whose first record is older than `t` holds no record at `t`. */
  lemma {:induction false} AtNone(s: seq<Record>, t: nat)
    requires NewestFirst(s)
    requires |s| > 0 && s[0].createdAt < t
    ensures At(s, t) == []
  {
    if |s| > 1 {
      AtNone(s[1..], t);
    }
  }

  /** Records created at `t`, appended at the end. */
  lemma {:induction false} AtAppend(s: seq<Record>, x: Record, t: nat)
    ensures At(s + [x], t) == At(s, t) + (if x.createdAt == t then [x] else [])
  {
    if |s| == 0 {
      assert s + [x] == [x];
    } else {
      assert (s + [x])[1..] == s[1..] + [x];
      AtAppend(s[1..], x, t);
    }
  }

  /** The sort is stable: the records sharing a creation time appear in the
      sorted sequence in the order they had before sorting. */
  lemma {:induction false} SortIsStable(s: seq<Record>, t: nat)
    ensures At(SortNewestFirst(s), t) == At(s, t)
  {
    if |s| > 0 {
      var init := s[..|s| - 1];
      var x := s[|s| - 1];
      SortIsStable(init, t);
      SortOrders(init);
      AtInsert(SortNewestFirst(init), x, t);
      assert s == init + [x];
      AtAppend(init, x, t);
    }
  }

  /** A slice bound as CPython normalises it: negative values count from the
      end, and the result is clamped to `0..len`. */
  function SliceBound(i: int, len: nat): (r: nat)
    ensures r <= len
    ensures 0 <= i <= len ==> r == i
    ensures i > len ==> r == len
    ensures i < 0 ==> r == if i + len < 0 then 0 else i + len
  {
    if i < 0 then (if i + len < 0 then 0 else i + len)
    else if i > len then len
    else i
  }

  /** `s[start:end]` in Python. */
  function PySlice<T>(s: seq<T>, start: int, end: int): (r: seq<T>)
    ensures var a := SliceBound(start, |s|);
      var b := SliceBound(end, |s|);
      && |r| == (if a <= b then b - a else 0)
      && forall k :: 0 <= k < |r| ==> r[k] == s[a + k]
  {
    var a := SliceBound(start, |s|);
    var b := SliceBound(end, |s|);
    if a <= b then s[a..b] else []
  }

  /** The records of `userId`, in registry order. */
  function UserRecords(db: Db, order: seq<string>, userId: string): (r: seq<Record>)
    requires forall id :: id in order ==> id in db.records
    ensures forall x :: x in r ==> x.userId == Some(userId)
    ensures forall i :: 0 <= i < |order| ==>
              (db.records[order[i]].userId == Some(userId) ==> db.records[order[i]] in r)
  {
    if |order| == 0 then []
    else
      var rec := db.records[order[0]];
      var rest := UserRecords(db, order[1..], userId);
      assert forall i :: 1 <= i < |order| ==> order[i] == order[1..][i - 1];
      if rec.userId == Some(userId) then [rec] + rest else rest
  }

  /** One more id in the registry order appends its record when it is the
      user's and nothing otherwise: each of the user's records appears once,
      in registry order. */
  lemma {:induction false} UserRecordsAppend(db: Db, order: seq<string>, x: string, userId: string)
    requires forall id :: id in order ==> id in db.records
    requires x in db.records
    ensures UserRecords(db, order + [x], userId)
         == UserRecords(db, order, userId)
            + (if db.records[x].userId == Some(userId) then [db.records[x]] else [])
    decreases |order|
  {
    if |order| == 0 {
      assert order + [x] == [x];
      assert [x][1..] == [];
    } else {
      assert (order + [x])[0] == order[0];
      assert (order + [x])[1..] == order[1..] + [x];
      UserRecordsAppend(db, order[1..], x, userId);
    }
  }

  /** `get_user_history`: the user's records sorted newest first, the page
      `[(page - 1) * limit, (page - 1) * limit + limit)` of them, and the
      number of the user's records. */
  function UserHistory(db: Db, userId: string, page: int, limit: int): (r: HistoryPage)
    requires Valid(db)
    ensures var all := SortNewestFirst(UserRecords(db, db.order, userId));
      && r.totalCount == |all|
      && r.analyses == PySlice(all, (page - 1) * limit, (page - 1) * limit + limit)
      && r.page == page && r.limit == limit
    ensures forall x :: x in r.analyses ==> x.userId == Some(userId) && x in db.records.Values
    ensures NewestFirst(r.analyses)
  {
    var mine := UserRecords(db, db.order, userId);
    var all := SortNewestFirst(mine);
    var slice := PySlice(all, (page - 1) * limit, (page - 1) * limit + limit);
    SortPermutes(mine);
    SortOrders(mine);
    SameMembers(all, mine);
    SliceKeepsOrder(all, (page - 1) * limit, (page - 1) * limit + limit);
    assert forall x :: x in mine ==> x in db.records.Values by {
      forall x | x in mine ensures x in db.records.Values {
        var i :| 0 <= i < |mine| && mine[i] == x;
        UserRecordIn(db, db.order, userId, i);
      }
    }
    HistoryPage(slice, |all|, page, limit)
  }

  /** Two sequences with the same multiset hold the same elements. */
  lemma SameMembers<T>(a: seq<T>, b: seq<T>)
    requires multiset(a) == multiset(b)
    ensures forall x :: x in a ==> x in b
  {
    forall x | x in a ensures x in b {
      assert x in multiset(a);
    }
  }

  /** A Python slice of a newest-first sequence is newest first and holds only its elements. */
  lemma SliceKeepsOrder(s: seq<Record>, start: int, end: int)
    requires NewestFirst(s)
    ensures NewestFirst(PySlice(s, start, end))
    ensures forall x :: x in PySlice(s, start, end) ==> x in s
  {
    var a := SliceBound(start, |s|);
    var b := SliceBound(end, |s|);
    if a <= b {
      assert forall i :: 0 <= i < b - a ==> s[a..b][i] == s[a + i];
    }
  }

  /** Every record of the user listing is a record of the registry. */
  lemma {:induction false} UserRecordIn(db: Db, order: seq<string>, userId: string, i: nat)
    requires forall id :: id in order ==> id in db.records
    requires i < |UserRecords(db, order, userId)|
    ensures UserRecords(db, order, userId)[i] in db.records.Values
    decreases |order|
  {
    var rec := db.records[order[0]];
    var rest := UserRecords(db, order[1..], userId);
    if rec.userId == Some(userId) && i == 0 {
      assert order[0] in db.records;
    } else if rec.userId == Some(userId) {
      assert UserRecords(db, order, userId)[i] == rest[i - 1];
      UserRecordIn(db, order[1..], userId, i - 1);
    } else {
      UserRecordIn(db, order[1..], userId, i);
    }
  }

  /** A page never holds more than `limit` records when `limit` is not negative. */
  lemma PageWithinLimit<T>(s: seq<T>, page: int, limit: int)
    requires limit >= 0
    ensures |PySlice(s, (page - 1) * limit, (page - 1) * limit + limit)| <= limit
  {
  }

  /** A negative `limit` on the first page is not refused: the slice
      `[0:limit]` drops the last `-limit` records and returns the rest. */
  lemma NegativeLimitFirstPage<T>(s: seq<T>, limit: int)
    requires limit < 0
    ensures PySlice(s, 0, limit) == s[..SliceBound(limit, |s|)]
  {
  }

  /** Twenty-five records, page 2, limit 20: the slice `[20:40]` holds the last five. */
  lemma SecondPageOfTwentyFive<T>(s: seq<T>)
    requires |s| == 25
    ensures PySlice(s, (2 - 1) * 20, (2 - 1) * 20 + 20) == s[20..]
    ensures |PySlice(s, (2 - 1) * 20, (2 - 1) * 20 + 20)| == 5
  {
  }
}
