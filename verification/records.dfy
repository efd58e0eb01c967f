/** The in-memory registry `analyses_db` of `api/main.py`: one record per
    analysis id, kept in insertion order (the order Python's `dict` iterates
    in, which history listing relies on). */
module Records {
  import opened Wrappers
  import opened Storage
  import opened Market
  import opened Pricing
  import opened Identify

  /** The lifecycle of an analysis: `pending` at submission, `processing`
      once the background task starts, then `completed` or `error`. */
  datatype Status = Pending | Processing | Completed | Error

  /** The record dictionary. Optional fields are absent until processing
      merges them in. */
  datatype Record = Record(
    analysisId: string,
    userId: Option<string>,
    status: Status,
    imagePaths: seq<FileKey>,
    createdAt: nat,
    estimatedTime: nat,
    itemInfo: Option<ItemInfo>,
    priceRange: Option<PriceRange>,
    confidence: Option<int>,
    marketData: Option<seq<Listing>>,
    completedAt: Option<nat>,
    errorMessage: Option<string>)

  const EstimatedTime: nat := 30

  /** The registry: records by id, and the ids in insertion order. */
  datatype Db = Db(records: map<string, Record>, order: seq<string>)

  const EmptyDb: Db := Db(map[], [])

  predicate Distinct(s: seq<string>) {
    forall i, j :: 0 <= i < j < |s| ==> s[i] != s[j]
  }

  /** Every id occurs once in the insertion order, the order lists exactly the
      stored ids, and each record is filed under its own id. */
  ghost predicate Valid(db: Db) {
    && Distinct(db.order)
    && (forall id :: id in db.records <==> id in db.order)
    && (forall id :: id in db.records ==> db.records[id].analysisId == id)
  }

  /** The fields a record holds in each status: a pending record has no
      outcome yet; a completed one holds every result field and its
      completion time; a failed one holds its message and completion time. */
  predicate StatusFields(rec: Record) {
    && (rec.status == Pending ==>
          && rec.itemInfo.None? && rec.priceRange.None? && rec.confidence.None?
          && rec.marketData.None? && rec.completedAt.None? && rec.errorMessage.None?)
    && (rec.status == Completed ==>
          && rec.itemInfo.Some? && rec.priceRange.Some? && rec.confidence.Some?
          && rec.marketData.Some? && rec.completedAt.Some?)
    && (rec.status == Error ==> rec.errorMessage.Some? && rec.completedAt.Some?)
  }

  /** A fresh record as submission creates it. */
  function NewRecord(analysisId: string, userId: Option<string>, paths: seq<FileKey>, createdAt: nat): (rec: Record)
    ensures rec.status == Pending && StatusFields(rec)
    ensures rec.analysisId == analysisId && rec.userId == userId && rec.imagePaths == paths
    ensures rec.createdAt == createdAt && rec.estimatedTime == EstimatedTime
  {
    Record(analysisId, userId, Pending, paths, createdAt, EstimatedTime, None, None, None, None, None, None)
  }

  /** `analyses_db[id] = rec` for a new id: the record is added and its id
      appended to the insertion order. */
  function Insert(db: Db, rec: Record): (db': Db)
    requires rec.analysisId !in db.records
    ensures db'.records == db.records[rec.analysisId := rec]
    ensures db'.order == db.order + [rec.analysisId]
    ensures Valid(db) ==> Valid(db')
  {
    Db(db.records[rec.analysisId := rec], db.order + [rec.analysisId])
  }

  /** `analyses_db[id]` updated in place: the order is kept, and a record
      still filed under its own id keeps the registry well formed. */
  function Replace(db: Db, id: string, rec: Record): (db': Db)
    requires id in db.records
    ensures db'.records == db.records[id := rec]
    ensures db'.order == db.order
    ensures Valid(db) && rec.analysisId == db.records[id].analysisId ==> Valid(db')
  {
    Db(db.records[id := rec], db.order)
  }

  /** The insertion order without one id. */
  function RemoveId(order: seq<string>, id: string): (r: seq<string>)
    ensures forall x :: x in r <==> x in order && x != id
    ensures Distinct(order) ==> Distinct(r)
    ensures id !in order ==> r == order
  {
    if |order| == 0 then []
    else
      var rest := RemoveId(order[1..], id);
      assert forall x :: x in order[1..] ==> x in order;
      assert Distinct(order) ==> order[0] !in order[1..];
      if order[0] == id then rest else [order[0]] + rest
  }

  /** In an order without repeats, removing a present id splices it out: the
      ids before and after it keep their relative order. */
  lemma {:induction false} RemoveIdSplices(order: seq<string>, id: string)
    requires Distinct(order) && id in order
    ensures exists j :: 0 <= j < |order| && order[j] == id && RemoveId(order, id) == order[..j] + order[j + 1..]
  {
    var tail := order[1..];
    if order[0] == id {
      assert id !in tail by { assert Distinct(order) ==> order[0] !in tail; }
      assert RemoveId(order, id) == order[..0] + order[1..];
    } else {
      assert Distinct(tail) && id in tail;
      RemoveIdSplices(tail, id);
      var j :| 0 <= j < |tail| && tail[j] == id && RemoveId(tail, id) == tail[..j] + tail[j + 1..];
      SpliceAfterHead(order, j);
      assert RemoveId(order, id) == [order[0]] + RemoveId(tail, id);
    }
  }

  /** Splicing out index `j + 1` keeps the head in front of the splice of the tail. */
  lemma SpliceAfterHead(order: seq<string>, j: nat)
    requires j + 1 < |order|
    ensures [order[0]] + (order[1..][..j] + order[1..][j + 1..]) == order[..j + 1] + order[j + 2..]
  {
    assert order[..j + 1] == [order[0]] + order[1..][..j];
    assert order[j + 2..] == order[1..][j + 1..];
  }

  /** `del analyses_db[id]`: the record and its place in the order are gone. */
  function Remove(db: Db, id: string): (db': Db)
    ensures db'.records == db.records - {id}
    ensures forall x :: x in db'.order <==> x in db.order && x != id
    ensures Valid(db) ==> Valid(db')
  {
    Db(db.records - {id}, RemoveId(db.order, id))
  }
}
