/** The endpoints of `api/main.py` over the registry and the artifact store:
    submission, lookup, deletion, the background processing task and its
    manual trigger. Each endpoint is a function from the state before the
    request to the state after it and the response; `uuid4`, `datetime.now`,
    the search provider and the random fallback choice are parameters. */
module Api {
  import opened Wrappers
  import opened Text
  import opened Storage
  import opened Market
  import opened Pricing
  import opened Identify
  import opened Analysis
  import opened Records
  import opened Validation
  import opened History

  /** The registry and the artifact store together. */
  datatype State = State(db: Db, store: Store)

  /** The `AnalysisResponse` body of a successful submission. */
  datatype Accepted = Accepted(analysisId: string, status: Status, estimatedTime: nat)

  /** The `AnalysisResult` body of a lookup. */
  datatype View = View(
    analysisId: string,
    status: Status,
    itemInfo: Option<ItemInfo>,
    priceRange: Option<PriceRange>,
    confidence: Option<int>,
    marketData: seq<Listing>,
    createdAt: nat,
    completedAt: Option<nat>,
    errorMessage: Option<string>)

  /** How a run of the analysis service ends: with its output or with an
      exception message. */
  datatype Outcome = Returned(output: AnalysisOutput) | Raised(message: string)

  const NotFound: HttpError := HttpError(404, "Analysis not found")
  const DeletedMessage: string := "Analysis deleted successfully"
  const CompletedMessage: string := "Analysis completed"

  /** Every record's images are stored files in the record's own directory. */
  ghost predicate PathsStored(db: Db, store: Store) {
    forall id, k :: id in db.records && k in db.records[id].imagePaths ==> k.scope == id && k in store.files
  }

  /** Every stored file is an image of the record of its directory. */
  ghost predicate FilesOwned(db: Db, store: Store) {
    forall k :: k in store.files ==> k.scope in db.records && k in db.records[k.scope].imagePaths
  }

  /** Every record holds the fields its status calls for. */
  ghost predicate AllStatusFields(db: Db) {
    forall id :: id in db.records ==> StatusFields(db.records[id])
  }

  /** The registry and the store agree: the registry is well formed, every
      record's images are stored files in its own directory, every stored
      file belongs to the record of its directory, and every record holds the
      fields its status calls for. */
  ghost predicate Consistent(st: State) {
    && Records.Valid(st.db)
    && Storage.Valid(st.store)
    && PathsStored(st.db, st.store)
    && FilesOwned(st.db, st.store)
    && AllStatusFields(st.db)
  }

  /** The state the service starts in: an empty registry and an empty store. */
  function Initial(base: string): (st: State)
    ensures Consistent(st)
    ensures st.db.records == map[] && st.store.files == map[]
  {
    State(EmptyDb, EmptyStore(base))
  }

  /** The name the handler gives the `i`-th upload, `image_<i>.jpg`. */
  function UploadName(i: nat): string {
    "image_" + NatToString(i) + ".jpg"
  }

  /** The handler's names all end in `.jpg`, so every generated name is the
      token followed by `.jpg`, whatever the client called the file. */
  lemma StoredUploadName(i: nat, token: string)
    requires IsHexToken(token)
    ensures StoredName(UploadName(i), token) == token + ".jpg"
  {
    var digits := NatToString(i);
    var stem := "image_" + digits;
    assert '/' !in stem by {
      forall k | 0 <= k < |stem| ensures stem[k] != '/' {
        if k >= 6 { assert stem[k] == digits[k - 6]; assert IsDigit(digits[k - 6]); }
      }
    }
    assert UploadName(i) == stem + "." + "jpg";
    SuffixOfDotted(stem, "jpg");
  }

  /** Tokens from `uuid4().hex`: each a hexadecimal token, no two alike. */
  predicate FreshTokens(tokens: seq<string>) {
    && (forall j :: 0 <= j < |tokens| ==> IsHexToken(tokens[j]))
    && (forall j, k :: 0 <= j < k < |tokens| ==> tokens[j] != tokens[k])
  }

  /** The stored file of the upload saved with `token` in directory `id`. */
  function ImageKey(id: string, token: string): FileKey {
    FileKey(id, token + ".jpg")
  }

  /** Different tokens give different files. */
  lemma ImageKeyInjective(id: string, t1: string, t2: string)
    requires IsHexToken(t1) && IsHexToken(t2) && t1 != t2
    ensures ImageKey(id, t1) != ImageKey(id, t2)
  {
    assert (t1 + ".jpg")[..32] == t1 && (t2 + ".jpg")[..32] == t2;
  }

  /** The files of the uploads saved with `tokens`, in upload order. */
  function ImageKeys(id: string, tokens: seq<string>): (r: seq<FileKey>)
    ensures |r| == |tokens|
    ensures forall j :: 0 <= j < |tokens| ==> r[j] == ImageKey(id, tokens[j])
  {
    if |tokens| == 0 then []
    else
      var rest := ImageKeys(id, tokens[1..]);
      assert forall j :: 1 <= j < |tokens| ==> tokens[j] == tokens[1..][j - 1];
      [ImageKey(id, tokens[0])] + rest
  }

  /** One pass of the saving loop: `save_image(analysis_id, f"image_{i}.jpg", content)`. */
  function SaveOne(st: Store, id: string, i: nat, content: Bytes, token: string): (r: (Store, FileKey))
    requires IsHexToken(token)
    requires ImageKey(id, token) !in st.files
    ensures r.1 == ImageKey(id, token)
    ensures r.0 == Store(st.base, st.dirs + {id}, st.files[r.1 := content])
  {
    StoredUploadName(i, token);
    SaveImage(st, id, UploadName(i), content, token)
  }

  /** The saving loop of the submission handler: the upload at position `j`
      (the handler's image number `i + j`) is saved in the analysis
      directory under its token and `.jpg`. No token may name a stored file. */
  function SaveAll(st: Store, id: string, uploads: seq<Upload>, tokens: seq<string>, i: nat)
    : (r: (Store, seq<FileKey>))
    requires |tokens| == |uploads| && FreshTokens(tokens)
    requires forall j :: 0 <= j < |tokens| ==> ImageKey(id, tokens[j]) !in st.files
    ensures |r.1| == |uploads|
    ensures r.1 == ImageKeys(id, tokens)
    ensures r.0.base == st.base
    ensures r.0.dirs == if |uploads| == 0 then st.dirs else st.dirs + {id}
    decreases |uploads|
  {
    if |uploads| == 0 then (st, [])
    else
      var first := SaveOne(st, id, i, uploads[0].content, tokens[0]);
      var ts := tokens[1..];
      LaterKeysFree(st, id, tokens, first.1);
      var later := SaveAll(first.0, id, uploads[1..], ts, i + 1);
      var k := first.1;
      var rest := later.1;
      var st2 := later.0;
      var keys := [k] + rest;
      (st2, keys)
  }

  /** After the first token's file is written, the other tokens still name
      no stored file. */
  lemma LaterKeysFree(st: Store, id: string, tokens: seq<string>, k: FileKey)
    requires |tokens| > 0 && FreshTokens(tokens)
    requires forall j :: 0 <= j < |tokens| ==> ImageKey(id, tokens[j]) !in st.files
    requires k == ImageKey(id, tokens[0])
    ensures FreshTokens(tokens[1..])
    ensures forall j :: 0 <= j < |tokens| - 1 ==>
              ImageKey(id, tokens[1..][j]) != k && ImageKey(id, tokens[1..][j]) !in st.files
  {
    var ts := tokens[1..];
    assert forall a :: 0 <= a < |ts| ==> ts[a] == tokens[a + 1];
    forall a | 0 <= a < |ts| ensures ImageKey(id, ts[a]) != k {
      ImageKeyInjective(id, ts[a], tokens[0]);
    }
  }

  /** The files after the loop: each upload's content under its key, and
      every file stored before unchanged. */
  lemma {:induction false} SaveAllContents(st: Store, id: string, uploads: seq<Upload>, tokens: seq<string>, i: nat)
    requires |tokens| == |uploads| && FreshTokens(tokens)
    requires forall j :: 0 <= j < |tokens| ==> ImageKey(id, tokens[j]) !in st.files
    ensures var r := SaveAll(st, id, uploads, tokens, i);
      && (forall k :: k in r.0.files <==> k in st.files || k in r.1)
      && (forall k :: k in st.files ==> r.0.files[k] == st.files[k])
      && (forall j :: 0 <= j < |uploads| ==> r.1[j] in r.0.files && r.0.files[r.1[j]] == uploads[j].content)
    decreases |uploads|
  {
    if |uploads| > 0 {
      var (st1, k) := SaveOne(st, id, i, uploads[0].content, tokens[0]);
      LaterKeysFree(st, id, tokens, k);
      SaveAllContents(st1, id, uploads[1..], tokens[1..], i + 1);
      var (st2, rest) := SaveAll(st1, id, uploads[1..], tokens[1..], i + 1);
      var r := SaveAll(st, id, uploads, tokens, i);
      assert r == (st2, [k] + rest);
      forall j | 0 <= j < |uploads|
        ensures r.1[j] in r.0.files && r.0.files[r.1[j]] == uploads[j].content
      {
        if j > 0 {
          assert r.1[j] == rest[j - 1];
          assert uploads[j] == uploads[1..][j - 1];
        }
      }
    }
  }

  /** The accepting half of the submission handler: each upload is saved in
      the directory of the new analysis id and a pending record listing the
      saved files is filed. */
  function Accept(st: State, uploads: seq<Upload>, userId: Option<string>, id: string, tokens: seq<string>, now: nat)
    : (r: State)
    requires |tokens| == |uploads| && FreshTokens(tokens)
    requires id !in st.db.records
    requires forall k :: k in st.store.files ==> k.scope != id
    ensures r.db.records == st.db.records[id := NewRecord(id, userId, ImageKeys(id, tokens), now)]
    ensures r.db.order == st.db.order + [id]
    ensures Records.Valid(st.db) ==> Records.Valid(r.db)
    ensures forall k :: k in r.store.files <==> k in st.store.files || k in ImageKeys(id, tokens)
    ensures forall k :: k in st.store.files ==> r.store.files[k] == st.store.files[k]
    ensures forall j :: 0 <= j < |uploads| ==> r.store.files[ImageKeys(id, tokens)[j]] == uploads[j].content
    ensures r.store.base == st.store.base
    ensures r.store.dirs == if |uploads| == 0 then st.store.dirs else st.store.dirs + {id}
  {
    var saved := SaveAll(st.store, id, uploads, tokens, 0);
    SaveAllContents(st.store, id, uploads, tokens, 0);
    State(Insert(st.db, NewRecord(id, userId, saved.1, now)), saved.0)
  }

  /** `analyze_images` (the endpoint): validation first, and a refused
      submission changes nothing; otherwise the submission is accepted and
      the reply announces the analysis as processing. `id` is the generated
      `uuid4`, `tokens` the file tokens `save_image` generates and `now` the
      submission time. */
  function Submit(st: State, uploads: seq<Upload>, userId: Option<string>, id: string, tokens: seq<string>, now: nat)
    : (r: (State, Result<Accepted>))
    requires |tokens| == |uploads| && FreshTokens(tokens)
    requires id !in st.db.records
    requires forall k :: k in st.store.files ==> k.scope != id
    ensures ValidateUploads(uploads).Some? ==> r.0 == st && r.1 == Err(ValidateUploads(uploads).value)
    ensures ValidateUploads(uploads).None? ==>
      && r.1 == Ok(Accepted(id, Processing, EstimatedTime))
      && Get(r.0, id) == Ok(View(id, Pending, None, None, None, [], now, None, None))
      && r.0.db.records == st.db.records[id := NewRecord(id, userId, ImageKeys(id, tokens), now)]
      && r.0.db.order == st.db.order + [id]
      && (forall k :: k in r.0.store.files <==> k in st.store.files || k in ImageKeys(id, tokens))
      && (forall k :: k in st.store.files ==> r.0.store.files[k] == st.store.files[k])
      && (forall j :: 0 <= j < |uploads| ==> r.0.store.files[ImageKeys(id, tokens)[j]] == uploads[j].content)
      && r.0.store.base == st.store.base
      && r.0.store.dirs == (if |uploads| == 0 then st.store.dirs else st.store.dirs + {id})
    ensures forall other :: other != id ==> Get(r.0, other) == Get(st, other)
    ensures Consistent(st) ==> Consistent(r.0)
  {
    match ValidateUploads(uploads)
    case Some(e) => (st, Err(e))
    case None =>
      AcceptKeepsConsistent(st, uploads, userId, id, tokens, now);
      AcceptThenGet(st, uploads, userId, id, tokens, now);
      (Accept(st, uploads, userId, id, tokens, now), Ok(Accepted(id, Processing, EstimatedTime)))
  }

  /** `get_analysis`: 404 for an unknown id; the result fields only for a
      completed record (market data defaulting to the empty list); the
      completion time and error message are never part of the reply. */
  function Get(st: State, id: string): (r: Result<View>)
    ensures r.Err? <==> id !in st.db.records
    ensures r.Err? ==> r.error == NotFound
    ensures r.Ok? ==>
      var rec := st.db.records[id];
      && r.value.analysisId == rec.analysisId && r.value.status == rec.status
      && r.value.createdAt == rec.createdAt
      && r.value.completedAt.None? && r.value.errorMessage.None?
    ensures r.Ok? && st.db.records[id].status != Completed ==>
      && r.value.itemInfo.None? && r.value.priceRange.None? && r.value.confidence.None?
      && r.value.marketData == []
    ensures r.Ok? && st.db.records[id].status == Completed ==>
      var rec := st.db.records[id];
      && r.value.itemInfo == rec.itemInfo && r.value.priceRange == rec.priceRange
      && r.value.confidence == rec.confidence && r.value.marketData == rec.marketData.GetOr([])
  {
    if id !in st.db.records then Err(NotFound)
    else
      var rec := st.db.records[id];
      if rec.status == Completed then
        Ok(View(rec.analysisId, rec.status, rec.itemInfo, rec.priceRange, rec.confidence,
                rec.marketData.GetOr([]), rec.createdAt, None, None))
      else
        Ok(View(rec.analysisId, rec.status, None, None, None, [], rec.createdAt, None, None))
  }

  /** The first step of `process_analysis`: the record is marked processing.
      A missing record raises `KeyError` in the task, so nothing changes. */
  function BeginProcessing(db: Db, id: string): (db': Db)
    ensures db'.order == db.order && db'.records.Keys == db.records.Keys
    ensures id in db.records ==> db'.records[id] == db.records[id].(status := Processing)
    ensures forall other :: other in db.records && other != id ==> db'.records[other] == db.records[other]
    ensures Records.Valid(db) ==> Records.Valid(db')
  {
    if id !in db.records then db
    else Replace(db, id, db.records[id].(status := Processing))
  }

  /** `analyses_db[id].update(...)` in the last step of `process_analysis`,
      from the record `old_` to `rec`: the identity, image and timing fields
      stay, the completion time is stamped, and only the keys the outcome
      writes change. A returned output sets the status and every result
      field and keeps any earlier error message; an exception sets the
      status and the message and keeps any earlier results. */
  predicate Merged(old_: Record, rec: Record, outcome: Outcome, now: nat) {
    && rec.analysisId == old_.analysisId && rec.userId == old_.userId
    && rec.imagePaths == old_.imagePaths && rec.createdAt == old_.createdAt
    && rec.estimatedTime == old_.estimatedTime
    && rec.completedAt == Some(now)
    && (outcome.Returned? ==>
          && rec.status == Completed
          && rec.itemInfo == Some(outcome.output.itemInfo)
          && rec.priceRange == Some(outcome.output.priceRange)
          && rec.confidence == Some(outcome.output.confidence)
          && rec.marketData == Some(outcome.output.marketData)
          && rec.errorMessage == old_.errorMessage)
    && (outcome.Raised? ==>
          && rec.status == Error && rec.errorMessage == Some(outcome.message)
          && rec.itemInfo == old_.itemInfo && rec.priceRange == old_.priceRange
          && rec.confidence == old_.confidence && rec.marketData == old_.marketData)
  }

  /** The last step of `process_analysis`: the service's output is merged
      into the record, which becomes completed; an exception is merged as an
      error message, which leaves earlier result fields in place. Both stamp
      the completion time. A missing record (deleted while the task slept)
      raises `KeyError` again in the handler, so nothing changes. */
  function FinishProcessing(db: Db, id: string, outcome: Outcome, now: nat): (db': Db)
    ensures db'.order == db.order && db'.records.Keys == db.records.Keys
    ensures id !in db.records ==> db' == db
    ensures id in db.records ==>
      Merged(db.records[id], db'.records[id], outcome, now) && StatusFields(db'.records[id])
    ensures forall other :: other in db.records && other != id ==> db'.records[other] == db.records[other]
    ensures Records.Valid(db) ==> Records.Valid(db')
  {
    if id !in db.records then db
    else
      var rec := db.records[id];
      match outcome
      case Returned(out) =>
        Replace(db, id, rec.(status := Completed, itemInfo := Some(out.itemInfo), priceRange := Some(out.priceRange),
                         confidence := Some(out.confidence), marketData := Some(out.marketData),
                         completedAt := Some(now)))
      case Raised(msg) =>
        Replace(db, id, rec.(status := Error, errorMessage := Some(msg), completedAt := Some(now)))
  }

  /** The path strings of stored files, as the handler passes them to the service. */
  function PathStrings(store: Store, keys: seq<FileKey>): (r: seq<string>)
    ensures |r| == |keys|
    ensures forall j :: 0 <= j < |keys| ==> r[j] == PathString(store, keys[j])
  {
    seq(|keys|, j requires 0 <= j < |keys| => PathString(store, keys[j]))
  }

  /** The output of the analysis service for a record's images. */
  function RunService(st: State, id: string, search: SearchOutcome, pick: nat): (out: AnalysisOutput)
    requires id in st.db.records && pick < |UnknownChoices|
    ensures out == AnalyzeImages(PathStrings(st.store, st.db.records[id].imagePaths), search, pick)
    ensures out.confidence == Confidence
  {
    AnalyzeImages(PathStrings(st.store, st.db.records[id].imagePaths), search, pick)
  }

  /** `process_analysis` run without interruption, given how the service
      call ends: mark the record processing, then merge the outcome. A
      missing record leaves the state unchanged. */
  function RunTask(st: State, id: string, outcome: Outcome, now: nat): (r: State)
    ensures r.store == st.store
    ensures id !in st.db.records ==> r == st
    ensures r.db.order == st.db.order && r.db.records.Keys == st.db.records.Keys
    ensures id in st.db.records ==>
      Merged(st.db.records[id], r.db.records[id], outcome, now) && StatusFields(r.db.records[id])
    ensures forall other :: other in st.db.records && other != id ==> r.db.records[other] == st.db.records[other]
    ensures Consistent(st) ==> Consistent(r)
  {
    var db' := FinishProcessing(BeginProcessing(st.db, id), id, outcome, now);
    MergeKeepsConsistent(st, db', id);
    State(db', st.store)
  }

  /** `process_analysis` on the record's images: the service never raises,
      so the record always ends completed, and its lookup shows exactly the
      service's output. `search` is what the search provider does, `pick`
      the fallback choice and `now` the completion time. */
  function Process(st: State, id: string, search: SearchOutcome, pick: nat, now: nat): (r: State)
    requires pick < |UnknownChoices|
    ensures id !in st.db.records ==> r == st
    ensures r.store == st.store && r.db.order == st.db.order && r.db.records.Keys == st.db.records.Keys
    ensures id in st.db.records ==>
      var out := RunService(st, id, search, pick);
      var rec := st.db.records[id];
      && Merged(rec, r.db.records[id], Returned(out), now)
      && Get(r, id) == Ok(View(rec.analysisId, Completed, Some(out.itemInfo), Some(out.priceRange),
                                Some(out.confidence), out.marketData, rec.createdAt, None, None))
    ensures forall other :: other in st.db.records && other != id ==> r.db.records[other] == st.db.records[other]
    ensures forall other :: other != id ==> Get(r, other) == Get(st, other)
    ensures Consistent(st) ==> Consistent(r)
  {
    if id !in st.db.records then st
    else RunTask(st, id, Returned(RunService(st, id, search, pick)), now)
  }

  /** The deletion loop of `delete_analysis`: `delete_image` on every path. */
  function DeleteAll(store: Store, keys: seq<FileKey>): (r: Store)
    decreases |keys|
    ensures r.base == store.base && r.dirs == store.dirs
    ensures forall k :: k in r.files <==> k in store.files && k !in keys
    ensures forall k :: k in r.files ==> r.files[k] == store.files[k]
    ensures Storage.Valid(store) ==> Storage.Valid(r)
  {
    if |keys| == 0 then store
    else
      var rest := DeleteAll(DeleteImage(store, keys[0]).0, keys[1..]);
      assert forall k :: k in keys <==> k == keys[0] || k in keys[1..];
      rest
  }

  /** `delete_analysis`: 404 for an unknown id; otherwise the record's image
      files are deleted and the record removed. The analysis directory stays,
      and every other record and file is left as it was. */
  function Delete(st: State, id: string): (r: (State, Result<string>))
    ensures id !in st.db.records ==> r == (st, Err(NotFound))
    ensures id in st.db.records ==> r.1 == Ok(DeletedMessage)
    ensures Get(r.0, id) == Err(NotFound)
    ensures r.0.db.records == st.db.records - {id}
    ensures id in st.db.records ==> r.0.db.order == RemoveId(st.db.order, id)
    ensures forall other :: other != id ==> Get(r.0, other) == Get(st, other)
    ensures id in st.db.records ==> forall k :: k in st.db.records[id].imagePaths ==> GetImage(r.0.store, k) == None
    ensures forall k :: (id !in st.db.records || k !in st.db.records[id].imagePaths) ==>
      GetImage(r.0.store, k) == GetImage(st.store, k)
    ensures r.0.store.base == st.store.base && r.0.store.dirs == st.store.dirs
    ensures Consistent(st) ==> Consistent(r.0)
  {
    if id !in st.db.records then (st, Err(NotFound))
    else
      var store := DeleteAll(st.store, st.db.records[id].imagePaths);
      RemovalKeepsConsistent(st, id);
      (State(Remove(st.db, id), store), Ok(DeletedMessage))
  }

  /** `complete_analysis_manually`: 404 for an unknown id; otherwise the
      processing task runs to its end and the reply reports success: the
      record is completed with the service's output, and the store, the
      order and every other stored record are left as they were. */
  function CompleteManually(st: State, id: string, search: SearchOutcome, pick: nat, now: nat)
    : (r: (State, Result<string>))
    requires pick < |UnknownChoices|
    ensures id !in st.db.records ==> r == (st, Err(NotFound))
    ensures id in st.db.records ==>
      var out := RunService(st, id, search, pick);
      var rec := st.db.records[id];
      && r.1 == Ok(CompletedMessage)
      && Get(r.0, id) == Ok(View(rec.analysisId, Completed, Some(out.itemInfo), Some(out.priceRange),
                                  Some(out.confidence), out.marketData, rec.createdAt, None, None))
    ensures id in st.db.records ==>
      Merged(st.db.records[id], r.0.db.records[id], Returned(RunService(st, id, search, pick)), now)
    ensures r.0.store == st.store
    ensures r.0.db.order == st.db.order && r.0.db.records.Keys == st.db.records.Keys
    ensures forall other :: other in st.db.records && other != id ==> r.0.db.records[other] == st.db.records[other]
    ensures forall other :: other != id ==> Get(r.0, other) == Get(st, other)
    ensures Consistent(st) ==> Consistent(r.0)
  {
    if id !in st.db.records then (st, Err(NotFound))
    else (Process(st, id, search, pick, now), Ok(CompletedMessage))
  }

  /** An accepted submission is visible at once as a pending record with its
      submission time and no result, and no other lookup changes. */
  lemma AcceptThenGet(st: State, uploads: seq<Upload>, userId: Option<string>, id: string, tokens: seq<string>, now: nat)
    requires |tokens| == |uploads| && FreshTokens(tokens)
    requires id !in st.db.records
    requires forall k :: k in st.store.files ==> k.scope != id
    ensures var st' := Accept(st, uploads, userId, id, tokens, now);
      && Get(st', id) == Ok(View(id, Pending, None, None, None, [], now, None, None))
      && forall other :: other != id ==> Get(st', other) == Get(st, other)
  {
  }

  /** Accepting a submission keeps the registry and the store in agreement:
      the new record's images are exactly the files saved for it. */
  lemma AcceptKeepsConsistent(st: State, uploads: seq<Upload>, userId: Option<string>, id: string, tokens: seq<string>, now: nat)
    requires |tokens| == |uploads| && FreshTokens(tokens)
    requires id !in st.db.records
    requires forall k :: k in st.store.files ==> k.scope != id
    ensures Consistent(st) ==> Consistent(Accept(st, uploads, userId, id, tokens, now))
  {
    if Consistent(st) {
      var st' := Accept(st, uploads, userId, id, tokens, now);
      var rec := NewRecord(id, userId, ImageKeys(id, tokens), now);
      FiledConsistent(st, st'.db, st'.store, rec);
    }
  }

  /** Filing a new pending record together with the new files of its images
      keeps the agreement. */
  lemma FiledConsistent(st: State, db': Db, store': Store, rec: Record)
    requires Consistent(st)
    requires rec.analysisId !in st.db.records && StatusFields(rec)
    requires forall k :: k in st.store.files ==> k.scope != rec.analysisId
    requires db' == Insert(st.db, rec)
    requires forall k :: k in rec.imagePaths ==> k.scope == rec.analysisId
    requires forall k :: k in store'.files <==> k in st.store.files || k in rec.imagePaths
    requires |rec.imagePaths| > 0 ==> rec.analysisId in store'.dirs
    requires st.store.dirs <= store'.dirs
    ensures Consistent(State(db', store'))
  {
    var st' := State(db', store');
    NewRecordPathsStored(st, st', rec.analysisId, rec.imagePaths);
    NewRecordFilesOwned(st, st', rec.analysisId, rec.imagePaths);
  }

  /** Filing a record whose images are new files keeps every record's images stored. */
  lemma NewRecordPathsStored(st: State, st': State, id: string, keys: seq<FileKey>)
    requires PathsStored(st.db, st.store)
    requires id !in st.db.records && st'.db.records.Keys == st.db.records.Keys + {id}
    requires st'.db.records[id].imagePaths == keys
    requires forall other :: other in st.db.records ==> st'.db.records[other] == st.db.records[other]
    requires forall k :: k in keys ==> k.scope == id
    requires forall k :: k in st'.store.files <==> k in st.store.files || k in keys
    ensures PathsStored(st'.db, st'.store)
  {
    forall id', k | id' in st'.db.records && k in st'.db.records[id'].imagePaths
      ensures k.scope == id' && k in st'.store.files
    {
      if id' != id {
        assert k in st.db.records[id'].imagePaths;
      }
    }
  }

  /** Filing a record whose images are the only new files keeps every file owned. */
  lemma NewRecordFilesOwned(st: State, st': State, id: string, keys: seq<FileKey>)
    requires FilesOwned(st.db, st.store)
    requires forall k :: k in st.store.files ==> k.scope != id
    requires id !in st.db.records && st'.db.records.Keys == st.db.records.Keys + {id}
    requires st'.db.records[id].imagePaths == keys
    requires forall other :: other in st.db.records ==> st'.db.records[other] == st.db.records[other]
    requires forall k :: k in keys ==> k.scope == id
    requires forall k :: k in st'.store.files <==> k in st.store.files || k in keys
    ensures FilesOwned(st'.db, st'.store)
  {
    forall k | k in st'.store.files
      ensures k.scope in st'.db.records && k in st'.db.records[k.scope].imagePaths
    {
      if k !in keys {
        assert k in st.store.files;
      }
    }
  }

  /** The processing task keeps the registry and the store in agreement,
      whether the service returns or raises: it changes one record, keeps
      its images and leaves it with the fields its new status calls for. */
  lemma MergeKeepsConsistent(st: State, db': Db, id: string)
    requires db'.records.Keys == st.db.records.Keys
    requires Records.Valid(st.db) ==> Records.Valid(db')
    requires forall other :: other in st.db.records && other != id ==> db'.records[other] == st.db.records[other]
    requires id in st.db.records ==>
      db'.records[id].imagePaths == st.db.records[id].imagePaths && StatusFields(db'.records[id])
    ensures Consistent(st) ==> Consistent(State(db', st.store))
  {
    if Consistent(st) {
      SamePathsConsistent(st, State(db', st.store));
    }
  }

  /** A registry change that keeps the ids, every record's images and the
      status fields, over the same store, keeps the agreement. */
  lemma SamePathsConsistent(st: State, st': State)
    requires Consistent(st)
    requires st'.store == st.store && Records.Valid(st'.db) && AllStatusFields(st'.db)
    requires st'.db.records.Keys == st.db.records.Keys
    requires forall id :: id in st.db.records ==> st'.db.records[id].imagePaths == st.db.records[id].imagePaths
    ensures Consistent(st')
  {
  }

  /** Removing a record together with its image files keeps the registry
      and the store in agreement. */
  lemma RemovalKeepsConsistent(st: State, id: string)
    requires id in st.db.records
    ensures Consistent(st) ==>
      Consistent(State(Remove(st.db, id), DeleteAll(st.store, st.db.records[id].imagePaths)))
  {
    if Consistent(st) {
      var st' := State(Remove(st.db, id), DeleteAll(st.store, st.db.records[id].imagePaths));
      var gone := st.db.records[id].imagePaths;
      assert forall k :: k in gone ==> k.scope == id;
      forall id', k | id' in st'.db.records && k in st'.db.records[id'].imagePaths
        ensures k.scope == id' && k in st'.store.files
      {
        assert k in st.db.records[id'].imagePaths;
      }
    }
  }

  /** After deletion the analysis is unknown: lookup, a second deletion and
      the manual trigger all answer 404, and none of its image files remains. */
  lemma DeleteThenGet(st: State, id: string, search: SearchOutcome, pick: nat, now: nat)
    requires pick < |UnknownChoices|
    requires id in st.db.records
    ensures var st' := Delete(st, id).0;
      && Delete(st, id).1 == Ok(DeletedMessage)
      && Get(st', id) == Err(NotFound)
      && Delete(st', id) == (st', Err(NotFound))
      && CompleteManually(st', id, search, pick, now) == (st', Err(NotFound))
      && (forall k :: k in st.db.records[id].imagePaths ==> GetImage(st'.store, k) == None)
  {
  }

  /** A deletion while the task sleeps between its two steps wins: the
      task's final merge raises on the missing record, so the analysis stays
      deleted and the state is what the deletion left. */
  lemma DeletedWhileProcessing(st: State, id: string, out: AnalysisOutput, now: nat)
    requires id in st.db.records
    ensures var begun := State(BeginProcessing(st.db, id), st.store);
      var deleted := Delete(begun, id).0;
      && FinishProcessing(deleted.db, id, Returned(out), now) == deleted.db
      && Get(State(FinishProcessing(deleted.db, id, Returned(out), now), deleted.store), id) == Err(NotFound)
  {
  }

  /** A failed re-run of a completed analysis keeps its results: the record
      then holds an item, a price range and an error message at once. */
  lemma RerunFailureKeepsResults(db: Db, id: string, message: string, now: nat)
    requires id in db.records && db.records[id].status == Completed && StatusFields(db.records[id])
    ensures var rec := FinishProcessing(db, id, Raised(message), now).records[id];
      && rec.status == Error && rec.errorMessage == Some(message)
      && rec.itemInfo == db.records[id].itemInfo && rec.itemInfo.Some?
      && rec.priceRange == db.records[id].priceRange && rec.priceRange.Some?
  {
  }

  /** The path the service receives for the first upload of a submission:
      `<root>/<analysis id>/<token>.jpg`. */
  lemma FirstUploadPath(store: Store, id: string, tokens: seq<string>)
    requires |tokens| > 0
    ensures PathStrings(store, ImageKeys(id, tokens))[0] == (store.base + "/" + id) + "/" + tokens[0] + ".jpg"
  {
    var p := PathStrings(store, ImageKeys(id, tokens))[0];
    assert p == store.base + "/" + id + "/" + (tokens[0] + ".jpg");
  }

  /** End to end: a submission with at least one image, processed, is
      reported completed with one of the three book descriptions and a
      price range from 280 to 450 baht, whatever the search does. */
  lemma SubmitThenProcess(st: State, uploads: seq<Upload>, userId: Option<string>, id: string, tokens: seq<string>,
                          now: nat, search: SearchOutcome, pick: nat, later: nat)
    requires |tokens| == |uploads| && FreshTokens(tokens)
    requires id !in st.db.records
    requires forall k :: k in st.store.files ==> k.scope != id
    requires ValidateUploads(uploads).None? && |uploads| > 0
    requires pick < |UnknownChoices|
    ensures var st1 := Submit(st, uploads, userId, id, tokens, now).0;
      var v := Get(Process(st1, id, search, pick, later), id);
      && v.Ok? && v.value.status == Completed
      && v.value.itemInfo == Some(UnknownChoices[pick])
      && v.value.priceRange.Some?
      && v.value.priceRange.value.minPrice == 280 && v.value.priceRange.value.maxPrice == 450
  {
    var st1 := Submit(st, uploads, userId, id, tokens, now).0;
    var paths := PathStrings(st1.store, ImageKeys(id, tokens));
    FirstUploadPath(st1.store, id, tokens);
    assert IsHexToken(tokens[0]);
    StoredImageEstimate(paths, st1.store.base + "/" + id, tokens[0], search, pick);
  }

  /** A submission without images is accepted, and its processing yields the
      fixed mock result. */
  lemma EmptySubmissionGetsMock(st: State, userId: Option<string>, id: string, now: nat,
                                search: SearchOutcome, pick: nat, later: nat)
    requires id !in st.db.records
    requires forall k :: k in st.store.files ==> k.scope != id
    requires pick < |UnknownChoices|
    ensures var r := Submit(st, [], userId, id, [], now);
      && r.1.Ok?
      && r.0.store == st.store
      && Get(Process(r.0, id, search, pick, later), id).Ok?
      && Get(Process(r.0, id, search, pick, later), id).value.itemInfo == Some(EducationalBook)
      && Get(Process(r.0, id, search, pick, later), id).value.marketData == BookTable
  {
  }
}
