/** The artifact store of `api/services/storage_service.py`: uploaded image
    bytes kept under `<base>/<analysis id>/<generated name>`. The file system
    is abstracted to a set of per-analysis directories and a finite map from
    (directory, file name) to bytes. */
module Storage {
  import opened Wrappers
  import opened Text

  newtype byte = x: int | 0 <= x < 256

  type Bytes = seq<byte>

  /** A stored file: the analysis directory it lives in and its name there. */
  datatype FileKey = FileKey(scope: string, name: string)

  /** The storage root (`uploads` by default), the analysis directories
      created so far and the files they hold. */
  datatype Store = Store(base: string, dirs: set<string>, files: map<FileKey, Bytes>)

  const DefaultBase: string := "uploads"
  const DefaultExtension: string := ".jpg"
  const DefaultBaseUrl: string := "http://localhost:8000"

  /** The store as the service constructs it: an empty storage root. */
  function EmptyStore(base: string): (st: Store)
    ensures Valid(st) && st.files == map[]
  {
    Store(base, {}, map[])
  }

  /** Every file lives in a directory that exists. */
  ghost predicate Valid(st: Store) {
    forall k :: k in st.files ==> k.scope in st.dirs
  }

  /** The path string `str(file_path)` the service hands out for a file. */
  function PathString(st: Store, k: FileKey): string {
    st.base + "/" + k.scope + "/" + k.name
  }

  /** `uuid.uuid4().hex`: 32 lower-case hexadecimal digits. */
  predicate IsHexToken(t: string) {
    |t| == 32 && forall i :: 0 <= i < |t| ==> t[i] in "0123456789abcdef"
  }

  /** The generated file name: the random token followed by the caller's
      file extension, or `.jpg` when the caller's name has none. The name is
      a single path component. */
  function StoredName(filename: string, token: string): (r: string)
    requires IsHexToken(token)
    ensures StartsWith(r, token)
    ensures '/' !in r
    ensures Suffix(filename) != "" ==> r == token + Suffix(filename)
    ensures Suffix(filename) == "" ==> r == token + DefaultExtension
  {
    var ext := Suffix(filename);
    HexTokenIsComponent(token);
    DefaultExtensionIsSuffix();
    token + (if ext == "" then DefaultExtension else ext)
  }

  /** The stored file keeps the upload's extension: the suffix of the
      generated name is the filename's suffix, or `.jpg` when it has none. */
  lemma StoredNameKeepsExtension(filename: string, token: string)
    requires IsHexToken(token)
    ensures Suffix(StoredName(filename, token))
         == (if Suffix(filename) != "" then Suffix(filename) else DefaultExtension)
  {
    var ext := if Suffix(filename) == "" then DefaultExtension else Suffix(filename);
    DefaultExtensionIsSuffix();
    var f := StoredName(filename, token);
    assert f == token + ext;
    assert f[|token|] == ext[0] == '.';
    forall k | |token| < k < |f| ensures f[k] != '.' {
      assert f[k] == ext[1..][k - |token| - 1];
    }
    SuffixAt(f, |token|);
    assert f[|token|..] == ext;
  }

  lemma HexTokenIsComponent(token: string)
    requires IsHexToken(token)
    ensures |token| > 0 && '/' !in token
  {
    forall k | 0 <= k < |token| ensures token[k] != '/' {
      assert token[k] in "0123456789abcdef";
    }
  }

  lemma DefaultExtensionIsSuffix()
    ensures |DefaultExtension| >= 2 && DefaultExtension[0] == '.'
    ensures '.' !in DefaultExtension[1..] && '/' !in DefaultExtension
  {
    assert DefaultExtension[1..] == "jpg";
  }

  /** `save_image`: creates the analysis directory if needed and writes the
      content under a fresh generated name; the token must not name an
      existing file, so nothing already stored is overwritten. */
  function SaveImage(st: Store, analysisId: string, filename: string, content: Bytes, token: string)
    : (r: (Store, FileKey))
    requires IsHexToken(token)
    requires FileKey(analysisId, StoredName(filename, token)) !in st.files
    ensures var (st', k) := r;
      && k.scope == analysisId && k.name == StoredName(filename, token)
      && k !in st.files
      && st'.base == st.base && st'.dirs == st.dirs + {analysisId}
      && st'.files.Keys == st.files.Keys + {k}
      && (forall k' :: k' in st.files ==> st'.files[k'] == st.files[k'])
    ensures Valid(st) ==> Valid(r.0)
  {
    var k := FileKey(analysisId, StoredName(filename, token));
    (Store(st.base, st.dirs + {analysisId}, st.files[k := content]), k)
  }

  /** `get_image`: the stored bytes, or `None` for a missing file. */
  function GetImage(st: Store, k: FileKey): (r: Option<Bytes>)
    ensures r.Some? <==> k in st.files
    ensures r.Some? ==> r.value == st.files[k]
  {
    if k in st.files then Some(st.files[k]) else None
  }

  /** `delete_image`: removes the file and reports whether it existed. */
  function DeleteImage(st: Store, k: FileKey): (r: (Store, bool))
    ensures r.1 <==> k in st.files
    ensures k !in r.0.files
    ensures r.0.base == st.base && r.0.dirs == st.dirs
    ensures forall k' :: k' != k ==> GetImage(r.0, k') == GetImage(st, k')
    ensures Valid(st) ==> Valid(r.0)
  {
    if k in st.files then (Store(st.base, st.dirs, st.files - {k}), true)
    else (st, false)
  }

  /** `delete_analysis_images`: `false` with nothing changed when the analysis
      directory is absent; otherwise removes the directory with every file in
      it and returns `true`. */
  function DeleteAnalysisImages(st: Store, analysisId: string): (r: (Store, bool))
    ensures r.1 <==> analysisId in st.dirs
    ensures !r.1 ==> r.0 == st
    ensures r.1 ==> r.0.dirs == st.dirs - {analysisId}
    ensures r.0.base == st.base
    ensures Valid(st) ==> forall k: FileKey :: k.scope == analysisId ==> k !in r.0.files
    ensures forall k: FileKey :: k.scope != analysisId ==> GetImage(r.0, k) == GetImage(st, k)
    ensures Valid(st) ==> Valid(r.0)
  {
    if analysisId !in st.dirs then (st, false)
    else
      var files := map k | k in st.files && k.scope != analysisId :: st.files[k];
      (Store(st.base, st.dirs - {analysisId}, files), true)
  }

  /** `get_image_url`: the URL of a stored path, `<base url>/uploads/` followed
      by the path relative to the storage root; `None` when the path is not
      under the root (where `relative_to` raises `ValueError`). */
  function GetImageUrl(st: Store, path: string, baseUrl: string): (r: Option<string>)
    ensures r.Some? <==> StartsWith(path, st.base + "/")
    ensures r.Some? ==> StartsWith(r.value, baseUrl + "/uploads/")
    ensures r.Some? ==> |r.value| == |baseUrl| + 9 + |path| - |st.base| - 1
    ensures r.Some? ==> r.value[|baseUrl| + 9..] == path[|st.base| + 1..]
  {
    var root := st.base + "/";
    if StartsWith(path, root) then Some(baseUrl + "/uploads/" + path[|root|..])
    else None
  }

  /** Saving then reading returns the saved bytes, and reads of every other
      file are unaffected. */
  lemma SaveGetRoundTrip(st: Store, analysisId: string, filename: string, content: Bytes, token: string)
    requires IsHexToken(token)
    requires FileKey(analysisId, StoredName(filename, token)) !in st.files
    ensures var (st', k) := SaveImage(st, analysisId, filename, content, token);
      && GetImage(st', k) == Some(content)
      && forall k' :: k' != k ==> GetImage(st', k') == GetImage(st, k')
  {
  }

  /** Deleting a file twice: the first call reports `true` exactly when the
      file existed, the second always reports `false`. */
  lemma DeleteTwice(st: Store, k: FileKey)
    ensures var (st1, first) := DeleteImage(st, k);
      var (st2, second) := DeleteImage(st1, k);
      first == (k in st.files) && !second && st2 == st1
  {
  }

  /** Adding a fresh key and removing it again gives back the original map. */
  lemma UpdateThenRemove(files: map<FileKey, Bytes>, k: FileKey, content: Bytes)
    requires k !in files
    ensures files[k := content] - {k} == files
  {
    assert (files[k := content] - {k}).Keys == files.Keys;
  }

  /** After a save, deleting the saved file succeeds and restores the files
      that were there before. */
  lemma SaveThenDelete(st: Store, analysisId: string, filename: string, content: Bytes, token: string)
    requires IsHexToken(token)
    requires FileKey(analysisId, StoredName(filename, token)) !in st.files
    ensures var saved := SaveImage(st, analysisId, filename, content, token);
      var deleted := DeleteImage(saved.0, saved.1);
      deleted.1 && deleted.0.files == st.files
  {
    var saved := SaveImage(st, analysisId, filename, content, token);
    UpdateThenRemove(st.files, saved.1, content);
  }

  /** The URL of a stored file is its directory and name under `/uploads/`. */
  lemma ImageUrlOfStoredFile(st: Store, k: FileKey, baseUrl: string)
    ensures GetImageUrl(st, PathString(st, k), baseUrl)
      == Some(baseUrl + "/uploads/" + k.scope + "/" + k.name)
  {
    var p := PathString(st, k);
    assert p == (st.base + "/") + (k.scope + "/" + k.name);
    assert p[..|st.base + "/"|] == st.base + "/";
    assert p[|st.base + "/"|..] == k.scope + "/" + k.name;
    assert baseUrl + "/uploads/" + k.scope + "/" + k.name
      == (baseUrl + "/uploads/") + (k.scope + "/" + k.name);
  }
}
