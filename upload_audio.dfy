/**
 * The audio uploader: walk the audio directory tree, upload every regular file
 * whose name ends in an audio extension under the blob path
 * "<basePath>/<relative path>", and collect the results of the uploads that
 * succeeded. The directory tree is a value, and the blob store's `put` is a
 * given function that may fail.
 */
module UploadAudio {
  import opened Wrappers
  import opened Strings

  /** A directory entry: a regular file (with its size), a directory, or anything else (links, sockets, ...). */
  datatype Entry = File(name: string, size: nat) | Directory(name: string, entries: seq<Entry>) | Other(name: string)

  /** What the blob store answers to a successful `put`. */
  datatype Blob = Blob(url: string, pathname: string)

  /** `put(blobPath, stream, {contentType})`: `None` when the upload throws. */
  type Uploader = (string, string) -> Option<Blob>

  datatype UploadResult = UploadResult(originalPath: string, blobUrl: string, pathname: string, size: nat)

  /** The run's fixed inputs: the audio root directory, the platform's path separator, the blob prefix, and the store. */
  datatype Run = Run(root: string, sep: char, basePath: string, upload: Uploader)

  const ContentTypes: map<string, string> :=
    map["wav" := "audio/wav", "mp3" := "audio/mpeg", "m4a" := "audio/mp4", "cue" := "text/plain"]

  const OctetStream := "application/octet-stream"

  /** The extensions the upload filter accepts, in any case. */
  const AudioExtensions: set<string> := {"wav", "mp3", "m4a", "cue"}

  /** `filePath.split('.').pop().toLowerCase()`: the text after the last ".", or all of it. */
  function Extension(filePath: string): (e: string)
    ensures '.' !in e
    ensures '.' !in filePath ==> e == Lower(filePath)
  {
    var pieces := Split(filePath, '.');
    SplitPiecesFree(filePath, '.');
    SplitWhole(filePath, '.');
    var last := Last(pieces);
    assert '.' !in last;
    assert forall i :: 0 <= i < |last| ==> Lower(last)[i] != '.';
    Lower(last)
  }

  /** `getContentType`. */
  function ContentType(filePath: string): (t: string)
    ensures t != OctetStream <==> Extension(filePath) in ContentTypes
    ensures Extension(filePath) in ContentTypes ==> t == ContentTypes[Extension(filePath)]
  {
    if Extension(filePath) in ContentTypes then ContentTypes[Extension(filePath)] else OctetStream
  }

  /** The lookup is on the lower-cased text after the last ".". */
  lemma ContentTypeOfLastExtension(stem: string, ext: string)
    requires '.' !in ext
    ensures ContentType(stem + "." + ext) == if Lower(ext) in ContentTypes then ContentTypes[Lower(ext)] else OctetStream
  {
    LastPieceAfterSeparator(stem, '.', ext);
  }

  /** The last four characters of `low` are `c` then `tail`: they spell "." and `ext` exactly when `c` is "." and `tail` is `ext`. */
  lemma DotExtension(low: string, c: char, tail: string, ext: string)
    requires |low| >= 4 && |tail| == 3 && |ext| == 3 && low[|low| - 4..] == [c] + tail
    ensures EndsWith(low, ['.'] + ext) <==> c == '.' && tail == ext
  {
    if EndsWith(low, ['.'] + ext) {
      assert ([c] + tail)[0] == c;
      assert ([c] + tail)[1..] == tail;
      assert (['.'] + ext)[1..] == ext;
    }
  }

  /** `/\.(wav|mp3|m4a|cue)$/i.test(name)`, character by character. */
  predicate Selected(name: string) {
    |name| >= 4 && name[|name| - 4] == '.' && Lower(name[|name| - 3..]) in AudioExtensions
  }

  /** Four characters `c` then `tail` end in one of the audio extensions exactly when `c` is "." and `tail` is one of them. */
  lemma AudioEnding(low: string, c: char, tail: string)
    requires |low| >= 4 && |tail| == 3 && low[|low| - 4..] == [c] + tail
    ensures (c == '.' && tail in AudioExtensions) <==>
      (EndsWith(low, ".wav") || EndsWith(low, ".mp3") || EndsWith(low, ".m4a") || EndsWith(low, ".cue"))
  {
    assert ".wav" == ['.'] + "wav" && ".mp3" == ['.'] + "mp3" && ".m4a" == ['.'] + "m4a" && ".cue" == ['.'] + "cue";
    DotExtension(low, c, tail, "wav");
    DotExtension(low, c, tail, "mp3");
    DotExtension(low, c, tail, "m4a");
    DotExtension(low, c, tail, "cue");
  }

  /** The filter is the regular expression: the lower-cased name ends in ".wav", ".mp3", ".m4a" or ".cue". */
  lemma SelectedIsAudioSuffix(name: string)
    ensures Selected(name) <==>
      (EndsWith(Lower(name), ".wav") || EndsWith(Lower(name), ".mp3") || EndsWith(Lower(name), ".m4a") || EndsWith(Lower(name), ".cue"))
  {
    var n := |name|;
    var low := Lower(name);
    if n >= 4 {
      var c := LowerChar(name[n - 4]);
      var tail := Lower(name[n - 3..]);
      assert low[n - 4..] == [c] + tail;
      assert c == '.' <==> name[n - 4] == '.';
      AudioEnding(low, c, tail);
    }
  }

  /** The extension the filter saw contains no "." and no "\\". */
  lemma SelectedExtensionChars(name: string)
    requires Selected(name)
    ensures forall i :: |name| - 3 <= i < |name| ==> name[i] != '.' && name[i] != '\\'
  {
    var ext := name[|name| - 3..];
    forall i | |name| - 3 <= i < |name|
      ensures name[i] != '.' && name[i] != '\\'
    {
      assert Lower(ext)[i - (|name| - 3)] == LowerChar(name[i]);
    }
  }

  /** Every file the filter lets through gets a real content type, never application/octet-stream. */
  lemma SelectedHasContentType(dirPath: string, name: string)
    requires Selected(name)
    ensures ContentType(dirPath + name) == ContentTypes[Lower(name[|name| - 3..])]
    ensures ContentType(dirPath + name) != OctetStream
  {
    var ext := name[|name| - 3..];
    SelectedExtensionChars(name);
    assert '.' !in ext by {
      forall k | 0 <= k < |ext| ensures ext[k] != '.' {
        assert ext[k] == name[|name| - 3 + k];
      }
    }
    var stem := dirPath + name[..|name| - 4];
    assert dirPath + name == stem + "." + ext;
    ContentTypeOfLastExtension(stem, ext);
  }

  /** `path.relative(root, join(dir, name))` for an entry of a directory at `dirRel` below the root. */
  function RelPath(dirRel: string, name: string, sep: char): (r: string)
    ensures EndsWith(r, name)
  {
    if dirRel == "" then name else dirRel + [sep] + name
  }

  /** `${basePath}/${relativePath.replace(/\\/g, '/')}`. */
  function BlobPath(basePath: string, rel: string): (p: string)
    ensures StartsWith(p, basePath + "/")
    ensures '\\' !in p[|basePath| + 1..]
    ensures |p| == |basePath| + 1 + |rel|
    ensures forall i :: |basePath| + 1 <= i < |p| ==>
      p[i] == if rel[i - |basePath| - 1] == '\\' then '/' else rel[i - |basePath| - 1]
  {
    basePath + "/" + ReplaceAll(rel, '\\', '/')
  }

  /** The blob path of a selected file still ends in its audio extension. */
  lemma BlobPathKeepsExtension(basePath: string, rel: string, name: string)
    requires EndsWith(rel, name) && Selected(name)
    ensures Selected(BlobPath(basePath, rel))
  {
    var ending := name[|name| - 4..];
    SelectedExtensionChars(name);
    assert '\\' !in ending by {
      forall k | 0 <= k < 4
        ensures ending[k] != '\\'
      {
        assert ending[k] == name[|name| - 4 + k];
      }
    }
    assert rel[|rel| - 4..] == rel[|rel| - |name|..][|name| - 4..];
    BlobPathTail(basePath, rel, 4);
    SelectedBySuffix(BlobPath(basePath, rel), name);
  }

  /** A tail of the relative path without backslashes is also the tail of the blob path. */
  lemma BlobPathTail(basePath: string, rel: string, k: nat)
    requires k <= |rel| && '\\' !in rel[|rel| - k..]
    ensures var p := BlobPath(basePath, rel); p[|p| - k..] == rel[|rel| - k..]
  {
    var p := BlobPath(basePath, rel);
    var pTail, relTail := p[|p| - k..], rel[|rel| - k..];
    forall j | 0 <= j < k
      ensures pTail[j] == relTail[j]
    {
      assert relTail[j] == rel[|rel| - k + j];
      assert pTail[j] == p[|p| - k + j];
    }
  }

  /** Whether a name passes the filter depends only on its last four characters. */
  lemma SelectedBySuffix(a: string, b: string)
    requires |a| >= 4 && |b| >= 4 && a[|a| - 4..] == b[|b| - 4..] && Selected(b)
    ensures Selected(a)
  {
    assert a[|a| - 4] == a[|a| - 4..][0];
    assert a[|a| - 3..] == a[|a| - 4..][1..];
    assert b[|b| - 3..] == b[|b| - 4..][1..];
  }

  function FullPath(run: Run, rel: string): string {
    run.root + [run.sep] + rel
  }

  /** `uploadFile`: the result record, or `None` (JavaScript `null`) when the upload failed. */
  function UploadFile(run: Run, rel: string, size: nat): (r: Option<UploadResult>)
    ensures r.Some? <==> run.upload(BlobPath(run.basePath, rel), ContentType(FullPath(run, rel))).Some?
    ensures r.Some? ==> r.value.originalPath == BlobPath(run.basePath, rel) && r.value.size == size
    ensures r.Some? ==>
      var blob := run.upload(BlobPath(run.basePath, rel), ContentType(FullPath(run, rel))).value;
      r.value.blobUrl == blob.url && r.value.pathname == blob.pathname
  {
    var blobPath := BlobPath(run.basePath, rel);
    match run.upload(blobPath, ContentType(FullPath(run, rel)))
    case None => None
    case Some(blob) => Some(UploadResult(blobPath, blob.url, blob.pathname, size))
  }

  /** `if (result) results.push(result)`. */
  function Pushed(r: Option<UploadResult>): seq<Option<UploadResult>> {
    if r.Some? then [r] else []
  }

  /**
   * The results after the first `n` entries of directory `dir` (at `dirRel` below
   * the root): in entry order, each entry's results at its place.
   */
  function Uploads(run: Run, dir: Entry, dirRel: string, n: nat): seq<Option<UploadResult>>
    requires dir.Directory? && n <= |dir.entries|
    decreases dir, 1, n
  {
    if n == 0 then []
    else
      Uploads(run, dir, dirRel, n - 1) + EntryUploads(run, dir.entries[n - 1], dirRel)
  }

  /**
   * The results one entry of the directory at `dirRel` contributes: a
   * subdirectory's own results spliced in, a selected file's result when its
   * upload succeeded, nothing for anything else.
   */
  function EntryUploads(run: Run, entry: Entry, dirRel: string): seq<Option<UploadResult>>
    decreases entry, 2
  {
    var rel := RelPath(dirRel, entry.name, run.sep);
    match entry
    case Directory(_, children) => Uploads(run, entry, rel, |children|)
    case File(name, size) => if Selected(name) then Pushed(UploadFile(run, rel, size)) else []
    case Other(_) => []
  }

  /** `uploadDirectory`: the loop over the entries, recursing into subdirectories. */
  method UploadDirectory(run: Run, dir: Entry, dirRel: string) returns (results: seq<Option<UploadResult>>)
    requires dir.Directory?
    ensures results == Uploads(run, dir, dirRel, |dir.entries|)
    decreases dir
  {
    results := [];
    for i := 0 to |dir.entries|
      invariant results == Uploads(run, dir, dirRel, i)
    {
      var entry := dir.entries[i];
      var relativePath := RelPath(dirRel, entry.name, run.sep);
      ghost var step := EntryUploads(run, entry, dirRel);
      assert Uploads(run, dir, dirRel, i + 1) == results + step;
      if entry.Directory? {
        var subResults := UploadDirectory(run, entry, relativePath);
        results := results + subResults;
      } else if entry.File? && Selected(entry.name) {
        var result := UploadFile(run, relativePath, entry.size);
        if result.Some? {
          results := results + [result];
        }
      }
    }
  }

  /** The results after `m` entries: those after `m - 1`, then the `m`-th entry's. */
  lemma UploadsStep(run: Run, dir: Entry, dirRel: string, m: nat)
    requires dir.Directory? && 0 < m <= |dir.entries|
    ensures Uploads(run, dir, dirRel, m) == Uploads(run, dir, dirRel, m - 1) + EntryUploads(run, dir.entries[m - 1], dirRel)
  {
  }

  /** A collected result as the uploader records it: a successful upload of a selected file under "<basePath>/". */
  predicate UploadedFile(basePath: string, r: Option<UploadResult>) {
    && r.Some?
    && StartsWith(r.value.originalPath, basePath + "/")
    && '\\' !in r.value.originalPath[|basePath| + 1..]
    && Selected(r.value.originalPath)
  }

  predicate AllUploadedFiles(basePath: string, rs: seq<Option<UploadResult>>) {
    forall i :: 0 <= i < |rs| ==> UploadedFile(basePath, rs[i])
  }

  lemma UploadedFilesConcat(basePath: string, a: seq<Option<UploadResult>>, b: seq<Option<UploadResult>>)
    requires AllUploadedFiles(basePath, a) && AllUploadedFiles(basePath, b)
    ensures AllUploadedFiles(basePath, a + b)
  {
    forall i | 0 <= i < |a + b| ensures UploadedFile(basePath, (a + b)[i]) {
      if i >= |a| {
        assert (a + b)[i] == b[i - |a|];
      }
    }
  }

  /**
   * Every collected result is a successful upload of a selected file: never
   * `null`, its blob path under "<basePath>/" without backslashes, ending in an
   * audio extension.
   */
  lemma {:induction false} UploadsAreSelectedFiles(run: Run, dir: Entry, dirRel: string, n: nat)
    requires dir.Directory? && n <= |dir.entries|
    ensures AllUploadedFiles(run.basePath, Uploads(run, dir, dirRel, n))
    decreases dir, 1, n
  {
    if n > 0 {
      var entry := dir.entries[n - 1];
      UploadsAreSelectedFiles(run, dir, dirRel, n - 1);
      EntryUploadsAreSelectedFiles(run, entry, dirRel);
      UploadsStep(run, dir, dirRel, n);
      UploadedFilesConcat(run.basePath, Uploads(run, dir, dirRel, n - 1), EntryUploads(run, entry, dirRel));
    }
  }

  lemma {:induction false} EntryUploadsAreSelectedFiles(run: Run, entry: Entry, dirRel: string)
    ensures AllUploadedFiles(run.basePath, EntryUploads(run, entry, dirRel))
    decreases entry, 2
  {
    var rel := RelPath(dirRel, entry.name, run.sep);
    match entry
    case Directory(_, children) =>
      UploadsAreSelectedFiles(run, entry, rel, |children|);
    case File(name, size) =>
      if Selected(name) {
        BlobPathKeepsExtension(run.basePath, rel, name);
      }
    case Other(_) =>
  }

  /** The results that are not `null`, as `results.filter(r => r !== null)`. */
  function Successful(results: seq<Option<UploadResult>>): (s: seq<UploadResult>)
    ensures |s| <= |results|
    ensures |s| == |results| <==> forall i :: 0 <= i < |results| ==> results[i].Some?
    ensures forall x :: x in s ==> Some(x) in results
    ensures forall i :: 0 <= i < |results| && results[i].Some? ==> results[i].value in s
    ensures |s| == |results| ==> forall i :: 0 <= i < |s| ==> Some(s[i]) == results[i]
  {
    if results == [] then []
    else
      var rest := Successful(results[1..]);
      assert forall i :: 1 <= i < |results| ==> results[i] == results[1..][i - 1];
      if results[0].Some? then [results[0].value] + rest else rest
  }

  /** `filter` distributes over concatenation: the kept results keep their order and multiplicity. */
  lemma {:induction false} SuccessfulConcat(a: seq<Option<UploadResult>>, b: seq<Option<UploadResult>>)
    ensures Successful(a + b) == Successful(a) + Successful(b)
    decreases |a|
  {
    if a != [] {
      assert (a + b)[1..] == a[1..] + b;
      SuccessfulConcat(a[1..], b);
    } else {
      assert a + b == b;
    }
  }

  /** `filter` on one result: a non-null result is kept, a `null` is dropped. */
  lemma SuccessfulOne(r: Option<UploadResult>)
    ensures Successful([r]) == if r.Some? then [r.value] else []
  {
    assert [r][1..] == [];
  }

  /** The counts `main` reports. */
  datatype Summary = Summary(total: nat, successful: nat, failed: int)

  function Summarize(results: seq<Option<UploadResult>>): (s: Summary)
    ensures s.total == |results| && s.successful == |Successful(results)|
    ensures s.total == s.successful + s.failed && 0 <= s.failed
  {
    Summary(|results|, |Successful(results)|, |results| - |Successful(results)|)
  }

  /** `main` uploads from the root directory with base path "audio"; its "Failed" count is always 0. */
  lemma NoFailuresReported(run: Run, root: Entry)
    requires root.Directory?
    ensures Summarize(Uploads(run, root, "", |root.entries|)).failed == 0
  {
    UploadsAreSelectedFiles(run, root, "", |root.entries|);
  }
}
