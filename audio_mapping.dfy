/**
 * The mapping generator: fold the uploader's saved results into a dictionary
 * from cleaned audio path to blob URL, and the lookup function it writes out
 * beside that dictionary.
 */
module AudioMapping {
  import opened Wrappers
  import opened Strings
  import AudioUrls
  import UploadAudio

  /** One entry of the results file as the JSON parser gives it: `null` is `None`, a missing field is `None`. */
  datatype ResultRecord = ResultRecord(originalPath: Option<string>, blobUrl: Option<string>)

  /** `result && result.originalPath && result.blobUrl`: a record, with a non-empty path and a non-empty URL. */
  predicate Usable(r: Option<ResultRecord>)
  {
    r.Some? && Truthy(r.value.originalPath) && Truthy(r.value.blobUrl)
  }

  /** `result.originalPath.replace(/^audio\//, '')`: the path without one leading "audio/". */
  function KeyOf(r: Option<ResultRecord>): (k: string)
    requires Usable(r)
    ensures var path := r.value.originalPath.value;
      (StartsWith(path, "audio/") ==> path == "audio/" + k) && (!StartsWith(path, "audio/") ==> k == path)
  {
    AudioUrls.StripAudio(r.value.originalPath.value)
  }

  function UrlOf(r: Option<ResultRecord>): string
    requires Usable(r)
  {
    r.value.blobUrl.value
  }

  /** The dictionary after the first `|results|` iterations of the `forEach`. */
  function MappingOf(results: seq<Option<ResultRecord>>): map<string, string>
    decreases |results|
  {
    if results == [] then map[]
    else
      var m := MappingOf(results[..|results| - 1]);
      var r := results[|results| - 1];
      if Usable(r) then m[KeyOf(r) := UrlOf(r)] else m
  }

  /** The map-building loop of `main`. */
  method BuildMap(results: seq<Option<ResultRecord>>) returns (m: map<string, string>)
    ensures m == MappingOf(results)
  {
    m := map[];
    for i := 0 to |results|
      invariant m == MappingOf(results[..i])
    {
      assert results[..i + 1][..i] == results[..i];
      var result := results[i];
      if result.Some? && Truthy(result.value.originalPath) && Truthy(result.value.blobUrl) {
        var key := AudioUrls.StripAudio(result.value.originalPath.value);
        m := m[key := result.value.blobUrl.value];
      }
    }
    assert results[..|results|] == results;
  }

  /** Result `i` is the last usable one whose key is `k`. */
  predicate LastFor(results: seq<Option<ResultRecord>>, i: int, k: string) {
    && 0 <= i < |results| && Usable(results[i]) && KeyOf(results[i]) == k
    && forall j :: i < j < |results| && Usable(results[j]) ==> KeyOf(results[j]) != k
  }

  /** The dictionary holds a key exactly when some usable result produces it; unusable results contribute nothing. */
  lemma {:induction false} MappingKeys(results: seq<Option<ResultRecord>>, k: string)
    ensures k in MappingOf(results) <==>
      exists i :: 0 <= i < |results| && Usable(results[i]) && KeyOf(results[i]) == k
    decreases |results|
  {
    if results != [] {
      var n := |results| - 1;
      var prefix := results[..n];
      MappingKeys(prefix, k);
      if k in MappingOf(prefix) {
        var i :| 0 <= i < n && Usable(prefix[i]) && KeyOf(prefix[i]) == k;
        assert results[i] == prefix[i];
      }
      if exists i :: 0 <= i < |results| && Usable(results[i]) && KeyOf(results[i]) == k {
        var i :| 0 <= i < |results| && Usable(results[i]) && KeyOf(results[i]) == k;
        if i < n {
          assert results[i] == prefix[i];
        }
      }
    }
  }

  /** For each key it holds, the dictionary gives the URL of the last usable result that produces that key. */
  lemma {:induction false} MappingLastWins(results: seq<Option<ResultRecord>>, k: string)
    requires k in MappingOf(results)
    ensures exists i :: LastFor(results, i, k) && MappingOf(results)[k] == UrlOf(results[i])
    decreases |results|
  {
    var n := |results| - 1;
    var prefix := results[..n];
    if Usable(results[n]) && KeyOf(results[n]) == k {
      assert LastFor(results, n, k);
    } else {
      MappingLastWins(prefix, k);
      var i :| LastFor(prefix, i, k) && MappingOf(prefix)[k] == UrlOf(prefix[i]);
      assert forall j :: 0 <= j < n ==> prefix[j] == results[j];
      assert LastFor(results, i, k);
    }
  }

  /** Only one result can be the last one for a key. */
  lemma LastForUnique(results: seq<Option<ResultRecord>>, i: int, i': int, k: string)
    requires LastFor(results, i, k) && LastFor(results, i', k)
    ensures i == i'
  {
  }

  /** The "Files mapped" figure: one per distinct key, so never more than there are results. */
  lemma {:induction false} FilesMappedBound(results: seq<Option<ResultRecord>>)
    ensures |MappingOf(results).Keys| <= |results|
    decreases |results|
  {
    if results != [] {
      var prefix := results[..|results| - 1];
      FilesMappedBound(prefix);
      var r := results[|results| - 1];
      if Usable(r) {
        var m := MappingOf(prefix);
        assert m[KeyOf(r) := UrlOf(r)].Keys == m.Keys + {KeyOf(r)};
      }
    }
  }

  /** The record the results file holds for an upload (its JSON round trip is not modelled). */
  function RecordOf(u: UploadAudio.UploadResult): Option<ResultRecord> {
    Some(ResultRecord(Some(u.originalPath), Some(u.blobUrl)))
  }

  /** An upload under the default base path "audio" is keyed by its relative path, with "/" for every backslash. */
  lemma UploadKey(rel: string, url: string, pathname: string, size: nat)
    requires url != ""
    ensures var u := UploadAudio.UploadResult(UploadAudio.BlobPath("audio", rel), url, pathname, size);
      Usable(RecordOf(u)) && KeyOf(RecordOf(u)) == ReplaceAll(rel, '\\', '/')
  {
    var p := UploadAudio.BlobPath("audio", rel);
    assert p == "audio/" + ReplaceAll(rel, '\\', '/');
    assert p[..6] == "audio/";
  }

  /** The `getAudioUrl` the generator writes out: the mapped URL on a truthy hit, else the path made absolute. */
  function GeneratedGetAudioUrl(audioUrlMap: map<string, string>, localPath: string): (url: string)
    ensures url != ""
    ensures var clean := AudioUrls.CleanPath(localPath);
      clean in audioUrlMap && audioUrlMap[clean] != "" ==> url == audioUrlMap[clean]
    ensures var clean := AudioUrls.CleanPath(localPath);
      !(clean in audioUrlMap && audioUrlMap[clean] != "") ==>
        StartsWith(url, "/") && EndsWith(url, localPath) && (url == localPath <==> StartsWith(localPath, "/"))
        && |url| == |localPath| + (if StartsWith(localPath, "/") then 0 else 1)
  {
    var cleanPath := AudioUrls.CleanPath(localPath);
    if cleanPath in audioUrlMap && audioUrlMap[cleanPath] != "" then audioUrlMap[cleanPath]
    else if StartsWith(localPath, "/") then localPath
    else "/" + localPath
  }

  /**
   * Generator and lookup together: a path whose cleaned form is the key of the
   * last usable result resolves to that result's URL.
   */
  lemma GeneratedLookupFindsLast(results: seq<Option<ResultRecord>>, i: int, localPath: string)
    requires LastFor(results, i, AudioUrls.CleanPath(localPath))
    ensures GeneratedGetAudioUrl(MappingOf(results), localPath) == UrlOf(results[i])
  {
    var k := AudioUrls.CleanPath(localPath);
    MappingKeys(results, k);
    MappingLastWins(results, k);
    var i' :| LastFor(results, i', k) && MappingOf(results)[k] == UrlOf(results[i']);
    LastForUnique(results, i, i', k);
  }
}
