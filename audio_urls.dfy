/**
 * Audio URL resolution for the site's player: clean the local path, then try a
 * direct mapping, then a generated public URL (custom base URL or S3 bucket),
 * then a local fallback under "/audio/". The configuration read from the build
 * environment is an immutable record, and `encodeURIComponent` is a given
 * function `enc`.
 */
module AudioUrls {
  import opened Strings

  /** The build environment: variables that are not set are absent. */
  type Env = map<string, string>

  /** `PUBLIC_AUDIO_CONFIG`. */
  datatype PublicAudioConfig = PublicAudioConfig(
    baseUrl: string, bucketName: string, region: string, prefix: string, enabled: bool)

  /** `encodeURIComponent`, taken as given. */
  type Encoder = string -> string

  /** What the segment-wise encoding relies on: the encoder never emits "/". */
  ghost predicate SlashFree(enc: Encoder) {
    forall s :: '/' !in enc(s)
  }

  function EnvValue(env: Env, name: string): string {
    if name in env then env[name] else ""
  }

  /** `env[name] || fallback`. */
  function EnvOr(env: Env, name: string, fallback: string): string {
    if EnvValue(env, name) != "" then env[name] else fallback
  }

  /** The configuration as the module computes it from the environment when it loads. */
  function ConfigFromEnv(env: Env): (c: PublicAudioConfig)
    ensures c.baseUrl == if EnvValue(env, "VITE_PUBLIC_AUDIO_BASE_URL") != "" then env["VITE_PUBLIC_AUDIO_BASE_URL"]
      else EnvValue(env, "VITE_S3_BASE_URL")
    ensures c.bucketName == EnvValue(env, "VITE_S3_BUCKET_NAME")
    ensures c.region == if EnvValue(env, "VITE_S3_REGION") != "" then env["VITE_S3_REGION"] else "us-east-1"
    ensures c.region != ""
    ensures c.prefix == if EnvValue(env, "VITE_PUBLIC_AUDIO_PREFIX") != "" then env["VITE_PUBLIC_AUDIO_PREFIX"]
      else EnvValue(env, "VITE_S3_PREFIX")
    ensures c.enabled <==> EnvValue(env, "VITE_PUBLIC_AUDIO_ENABLED") == "true" || EnvValue(env, "VITE_USE_S3") == "true"
  {
    PublicAudioConfig(
      baseUrl := EnvOr(env, "VITE_PUBLIC_AUDIO_BASE_URL", EnvOr(env, "VITE_S3_BASE_URL", "")),
      bucketName := EnvOr(env, "VITE_S3_BUCKET_NAME", ""),
      region := EnvOr(env, "VITE_S3_REGION", "us-east-1"),
      prefix := EnvOr(env, "VITE_PUBLIC_AUDIO_PREFIX", EnvOr(env, "VITE_S3_PREFIX", "")),
      enabled := EnvValue(env, "VITE_PUBLIC_AUDIO_ENABLED") == "true" || EnvValue(env, "VITE_USE_S3") == "true")
  }

  function DropLeadingSlash(p: string): string {
    if StartsWith(p, "/") then p[1..] else p
  }

  const PublicPrefixes: set<string> := {"", "/public", "/public/", "public", "public/"}

  /** The two facts about "/public/" and "public/" the longest-match argument needs. */
  lemma PublicSlashPrefixes(p: string)
    ensures StartsWith(p, "/public/") ==> StartsWith(p, "/public") && StartsWith(p[7..], "/")
    ensures StartsWith(p, "public/") ==> StartsWith(p, "public") && StartsWith(p[6..], "/")
  {
    assert "/public/" == "/public" + "/";
    assert "public/" == "public" + "/";
    if StartsWith(p, "/public/") {
      StartsWithConcat(p, "/public", "/");
    }
    if StartsWith(p, "public/") {
      StartsWithConcat(p, "public", "/");
    }
  }

  /**
   * `.replace(/^\/?public\/?/, '')`: removes a prefix from `PublicPrefixes`, and
   * the longest one the path starts with, as the greedy anchored pattern does.
   */
  function StripPublic(p: string): (r: string)
    ensures |r| <= |p| && r == p[|p| - |r|..]
    ensures p[..|p| - |r|] in PublicPrefixes
    ensures forall pre :: pre in PublicPrefixes && StartsWith(p, pre) ==> |pre| <= |p| - |r|
  {
    PublicSlashPrefixes(p);
    if StartsWith(p, "/public") then
      var r := DropLeadingSlash(p[7..]);
      assert StartsWith(p[7..], "/") ==> p[..8] == p[..7] + [p[7]] == "/public/";
      r
    else if StartsWith(p, "public") then
      var r := DropLeadingSlash(p[6..]);
      assert StartsWith(p[6..], "/") ==> p[..7] == p[..6] + [p[6]] == "public/";
      r
    else p
  }

  /** `.replace(/^audio\//, '')`. */
  function StripAudio(p: string): (r: string)
    ensures StartsWith(p, "audio/") ==> p == "audio/" + r
    ensures !StartsWith(p, "audio/") ==> r == p
  {
    if StartsWith(p, "audio/") then p[6..] else p
  }

  /** What `.replace(/^audio\//, '')` can take off. */
  const AudioPrefixes: set<string> := {"", "audio/"}

  /** Every prefix the two anchored removals can take off together. */
  const CleanablePrefixes: set<string> :=
    set pub, aud | pub in PublicPrefixes && aud in AudioPrefixes :: pub + aud

  /** No "public" prefix holds an "a", so "audio/" can only follow the whole of the public part. */
  lemma NoAInPublic(pre: string)
    requires pre in PublicPrefixes
    ensures 'a' !in pre
  {
  }

  /** The two removals together take off at least any public prefix followed by any audio prefix the path starts with. */
  lemma CleanRemovesLongest(p: string, pub: string, aud: string)
    requires pub in PublicPrefixes && aud in AudioPrefixes && StartsWith(p, pub + aud)
    ensures |pub + aud| <= |p| - |StripAudio(StripPublic(p))|
  {
    StartsWithConcat(p, pub, aud);
    var q := StripPublic(p);
    var cut := |p| - |q|;
    if aud == "audio/" {
      if |pub| < cut {
        var longer := p[..cut];
        assert p[|pub|..][0] == 'a';
        assert longer[|pub|] == p[|pub|];
        NoAInPublic(longer);
        assert false;
      }
      assert q == p[|pub|..];
    }
  }

  /** The removals are greedy: no cleanable prefix the path starts with is longer than what they take off. */
  lemma CleanRemovesLongestAll(p: string)
    ensures forall pre :: pre in CleanablePrefixes && StartsWith(p, pre) ==> |pre| <= |p| - |StripAudio(StripPublic(p))|
  {
    forall pre | pre in CleanablePrefixes && StartsWith(p, pre)
      ensures |pre| <= |p| - |StripAudio(StripPublic(p))|
    {
      var pub, aud :| pub in PublicPrefixes && aud in AudioPrefixes && pre == pub + aud;
      CleanRemovesLongest(p, pub, aud);
    }
  }

  /** What the two removals take off together is a public prefix followed by an audio prefix. */
  lemma CleanRemovesCleanable(p: string)
    ensures var r := StripAudio(StripPublic(p));
      |r| <= |p| && r == p[|p| - |r|..] && p[..|p| - |r|] in CleanablePrefixes
  {
    var q := StripPublic(p);
    var r := StripAudio(q);
    var pub := p[..|p| - |q|];
    var aud := q[..|q| - |r|];
    assert p == pub + q;
    assert q == aud + r;
    assert aud in AudioPrefixes;
    assert p == (pub + aud) + r;
    assert r == p[|p| - |r|..];
    assert p[..|p| - |r|] == pub + aud;
    assert pub + aud in CleanablePrefixes;
  }

  /**
   * The path cleaning both resolvers start with: it removes a prefix from
   * `CleanablePrefixes`, the longest one the path starts with, and nothing else.
   */
  function CleanPath(p: string): (r: string)
    ensures |r| <= |p| && r == p[|p| - |r|..]
    ensures p[..|p| - |r|] in CleanablePrefixes
    ensures forall pre :: pre in CleanablePrefixes && StartsWith(p, pre) ==> |pre| <= |p| - |r|
  {
    CleanRemovesCleanable(p);
    CleanRemovesLongestAll(p);
    StripAudio(StripPublic(p))
  }

  /** The "public" removal works on characters, not on path segments. */
  lemma CleanPathIsPrefixBased(rest: string)
    requires !StartsWith(rest, "/") && !StartsWith(rest, "audio/")
    ensures CleanPath("/public" + rest) == rest
  {
    var p := "/public" + rest;
    assert p[..7] == "/public";
    assert p[7..] == rest;
  }

  /** A string that differs from `pre` at some position `pre` covers does not start with it. */
  lemma DiffersAt(s: string, pre: string, i: nat)
    requires i < |pre| && i < |s| && s[i] != pre[i]
    ensures !StartsWith(s, pre)
  {
  }

  /** Each removal happens at most once. */
  lemma CleanPathStripsAudioOnce(rest: string)
    ensures CleanPath("audio/audio/" + rest) == "audio/" + rest
  {
    var p := "audio/audio/" + rest;
    assert p[0] == 'a';
    DiffersAt(p, "/public", 0);
    DiffersAt(p, "public", 0);
    assert StripPublic(p) == p;
    assert p[..6] == "audio/";
    assert p[6..] == "audio/" + rest;
    assert StripAudio(p) == "audio/" + rest;
  }

  /** A leading "/" is removed only in front of "public": "/audio/..." keeps its form. */
  lemma CleanPathKeepsSlashBeforeAudio(rest: string)
    ensures CleanPath("/audio/" + rest) == "/audio/" + rest
  {
    var p := "/audio/" + rest;
    assert p[0] == '/' && p[1] == 'a';
    DiffersAt(p, "/public", 1);
    DiffersAt(p, "public", 0);
    assert StripPublic(p) == p;
    DiffersAt(p, "audio/", 0);
    assert StripAudio(p) == p;
  }

  function MapSeq(f: Encoder, xs: seq<string>): (ys: seq<string>)
    ensures |ys| == |xs|
    ensures forall i :: 0 <= i < |xs| ==> ys[i] == f(xs[i])
  {
    seq(|xs|, i requires 0 <= i < |xs| => f(xs[i]))
  }

  /** `.split('/').map(encodeURIComponent).join('/')`. */
  function EncodePath(enc: Encoder, p: string): (r: string)
    ensures '/' !in p ==> r == enc(p)
  {
    SplitWhole(p, '/');
    Join(MapSeq(enc, Split(p, '/')), '/')
  }

  /** Encoding works segment by segment: the encoded path has exactly the encoded segments, and as many "/" as the input. */
  lemma EncodePathSegments(enc: Encoder, p: string)
    requires SlashFree(enc)
    ensures Split(EncodePath(enc, p), '/') == MapSeq(enc, Split(p, '/'))
    ensures Count(EncodePath(enc, p), '/') == Count(p, '/')
  {
    var encoded := MapSeq(enc, Split(p, '/'));
    SplitJoin(encoded, '/');
    JoinCount(encoded, '/');
  }

  /** `.replace(/\/$/, '')`: one trailing "/" goes. */
  function TrimTrailingSlash(s: string): (r: string)
    ensures EndsWith(s, "/") ==> s == r + "/"
    ensures !EndsWith(s, "/") ==> r == s
  {
    if EndsWith(s, "/") then s[..|s| - 1] else s
  }

  function PrefixPart(prefix: string): string {
    if prefix != "" then prefix + "/" else ""
  }

  /** Where a generated URL starts: the base URL (it wins over the bucket), else the bucket's S3 host, else nothing. */
  function Origin(c: PublicAudioConfig): string {
    if c.baseUrl != "" then TrimTrailingSlash(c.baseUrl)
    else if c.bucketName != "" then "https://" + c.bucketName + ".s3." + c.region + ".amazonaws.com"
    else ""
  }

  /**
   * `getPublicUrl`: empty when neither a base URL nor a bucket is configured,
   * otherwise the origin, "/", the prefix part and the encoded clean path.
   */
  function GetPublicUrl(c: PublicAudioConfig, enc: Encoder, localPath: string): (url: string)
    ensures url == "" <==> c.baseUrl == "" && c.bucketName == ""
    ensures url != "" ==> url == (Origin(c) + "/") + (PrefixPart(c.prefix) + EncodePath(enc, CleanPath(localPath)))
  {
    var encodedPath := EncodePath(enc, CleanPath(localPath));
    var prefix := PrefixPart(c.prefix);
    if c.baseUrl != "" then TrimTrailingSlash(c.baseUrl) + "/" + (prefix + encodedPath)
    else if c.bucketName != "" then "https://" + c.bucketName + ".s3." + c.region + ".amazonaws.com" + "/" + (prefix + encodedPath)
    else ""
  }

  /** The segments after the origin: those of the prefix, then the encoded segments of the path. */
  lemma PrefixedSegments(enc: Encoder, prefix: string, path: string)
    requires SlashFree(enc)
    ensures Split(PrefixPart(prefix) + EncodePath(enc, path), '/') ==
      (if prefix != "" then Split(prefix, '/') else []) + MapSeq(enc, Split(path, '/'))
  {
    var encoded := EncodePath(enc, path);
    EncodePathSegments(enc, path);
    if prefix != "" {
      assert PrefixPart(prefix) + encoded == prefix + ['/'] + encoded;
      SplitConcat(prefix, '/', encoded);
    } else {
      assert PrefixPart(prefix) + encoded == encoded;
    }
  }

  /**
   * The path of a generated URL, after its origin and "/", is the prefix's
   * segments followed by the cleaned path's segments, each encoded on its own.
   */
  lemma PublicUrlSegments(c: PublicAudioConfig, enc: Encoder, localPath: string)
    requires SlashFree(enc)
    requires c.baseUrl != "" || c.bucketName != ""
    ensures var url := GetPublicUrl(c, enc, localPath);
      var origin := Origin(c);
      && StartsWith(url, origin + "/")
      && Split(url[|origin| + 1..], '/') ==
           (if c.prefix != "" then Split(c.prefix, '/') else []) + MapSeq(enc, Split(CleanPath(localPath), '/'))
  {
    var origin := Origin(c);
    var tail := PrefixPart(c.prefix) + EncodePath(enc, CleanPath(localPath));
    var url := (origin + "/") + tail;
    assert GetPublicUrl(c, enc, localPath) == url;
    assert url[..|origin + "/"|] == origin + "/";
    assert url[|origin| + 1..] == tail;
    PrefixedSegments(enc, c.prefix, CleanPath(localPath));
  }

  /** The development fallback: always under "/audio/", keeping the path as its tail. */
  function LocalFallback(localPath: string): (r: string)
    ensures StartsWith(r, "/audio/")
    ensures EndsWith(r, localPath)
    ensures r == localPath <==> StartsWith(localPath, "/audio/")
    ensures |r| == |localPath| + (if StartsWith(localPath, "/audio/") then 0 else if StartsWith(localPath, "/") then 6 else 7)
  {
    if StartsWith(localPath, "/") then
      (if StartsWith(localPath, "/audio/") then localPath else "/audio" + localPath)
    else "/audio/" + localPath
  }

  /**
   * `getAudioUrl`: a truthy direct mapping of the cleaned path first, then the
   * public URL when it is enabled and configured, then the local fallback. The
   * result is never empty.
   */
  function GetAudioUrl(c: PublicAudioConfig, urlMap: map<string, string>, enc: Encoder, localPath: string): (url: string)
    ensures url != ""
    ensures var clean := CleanPath(localPath);
      clean in urlMap && urlMap[clean] != "" ==> url == urlMap[clean]
    ensures var clean := CleanPath(localPath);
      !(clean in urlMap && urlMap[clean] != "") && c.enabled && (c.baseUrl != "" || c.bucketName != "") ==>
        url == GetPublicUrl(c, enc, localPath)
    ensures var clean := CleanPath(localPath);
      !(clean in urlMap && urlMap[clean] != "") && !(c.enabled && (c.baseUrl != "" || c.bucketName != "")) ==>
        url == LocalFallback(localPath) && StartsWith(url, "/audio/")
  {
    var cleanPath := CleanPath(localPath);
    if cleanPath in urlMap && urlMap[cleanPath] != "" then urlMap[cleanPath]
    else if c.enabled && GetPublicUrl(c, enc, localPath) != "" then GetPublicUrl(c, enc, localPath)
    else LocalFallback(localPath)
  }

  /** A direct mapping is consulted before any configuration: with one present, the configuration does not matter. */
  lemma MappingPrecedesConfig(c1: PublicAudioConfig, c2: PublicAudioConfig, urlMap: map<string, string>, enc: Encoder, localPath: string)
    requires CleanPath(localPath) in urlMap && urlMap[CleanPath(localPath)] != ""
    ensures GetAudioUrl(c1, urlMap, enc, localPath) == GetAudioUrl(c2, urlMap, enc, localPath)
  {
  }
}
