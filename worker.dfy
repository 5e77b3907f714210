/**
 * The R2 gateway worker: one request in, one store operation, one response out.
 * The object key is the URL path without its first character; a bearer-token
 * check runs before anything else; PUT, GET and DELETE go to the store and
 * every other method is refused with 405.
 */
module Worker {
  import opened Wrappers
  import opened Strings
  import opened R2

  /** A request after URL parsing: the HTTP method (as the runtime normalises it), the URL's pathname, headers and body. */
  datatype Request = Request(verb: string, pathname: string, headers: Headers, body: Bytes)

  datatype Body = NoBody | Text(text: string) | Stream(bytes: Bytes)

  datatype Response = Response(status: int, headers: Headers, body: Body)

  /** A response together with the store's objects after the request. */
  datatype Exchange = Exchange(response: Response, objects: map<Key, Obj>)

  const Unauthorized := Response(401, map["www-authenticate" := "Bearer"], Text("Unauthorized"))
  const NotFound := Response(404, map[], Text("Object Not Found"))
  const Deleted := Response(200, map[], Text("Deleted!"))
  const MethodNotAllowed := Response(405, map["allow" := "PUT, GET, DELETE"], Text("Method Not Allowed"))

  function PutAck(key: Key): Response {
    Response(200, map[], Text("Put " + key + " successfully!"))
  }

  /** `url.pathname.slice(1)`: the first character goes, nothing is decoded or normalised. */
  function ObjectKey(pathname: string): (key: Key)
    ensures pathname != [] ==> pathname == [pathname[0]] + key
    ensures pathname == [] ==> key == []
  {
    if pathname == [] then [] else pathname[1..]
  }

  /** The credential the gateway accepts, stated on the header text: "Bearer", one space, the token, then nothing or a space. */
  predicate BearerCredential(header: string, token: string) {
    ' ' !in token && (header == "Bearer " + token || StartsWith(header, "Bearer " + token + " "))
  }

  /**
   * The bearer-token gate. Without a (truthy) token every request passes; with one,
   * the `authorization` header's first space-separated word must be exactly
   * "Bearer" (case-sensitive) and its second word exactly the token.
   */
  function IsAuthorized(authToken: Option<string>, h: Headers): (ok: bool)
    ensures !Truthy(authToken) ==> ok
    ensures Truthy(authToken) ==>
      (ok <==> "authorization" in h && BearerCredential(h["authorization"], authToken.value))
  {
    if !Truthy(authToken) then true
    else if "authorization" !in h || h["authorization"] == "" then false
    else
      var header := h["authorization"];
      var words := Split(header, ' ');
      var ok := words[0] == "Bearer" && |words| >= 2 && words[1] == authToken.value;
      if ok then BearerWordsSound(header, authToken.value); ok
      else if BearerCredential(header, authToken.value) then BearerWordsComplete(header, authToken.value); ok
      else ok
  }

  /** A header that passes the two-word check on `split(" ")` has the form `BearerCredential` describes. */
  lemma BearerWordsSound(header: string, token: string)
    requires var words := Split(header, ' ');
      words[0] == "Bearer" && |words| >= 2 && words[1] == token
    ensures BearerCredential(header, token)
  {
    var words := Split(header, ' ');
    SplitPiecesFree(header, ' ');
    assert ' ' !in words[1];
    JoinSplit(header, ' ');
    assert words == [words[0]] + words[1..];
    assert header == "Bearer" + [' '] + Join(words[1..], ' ');
    if |words| > 2 {
      assert words[1..] == [words[1]] + words[2..];
      assert Join(words[1..], ' ') == token + [' '] + Join(words[2..], ' ');
      assert header == ("Bearer " + token + " ") + Join(words[2..], ' ');
    }
  }

  /** Every header of the form `BearerCredential` describes passes the two-word check on `split(" ")`. */
  lemma BearerWordsComplete(header: string, token: string)
    requires BearerCredential(header, token)
    ensures var words := Split(header, ' ');
      words[0] == "Bearer" && |words| >= 2 && words[1] == token
  {
    if header == "Bearer " + token {
      assert header == "Bearer" + [' '] + token;
      SplitAfter("Bearer", ' ', token);
      SplitNoSeparator(token, ' ');
    } else {
      var rest := header[|"Bearer " + token + " "|..];
      assert header == "Bearer" + [' '] + (token + [' '] + rest);
      SplitAfter("Bearer", ' ', token + [' '] + rest);
      SplitAfter(token, ' ', rest);
    }
  }

  /**
   * The response to a GET, decided by the store's outcome alone: absent is 404,
   * an object without a body (a failed precondition) is 412, an object with a
   * body is 200 with that body. 412 and 200 carry the object's metadata headers
   * and its ETag.
   */
  function GetResponse(outcome: GetOutcome): (r: Response)
    ensures r.status == 404 <==> outcome.Absent?
    ensures r.status == 412 <==> outcome.Rejected?
    ensures r.status == 200 <==> outcome.Found?
    ensures outcome.Absent? ==> r.body == Text("Object Not Found") && "etag" !in r.headers
    ensures outcome.Rejected? ==> r.body == NoBody
    ensures outcome.Found? ==> r.body == Stream(outcome.body)
    ensures !outcome.Absent? ==> "etag" in r.headers && r.headers["etag"] == outcome.meta.httpEtag
    ensures !outcome.Absent? ==> forall name :: name in outcome.meta.httpMetadata && name != "etag" ==>
      name in r.headers && r.headers[name] == outcome.meta.httpMetadata[name]
  {
    match outcome
    case Absent => NotFound
    case Rejected(meta) => Response(412, meta.httpMetadata["etag" := meta.httpEtag], NoBody)
    case Found(meta, body) => Response(200, meta.httpMetadata["etag" := meta.httpEtag], Stream(body))
  }

  /** One request against a store holding `objects`: the response and the objects afterwards. */
  function Serve(authToken: Option<string>, oracle: Oracle, objects: map<Key, Obj>, req: Request): Exchange {
    var key := ObjectKey(req.pathname);
    if !IsAuthorized(authToken, req.headers) then Exchange(Unauthorized, objects)
    else if req.verb == "PUT" then Exchange(PutAck(key), Written(objects, key, req.body, req.headers, oracle))
    else if req.verb == "GET" then Exchange(GetResponse(Read(objects, key, req.headers, oracle)), objects)
    else if req.verb == "DELETE" then Exchange(Deleted, objects - {key})
    else Exchange(MethodNotAllowed, objects)
  }

  /** A refused credential yields 401 with `WWW-Authenticate: Bearer`, whatever the method, and the store is not touched. */
  lemma UnauthorizedTouchesNothing(authToken: Option<string>, oracle: Oracle, objects: map<Key, Obj>, req: Request)
    requires !IsAuthorized(authToken, req.headers)
    ensures var x := Serve(authToken, oracle, objects, req);
      x.response.status == 401 && x.response.headers["www-authenticate"] == "Bearer"
      && x.response.body == Text("Unauthorized") && x.objects == objects
  {
  }

  /** Without a configured token no request is ever answered 401. */
  lemma OpenWithoutToken(authToken: Option<string>, oracle: Oracle, objects: map<Key, Obj>, req: Request)
    requires !Truthy(authToken)
    ensures Serve(authToken, oracle, objects, req).response.status != 401
  {
  }

  /** The only statuses the gateway produces; in particular never 206. */
  lemma StatusCodes(authToken: Option<string>, oracle: Oracle, objects: map<Key, Obj>, req: Request)
    ensures Serve(authToken, oracle, objects, req).response.status in {200, 401, 404, 405, 412}
  {
  }

  /** GET never changes the store. */
  lemma GetLeavesStore(authToken: Option<string>, oracle: Oracle, objects: map<Key, Obj>, req: Request)
    requires req.verb == "GET"
    ensures Serve(authToken, oracle, objects, req).objects == objects
  {
  }

  /** An authorised PUT is always acknowledged with 200, whether or not the store accepted the write. */
  lemma PutAlwaysAcknowledged(authToken: Option<string>, oracle: Oracle, objects: map<Key, Obj>, req: Request)
    requires req.verb == "PUT" && IsAuthorized(authToken, req.headers)
    ensures var x := Serve(authToken, oracle, objects, req);
      var key := ObjectKey(req.pathname);
      && x.response == Response(200, map[], Text("Put " + key + " successfully!"))
      && (oracle.onlyIf(Current(objects, key), req.headers) ==> x.objects[key].body == req.body)
      && (!oracle.onlyIf(Current(objects, key), req.headers) ==> x.objects == objects)
  {
  }

  /** An authorised DELETE removes the key, answers 200 "Deleted!" and is idempotent. */
  lemma DeleteIdempotent(authToken: Option<string>, oracle: Oracle, objects: map<Key, Obj>, req: Request)
    requires req.verb == "DELETE" && IsAuthorized(authToken, req.headers)
    ensures var once := Serve(authToken, oracle, objects, req);
      var twice := Serve(authToken, oracle, once.objects, req);
      && once.response == Deleted && twice.response == Deleted
      && ObjectKey(req.pathname) !in once.objects
      && twice.objects == once.objects
  {
  }

  /** Any other authorised method is answered 405 with `Allow: PUT, GET, DELETE` and changes nothing. */
  lemma OtherMethodsNotAllowed(authToken: Option<string>, oracle: Oracle, objects: map<Key, Obj>, req: Request)
    requires req.verb !in {"PUT", "GET", "DELETE"} && IsAuthorized(authToken, req.headers)
    ensures var x := Serve(authToken, oracle, objects, req);
      x.response.status == 405 && x.response.headers["allow"] == "PUT, GET, DELETE" && x.objects == objects
  {
  }

  /**
   * PUT then GET: when the store accepts the write and the GET's headers neither
   * fail a precondition nor ask for a range, the GET returns 200 with exactly the
   * bytes written and the ETag the store assigned.
   */
  lemma PutThenGet(authToken: Option<string>, oracle: Oracle, objects: map<Key, Obj>, put: Request, get: Request)
    requires put.verb == "PUT" && get.verb == "GET" && put.pathname == get.pathname
    requires IsAuthorized(authToken, put.headers) && IsAuthorized(authToken, get.headers)
    requires oracle.onlyIf(Current(objects, ObjectKey(put.pathname)), put.headers)
    requires forall m :: oracle.onlyIf(Some(m), get.headers)
    requires forall b :: oracle.range(b, get.headers) == b
    ensures var afterPut := Serve(authToken, oracle, objects, put);
      var r := Serve(authToken, oracle, afterPut.objects, get).response;
      && r.status == 200 && r.body == Stream(put.body)
      && r.headers["etag"] == oracle.stamp(ObjectKey(put.pathname), put.body, put.headers).httpEtag
  {
  }

  /** The worker: an immutable token captured at start-up and the bucket binding. */
  class Gateway {
    const authToken: Option<string>
    const r2: Bucket

    constructor (authToken: Option<string>, r2: Bucket)
      ensures this.authToken == authToken && this.r2 == r2
    {
      this.authToken := authToken;
      this.r2 := r2;
    }

    /** Handles one request as one sequential step. */
    method Fetch(request: Request) returns (response: Response)
      modifies r2`objects
      ensures Exchange(response, r2.objects) == Serve(authToken, r2.oracle, old(r2.objects), request)
    {
      var key := ObjectKey(request.pathname);
      if !IsAuthorized(authToken, request.headers) {
        return Unauthorized;
      }
      if request.verb == "PUT" {
        var _ := r2.Put(key, request.body, request.headers);
        response := PutAck(key);
      } else if request.verb == "GET" {
        var outcome := r2.Get(key, request.headers);
        match outcome
        case Absent =>
          response := NotFound;
        case Rejected(meta) =>
          response := Response(412, meta.httpMetadata["etag" := meta.httpEtag], NoBody);
        case Found(meta, body) =>
          response := Response(200, meta.httpMetadata["etag" := meta.httpEtag], Stream(body));
      } else if request.verb == "DELETE" {
        r2.Delete(key);
        response := Deleted;
      } else {
        response := MethodNotAllowed;
      }
    }
  }
}
