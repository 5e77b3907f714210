/**
 * The object store behind the gateway (the `R2` binding of the worker's
 * environment). Its conditional-request and range evaluation, and the
 * metadata it assigns on a write, are the store's own business: they are
 * taken as given functions (`Oracle`), and the gateway only sees their
 * outcomes.
 */
module R2 {
  import opened Wrappers

  type Key = string
  type Bytes = seq<bv8>

  /** Header maps are keyed by lower-case names: the runtime's `Headers` object compares names case-insensitively. */
  type Headers = map<string, string>

  /** What the store keeps beside an object's bytes: its quoted ETag and the HTTP metadata `writeHttpMetadata` copies out. */
  datatype Meta = Meta(httpEtag: string, httpMetadata: Headers)

  datatype Obj = Obj(meta: Meta, body: Bytes)

  /** The three outcomes of a conditional, ranged read: `null`, an object without a body, an object with one. */
  datatype GetOutcome = Absent | Rejected(meta: Meta) | Found(meta: Meta, body: Bytes)

  /**
   * The store's evaluation of the headers it is handed as `onlyIf` and `range`:
   * `onlyIf` decides the conditional headers against the current object's metadata
   * (or its absence), `range` picks the bytes a `Range` header asks for, and `stamp`
   * is the metadata the store gives a newly written object.
   */
  datatype Oracle = Oracle(
    onlyIf: (Option<Meta>, Headers) -> bool,
    range: (Bytes, Headers) -> Bytes,
    stamp: (Key, Bytes, Headers) -> Meta)

  function Current(objects: map<Key, Obj>, key: Key): Option<Meta> {
    if key in objects then Some(objects[key].meta) else None
  }

  /** `get(key, {onlyIf, range})` on a store holding `objects`. */
  function Read(objects: map<Key, Obj>, key: Key, h: Headers, oracle: Oracle): GetOutcome {
    if key !in objects then Absent
    else if oracle.onlyIf(Some(objects[key].meta), h) then Found(objects[key].meta, oracle.range(objects[key].body, h))
    else Rejected(objects[key].meta)
  }

  /** The objects after `put(key, body, {onlyIf, httpMetadata})`: written only when the preconditions hold. */
  function Written(objects: map<Key, Obj>, key: Key, body: Bytes, h: Headers, oracle: Oracle): map<Key, Obj> {
    if oracle.onlyIf(Current(objects, key), h) then objects[key := Obj(oracle.stamp(key, body, h), body)]
    else objects
  }

  /** A bucket: a mutable map from keys to objects. */
  class Bucket {
    var objects: map<Key, Obj>
    const oracle: Oracle

    constructor (oracle: Oracle)
      ensures objects == map[] && this.oracle == oracle
    {
      objects := map[];
      this.oracle := oracle;
    }

    method Get(key: Key, h: Headers) returns (r: GetOutcome)
      ensures r.Absent? <==> key !in objects
      ensures key in objects ==> r.meta == objects[key].meta
      ensures r.Found? <==> key in objects && oracle.onlyIf(Some(objects[key].meta), h)
      ensures r.Found? ==> r.body == oracle.range(objects[key].body, h)
    {
      r := Read(objects, key, h, oracle);
    }

    /** Returns the stored object's metadata, or `None` (JavaScript `null`) when a precondition failed. */
    method Put(key: Key, body: Bytes, h: Headers) returns (r: Option<Meta>)
      modifies this`objects
      ensures objects == Written(old(objects), key, body, h, oracle)
      ensures r.Some? <==> oracle.onlyIf(Current(old(objects), key), h)
      ensures r.Some? ==> key in objects && objects[key] == Obj(r.value, body)
    {
      if oracle.onlyIf(Current(objects, key), h) {
        var meta := oracle.stamp(key, body, h);
        objects := objects[key := Obj(meta, body)];
        r := Some(meta);
      } else {
        r := None;
      }
    }

    method Delete(key: Key)
      modifies this`objects
      ensures objects == old(objects) - {key}
    {
      objects := objects - {key};
    }
  }
}
