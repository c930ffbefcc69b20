/** The `cleanIds` schema plugin (recipe-api/src/config/cleanIds.js): how a
    stored document is turned into the plain object a response carries. */
module CleanIds {
  import opened Js

  const IdKey := "id"
  const RawIdKey := "_id"
  const VersionKey := "__v"

  /** The object `transform` leaves behind: `id` holds the former `_id`,
      neither `_id` nor `__v` survives, and every other key keeps its value. */
  function Transformed(m: map<string, JsValue>): (r: map<string, JsValue>)
    ensures r.Keys == m.Keys - {RawIdKey, VersionKey} + {IdKey}
    ensures r[IdKey] == Get(m, RawIdKey)
    ensures RawIdKey !in r && VersionKey !in r
    ensures forall k :: k in m && k !in {IdKey, RawIdKey, VersionKey} ==> r[k] == m[k]
  {
    ((m - {RawIdKey}) - {VersionKey})[IdKey := Get(m, RawIdKey)]
  }

  /** `transform(doc, ret)`, which rewrites `ret` in place and returns it. */
  method Transform(ret: JsObject)
    modifies ret
    ensures ret.props == Transformed(old(ret.props))
  {
    ret.Assign(IdKey, ret.Read(RawIdKey));
    ret.Delete(RawIdKey);
    ret.Delete(VersionKey);
  }

  /** `transform` is not idempotent: the second run overwrites `id` with the
      `_id` the first run deleted. */
  lemma TransformNotIdempotent(m: map<string, JsValue>)
    requires Get(m, RawIdKey) != Undefined
    ensures Transformed(Transformed(m)) != Transformed(m)
    ensures Transformed(Transformed(m))[IdKey] == Undefined
  {
    assert Transformed(Transformed(m))[IdKey] == Get(Transformed(m), RawIdKey);
    assert Transformed(m)[IdKey] != Undefined;
  }

  /** The `toObject` / `toJSON` output of a document: with `virtuals` on, the
      `id` getter first adds `_id?.toString()` under `id`, then `transform` runs. */
  function Render(doc: map<string, JsValue>, virtualId: JsValue): map<string, JsValue> {
    Transformed(doc[IdKey := virtualId])
  }

  /** The `id` virtual never shows in the output: `transform` overwrites it with
      the raw `_id`, so rendering is `transform` alone, for `toObject` and
      `toJSON` alike, which install the same options. */
  lemma RenderIsTransform(doc: map<string, JsValue>, virtualId: JsValue)
    ensures Render(doc, virtualId) == Transformed(doc)
  {
    var a := Render(doc, virtualId);
    var b := Transformed(doc);
    assert a.Keys == b.Keys;
    assert forall k :: k in a ==> a[k] == b[k];
  }
}
