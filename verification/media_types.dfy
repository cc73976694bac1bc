/** The media record the storage backend returns, the lightbox direction type,
    and the two runtime type guards of `types.ts`. */
module MediaTypes {
  import opened Wrappers
  import opened Js

  /** A stored media object: owned by the backend, only ever read here. */
  datatype CosmicMedia = CosmicMedia(
    id: string,
    name: string,
    originalName: string,
    size: nat,
    mimeType: string,
    bucket: string,
    url: string,
    imgixUrl: string,
    createdAt: string,
    modifiedAt: string,
    folder: Option<string>)

  /** The argument of the lightbox's `onNavigate` callback: `'prev' | 'next'`. */
  datatype Direction = Prev | Next

  /** The JSON form in which the backend hands a media object over. */
  function ToJs(m: CosmicMedia): JsValue {
    var fields := map[
      "id" := Str(m.id), "name" := Str(m.name), "original_name" := Str(m.originalName),
      "size" := Num(m.size), "type" := Str(m.mimeType), "bucket" := Str(m.bucket),
      "url" := Str(m.url), "imgix_url" := Str(m.imgixUrl),
      "created_at" := Str(m.createdAt), "modified_at" := Str(m.modifiedAt)];
    match m.folder
    case Some(f) => Obj(fields["folder" := Str(f)])
    case None => Obj(fields)
  }

  /** `isCosmicMedia`: the value is truthy and its `id` and `url` are strings.
      Only objects can pass, and no other field is looked at. */
  predicate IsCosmicMedia(v: JsValue)
    ensures IsCosmicMedia(v) <==>
      v.Obj? && "id" in v.fields && v.fields["id"].Str? && "url" in v.fields && v.fields["url"].Str?
  {
    Truthy(v) && IsString(Get(v, "id")) && IsString(Get(v, "url"))
  }

  /** `arr.every(isCosmicMedia)`. */
  predicate EveryMedia(items: seq<JsValue>)
    ensures EveryMedia(items) <==> forall i :: 0 <= i < |items| ==> IsCosmicMedia(items[i])
    decreases |items|
  {
    |items| == 0 || (IsCosmicMedia(items[0]) && EveryMedia(items[1..]))
  }

  /** `isCosmicMediaArray`: an array all of whose elements pass `isCosmicMedia`;
      never true of a non-array, always true of the empty array. */
  predicate IsCosmicMediaArray(v: JsValue)
    ensures IsCosmicMediaArray(v) <==> v.Arr? && forall i :: 0 <= i < |v.items| ==> IsCosmicMedia(v.items[i])
  {
    v.Arr? && EveryMedia(v.items)
  }

  /** Every media object the backend encodes passes the guard. */
  lemma EncodedMediaPasses(m: CosmicMedia)
    ensures IsCosmicMedia(ToJs(m))
  {
  }

  /** The guard on arrays is compositional: a concatenation passes exactly
      when both parts do. */
  lemma {:induction false} MediaArrayConcat(a: seq<JsValue>, b: seq<JsValue>)
    ensures IsCosmicMediaArray(Arr(a + b)) <==> IsCosmicMediaArray(Arr(a)) && IsCosmicMediaArray(Arr(b))
  {
    if IsCosmicMediaArray(Arr(a)) && IsCosmicMediaArray(Arr(b)) {
      forall i | 0 <= i < |a + b| ensures IsCosmicMedia((a + b)[i]) {
        if i < |a| {
          assert (a + b)[i] == a[i];
        } else {
          assert (a + b)[i] == b[i - |a|];
        }
      }
    }
    if IsCosmicMediaArray(Arr(a + b)) {
      forall i | 0 <= i < |b| ensures IsCosmicMedia(b[i]) {
        assert (a + b)[|a| + i] == b[i];
      }
      forall i | 0 <= i < |a| ensures IsCosmicMedia(a[i]) {
        assert (a + b)[i] == a[i];
      }
    }
  }

  /** A list of media objects, encoded, passes the array guard. */
  lemma EncodedMediaArrayPasses(ms: seq<CosmicMedia>)
    ensures IsCosmicMediaArray(Arr(seq(|ms|, i requires 0 <= i < |ms| => ToJs(ms[i]))))
  {
    var items := seq(|ms|, i requires 0 <= i < |ms| => ToJs(ms[i]));
    forall i | 0 <= i < |items| ensures IsCosmicMedia(items[i]) {
      EncodedMediaPasses(ms[i]);
    }
  }
}
