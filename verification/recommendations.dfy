/** The part of `generateBookRecommendations` (`lib/cosmic.ts`) that runs after
    the language model has answered: cut the JSON object out of the reply,
    check for a `recommendations` array, fit it to exactly three records,
    backfill missing fields, and fall back to a fixed list on any failure.
    The model's reply and `JSON.parse` are parameters; the parsed reply is a
    JavaScript value, so a record or a field can be of any JSON type. */
module Recommendations {
  import opened Wrappers
  import opened Text
  import opened Js

  /** A recommendation as returned to the caller: the six fields of a reply
      record after backfilling. A field keeps whatever JSON value the reply
      gave it, so a truthy number stays a number. */
  datatype BookRecommendation = BookRecommendation(
    title: JsValue,
    author: JsValue,
    genre: JsValue,
    reasoning: JsValue,
    isbn: JsValue,
    amazonUrl: JsValue)

  /** What backfilling guarantees: every field a reader sees is truthy, and
      the link is a truthy value or the empty string. */
  predicate Complete(b: BookRecommendation) {
    && Truthy(b.title) && Truthy(b.author) && Truthy(b.genre) && Truthy(b.reasoning) && Truthy(b.isbn)
    && (Truthy(b.amazonUrl) || b.amazonUrl == Str(""))
  }

  // ---------------------------------------------------------------------
  // Cutting the JSON out of the reply: `/\{[\s\S]*\}/`
  // ---------------------------------------------------------------------

  /** Whether some `{` comes before some `}`, which is when the pattern matches. */
  predicate HasBracePair(text: string) {
    exists i, j :: 0 <= i < j < |text| && text[i] == '{' && text[j] == '}'
  }

  /** The span the greedy pattern matches: from the first `{` to the last `}`. */
  function BraceSpan(text: string): (r: Option<(nat, nat)>)
    ensures r.None? <==> !HasBracePair(text)
    ensures r.Some? ==> var (i, j) := r.value;
      && i < j < |text| && text[i] == '{' && text[j] == '}'
      && (forall k :: 0 <= k < i ==> text[k] != '{')
      && (forall k :: j < k < |text| ==> text[k] != '}')
  {
    var first := IndexOf(text, '{');
    var last := LastIndexOf(text, '}');
    if first.Some? && last.Some? && first.value < last.value then
      Some((first.value, last.value))
    else
      assert !HasBracePair(text) by {
        forall i, j | 0 <= i < j < |text| && text[i] == '{' ensures text[j] != '}' {
          assert first.Some? && first.value <= i;
        }
      }
      None
  }

  /** `jsonMatch ? jsonMatch[0] : text`. */
  function ExtractJson(text: string): (json: string)
    ensures !HasBracePair(text) ==> json == text
    ensures HasBracePair(text) ==> 2 <= |json| <= |text| && json[0] == '{' && json[|json| - 1] == '}'
    ensures HasBracePair(text) ==>
      && IndexOf(text, '{').Some? && LastIndexOf(text, '}').Some?
      && IndexOf(text, '{').value < LastIndexOf(text, '}').value
      && json == text[IndexOf(text, '{').value..LastIndexOf(text, '}').value + 1]
  {
    match BraceSpan(text)
    case None => text
    case Some((i, j)) => text[i..j + 1]
  }

  /** Text around a single object is discarded: the object is what is parsed. */
  lemma ObjectCutOut(before: string, obj: string, after: string)
    requires '{' !in before && '}' !in after
    requires |obj| >= 2 && obj[0] == '{' && obj[|obj| - 1] == '}'
    ensures ExtractJson(before + obj + after) == obj
  {
    var text := before + obj + after;
    var i, j := |before|, |before| + |obj| - 1;
    assert text[i] == '{' && text[j] == '}';
    assert forall k :: 0 <= k < i ==> text[k] == before[k];
    assert forall k :: j < k < |text| ==> text[k] == after[k - j - 1];
    var span := BraceSpan(text);
    assert span.Some?;
    assert span.value == (i, j);
    assert text[i..j + 1] == obj;
  }

  // ---------------------------------------------------------------------
  // Fitting and backfilling
  // ---------------------------------------------------------------------

  /** The record pushed while there are fewer than three. */
  const Placeholder := ToRaw(PlaceholderBook)

  /** The placeholder's fields, as a recommendation. */
  const PlaceholderBook := BookRecommendation(Str("The Book You Need"), Str("Great Author"),
    Str("Fiction"), Str("A wonderful read that matches your interests."), Str("9781234567890"), Str(""))

  /** The `while (length < 3) push(placeholder)` loop. */
  function Pad(recs: seq<JsValue>): (r: seq<JsValue>)
    ensures |r| == if |recs| < 3 then 3 else |recs|
    ensures r[..|recs|] == recs
    ensures forall i :: |recs| <= i < |r| ==> r[i] == Placeholder
    decreases 3 - |recs|
  {
    if |recs| >= 3 then recs
    else
      var r := Pad(recs + [Placeholder]);
      assert r[..|recs|] == r[..|recs| + 1][..|recs|];
      r
  }

  /** `if (length !== 3) { pad; slice(0, 3) }`: exactly three records, the
      first three of the input in order, then placeholders. */
  function FitToThree(recs: seq<JsValue>): (r: seq<JsValue>)
    ensures |r| == 3
    ensures forall i :: 0 <= i < 3 && i < |recs| ==> r[i] == recs[i]
    ensures forall i :: |recs| <= i < 3 ==> r[i] == Placeholder
  {
    if |recs| == 3 then recs
    else
      var padded := Pad(recs);
      assert forall i :: 0 <= i < |recs| ==> padded[i] == padded[..|recs|][i];
      padded[..3]
  }

  /** `value || fallback`: a truthy value is kept, anything else gives the fallback. */
  function Or(v: JsValue, fallback: string): (r: JsValue)
    ensures Truthy(v) ==> r == v
    ensures !Truthy(v) ==> r == Str(fallback)
  {
    if Truthy(v) then v else Str(fallback)
  }

  /** The `map` that replaces every falsy field by its default. */
  function Backfill(rec: JsValue): (b: BookRecommendation)
    ensures Complete(b)
    ensures Truthy(Get(rec, "title")) ==> b.title == Get(rec, "title")
    ensures Truthy(Get(rec, "author")) ==> b.author == Get(rec, "author")
    ensures Truthy(Get(rec, "genre")) ==> b.genre == Get(rec, "genre")
    ensures Truthy(Get(rec, "reasoning")) ==> b.reasoning == Get(rec, "reasoning")
    ensures Truthy(Get(rec, "isbn")) ==> b.isbn == Get(rec, "isbn")
    ensures Truthy(Get(rec, "amazonUrl")) ==> b.amazonUrl == Get(rec, "amazonUrl")
    ensures !Truthy(Get(rec, "title")) ==> b.title == Str("Unknown Title")
    ensures !Truthy(Get(rec, "author")) ==> b.author == Str("Unknown Author")
    ensures !Truthy(Get(rec, "genre")) ==> b.genre == Str("General")
    ensures !Truthy(Get(rec, "reasoning")) ==> b.reasoning == Str("A great book that matches your reading preferences.")
    ensures !Truthy(Get(rec, "isbn")) ==> b.isbn == Str("9781234567890")
    ensures !Truthy(Get(rec, "amazonUrl")) ==> b.amazonUrl == Str("")
  {
    BookRecommendation(
      Or(Get(rec, "title"), "Unknown Title"),
      Or(Get(rec, "author"), "Unknown Author"),
      Or(Get(rec, "genre"), "General"),
      Or(Get(rec, "reasoning"), "A great book that matches your reading preferences."),
      Or(Get(rec, "isbn"), "9781234567890"),
      Or(Get(rec, "amazonUrl"), ""))
  }

  /** A record as the reply would carry it, every field present. */
  function ToRaw(b: BookRecommendation): JsValue {
    Obj(map[
      "title" := b.title,
      "author" := b.author,
      "genre" := b.genre,
      "reasoning" := b.reasoning,
      "isbn" := b.isbn,
      "amazonUrl" := b.amazonUrl])
  }

  function ToRaws(bs: seq<BookRecommendation>): (rs: seq<JsValue>)
    ensures |rs| == |bs| && forall i :: 0 <= i < |bs| ==> rs[i] == ToRaw(bs[i])
  {
    seq(|bs|, i requires 0 <= i < |bs| => ToRaw(bs[i]))
  }

  /** A complete record survives backfilling unchanged. */
  lemma BackfillKeepsComplete(b: BookRecommendation)
    requires Complete(b)
    ensures Backfill(ToRaw(b)) == b
  {
  }

  /** The normalised list of a parsed `recommendations` array. */
  function Normalise(recs: seq<JsValue>): (r: seq<BookRecommendation>)
    ensures |r| == 3
    ensures forall i :: 0 <= i < 3 ==> Complete(r[i])
    ensures forall i :: 0 <= i < 3 ==> r[i] == Backfill(if i < |recs| then recs[i] else Placeholder)
  {
    var fitted := FitToThree(recs);
    seq(3, i requires 0 <= i < 3 => Backfill(fitted[i]))
  }

  /** Normalising is idempotent: a normalised list fed back through the
      normaliser comes out unchanged. */
  lemma NormaliseIdempotent(recs: seq<JsValue>)
    ensures Normalise(ToRaws(Normalise(recs))) == Normalise(recs)
  {
    var r := Normalise(recs);
    var again := Normalise(ToRaws(r));
    forall i | 0 <= i < 3 ensures again[i] == r[i] {
      BackfillKeepsComplete(r[i]);
    }
  }

  /** Three complete records are returned as they are. */
  lemma ThreeCompleteKept(bs: seq<BookRecommendation>)
    requires |bs| == 3 && forall i :: 0 <= i < 3 ==> Complete(bs[i])
    ensures Normalise(ToRaws(bs)) == bs
  {
    var r := Normalise(ToRaws(bs));
    forall i | 0 <= i < 3 ensures r[i] == bs[i] {
      BackfillKeepsComplete(bs[i]);
    }
  }

  /** Backfilling the placeholder changes none of its fields. */
  lemma PlaceholderBackfilled()
    ensures Backfill(Placeholder) == PlaceholderBook
  {
    assert Complete(PlaceholderBook);
    BackfillKeepsComplete(PlaceholderBook);
  }

  /** An empty array gives three backfilled placeholders. */
  lemma EmptyArrayGivesPlaceholders()
    ensures Normalise([]) == [PlaceholderBook, PlaceholderBook, PlaceholderBook]
  {
    PlaceholderBackfilled();
    var r := Normalise([]);
    assert r[0] == Backfill(Placeholder) && r[1] == Backfill(Placeholder) && r[2] == Backfill(Placeholder);
  }

  // ---------------------------------------------------------------------
  // The whole post-processing step
  // ---------------------------------------------------------------------

  /** The list returned from either `catch` block. */
  const FallbackList := [
    BookRecommendation(Str("The Midnight Library"), Str("Matt Haig"), Str("Contemporary Fiction"),
      Str("A thought-provoking novel about choices and possibilities that appeals to readers who enjoy literary fiction with depth."),
      Str("9780525559474"), Str("")),
    BookRecommendation(Str("Atomic Habits"), Str("James Clear"), Str("Self-Help"),
      Str("A practical guide to building better habits, perfect for readers interested in personal development and productivity."),
      Str("9780735211292"), Str("")),
    BookRecommendation(Str("The Seven Husbands of Evelyn Hugo"), Str("Taylor Jenkins Reid"), Str("Historical Fiction"),
      Str("A captivating story with rich characters and emotional depth that appeals to readers who enjoy character-driven narratives."),
      Str("9781501161933"), Str(""))]

  lemma FallbackComplete()
    ensures |FallbackList| == 3 && forall i :: 0 <= i < 3 ==> Complete(FallbackList[i])
  {
    assert Complete(FallbackList[0]) && Complete(FallbackList[1]) && Complete(FallbackList[2]);
  }

  /** Whether the records the backfilling `map` reads can be read: none of
      the first three is `null` (a JSON array holds no `undefined`). */
  predicate FirstThreeReadable(recs: seq<JsValue>) {
    forall i :: 0 <= i < 3 && i < |recs| ==> Readable(recs[i])
  }

  /** The result for a parse outcome. `None` is a `JSON.parse` failure;
      reading `recommendations` off `null` throws; a value that is not an
      array fails the structure check; a `null` record makes the backfilling
      `map` throw. Each of these falls back. */
  function FromParsed(parsed: Option<JsValue>): (r: seq<BookRecommendation>)
    ensures |r| == 3 && forall i :: 0 <= i < 3 ==> Complete(r[i])
    ensures parsed.None? || !Readable(parsed.value) || !Get(parsed.value, "recommendations").Arr? ==> r == FallbackList
    ensures parsed.Some? && Readable(parsed.value) && Get(parsed.value, "recommendations").Arr? ==>
      var recs := Get(parsed.value, "recommendations").items;
      r == if FirstThreeReadable(recs) then Normalise(recs) else FallbackList
  {
    FallbackComplete();
    match parsed
    case None => FallbackList
    case Some(v) =>
      if !Readable(v) then FallbackList
      else
        match Get(v, "recommendations")
        case Arr(recs) => if FirstThreeReadable(recs) then Normalise(recs) else FallbackList
        case _ => FallbackList
  }

  /** `generateBookRecommendations` after the model call: `reply` is `None`
      when the call threw or produced no text; `parseJson` is `JSON.parse`.
      Always three records with their reader-facing fields filled in. */
  function GenerateBookRecommendations(reply: Option<string>, parseJson: string -> Option<JsValue>): (r: seq<BookRecommendation>)
    ensures |r| == 3 && forall i :: 0 <= i < 3 ==> Complete(r[i])
    ensures reply.None? ==> r == FallbackList
  {
    match reply
    case None => FromParsed(None)
    case Some(text) => FromParsed(parseJson(ExtractJson(text)))
  }

  /** When the reply holds an array whose first records can be read, the
      result is those records in order, backfilled, then backfilled
      placeholders up to three. */
  lemma ParsedArrayKept(reply: string, parseJson: string -> Option<JsValue>, recs: seq<JsValue>)
    requires parseJson(ExtractJson(reply)).Some?
    requires Get(parseJson(ExtractJson(reply)).value, "recommendations") == Arr(recs)
    requires FirstThreeReadable(recs)
    ensures var r := GenerateBookRecommendations(Some(reply), parseJson);
      && (forall i :: 0 <= i < 3 && i < |recs| ==> r[i] == Backfill(recs[i]))
      && (forall i :: |recs| <= i < 3 ==> r[i] == Backfill(Placeholder))
  {
  }

  /** Any reply that does not parse to an object holding an array falls back. */
  lemma UnusableReplyFallsBack(reply: string, parseJson: string -> Option<JsValue>)
    requires parseJson(ExtractJson(reply)).None? || !Get(parseJson(ExtractJson(reply)).value, "recommendations").Arr?
    ensures GenerateBookRecommendations(Some(reply), parseJson) == FallbackList
  {
  }

  /** A `null` among the first three records falls back as well. */
  lemma NullRecordFallsBack(reply: string, parseJson: string -> Option<JsValue>, recs: seq<JsValue>, k: nat)
    requires parseJson(ExtractJson(reply)).Some?
    requires Get(parseJson(ExtractJson(reply)).value, "recommendations") == Arr(recs)
    requires k < 3 && k < |recs| && recs[k] == Null
    ensures GenerateBookRecommendations(Some(reply), parseJson) == FallbackList
  {
  }
}
