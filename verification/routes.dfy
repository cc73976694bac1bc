/** The three request handlers under `app/api`: analyse a bookshelf photo,
    upload a photo, and check an access code. Each handler is a function from
    the facts of the request (and the outcomes of the backend calls it would
    make) to a status and a JSON body. The calls it makes are recorded in
    order, so that "returns before calling the backend" can be stated. */
module Routes {
  import opened Wrappers
  import opened Text
  import opened Js
  import opened MediaTypes
  import Validators
  import AnalysisParser
  import Recommendations
  import AffiliateLink

  /** What `formData.get('file')` gives: nothing, a text field, or a file. */
  datatype FormField = NoField | TextField(text: string) | FileField(file: Validators.WebFile)

  /** A call a handler makes to the storage or language-model backend. */
  datatype BackendCall =
    | UploadAndAnalyze(file: Validators.WebFile)
    | GenerateRecommendations(analysisText: string)
    | UploadPhoto(file: Validators.WebFile)

  /** The outcome of a backend call: its value, or a thrown error. */
  datatype Outcome<T> = Ok(value: T) | Threw

  /** What `uploadAndAnalyzeBooks` returns: the stored photo and the analysis text. */
  datatype ShelfAnalysis = ShelfAnalysis(photo: CosmicMedia, text: string)

  /** `BookAnalysis`: the photo, the parsed analysis and the raw text. */
  datatype BookAnalysis = BookAnalysis(
    photo: CosmicMedia,
    booksIdentified: seq<string>,
    genres: seq<string>,
    themes: seq<string>,
    readerProfile: string,
    rawAnalysis: string)

  /** The JSON bodies the handlers send. */
  datatype Body =
    | Failure(error: string)
    | Uploaded(photo: CosmicMedia)
    | Analysed(analysis: BookAnalysis, recommendations: seq<Recommendations.BookRecommendation>)
    | Access(success: bool, message: string)

  /** A response; a status left unset in the source is 200. */
  datatype Response = Response(status: nat, body: Body)

  /** A handler's response together with the backend calls it made, in order. */
  datatype Handled = Handled(response: Response, calls: seq<BackendCall>)

  const NoFileMessage := "No file provided"
  const NotImageMessage := "File must be an image"
  const TooLargeMessage := "File size must be less than 10MB"
  const AnalyzeFailedMessage := "Failed to analyze books. Please try again with a clearer photo of your bookshelf."
  const UploadFailedMessage := "Failed to upload photo"

  // ---------------------------------------------------------------------
  // The file checks both form handlers run
  // ---------------------------------------------------------------------

  /** How the checks end: the file passes, a 400 with a message, or a throw
      (a non-empty text field has no `type`, so `file.type.startsWith` fails). */
  datatype FileCheck = Accepted(file: Validators.WebFile) | Rejected(message: string) | Crashed

  /** Absence (an empty text field is falsy too), then the type, then the size. */
  function CheckFormFile(field: FormField): (c: FileCheck)
    ensures c.Accepted? <==> field.FileField? && Validators.ValidateImageFile(Some(field.file)).valid
    ensures c.Accepted? ==> c.file == field.file
    ensures c.Crashed? <==> field.TextField? && field.text != ""
    ensures c == Rejected(NoFileMessage) <==> field.NoField? || field == TextField("")
    ensures c == Rejected(NotImageMessage) <==> field.FileField? && !StartsWith(field.file.mimeType, "image/")
    ensures c == Rejected(TooLargeMessage) <==>
      field.FileField? && StartsWith(field.file.mimeType, "image/") && field.file.size > Validators.MaxImageSize
  {
    match field
    case NoField => Rejected(NoFileMessage)
    case TextField(t) => if t == "" then Rejected(NoFileMessage) else Crashed
    case FileField(f) =>
      if !StartsWith(f.mimeType, "image/") then Rejected(NotImageMessage)
      else if f.size > 10 * 1024 * 1024 then Rejected(TooLargeMessage)
      else Accepted(f)
  }

  /** The handlers and `validateImageFile` accept the same files and give
      the same missing-file and size messages; only the type message is
      shorter in the handlers. */
  lemma CheckAgreesWithValidator(f: Validators.WebFile)
    ensures CheckFormFile(FileField(f)).Accepted? == Validators.ValidateImageFile(Some(f)).valid
    ensures CheckFormFile(NoField) == Rejected(Validators.ValidateImageFile(None).error.value)
    ensures CheckFormFile(FileField(f)) == Rejected(TooLargeMessage) <==>
      Validators.ValidateImageFile(Some(f)).error == Some(Validators.TooLargeError)
    ensures CheckFormFile(FileField(f)) == Rejected(NotImageMessage) <==>
      Validators.ValidateImageFile(Some(f)).error == Some(Validators.NotImageError)
  {
  }

  /** The limit is inclusive: exactly 10 MiB with an image type passes. */
  lemma TenMebibytesAccepted(name: string, mimeType: string)
    requires StartsWith(mimeType, "image/")
    ensures CheckFormFile(FileField(Validators.WebFile(name, mimeType, 10485760))).Accepted?
    ensures CheckFormFile(FileField(Validators.WebFile(name, mimeType, 10485761))) == Rejected(TooLargeMessage)
  {
  }

  // ---------------------------------------------------------------------
  // POST /api/analyze-books
  // ---------------------------------------------------------------------

  /** Whether every recommendation's ISBN is a string: `generateAmazonLink`
      calls `isbn.replace`, which throws on any other value. */
  predicate IsbnsAreStrings(books: seq<Recommendations.BookRecommendation>) {
    forall i :: 0 <= i < |books| ==> books[i].isbn.Str?
  }

  /** `{ ...book, amazonUrl: generateAmazonLink(book.isbn) }` for every book;
      `None` when the link generation throws for one of them. */
  function Enrich(books: seq<Recommendations.BookRecommendation>, envTag: Option<string>)
    : (r: Option<seq<Recommendations.BookRecommendation>>)
    ensures r.Some? <==> IsbnsAreStrings(books)
    ensures r.Some? ==> |r.value| == |books| && forall i :: 0 <= i < |books| ==>
      r.value[i] == books[i].(amazonUrl := Str(AffiliateLink.AmazonLink(books[i].isbn.s, None, envTag)))
  {
    if IsbnsAreStrings(books) then
      Some(seq(|books|, i requires 0 <= i < |books| =>
        books[i].(amazonUrl := Str(AffiliateLink.AmazonLink(books[i].isbn.s, None, envTag)))))
    else None
  }

  /** The analysis object assembled from the photo, the parse and the raw text. */
  function Assemble(shelf: ShelfAnalysis): (a: BookAnalysis)
    ensures a.photo == shelf.photo && a.rawAnalysis == shelf.text
    ensures var p := AnalysisParser.ParseAnalysisText(shelf.text);
      && a.booksIdentified == p.booksIdentified && a.genres == p.genres
      && a.themes == p.themes && a.readerProfile == p.readerProfile
  {
    var p := AnalysisParser.ParseAnalysisText(shelf.text);
    BookAnalysis(shelf.photo, p.booksIdentified, p.genres, p.themes, p.readerProfile, shelf.text)
  }

  /** `POST /api/analyze-books`. `form` is `None` when the body cannot be read
      as a form; `shelf` is the outcome of `uploadAndAnalyzeBooks`; `reply` (the
      model's answer to the recommendation prompt built from the analysis
      text) and `parseJson` feed `generateBookRecommendations`; `envTag` is the
      configured affiliate tag. */
  function AnalyzeBooks(form: Option<FormField>, shelf: Outcome<ShelfAnalysis>, reply: Option<string>,
                        parseJson: string -> Option<JsValue>, envTag: Option<string>): (h: Handled)
    ensures h.response.status in {200, 400, 500}
    ensures h.response.status == 400 <==> form.Some? && CheckFormFile(form.value).Rejected?
    ensures h.response.status == 400 ==> h.calls == [] && h.response.body == Failure(CheckFormFile(form.value).message)
    ensures h.response.status == 500 ==> h.response.body == Failure(AnalyzeFailedMessage)
    ensures h.calls != [] ==>
      (form.Some? && CheckFormFile(form.value).Accepted? && h.calls[0] == UploadAndAnalyze(CheckFormFile(form.value).file))
    ensures h.response.status == 200 <==>
      && form.Some? && CheckFormFile(form.value).Accepted? && shelf.Ok?
      && IsbnsAreStrings(Recommendations.GenerateBookRecommendations(reply, parseJson))
    ensures h.response.status == 200 ==>
      && h.calls == [UploadAndAnalyze(form.value.file), GenerateRecommendations(shelf.value.text)]
      && h.response.body.Analysed?
      && h.response.body.analysis == Assemble(shelf.value)
      && Some(h.response.body.recommendations) ==
         Enrich(Recommendations.GenerateBookRecommendations(reply, parseJson), envTag)
  {
    if form.None? then Handled(Response(500, Failure(AnalyzeFailedMessage)), [])
    else
      match CheckFormFile(form.value)
      case Rejected(message) => Handled(Response(400, Failure(message)), [])
      case Crashed => Handled(Response(500, Failure(AnalyzeFailedMessage)), [])
      case Accepted(file) =>
        match shelf
        case Threw => Handled(Response(500, Failure(AnalyzeFailedMessage)), [UploadAndAnalyze(file)])
        case Ok(s) =>
          var books := Recommendations.GenerateBookRecommendations(reply, parseJson);
          var calls := [UploadAndAnalyze(file), GenerateRecommendations(s.text)];
          match Enrich(books, envTag)
          case None => Handled(Response(500, Failure(AnalyzeFailedMessage)), calls)
          case Some(linked) => Handled(Response(200, Analysed(Assemble(s), linked)), calls)
  }

  /** A successful analysis answers with three complete recommendations, each
      linked to the store by its ISBN, and with non-empty parsed lists. */
  lemma AnalysisSuccessShape(form: Option<FormField>, shelf: Outcome<ShelfAnalysis>, reply: Option<string>,
                             parseJson: string -> Option<JsValue>, envTag: Option<string>)
    requires AnalyzeBooks(form, shelf, reply, parseJson, envTag).response.status == 200
    ensures var body := AnalyzeBooks(form, shelf, reply, parseJson, envTag).response.body;
      && |body.recommendations| == 3
      && (forall i :: 0 <= i < 3 ==> Recommendations.Complete(body.recommendations[i]))
      && (forall i :: 0 <= i < 3 ==>
            && body.recommendations[i].amazonUrl.Str?
            && StartsWith(body.recommendations[i].amazonUrl.s, AffiliateLink.StorePrefix))
      && |body.analysis.booksIdentified| > 0 && |body.analysis.genres| > 0 && |body.analysis.themes| > 0
      && body.analysis.readerProfile != ""
  {
    var books := Recommendations.GenerateBookRecommendations(reply, parseJson);
    EnrichedComplete(books, envTag);
  }

  /** Linking complete records keeps them complete and gives each a store link. */
  lemma EnrichedComplete(books: seq<Recommendations.BookRecommendation>, envTag: Option<string>)
    requires IsbnsAreStrings(books)
    requires forall i :: 0 <= i < |books| ==> Recommendations.Complete(books[i])
    ensures var r := Enrich(books, envTag).value;
      && |r| == |books|
      && (forall i :: 0 <= i < |r| ==> Recommendations.Complete(r[i]))
      && (forall i :: 0 <= i < |r| ==> r[i].amazonUrl.Str? && StartsWith(r[i].amazonUrl.s, AffiliateLink.StorePrefix))
  {
    var r := Enrich(books, envTag).value;
    forall i | 0 <= i < |r| ensures Recommendations.Complete(r[i]) {
      assert r[i] == books[i].(amazonUrl := Str(AffiliateLink.AmazonLink(books[i].isbn.s, None, envTag)));
    }
  }

  /** A reply whose record carries its ISBN as a number passes the
      backfilling (a non-zero number is truthy) and then makes the link
      generation throw: the request fails as a whole. */
  lemma NumericIsbnFailsAnalysis(file: Validators.WebFile, s: ShelfAnalysis, reply: string,
                                 parseJson: string -> Option<JsValue>, envTag: Option<string>)
    requires CheckFormFile(FileField(file)).Accepted?
    requires parseJson(Recommendations.ExtractJson(reply)) ==
      Some(Obj(map["recommendations" := Arr([Obj(map["isbn" := Num(9780000000000)])])]))
    ensures AnalyzeBooks(Some(FileField(file)), Ok(s), Some(reply), parseJson, envTag).response ==
      Response(500, Failure(AnalyzeFailedMessage))
  {
    var rec := Obj(map["isbn" := Num(9780000000000)]);
    var parsed := Obj(map["recommendations" := Arr([rec])]);
    assert Get(parsed, "recommendations") == Arr([rec]);
    assert Recommendations.FirstThreeReadable([rec]);
    var books := Recommendations.GenerateBookRecommendations(Some(reply), parseJson);
    assert books == Recommendations.Normalise([rec]);
    assert Get(rec, "isbn") == Num(9780000000000);
    assert books[0] == Recommendations.Backfill(rec);
    assert !IsbnsAreStrings(books);
  }

  /** Each link in a successful answer reads back as the recommendation's
      ISBN without hyphens and the effective tag. */
  lemma EnrichedLinksRoundTrip(books: seq<Recommendations.BookRecommendation>, envTag: Option<string>, i: nat)
    requires IsbnsAreStrings(books) && i < |books| && '?' !in books[i].isbn.s
    ensures var r := Enrich(books, envTag).value;
      && r[i].title == books[i].title && r[i].isbn == books[i].isbn
      && r[i].amazonUrl.Str?
      && AffiliateLink.ParseLink(r[i].amazonUrl.s) ==
         Some((Without(books[i].isbn.s, AffiliateLink.IsDash), AffiliateLink.PickTag(None, envTag)))
  {
    AffiliateLink.LinkRoundTrip(books[i].isbn.s, None, envTag);
  }

  // ---------------------------------------------------------------------
  // POST /api/upload
  // ---------------------------------------------------------------------

  /** `POST /api/upload`; `stored` is the outcome of `uploadPhoto`. */
  function Upload(form: Option<FormField>, stored: Outcome<CosmicMedia>): (h: Handled)
    ensures h.response.status in {200, 400, 500}
    ensures h.response.status == 400 <==> form.Some? && CheckFormFile(form.value).Rejected?
    ensures h.response.status == 400 ==> h.calls == [] && h.response.body == Failure(CheckFormFile(form.value).message)
    ensures h.response.status == 500 ==> h.response.body == Failure(UploadFailedMessage)
    ensures h.calls != [] ==>
      (form.Some? && CheckFormFile(form.value).Accepted? && h.calls == [UploadPhoto(CheckFormFile(form.value).file)])
    ensures h.response.status == 200 <==> form.Some? && CheckFormFile(form.value).Accepted? && stored.Ok?
    ensures h.response.status == 200 ==> h.response.body == Uploaded(stored.value)
  {
    if form.None? then Handled(Response(500, Failure(UploadFailedMessage)), [])
    else
      match CheckFormFile(form.value)
      case Rejected(message) => Handled(Response(400, Failure(message)), [])
      case Crashed => Handled(Response(500, Failure(UploadFailedMessage)), [])
      case Accepted(file) =>
        match stored
        case Threw => Handled(Response(500, Failure(UploadFailedMessage)), [UploadPhoto(file)])
        case Ok(photo) => Handled(Response(200, Uploaded(photo)), [UploadPhoto(file)])
  }

  /** An accepted file is stored exactly once, whatever the outcome. */
  lemma AcceptedFileStoredOnce(f: Validators.WebFile, stored: Outcome<CosmicMedia>)
    requires Validators.ValidateImageFile(Some(f)).valid
    ensures Upload(Some(FileField(f)), stored).calls == [UploadPhoto(f)]
  {
    CheckAgreesWithValidator(f);
  }

  // ---------------------------------------------------------------------
  // POST /api/verify-access
  // ---------------------------------------------------------------------

  /** `POST /api/verify-access`. `body` is the parsed JSON body (`None` when it
      does not parse); `secret` is the `ACCESS_CODE` setting. Destructuring
      `null` throws, which lands in the 500 branch. */
  function VerifyAccess(body: Option<JsValue>, secret: Option<string>): (r: Response)
    ensures r.body.Access?
    ensures body.None? || !Readable(body.value) ==>
      r == Response(500, Access(false, "Internal server error"))
    ensures body.Some? && Readable(body.value) && !Truthy(Get(body.value, "accessCode")) ==>
      r == Response(400, Access(false, "Access code is required"))
    ensures (body.Some? && Readable(body.value) && Truthy(Get(body.value, "accessCode"))
             && !Given(secret)) ==> r == Response(500, Access(false, "Server configuration error"))
    ensures r.body.success <==>
      body.Some? && Given(secret) && Get(body.value, "accessCode") == Str(secret.value)
    ensures r.body.success ==> r == Response(200, Access(true, "Access granted"))
    ensures !r.body.success && r.status == 401 <==>
      body.Some? && Given(secret) && Truthy(Get(body.value, "accessCode"))
      && Get(body.value, "accessCode") != Str(secret.value)
  {
    match body
    case None => Response(500, Access(false, "Internal server error"))
    case Some(v) =>
      if !Readable(v) then Response(500, Access(false, "Internal server error"))
      else
        var code := Get(v, "accessCode");
        if !Truthy(code) then Response(400, Access(false, "Access code is required"))
        else if !Given(secret) then Response(500, Access(false, "Server configuration error"))
        else if StrictEqualsString(code, secret.value) then Response(200, Access(true, "Access granted"))
        else Response(401, Access(false, "Invalid access code"))
  }

  /** Only the configured string itself opens the gate: a number with the
      same digits is refused. */
  lemma NumericCodeRefused(n: int, secret: string)
    requires n != 0 && secret != ""
    ensures VerifyAccess(Some(Obj(map["accessCode" := Num(n)])), Some(secret)).status == 401
  {
  }
}
