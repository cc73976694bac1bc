# Bookshelf recommendations and photo gallery: a Dafny model of the core

The application is a Next.js photo gallery with a "bookshelf" feature.
A visitor uploads a photo of a bookshelf. A language model describes the shelf
in free text, the server parses that text into sections, asks for three book
recommendations as JSON, normalises the reply, and attaches a store affiliate
link to each book. A small access-code gate protects the feature. The gallery
page shows the photos in a lightbox that can be driven with the keyboard.

This project models the decision and string logic behind that flow as pure
Dafny functions over immutable datatypes, and proves what the code promises:

- `text.dfy` (`Text`): ASCII whitespace trimming, upper-casing, splitting on a
  character, and character removal. These are the string primitives the
  source uses.
- `js.dfy` (`Js`): JavaScript values, truthiness and property access. This is
  enough to state the runtime guards and the access-code check.
- `media_types.dfy` (`MediaTypes`): the stored media object and the
  `isCosmicMedia` and `isCosmicMediaArray` guards of `types.ts`.
- `validators.dfy` (`Validators`): `validateImageFile`, the ISBN-10/ISBN-13
  format screen, `isNonEmptyString` and `isNonEmptyArray`.
- `retry.dfy` (`Retry`): `withRetry` with its default options. A run is a
  recursive function over an oracle that gives the outcome of the k-th call.
  It reports the waits instead of sleeping. `WithRetryLoop` is the source's
  `for` loop, proved to agree with that function.
- `analysis_parser.dfy` (`AnalysisParser`): `parseAnalysisText`, the
  line-by-line section state machine over the model's shelf description. It
  is proved equal to a declarative reference account of each section.
- `recommendations.dfy` (`Recommendations`): the part of
  `generateBookRecommendations` after the model call. It covers JSON
  extraction, the test for the `recommendations` array, padding and
  truncation to three, backfilling of missing fields, and the fixed fallback
  list.
- `affiliate_link.dfy` (`AffiliateLink`): `generateAmazonLink`, with a parser
  for the links it builds.
- `routes.dfy` (`Routes`): the three `POST` handlers (`analyze-books`,
  `upload`, `verify-access`). Each is a function from the request facts and
  the backend outcomes to a status, a JSON body and the backend calls made, in
  order.
- `photo_modal.dfy` (`PhotoModal`) and `photo_gallery.dfy` (`PhotoGallery`):
  the lightbox's key dispatch and render guard, and the gallery's handlers as
  transitions on a state of photos, selected index and upload-panel flag.

External effects are parameters:

- The language-model reply is `Option<string>`, with `None` when the call throws.
- `JSON.parse` is a function `string -> Option<JsValue>`, with `None` when it throws.
- The backend outcomes are `Outcome` values.
- The environment values `ACCESS_CODE` and `AMAZON_AFFILIATE_TAG` are `Option<string>`.

Facts about the code that a reader might not expect:

- `generateBookRecommendations` always returns exactly three records. Each
  record has the six fields title, author, genre, reasoning, isbn and
  amazonUrl, and no others.
- `generateAmazonLink` removes hyphens only. It does not validate the ISBN
  and never builds a search URL.
- `parseAnalysisText` knows exactly four headers: books identified, genres,
  themes and reader profile. Every other line goes to the current section or
  is dropped.
- The analyze-books handler refuses a missing, wrongly typed or oversized
  photo with one of three 400 answers. After that, every thrown error gives
  the same 500 response, and no partial result is sent.
- The handlers' type-error message is "File must be an image". The
  validator's message is the longer "File must be an image (JPEG, PNG, GIF,
  WebP)". The two checks accept the same files (`Routes.CheckAgreesWithValidator`).

## Model

| member | source | states |
|---|---|---|
| Text.Trim | lib/cosmic.ts:330 | `trim()` leaves no whitespace at either end, is no longer than its input, and is empty exactly when the input is all whitespace |
| Text.TrimIsInfix | lib/cosmic.ts:330 | `trim()` gives the infix of its input that starts right after the leading whitespace and has only whitespace after it |
| Text.TrimOfTrimmed | lib/cosmic.ts:385 | trimming an already trimmed string changes nothing |
| Text.Upper | lib/cosmic.ts:333 | `toUpperCase()` keeps the length and maps every character through the ASCII case map |
| Text.Contains | lib/cosmic.ts:333 | `includes` holds only when the needle is no longer than the text |
| Text.ContainsAtOffset | lib/cosmic.ts:333 | a needle sitting at some offset of the text is found by `includes` |
| Text.ContainsHasOffset | lib/cosmic.ts:333 | conversely, when `includes` holds there is an offset where the needle sits |
| Text.JoinSplit | lib/cosmic.ts:320 | `split('\n')` loses nothing: joining the pieces with the delimiter gives back the text |
| Text.Split | lib/cosmic.ts:320 | splitting yields at least one piece, and no piece contains the delimiter |
| Text.Without | lib/cosmic.ts:305 | `replace(/-/g, '')` never lengthens the string and leaves none of the removed characters |
| Text.WithoutConcat | lib/validators.ts:39 | removing characters distributes over concatenation |
| Text.IndexOf | lib/cosmic.ts:198 | the position found holds the character and none comes before it; `None` means the character is absent |
| Text.LastIndexOf | lib/cosmic.ts:198 | the position found holds the character and none comes after it; `None` means the character is absent |
| Js.Truthy | app/api/verify-access/route.ts:8 | `!value` holds exactly for `undefined`, `null`, `false`, `0` and the empty string; every array and object is truthy |
| Js.Get | app/api/verify-access/route.ts:6 | destructuring a field of a non-object value, or a missing field, gives `undefined` |
| MediaTypes.IsCosmicMedia | types.ts:66-68 | the guard holds exactly for a truthy object whose `id` and `url` are strings; no other field is looked at |
| MediaTypes.IsCosmicMediaArray | types.ts:70-71 | the guard holds exactly for an array every element of which passes the object guard, so it fails for every non-array and holds for `[]` |
| MediaTypes.EveryMedia | types.ts:71 | `every` holds exactly when each element passes |
| MediaTypes.MediaArrayConcat | types.ts:70-71 | an array concatenation passes exactly when both parts pass |
| MediaTypes.EncodedMediaPasses | types.ts:66-68 | every media object the backend sends passes the object guard |
| MediaTypes.EncodedMediaArrayPasses | types.ts:70-71 | every list of media objects the backend sends passes the array guard |
| Validators.ValidateImageFile | lib/validators.ts:14-28 | the file is valid exactly when it is present, its type starts with `image/`, and it is at most 10 MiB; valid exactly when no error is given; otherwise the error names the first failed check in the order absence, type, size |
| Validators.SizeBoundary | lib/validators.ts:23-28 | a 10 485 760-byte image passes and one byte more fails with the size message |
| Validators.IsValidIsbn | lib/validators.ts:35-47 | an accepted ISBN is a non-empty string whose separator-free form has 10 or 13 characters |
| Validators.ValidIsbnIsShapeOfClean | lib/validators.ts:35-47 | the ISBN answer depends only on the string with hyphens and whitespace removed; the empty-string guard adds nothing |
| Validators.IsbnAccepts | lib/validators.ts:39-46 | after separator removal, an ISBN is accepted exactly when it is nine digits then a digit or upper-case `X`, or `978`/`979` then ten digits; no check digit is verified |
| Validators.SeparatorsIgnored | lib/validators.ts:39 | the screen gives the same answer on the separator-free form |
| Validators.InsertedSeparatorIgnored | lib/validators.ts:39 | inserting one hyphen or whitespace character anywhere does not change the answer |
| Validators.AcceptedCharacters | lib/validators.ts:42-46 | an accepted cleaned ISBN holds only digits, except an `X` in tenth place of ten |
| Validators.CheckCharacterPlacement | lib/validators.ts:42 | an `X` in an accepted ISBN is the tenth character of a ten-character string |
| Validators.LowerCaseXRejected | lib/validators.ts:42 | any lower-case `x` makes the ISBN invalid |
| Validators.Isbn13Accepted | lib/validators.ts:44-46 | thirteen digits starting `978` are accepted as they are |
| Validators.Isbn10Accepted | lib/validators.ts:42-46 | ten digits are accepted as they are |
| Validators.RejectedExamples | lib/validators.ts:36-46 | the empty string is rejected by the first guard and `123` by the shape test |
| Validators.IsNonEmptyString | lib/validators.ts:52-54 | holds exactly for a string value with a non-whitespace character |
| Validators.IsNonEmptyArray | lib/validators.ts:59-60 | holds exactly for an array value with at least one element |
| Retry.Resolve | lib/retry.ts:13-18 | `{ ...defaultOptions, ...options }`: each option the caller gives overrides its default, field by field, and the defaults are 3, 1000, 10000 and 2 |
| Retry.DelayCapped | lib/retry.ts:46-49 | the wait after failed attempt k never exceeds `maxDelay` or `initialDelay * multiplier^k`, and equals one of the two |
| Retry.DelayNonDecreasing | lib/retry.ts:46-49 | with a multiplier of at least one, the waits never shrink from one attempt to the next |
| Retry.Loop | lib/retry.ts:34-61 | from attempt k: at most `maxRetries - k` calls; one wait between consecutive calls, equal to the schedule; all calls but the last failed; a returned value is the last call's value; a throw after running out of attempts rethrows the last error |
| Retry.WithRetry | lib/retry.ts:27-61 | with `maxRetries <= 0` nothing is called and `undefined` is thrown; otherwise between one and `maxRetries` calls with one scheduled wait between consecutive calls |
| Retry.ReturnsFirstSuccess | lib/retry.ts:34-36 | the first successful call ends the run: its value is returned after k + 1 calls and the first k scheduled waits |
| Retry.AllFailuresRethrowLast | lib/retry.ts:41-43 | when every allowed call fails, exactly `maxRetries` calls and `maxRetries - 1` waits happen, and the last error is thrown unchanged |
| Retry.DefaultSchedule | lib/retry.ts:13-18 | with the defaults a failing operation is called three times with waits of 1000 and then 2000 |
| Retry.WithRetryLoop | lib/retry.ts:34-61 | the imperative loop with early return and rethrow produces the same result, call count and waits as the recursive definition |
| AnalysisParser.HeaderOf | lib/cosmic.ts:333-345 | a line is a header exactly when its upper-cased form mentions one of the four header phrases; books identified wins over genres, genres over themes, and themes over reader profile |
| AnalysisParser.StripBulletTail | lib/cosmic.ts:350 | what is left is a tail of the line, shorter than the line after a leading bullet, and the whole line without one |
| AnalysisParser.DigitRunIsLeadingDigits | lib/cosmic.ts:350 | the counted run is exactly the leading digits |
| AnalysisParser.StripNumberTail | lib/cosmic.ts:350 | what is left is a tail of the line; after a leading `N.` the digits and the dot are gone, and a line without one is kept whole |
| AnalysisParser.CleanItemTail | lib/cosmic.ts:350 | a cleaned item is a tail of the line, and a line starting with neither a bullet nor a digit is kept whole |
| AnalysisParser.Apply | lib/cosmic.ts:333-360 | one line only appends: each list and the profile keep what they had, at most one item is added in total, a header changes only the section, and a list or the profile grows only while its own section is current, by the cleaned item or the text and a space |
| AnalysisParser.Run | lib/cosmic.ts:329-362 | over all lines each list and the profile only grow, by at most one item per line in total |
| AnalysisParser.FinishListChoice | lib/cosmic.ts:365-384 | the filtered list holds no empty item; an empty list becomes its default and a list of non-empty items is kept |
| AnalysisParser.FinishProfileChoice | lib/cosmic.ts:377-385 | a blank profile becomes the default; any other profile becomes its non-empty trim |
| AnalysisParser.Finish | lib/cosmic.ts:364-386 | no list holds an empty item; an empty list becomes its default and a list of non-empty items is kept; the profile is non-empty and trimmed, the default exactly when the collected profile is blank |
| AnalysisParser.View | lib/cosmic.ts:330-347 | a line's trimmed text has no outer whitespace and is empty exactly when the line is blank |
| AnalysisParser.NonEmptyOnly | lib/cosmic.ts:382-384 | the final filter leaves no empty item and keeps a list with no empty item unchanged |
| AnalysisParser.ApplyCollectsList | lib/cosmic.ts:347-357 | a non-header line adds to a list exactly the cleaned item that the reference account says it contributes, and keeps the section |
| AnalysisParser.ApplyCollectsProfile | lib/cosmic.ts:358-359 | a non-blank line in the profile section appends its trimmed text and a space to the profile; no other line changes it |
| AnalysisParser.RunCollectsList | lib/cosmic.ts:329-362 | the loop collects exactly the reference items of each list section |
| AnalysisParser.RunCollectsProfile | lib/cosmic.ts:329-362 | the loop's profile is the reference profile lines, each followed by a space |
| AnalysisParser.TrimSpaceTerminated | lib/cosmic.ts:359 | trimming the space-terminated profile lines joins them with single spaces |
| AnalysisParser.FinishListKeeps | lib/cosmic.ts:365-384 | a non-empty list passes through the finishing stage unchanged, and an empty one becomes its default |
| AnalysisParser.FinishProfileJoins | lib/cosmic.ts:377-385 | a profile built from trimmed lines ends up as those lines joined by single spaces |
| AnalysisParser.FinishProfileDefault | lib/cosmic.ts:377-379 | an empty profile becomes the default sentence |
| AnalysisParser.DefaultProfileIsOwnTrim | lib/cosmic.ts:378-385 | the default sentence is unchanged by the final trim |
| AnalysisParser.DefaultsNonEmpty | lib/cosmic.ts:365-375 | no default item is empty |
| AnalysisParser.ParseAnalysisText | lib/cosmic.ts:314-387 | for any text: the three lists are non-empty, no item is empty, and the profile is non-empty and trimmed |
| AnalysisParser.RunShape | lib/cosmic.ts:329-386 | the same shape holds for the loop followed by the finishing stage on any lines |
| AnalysisParser.FinishRunMatchesReference | lib/cosmic.ts:329-386 | each list is its reference items, or the default when there are none; the profile is the reference lines joined by single spaces, or the default sentence |
| AnalysisParser.ParseMatchesReference | lib/cosmic.ts:314-387 | the parser on any text agrees with the reference account of its lines |
| AnalysisParser.HeaderLineConsumed | lib/cosmic.ts:333-345 | a header line only moves the cursor; the first of books identified, genres, themes and reader profile found in its upper-cased form decides the section |
| AnalysisParser.BooksAndGenresGuardsUnreachable | lib/cosmic.ts:348-354 | a non-header line never mentions GENRES or THEMES, so those two guards never drop a line |
| AnalysisParser.ThemesReaderLineDropped | lib/cosmic.ts:355-357 | in the themes section a line mentioning READER in any case is dropped |
| AnalysisParser.BlankLineIgnored | lib/cosmic.ts:347 | a blank line changes nothing in any section |
| AnalysisParser.LeadingLinesIgnored | lib/cosmic.ts:327-347 | lines before the first header contribute nothing |
| AnalysisParser.NothingBeforeAHeader | lib/cosmic.ts:327-361 | with no header at all, no line is collected |
| AnalysisParser.NoHeadersFinishDefaults | lib/cosmic.ts:327-386 | lines with no header give exactly the three default lists and the default sentence |
| AnalysisParser.NoHeadersGivesDefaults | lib/cosmic.ts:314-387 | text with no header line parses to exactly the defaults |
| AnalysisParser.ListSectionInOrder | lib/cosmic.ts:348-357 | in a list section the kept lines give their cleaned items in input order |
| AnalysisParser.CleanBulletItem | lib/cosmic.ts:350 | one leading bullet and the whitespace after it are removed, and nothing else |
| AnalysisParser.CleanNumberedItem | lib/cosmic.ts:350 | one leading `N.` and the whitespace after it are removed, and nothing else |
| Recommendations.BraceSpan | lib/cosmic.ts:198 | the greedy pattern matches exactly when some `{` precedes some `}`, and then spans from the first `{` to the last `}` |
| Recommendations.ExtractJson | lib/cosmic.ts:198-199 | with no brace pair the whole reply is parsed; otherwise exactly the text from the first `{` to the last `}`, both included |
| Recommendations.ObjectCutOut | lib/cosmic.ts:198-199 | text around a single object is discarded, and exactly the object is parsed |
| Recommendations.Pad | lib/cosmic.ts:212-221 | padding keeps the input as a prefix and fills with the placeholder up to three |
| Recommendations.FitToThree | lib/cosmic.ts:209-223 | exactly three records: the first up to three input records in order, then placeholders |
| Recommendations.Or | lib/cosmic.ts:227-232 | `value \|\| fallback` keeps a truthy value of any type and otherwise gives the fallback string |
| Recommendations.Backfill | lib/cosmic.ts:226-233 | every field is truthy afterwards, except a link that may be the empty string; each truthy field given is kept as it is, whatever its type, and a falsy one gets its own default ("Unknown Title", "Unknown Author", "General", the reading-preferences sentence, "9781234567890", or "") |
| Recommendations.PlaceholderBackfilled | lib/cosmic.ts:212-233 | a padding placeholder passes the per-field defaulting unchanged, because every value it carries is truthy or the empty link the defaulting keeps |
| Recommendations.EmptyArrayGivesPlaceholders | lib/cosmic.ts:209-233 | an empty `recommendations` array comes out as three copies of the placeholder book |
| Recommendations.Normalise | lib/cosmic.ts:208-233 | a parsed array gives exactly three complete records, each the backfilled input record at that place or the backfilled placeholder |
| Recommendations.NormaliseIdempotent | lib/cosmic.ts:208-233 | normalising an already normalised list gives it back |
| Recommendations.ThreeCompleteKept | lib/cosmic.ts:208-233 | three complete records pass through unchanged |
| Recommendations.FallbackComplete | lib/cosmic.ts:240-265 | the fallback list has three complete records |
| Recommendations.FromParsed | lib/cosmic.ts:201-266 | always three complete records; a parse failure, a `null` reply, or a `recommendations` value that is not an array gives the fallback list; an array gives its normalised form, unless one of its first three records is `null`, which gives the fallback list |
| Recommendations.GenerateBookRecommendations | lib/cosmic.ts:196-298 | always three complete records; a failed model call gives the fallback list |
| Recommendations.ParsedArrayKept | lib/cosmic.ts:201-233 | when the extracted JSON holds an array whose first three records can be read, the result is those records backfilled in order, then backfilled placeholders |
| Recommendations.UnusableReplyFallsBack | lib/cosmic.ts:201-206 | a reply that does not parse, or parses without an array, gives the fallback list |
| Recommendations.NullRecordFallsBack | lib/cosmic.ts:226-236 | a `null` among the first three records makes the backfilling throw, which gives the fallback list |
| AffiliateLink.PickTag | lib/cosmic.ts:308 | the tag is the argument if non-empty, else the environment value if non-empty, else `cosmicjs-20`; it is never empty |
| AffiliateLink.AmazonLink | lib/cosmic.ts:303-311 | the link starts with the store prefix and carries no hyphen in its ISBN part |
| AffiliateLink.ParseLink | lib/cosmic.ts:310 | a parsed link splits into the store prefix, an ISBN part free of `?`, the `?tag=` query and a tag |
| AffiliateLink.LinkRoundTrip | lib/cosmic.ts:303-311 | for an ISBN without `?`, the link reads back as the ISBN with every hyphen removed and the chosen tag |
| AffiliateLink.HyphensIgnored | lib/cosmic.ts:305 | ISBNs that differ only in hyphens give the same link |
| AffiliateLink.CopiedVerbatim | lib/cosmic.ts:303-311 | an ISBN without hyphens is copied as it is, spaces and letters included; nothing is validated |
| Routes.CheckFormFile | app/api/upload/route.ts:9-31 | a missing file or an empty text field is refused as missing, then a non-image type, then a size over 10 MiB; a non-empty text field throws; otherwise the file is accepted |
| Routes.CheckAgreesWithValidator | app/api/analyze-books/route.ts:10-32 | the handlers accept the same files as `validateImageFile`, with the same missing-file and size messages |
| Routes.TenMebibytesAccepted | app/api/upload/route.ts:25-26 | exactly 10 MiB passes the handler's size check, and one byte more is refused |
| Routes.Enrich | app/api/analyze-books/route.ts:44-47 | enrichment succeeds exactly when every ISBN is a string; it then keeps length and order and replaces only `amazonUrl` with the ISBN's link |
| Routes.EnrichedComplete | app/api/analyze-books/route.ts:44-47 | linking complete records keeps them complete and gives each a link that starts with the store prefix |
| Routes.Assemble | app/api/analyze-books/route.ts:50-57 | the analysis copies the photo, the parsed lists, the profile and the raw text |
| Routes.AnalyzeBooks | app/api/analyze-books/route.ts:5-72 | 400 exactly on a refused file, with no backend call; 500 carries the clearer-photo message; 200 exactly when upload and analysis succeed and every recommended ISBN is a string, after calling upload-and-analyse and then recommendations, answering the assembled analysis and the enriched recommendations |
| Routes.NumericIsbnFailsAnalysis | app/api/analyze-books/route.ts:41-71 | a reply whose record gives its ISBN as a number passes the backfilling and then makes the link generation throw, so the request gets the 500 answer |
| Routes.AnalysisSuccessShape | app/api/analyze-books/route.ts:38-63 | a successful answer has three complete recommendations, each linked from its ISBN, and a non-empty parsed analysis |
| Routes.EnrichedLinksRoundTrip | app/api/analyze-books/route.ts:44-47 | each enriched link reads back as its recommendation's ISBN without hyphens and the environment's or default tag |
| Routes.Upload | app/api/upload/route.ts:4-47 | 400 exactly on a refused file, with no backend call; otherwise one `uploadPhoto` call; 200 with the photo on success, 500 "Failed to upload photo" on failure |
| Routes.AcceptedFileStoredOnce | app/api/upload/route.ts:33-38 | a valid file is stored exactly once, whatever the outcome |
| Routes.VerifyAccess | app/api/verify-access/route.ts:4-45 | an unreadable body gives 500 "Internal server error"; a falsy code gives 400 before the configuration is looked at; no configured secret gives 500; success with status 200 exactly when the code strictly equals a non-empty secret; any other code gives 401 |
| Routes.NumericCodeRefused | app/api/verify-access/route.ts:26-36 | a numeric code is refused with 401, since strict equality never holds between a number and a string |
| PhotoModal.HandleKey | components/PhotoModal.tsx:16-30 | while closed every key is ignored; while open Escape closes, ArrowLeft goes back, ArrowRight goes on, and any other key does nothing |
| PhotoModal.Strip | components/PhotoModal.tsx:98-107 | one thumbnail per photo, in order, active exactly at the current index |
| PhotoModal.Render | components/PhotoModal.tsx:46-91 | the modal shows something exactly when it is open and the index is a valid position; it then shows that photo with the label `index+1 of n`, which lies in 1..n |
| PhotoModal.OneActiveThumbnail | components/PhotoModal.tsx:104 | exactly one thumbnail is active, the one of the photo shown |
| PhotoGallery.ValidOpenShows | components/PhotoGallery.tsx:124 | in a reachable state the modal shows a photo exactly when the index is at least 0 |
| PhotoGallery.PrevIndex | components/PhotoGallery.tsx:45 | back one position; from the first it goes to the last; stays within range |
| PhotoGallery.NextIndex | components/PhotoGallery.tsx:47 | on one position; from the last it goes to the first; stays within range |
| PhotoGallery.Navigate | components/PhotoGallery.tsx:43-49 | navigation moves only the index, keeps it within range, and steps by one away from the ends |
| PhotoGallery.PrevNextInverse | components/PhotoGallery.tsx:43-49 | "prev" undoes "next" and "next" undoes "prev" |
| PhotoGallery.NextTimesAdd | components/PhotoGallery.tsx:47 | k presses of "next" followed by m presses are k + m presses |
| PhotoGallery.NextCycles | components/PhotoGallery.tsx:47 | n presses of "next" return to the starting photo, and no fewer presses do |
| PhotoGallery.Close | components/PhotoGallery.tsx:39-41 | closing sets the index to -1, so the modal is closed, and changes nothing else |
| PhotoGallery.Select | components/PhotoGallery.tsx:35-37 | a click selects the clicked position and opens the modal on that photo |
| PhotoGallery.UploadSucceeded | components/PhotoGallery.tsx:55-58 | the new photo is put first, the others follow in order, the panel is hidden and the index is unchanged |
| PhotoGallery.ToggleUpload | components/PhotoGallery.tsx:82 | the header button flips the upload panel and changes nothing else |
| PhotoGallery.OnKey | components/PhotoGallery.tsx:121-127 | a key press on a closed gallery changes nothing; no key changes the photos or the panel |
| PhotoGallery.HandlersKeepValid | components/PhotoGallery.tsx:35-58 | every handler keeps the index in -1..n-1 |
| PhotoGallery.KeysWhileOpen | components/PhotoGallery.tsx:121-127 | with the modal open, Escape hides it and every other key keeps a photo shown |
| PhotoGallery.UploadWhileOpenShiftsView | components/PhotoGallery.tsx:55-58 | an upload while the modal is open keeps the index, so the modal then shows the previous photo, or the new photo at position 0 |

## Left out

- The Cosmic SDK and network calls are not modelled: the bucket client, `getPhotos`, `uploadPhoto`, `uploadAndAnalyzeBooks` with its two-prompt fallback and empty-answer check, and the `generateText` call. Their results are parameters, either a value or a thrown error.
- The prompt texts are not modelled. They only shape what the model replies, and the reply is a parameter.
- `JSON.parse` is a parameter `string -> Option<JsValue>`. Its text-to-value mapping is not modelled.
- `GET /api/photos` and the page's `fetchPhotos` and loading flag are not modelled. They only relay `getPhotos`.
- The `setTimeout` sleeps and `console` logging in `withRetry` are not modelled. A run returns its list of waits instead.
- The floating-point arithmetic of `Math.pow` and `Math.min` is modelled on naturals. The options are non-negative integers, except `maxRetries`, which may be any integer.
- `trim`, `toUpperCase` and `\s` are modelled on ASCII only. Unicode whitespace and case mapping are not modelled.
- The environment values `ACCESS_CODE` and `AMAZON_AFFILIATE_TAG` are parameters.
- The Next.js request and response plumbing is reduced to a status, a body datatype and a trace of backend calls. Reading a form that is not multipart is the `None` form.
- `Js.JsValue` numbers are integers, so fractional numbers are not represented.
- The rendering-only components are not modelled: the grid, the upload forms and their progress bars, the access form, the recommendations list, the layout and the home page.
- The lightbox's page-scroll lock, image URLs, alt text and the `original_name` caption are not modelled.
- The browser console-capture script and the script that injects it into built pages are not modelled. They are development tooling with no application logic.
- Retry.Resolve: an option passed explicitly as `undefined` (`{ maxRetries: undefined }`) overrides its default in the source, because object spread copies it. With `maxRetries` undefined the loop makes no call and throws `undefined`; with a delay option undefined the waits become `NaN`. The model's options are either given as numbers or absent, so this case is not represented.
- Retry.Delay: carries no contract of its own. Its bounds are stated in `Retry.DelayCapped` and `Retry.DelayNonDecreasing`.
