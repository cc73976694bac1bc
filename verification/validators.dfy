/** `lib/validators.ts`: the upload file check, the ISBN format screen and the
    two non-emptiness helpers. */
module Validators {
  import opened Wrappers
  import opened Text
  import opened Js

  /** A browser `File`: its name, declared MIME type and size in bytes. */
  datatype WebFile = WebFile(name: string, mimeType: string, size: nat)

  /** `{ valid, error? }`. */
  datatype ValidationResult = ValidationResult(valid: bool, error: Option<string>)

  /** The upload size ceiling, 10 MiB. */
  const MaxImageSize: nat := 10 * 1024 * 1024

  const NoFileError := "No file provided"
  const NotImageError := "File must be an image (JPEG, PNG, GIF, WebP)"
  const TooLargeError := "File size must be less than 10MB"

  /** `validateImageFile(file)`: absence first, then the MIME type, then the
      size; valid exactly when all three checks pass, and then no error. */
  function ValidateImageFile(file: Option<WebFile>): (r: ValidationResult)
    ensures r.valid <==> file.Some? && StartsWith(file.value.mimeType, "image/") && file.value.size <= MaxImageSize
    ensures r.valid <==> r.error == None
    ensures file.None? ==> r.error == Some(NoFileError)
    ensures file.Some? && !StartsWith(file.value.mimeType, "image/") ==> r.error == Some(NotImageError)
    ensures file.Some? && StartsWith(file.value.mimeType, "image/") && file.value.size > MaxImageSize
      ==> r.error == Some(TooLargeError)
  {
    match file
    case None => ValidationResult(false, Some(NoFileError))
    case Some(f) =>
      if !StartsWith(f.mimeType, "image/") then ValidationResult(false, Some(NotImageError))
      else if f.size > MaxImageSize then ValidationResult(false, Some(TooLargeError))
      else ValidationResult(true, None)
  }

  /** The boundary: a file of exactly 10 MiB with an image type is accepted,
      one byte more is refused with the size message. */
  lemma SizeBoundary(name: string, mimeType: string)
    requires StartsWith(mimeType, "image/")
    ensures ValidateImageFile(Some(WebFile(name, mimeType, 10485760))).valid
    ensures ValidateImageFile(Some(WebFile(name, mimeType, 10485761))).error == Some(TooLargeError)
  {
  }

  /** The characters `isbn.replace(/[-\s]/g, '')` removes. */
  predicate IsIsbnSeparator(c: char) {
    c == '-' || IsSpace(c)
  }

  function CleanIsbn(isbn: string): string {
    Without(isbn, IsIsbnSeparator)
  }

  predicate AllDigits(s: string) {
    forall i :: 0 <= i < |s| ==> IsDigit(s[i])
  }

  /** `/^[0-9]{9}[0-9X]$/`. */
  predicate Isbn10Shape(s: string) {
    |s| == 10 && AllDigits(s[..9]) && (IsDigit(s[9]) || s[9] == 'X')
  }

  /** `/^(978|979)[0-9]{10}$/`. */
  predicate Isbn13Shape(s: string) {
    |s| == 13 && (s[..3] == "978" || s[..3] == "979") && AllDigits(s[3..])
  }

  /** The two shapes the cleaned string is tested against. */
  predicate IsbnShape(c: string) {
    Isbn10Shape(c) || Isbn13Shape(c)
  }

  /** `isValidISBN`: a format screen only; no check digit is computed. */
  predicate IsValidIsbn(isbn: string)
    ensures IsValidIsbn(isbn) ==> isbn != "" && (|CleanIsbn(isbn)| == 10 || |CleanIsbn(isbn)| == 13)
  {
    isbn != "" && IsbnShape(CleanIsbn(isbn))
  }

  /** The empty-string guard is subsumed by the shape test: the answer
      depends on the separator-free form alone. */
  lemma ValidIsbnIsShapeOfClean(isbn: string)
    ensures IsValidIsbn(isbn) == IsbnShape(CleanIsbn(isbn))
  {
    if isbn == "" {
      assert CleanIsbn(isbn) == "";
    }
  }

  /** The accepted strings, described character by character: after removing
      separators, nine digits and then a digit or upper-case `X`, or `978`/`979`
      followed by ten digits. */
  lemma IsbnAccepts(isbn: string)
    ensures IsValidIsbn(isbn) <==>
      var c := CleanIsbn(isbn);
      || (|c| == 10 && (forall i :: 0 <= i < 9 ==> IsDigit(c[i])) && (IsDigit(c[9]) || c[9] == 'X'))
      || (|c| == 13 && c[0] == '9' && c[1] == '7' && (c[2] == '8' || c[2] == '9')
          && (forall i :: 3 <= i < 13 ==> IsDigit(c[i])))
  {
    ValidIsbnIsShapeOfClean(isbn);
    var c := CleanIsbn(isbn);
    if |c| == 13 && c[0] == '9' && c[1] == '7' && (c[2] == '8' || c[2] == '9') {
      assert c[..3] == [c[0], c[1], c[2]];
    }
    if |c| == 13 && (forall i :: 3 <= i < 13 ==> IsDigit(c[i])) {
      assert forall i :: 0 <= i < 10 ==> c[3..][i] == c[i + 3];
    }
    if Isbn13Shape(c) {
      assert forall i :: 3 <= i < 13 ==> c[i] == c[3..][i - 3];
    }
  }

  /** Hyphens and whitespace never matter: the screen gives the same answer
      on the separator-free form. */
  lemma SeparatorsIgnored(isbn: string)
    ensures IsValidIsbn(isbn) == IsValidIsbn(CleanIsbn(isbn))
  {
    var c := CleanIsbn(isbn);
    WithoutNothingToDrop(c, IsIsbnSeparator);
    ValidIsbnIsShapeOfClean(isbn);
    ValidIsbnIsShapeOfClean(c);
  }

  /** Inserting one hyphen or whitespace character anywhere leaves the answer unchanged. */
  lemma InsertedSeparatorIgnored(before: string, sep: char, after: string)
    requires IsIsbnSeparator(sep)
    ensures IsValidIsbn(before + [sep] + after) == IsValidIsbn(before + after)
  {
    WithoutConcat(before + [sep], after, IsIsbnSeparator);
    WithoutConcat(before, [sep], IsIsbnSeparator);
    WithoutConcat(before, after, IsIsbnSeparator);
    assert Without([sep], IsIsbnSeparator) == [];
    assert CleanIsbn(before + [sep] + after) == CleanIsbn(before + after);
    ValidIsbnIsShapeOfClean(before + [sep] + after);
    ValidIsbnIsShapeOfClean(before + after);
  }

  /** Every character of an accepted separator-free ISBN is a digit or `X`,
      and `X` can only be the tenth of ten. */
  lemma AcceptedCharacters(isbn: string)
    ensures IsValidIsbn(isbn) ==> forall k :: 0 <= k < |CleanIsbn(isbn)| ==>
      IsDigit(CleanIsbn(isbn)[k]) || (CleanIsbn(isbn)[k] == 'X' && |CleanIsbn(isbn)| == 10 && k == 9)
  {
    var c := CleanIsbn(isbn);
    if Isbn10Shape(c) {
      assert forall k :: 0 <= k < 9 ==> c[k] == c[..9][k];
    }
    if Isbn13Shape(c) {
      assert forall k :: 0 <= k < 3 ==> c[k] == c[..3][k];
      assert forall k :: 3 <= k < 13 ==> c[k] == c[3..][k - 3];
    }
  }

  /** `X` is accepted only as the tenth character of a ten-character ISBN. */
  lemma CheckCharacterPlacement(isbn: string, k: nat)
    requires IsValidIsbn(isbn)
    requires k < |CleanIsbn(isbn)| && CleanIsbn(isbn)[k] == 'X'
    ensures |CleanIsbn(isbn)| == 10 && k == 9
  {
    AcceptedCharacters(isbn);
  }

  /** A lower-case `x` anywhere makes the string invalid. */
  lemma LowerCaseXRejected(isbn: string)
    requires 'x' in isbn
    ensures !IsValidIsbn(isbn)
  {
    var k :| 0 <= k < |isbn| && isbn[k] == 'x';
    WithoutKeeps(isbn, IsIsbnSeparator, k);
    AcceptedCharacters(isbn);
  }

  /** Thirteen digits starting `978` pass as they are. */
  lemma Isbn13Accepted(s: string)
    requires |s| == 13 && s[..3] == "978" && AllDigits(s)
    ensures IsValidIsbn(s)
  {
    WithoutNothingToDrop(s, IsIsbnSeparator);
    assert AllDigits(s[3..]);
  }

  /** Ten digits pass as they are. */
  lemma Isbn10Accepted(s: string)
    requires |s| == 10 && AllDigits(s)
    ensures IsValidIsbn(s)
  {
    WithoutNothingToDrop(s, IsIsbnSeparator);
    assert AllDigits(s[..9]);
  }

  /** The empty string is turned away by the source's first guard, and a
      short string by the shape test. */
  lemma RejectedExamples()
    ensures !IsValidIsbn("123")
    ensures !IsValidIsbn("")
  {
    assert |CleanIsbn("123")| <= 3;
  }

  /** `isNonEmptyString(value)`: a string with a non-whitespace character. */
  predicate IsNonEmptyString(v: JsValue)
    ensures IsNonEmptyString(v) <==> v.Str? && exists i :: 0 <= i < |v.s| && !IsSpace(v.s[i])
  {
    IsString(v) && |Trim(v.s)| > 0
  }

  /** `isNonEmptyArray(value)`: an array with at least one element. */
  predicate IsNonEmptyArray(v: JsValue)
    ensures IsNonEmptyArray(v) <==> v.Arr? && v.items != []
  {
    v.Arr? && |v.items| > 0
  }
}
