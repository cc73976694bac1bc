/** `parseAnalysisText` (lib/cosmic.ts): a line-by-line state machine that
    sorts the AI's free-text bookshelf analysis into identified books,
    genres, themes and a reader profile, with fixed defaults for anything
    left empty.

    The loop body is split in two: `View` reads what the body looks at off
    one line (the trimmed text, the header it opens, the cleaned list item,
    the guard words it mentions), and `Apply` acts on that reading. The
    state machine and its reference account are stated over readings. */
module AnalysisParser {
  import opened Wrappers
  import opened Text

  /** The cursor of the state machine; `NoSection` is the initial `''`. */
  datatype Section = NoSection | Books | Genres | Themes | Profile

  datatype ParsedAnalysis = ParsedAnalysis(
    booksIdentified: seq<string>,
    genres: seq<string>,
    themes: seq<string>,
    readerProfile: string)

  /** What the loop has accumulated so far. */
  datatype ParseState = ParseState(
    section: Section,
    books: seq<string>,
    genres: seq<string>,
    themes: seq<string>,
    profile: string)

  const Initial := ParseState(NoSection, [], [], [], "")

  const DefaultBooks: seq<string> := ["Collection of books visible on shelf"]
  const DefaultGenres: seq<string> := ["Mixed genres", "Fiction", "Non-fiction"]
  const DefaultThemes: seq<string> := ["Diverse reading interests", "Personal growth", "Entertainment"]
  /** The default reader profile. It is written as two literals only to
      keep the verifier from unfolding the whole text when it needs the
      first character; the value is the source's single sentence. */
  const DefaultProfile := "This " + "reader has diverse interests and enjoys exploring various genres and topics through reading."

  // ----- Reading one line -----

  /** The section a header line opens, tested in the source's order on the
      upper-cased trimmed line; `None` for a line that is not a header. */
  function HeaderOf(upper: string): (h: Option<Section>)
    ensures h.None? <==>
      && !Contains(upper, "BOOKS IDENTIFIED") && !Contains(upper, "GENRES")
      && !Contains(upper, "THEMES") && !Contains(upper, "READER PROFILE")
    ensures h.Some? ==> h.value != NoSection
    ensures Contains(upper, "BOOKS IDENTIFIED") <==> h == Some(Books)
    ensures h == Some(Genres) ==> Contains(upper, "GENRES") && !Contains(upper, "BOOKS IDENTIFIED")
    ensures h == Some(Themes) ==>
      Contains(upper, "THEMES") && !Contains(upper, "BOOKS IDENTIFIED") && !Contains(upper, "GENRES")
    ensures h == Some(Profile) ==>
      && Contains(upper, "READER PROFILE")
      && !Contains(upper, "BOOKS IDENTIFIED") && !Contains(upper, "GENRES") && !Contains(upper, "THEMES")
  {
    if Contains(upper, "BOOKS IDENTIFIED") then Some(Books)
    else if Contains(upper, "GENRES") then Some(Genres)
    else if Contains(upper, "THEMES") then Some(Themes)
    else if Contains(upper, "READER PROFILE") then Some(Profile)
    else None
  }

  predicate IsBullet(c: char) {
    c == '-' || c == '\U{2022}' || c == '*'
  }

  /** `r` is what is left of `t` once some prefix is dropped. */
  predicate IsTail(r: string, t: string) {
    exists k :: 0 <= k <= |t| && r == t[k..]
  }

  /** A tail of a tail of `t` is a tail of `t`. */
  lemma TailOfTail(r: string, b: string, t: string)
    requires IsTail(r, b) && IsTail(b, t)
    ensures IsTail(r, t)
  {
    var j :| 0 <= j <= |b| && r == b[j..];
    var k :| 0 <= k <= |t| && b == t[k..];
    assert r == t[k + j..];
  }

  /** Dropping the whitespace that starts at offset `from` leaves a tail of
      `t` no longer than `t[from..]`. */
  lemma TrimStartFrom(t: string, from: nat)
    requires from <= |t|
    ensures |TrimStart(t[from..])| <= |t| - from && IsTail(TrimStart(t[from..]), t)
  {
    var rest := t[from..];
    var r := TrimStart(rest);
    var k := from + (|rest| - |r|);
    assert r == rest[|rest| - |r|..];
    assert rest[|rest| - |r|..] == t[k..];
  }

  /** `.replace(/^[-•*]\s*\/, '')`: one leading bullet and the whitespace after it. */
  function StripBullet(t: string): string {
    if |t| > 0 && IsBullet(t[0]) then TrimStart(t[1..]) else t
  }

  /** What `StripBullet` leaves is a tail of the line, shorter than the line
      after a bullet and the whole line without one. */
  lemma StripBulletTail(t: string)
    ensures IsTail(StripBullet(t), t)
    ensures |t| > 0 && IsBullet(t[0]) ==> |StripBullet(t)| < |t|
    ensures !(|t| > 0 && IsBullet(t[0])) ==> StripBullet(t) == t
  {
    if |t| > 0 && IsBullet(t[0]) {
      TrimStartFrom(t, 1);
    } else {
      assert t == t[0..];
    }
  }

  /** The number of leading ASCII digits. */
  function DigitRun(t: string): (n: nat)
    ensures n <= |t|
  {
    if |t| > 0 && IsDigit(t[0]) then 1 + DigitRun(t[1..]) else 0
  }

  /** `DigitRun` counts exactly the leading digits: all of them are digits,
      and the character after them is not. */
  lemma {:induction false} DigitRunIsLeadingDigits(t: string)
    ensures forall k :: 0 <= k < DigitRun(t) ==> IsDigit(t[k])
    ensures DigitRun(t) < |t| ==> !IsDigit(t[DigitRun(t)])
    decreases |t|
  {
    if |t| > 0 && IsDigit(t[0]) {
      DigitRunIsLeadingDigits(t[1..]);
      assert forall k :: 1 <= k < DigitRun(t) ==> t[k] == t[1..][k - 1];
    }
  }

  /** `.replace(/^\d+\.\s*\/, '')`: one leading `N.` and the whitespace after it. */
  function StripNumber(t: string): string {
    var n := DigitRun(t);
    if 0 < n < |t| && t[n] == '.' then TrimStart(t[n + 1..]) else t
  }

  /** What `StripNumber` leaves is a tail of the line, shorter than the line
      by more than the digits after a leading `N.`, and the whole line
      without one. */
  lemma StripNumberTail(t: string)
    ensures IsTail(StripNumber(t), t)
    ensures 0 < DigitRun(t) < |t| && t[DigitRun(t)] == '.' ==> |StripNumber(t)| < |t| - DigitRun(t)
    ensures !(0 < DigitRun(t) < |t| && t[DigitRun(t)] == '.') ==> StripNumber(t) == t
    ensures t == [] || !IsDigit(t[0]) ==> StripNumber(t) == t
  {
    StripNumberIsTail(t);
    if 0 < DigitRun(t) < |t| && t[DigitRun(t)] == '.' {
      NumberedShorter(t);
    }
  }

  /** The tail half of `StripNumberTail`. */
  lemma StripNumberIsTail(t: string)
    ensures IsTail(StripNumber(t), t)
  {
    if 0 < DigitRun(t) < |t| && t[DigitRun(t)] == '.' {
      TrimStartFrom(t, DigitRun(t) + 1);
    } else {
      assert t == t[0..];
    }
  }

  /** After a leading `N.`, the digits and the dot are gone. */
  lemma NumberedShorter(t: string)
    requires 0 < DigitRun(t) < |t| && t[DigitRun(t)] == '.'
    ensures |StripNumber(t)| < |t| - DigitRun(t)
  {
    var n := DigitRun(t);
    assert StripNumber(t) == TrimStart(t[n + 1..]);
  }

  /** A list line with its marker removed: first a bullet, then a number. */
  function CleanItem(t: string): string {
    StripNumber(StripBullet(t))
  }

  /** A cleaned item is a tail of its line, and a line that starts with
      neither a bullet nor a digit is kept whole. */
  lemma CleanItemTail(t: string)
    ensures IsTail(CleanItem(t), t)
    ensures t == [] || (!IsBullet(t[0]) && !IsDigit(t[0])) ==> CleanItem(t) == t
  {
    var b := StripBullet(t);
    StripBulletTail(t);
    StripNumberTail(b);
    TailOfTail(StripNumber(b), b, t);
  }

  /** What the loop body reads off one line: the header it opens (if any),
      the trimmed text, the cleaned list item, and whether the upper-cased
      text mentions each of the three guard words. */
  datatype LineView = LineView(
    header: Option<Section>,
    text: string,
    item: string,
    mentionsGenres: bool,
    mentionsThemes: bool,
    mentionsReader: bool)

  function View(line: string): (v: LineView)
    ensures IsTrimmed(v.text) && (v.text == [] <==> AllSpace(line))
  {
    var t := Trim(line);
    var u := Upper(t);
    LineView(HeaderOf(u), t, CleanItem(t), Contains(u, "GENRES"), Contains(u, "THEMES"), Contains(u, "READER"))
  }

  /** The header test applied to a raw line. */
  function LineHeader(line: string): Option<Section> {
    View(line).header
  }

  /** The readings of all lines, in order. */
  function Views(lines: seq<string>): (vs: seq<LineView>)
    ensures |vs| == |lines|
    ensures forall i :: 0 <= i < |lines| ==> vs[i] == View(lines[i]) && IsTrimmed(vs[i].text)
  {
    seq(|lines|, i requires 0 <= i < |lines| => View(lines[i]))
  }

  // ----- The state machine -----

  /** `if (cleaned.length > 0) list.push(cleaned)`. */
  function Push(items: seq<string>, item: string): seq<string> {
    if |item| > 0 then items + [item] else items
  }

  /** The body of the loop on a line already read: a header moves the
      cursor; otherwise a non-blank line goes to the current section, unless
      it mentions that section's guard word. */
  function Apply(st: ParseState, v: LineView): (r: ParseState)
    ensures st.books <= r.books && st.genres <= r.genres && st.themes <= r.themes && st.profile <= r.profile
    ensures |r.books| + |r.genres| + |r.themes| <= |st.books| + |st.genres| + |st.themes| + 1
    ensures v.header.Some? ==> r == st.(section := v.header.value)
    ensures v.header.None? ==> r.section == st.section
    ensures r.books != st.books ==> st.section == Books && v.item != "" && r.books == st.books + [v.item]
    ensures r.genres != st.genres ==> st.section == Genres && v.item != "" && r.genres == st.genres + [v.item]
    ensures r.themes != st.themes ==> st.section == Themes && v.item != "" && r.themes == st.themes + [v.item]
    ensures r.profile != st.profile ==> st.section == Profile && v.header.None? && r.profile == st.profile + v.text + " "
  {
    match v.header
    case Some(next) => st.(section := next)
    case None =>
      if v.text == "" then st
      else if st.section == Books && !v.mentionsGenres then st.(books := Push(st.books, v.item))
      else if st.section == Genres && !v.mentionsThemes then st.(genres := Push(st.genres, v.item))
      else if st.section == Themes && !v.mentionsReader then st.(themes := Push(st.themes, v.item))
      else if st.section == Profile then st.(profile := st.profile + v.text + " ")
      else st
  }

  /** One iteration of the `for (const line of lines)` loop. */
  function Step(st: ParseState, line: string): ParseState {
    Apply(st, View(line))
  }

  /** The loop over all lines, each already read. */
  function Run(st: ParseState, vs: seq<LineView>): (r: ParseState)
    ensures st.books <= r.books && st.genres <= r.genres && st.themes <= r.themes && st.profile <= r.profile
    ensures |r.books| + |r.genres| + |r.themes| <= |st.books| + |st.genres| + |st.themes| + |vs|
    decreases |vs|
  {
    if |vs| == 0 then st else Run(Apply(st, vs[0]), vs[1..])
  }

  /** `.filter(x => x.length > 0)`. */
  function NonEmptyOnly(items: seq<string>): (r: seq<string>)
    ensures forall i :: 0 <= i < |r| ==> r[i] != ""
    ensures (forall i :: 0 <= i < |items| ==> items[i] != "") ==> r == items
  {
    if |items| == 0 then []
    else (if items[0] != "" then [items[0]] else []) + NonEmptyOnly(items[1..])
  }

  /** A list's default when it is empty, then the final filter. */
  function FinishList(items: seq<string>, default: seq<string>): seq<string> {
    NonEmptyOnly(if |items| == 0 then default else items)
  }

  /** The finished list holds no empty item; an empty list becomes its
      default and a list of non-empty items is kept. */
  lemma FinishListChoice(items: seq<string>, default: seq<string>)
    ensures forall i :: 0 <= i < |FinishList(items, default)| ==> FinishList(items, default)[i] != ""
    ensures items == [] && (forall i :: 0 <= i < |default| ==> default[i] != "") ==> FinishList(items, default) == default
    ensures items != [] && (forall i :: 0 <= i < |items| ==> items[i] != "") ==> FinishList(items, default) == items
  {
  }

  /** The profile's default when it is blank, then the final trim. The
      default is taken as it is: it is its own trim (`DefaultProfileIsOwnTrim`).
      It is a parameter rather than the constant only so that the verifier
      does not unfold the long default text wherever this function appears. */
  function FinishProfile(profile: string, default: string): string {
    if |Trim(profile)| == 0 then default else Trim(profile)
  }

  /** A blank profile becomes the default; any other becomes its non-empty trim. */
  lemma FinishProfileChoice(profile: string, default: string)
    ensures AllSpace(profile) ==> FinishProfile(profile, default) == default
    ensures !AllSpace(profile) ==>
      FinishProfile(profile, default) == Trim(profile) && Trim(profile) != "" && IsTrimmed(Trim(profile))
  {
  }

  /** The defaults and the final filter and trim: no list is left empty or
      holds an empty item, and the profile is the trimmed text or, when that
      is blank, the default. A list of non-empty items is kept as it is. */
  function Finish(st: ParseState): (r: ParsedAnalysis)
    ensures forall i :: 0 <= i < |r.booksIdentified| ==> r.booksIdentified[i] != ""
    ensures forall i :: 0 <= i < |r.genres| ==> r.genres[i] != ""
    ensures forall i :: 0 <= i < |r.themes| ==> r.themes[i] != ""
    ensures st.books == [] ==> r.booksIdentified == DefaultBooks
    ensures st.genres == [] ==> r.genres == DefaultGenres
    ensures st.themes == [] ==> r.themes == DefaultThemes
    ensures st.books != [] && (forall i :: 0 <= i < |st.books| ==> st.books[i] != "") ==> r.booksIdentified == st.books
    ensures st.genres != [] && (forall i :: 0 <= i < |st.genres| ==> st.genres[i] != "") ==> r.genres == st.genres
    ensures st.themes != [] && (forall i :: 0 <= i < |st.themes| ==> st.themes[i] != "") ==> r.themes == st.themes
    ensures r.readerProfile != "" && IsTrimmed(r.readerProfile)
    ensures AllSpace(st.profile) ==> r.readerProfile == DefaultProfile
    ensures !AllSpace(st.profile) ==> r.readerProfile == Trim(st.profile)
  {
    DefaultsNonEmpty();
    DefaultProfileTrimmed();
    FinishListChoice(st.books, DefaultBooks);
    FinishListChoice(st.genres, DefaultGenres);
    FinishListChoice(st.themes, DefaultThemes);
    FinishProfileChoice(st.profile, DefaultProfile);
    ParsedAnalysis(
      FinishList(st.books, DefaultBooks),
      FinishList(st.genres, DefaultGenres),
      FinishList(st.themes, DefaultThemes),
      FinishProfile(st.profile, DefaultProfile))
  }

  // ----- A reference account, one output at a time -----

  /** Whether the guard word of list section `want` appears in the line. */
  predicate Guarded(v: LineView, want: Section) {
    match want
    case Books => v.mentionsGenres
    case Genres => v.mentionsThemes
    case _ => v.mentionsReader
  }

  /** Whether a non-header line, read in section `sec`, adds an item to the
      list of section `want` (one of the three list sections). */
  predicate Contributes(sec: Section, want: Section, v: LineView) {
    && sec == want
    && v.text != ""
    && v.item != ""
    && (want == Books || want == Genres || want == Themes)
    && !Guarded(v, want)
  }

  /** The items of list `want` that the lines yield when reading starts in `sec`. */
  function Items(sec: Section, vs: seq<LineView>, want: Section): (r: seq<string>)
    ensures forall i :: 0 <= i < |r| ==> r[i] != ""
    decreases |vs|
  {
    if |vs| == 0 then []
    else
      match vs[0].header
      case Some(next) => Items(next, vs[1..], want)
      case None => (if Contributes(sec, want, vs[0]) then [vs[0].item] else []) + Items(sec, vs[1..], want)
  }

  /** The trimmed, non-blank lines of the profile section. */
  function ProfileLines(sec: Section, vs: seq<LineView>): (r: seq<string>)
    ensures forall i :: 0 <= i < |r| ==> r[i] != ""
    ensures (forall i :: 0 <= i < |vs| ==> IsTrimmed(vs[i].text)) ==> forall i :: 0 <= i < |r| ==> IsTrimmed(r[i])
    decreases |vs|
  {
    if |vs| == 0 then []
    else
      match vs[0].header
      case Some(next) => ProfileLines(next, vs[1..])
      case None => (if sec == Profile && vs[0].text != "" then [vs[0].text] else []) + ProfileLines(sec, vs[1..])
  }

  /** `reader_profile += line + ' '` over a list of lines. */
  function SpaceTerminated(parts: seq<string>): string {
    if |parts| == 0 then "" else parts[0] + " " + SpaceTerminated(parts[1..])
  }

  /** The list a list section collects into. */
  function ListOf(st: ParseState, want: Section): seq<string>
    requires want == Books || want == Genres || want == Themes
  {
    match want
    case Books => st.books
    case Genres => st.genres
    case _ => st.themes
  }

  /** One non-header line: the step appends to a list exactly what the
      reference account takes from that line, and keeps the cursor. */
  lemma ApplyCollectsList(st: ParseState, v: LineView, want: Section)
    requires v.header.None?
    requires want == Books || want == Genres || want == Themes
    ensures ListOf(Apply(st, v), want) == ListOf(st, want) + (if Contributes(st.section, want, v) then [v.item] else [])
    ensures Apply(st, v).section == st.section
  {
  }

  /** The same for the profile. */
  lemma ApplyCollectsProfile(st: ParseState, v: LineView)
    requires v.header.None?
    ensures Apply(st, v).profile == st.profile + SpaceTerminated(if st.section == Profile && v.text != "" then [v.text] else [])
    ensures Apply(st, v).section == st.section
  {
    assert SpaceTerminated([v.text]) == v.text + " ";
  }

  /** The state machine computes the reference account of each list. */
  lemma {:induction false} RunCollectsList(st: ParseState, vs: seq<LineView>, want: Section)
    requires want == Books || want == Genres || want == Themes
    ensures ListOf(Run(st, vs), want) == ListOf(st, want) + Items(st.section, vs, want)
    decreases |vs|
  {
    if |vs| > 0 {
      var v := vs[0];
      var rest := vs[1..];
      RunCollectsList(Apply(st, v), rest, want);
      if v.header.None? {
        ApplyCollectsList(st, v, want);
        var xs := if Contributes(st.section, want, v) then [v.item] else [];
        assert ListOf(st, want) + xs + Items(st.section, rest, want) == ListOf(st, want) + (xs + Items(st.section, rest, want));
      }
    } else {
      assert ListOf(st, want) + [] == ListOf(st, want);
    }
  }

  /** The state machine computes the reference account of the profile. */
  lemma {:induction false} RunCollectsProfile(st: ParseState, vs: seq<LineView>)
    ensures Run(st, vs).profile == st.profile + SpaceTerminated(ProfileLines(st.section, vs))
    decreases |vs|
  {
    if |vs| > 0 {
      var v := vs[0];
      var rest := vs[1..];
      RunCollectsProfile(Apply(st, v), rest);
      if v.header.None? {
        ApplyCollectsProfile(st, v);
        var ps := if st.section == Profile && v.text != "" then [v.text] else [];
        SpaceTerminatedConcat(ps, ProfileLines(st.section, rest));
      }
    } else {
      assert st.profile + "" == st.profile;
    }
  }

  lemma {:induction false} SpaceTerminatedConcat(a: seq<string>, b: seq<string>)
    ensures SpaceTerminated(a + b) == SpaceTerminated(a) + SpaceTerminated(b)
    decreases |a|
  {
    if |a| > 0 {
      assert (a + b)[1..] == a[1..] + b;
      SpaceTerminatedConcat(a[1..], b);
    } else {
      assert a + b == b;
    }
  }

  /** Space-terminating non-empty trimmed pieces and trimming the result is
      joining them with single spaces. */
  lemma {:induction false} TrimSpaceTerminated(parts: seq<string>)
    requires forall i :: 0 <= i < |parts| ==> parts[i] != "" && IsTrimmed(parts[i])
    ensures Trim(SpaceTerminated(parts)) == Join(parts, " ")
  {
    if |parts| > 0 {
      SpaceTerminatedIsJoinPlusSpace(parts);
      TrimDropsTrailingSpace(Join(parts, " "), ' ');
      JoinKeepsEnds(parts);
      TrimOfTrimmed(Join(parts, " "));
    }
  }

  lemma {:induction false} SpaceTerminatedIsJoinPlusSpace(parts: seq<string>)
    requires |parts| > 0
    ensures SpaceTerminated(parts) == Join(parts, " ") + [' ']
    decreases |parts|
  {
    if |parts| > 1 {
      SpaceTerminatedIsJoinPlusSpace(parts[1..]);
    }
  }

  /** A join of non-empty trimmed pieces is itself non-empty and trimmed. */
  lemma {:induction false} JoinKeepsEnds(parts: seq<string>)
    requires |parts| > 0
    requires forall i :: 0 <= i < |parts| ==> parts[i] != "" && IsTrimmed(parts[i])
    ensures IsTrimmed(Join(parts, " ")) && Join(parts, " ") != ""
    decreases |parts|
  {
    if |parts| > 1 {
      JoinKeepsEnds(parts[1..]);
      var j := Join(parts, " ");
      assert j == parts[0] + " " + Join(parts[1..], " ");
      assert j[0] == parts[0][0];
    }
  }

  /** No default list holds an empty item. */
  lemma DefaultsNonEmpty()
    ensures forall i :: 0 <= i < |DefaultBooks| ==> DefaultBooks[i] != ""
    ensures forall i :: 0 <= i < |DefaultGenres| ==> DefaultGenres[i] != ""
    ensures forall i :: 0 <= i < |DefaultThemes| ==> DefaultThemes[i] != ""
  {
    assert DefaultBooks[0] != "";
    assert DefaultGenres[0] != "" && DefaultGenres[1] != "" && DefaultGenres[2] != "";
    assert DefaultThemes[0] != "" && DefaultThemes[1] != "" && DefaultThemes[2] != "";
  }

  /** The default-then-filter step on one list whose items are all non-empty. */
  lemma FinishListKeeps(items: seq<string>, default: seq<string>)
    requires forall i :: 0 <= i < |items| ==> items[i] != ""
    requires forall i :: 0 <= i < |default| ==> default[i] != ""
    ensures FinishList(items, default) == if items == [] then default else items
  {
  }

  /** A blank profile is replaced by the default, which the trim keeps as it is. */
  lemma FinishProfileDefault(default: string)
    ensures FinishProfile("", default) == default
  {
    assert |Trim("")| == 0;
  }

  /** Trimming the default profile leaves it unchanged, so taking it without
      the final trim is the same as the source's trim of it. */
  lemma DefaultProfileIsOwnTrim()
    ensures Trim(DefaultProfile) == DefaultProfile
  {
    DefaultProfileTrimmed();
    TrimOfTrimmed(DefaultProfile);
  }

  /** A profile built from trimmed non-empty lines is kept, and the trim
      joins the lines with single spaces. */
  lemma FinishProfileJoins(ps: seq<string>, default: string)
    requires ps != []
    requires forall i :: 0 <= i < |ps| ==> ps[i] != "" && IsTrimmed(ps[i])
    ensures FinishProfile(SpaceTerminated(ps), default) == Join(ps, " ")
  {
    TrimSpaceTerminated(ps);
    JoinKeepsEnds(ps);
    assert |Trim(SpaceTerminated(ps))| != 0;
  }

  /** The default profile has no whitespace at either end. */
  lemma DefaultProfileTrimmed()
    ensures IsTrimmed(DefaultProfile) && DefaultProfile != ""
  {
    assert DefaultProfile[|DefaultProfile| - 1] == '.';
  }

  /** `parseAnalysisText(analysisText)`. The three lists are never empty and
      hold no empty item, and the profile is never empty and trimmed. */
  function ParseAnalysisText(text: string): (r: ParsedAnalysis)
    ensures |r.booksIdentified| > 0 && |r.genres| > 0 && |r.themes| > 0
    ensures forall i :: 0 <= i < |r.booksIdentified| ==> r.booksIdentified[i] != ""
    ensures forall i :: 0 <= i < |r.genres| ==> r.genres[i] != ""
    ensures forall i :: 0 <= i < |r.themes| ==> r.themes[i] != ""
    ensures r.readerProfile != "" && IsTrimmed(r.readerProfile)
  {
    var vs := Views(Split(text, '\n'));
    RunShape(vs);
    Finish(Run(Initial, vs))
  }

  /** The loop never collects an empty item. */
  lemma CollectedItemsNonEmpty(vs: seq<LineView>, want: Section)
    requires want == Books || want == Genres || want == Themes
    ensures forall i :: 0 <= i < |ListOf(Run(Initial, vs), want)| ==> ListOf(Run(Initial, vs), want)[i] != ""
  {
    RunCollectsList(Initial, vs, want);
    assert ListOf(Run(Initial, vs), want) == Items(NoSection, vs, want);
  }

  /** The shape of the finished result, for any lines. */
  lemma RunShape(vs: seq<LineView>)
    ensures var r := Finish(Run(Initial, vs));
      && |r.booksIdentified| > 0 && |r.genres| > 0 && |r.themes| > 0
      && r.readerProfile != "" && IsTrimmed(r.readerProfile)
  {
    var st := Run(Initial, vs);
    CollectedItemsNonEmpty(vs, Books);
    CollectedItemsNonEmpty(vs, Genres);
    CollectedItemsNonEmpty(vs, Themes);
    assert ListOf(st, Books) == st.books && ListOf(st, Genres) == st.genres && ListOf(st, Themes) == st.themes;
  }

  /** The loop and the finishing stage, on lines whose texts are trimmed,
      give each list as the section's items or its default, and the profile
      as the profile lines joined by single spaces or its default. */
  lemma {:induction false} FinishRunMatchesReference(vs: seq<LineView>)
    requires forall i :: 0 <= i < |vs| ==> IsTrimmed(vs[i].text)
    ensures var r := Finish(Run(Initial, vs));
      && r.booksIdentified == (if Items(NoSection, vs, Books) == [] then DefaultBooks else Items(NoSection, vs, Books))
      && r.genres == (if Items(NoSection, vs, Genres) == [] then DefaultGenres else Items(NoSection, vs, Genres))
      && r.themes == (if Items(NoSection, vs, Themes) == [] then DefaultThemes else Items(NoSection, vs, Themes))
      && r.readerProfile == (if ProfileLines(NoSection, vs) == [] then DefaultProfile else Join(ProfileLines(NoSection, vs), " "))
  {
    FinishRunLists(vs);
    FinishRunProfile(vs);
  }

  /** The list half of `FinishRunMatchesReference`. */
  lemma {:induction false} FinishRunLists(vs: seq<LineView>)
    ensures var r := Finish(Run(Initial, vs));
      && r.booksIdentified == (if Items(NoSection, vs, Books) == [] then DefaultBooks else Items(NoSection, vs, Books))
      && r.genres == (if Items(NoSection, vs, Genres) == [] then DefaultGenres else Items(NoSection, vs, Genres))
      && r.themes == (if Items(NoSection, vs, Themes) == [] then DefaultThemes else Items(NoSection, vs, Themes))
  {
    RunCollectsList(Initial, vs, Books);
    RunCollectsList(Initial, vs, Genres);
    RunCollectsList(Initial, vs, Themes);
    var st := Run(Initial, vs);
    assert st.books == Items(NoSection, vs, Books);
    assert st.genres == Items(NoSection, vs, Genres);
    assert st.themes == Items(NoSection, vs, Themes);
    DefaultsNonEmpty();
    FinishListKeeps(st.books, DefaultBooks);
    FinishListKeeps(st.genres, DefaultGenres);
    FinishListKeeps(st.themes, DefaultThemes);
  }

  /** The profile half of `FinishRunMatchesReference`. */
  lemma {:induction false} FinishRunProfile(vs: seq<LineView>)
    requires forall i :: 0 <= i < |vs| ==> IsTrimmed(vs[i].text)
    ensures Finish(Run(Initial, vs)).readerProfile
      == (if ProfileLines(NoSection, vs) == [] then DefaultProfile else Join(ProfileLines(NoSection, vs), " "))
  {
    RunCollectsProfile(Initial, vs);
    var ps := ProfileLines(NoSection, vs);
    var st := Run(Initial, vs);
    assert st.profile == SpaceTerminated(ps);
    if ps == [] {
      FinishProfileDefault(DefaultProfile);
    } else {
      FinishProfileJoins(ps, DefaultProfile);
    }
  }

  /** The parser agrees with the reference account: each list is the
      section's cleaned items in input order, or its default when there are
      none, and the profile is the profile lines joined by single spaces. */
  lemma ParseMatchesReference(text: string)
    ensures var vs := Views(Split(text, '\n'));
      var r := ParseAnalysisText(text);
      && r.booksIdentified == (if Items(NoSection, vs, Books) == [] then DefaultBooks else Items(NoSection, vs, Books))
      && r.genres == (if Items(NoSection, vs, Genres) == [] then DefaultGenres else Items(NoSection, vs, Genres))
      && r.themes == (if Items(NoSection, vs, Themes) == [] then DefaultThemes else Items(NoSection, vs, Themes))
      && r.readerProfile == (if ProfileLines(NoSection, vs) == [] then DefaultProfile else Join(ProfileLines(NoSection, vs), " "))
  {
    FinishRunMatchesReference(Views(Split(text, '\n')));
  }

  /** A header line is consumed: it moves the cursor and adds nothing to any
      output. The first matching header in the order books, genres, themes,
      profile decides the section. */
  lemma HeaderLineConsumed(st: ParseState, line: string)
    requires LineHeader(line).Some?
    ensures Step(st, line) == st.(section := LineHeader(line).value)
    ensures var u := Upper(Trim(line));
      Step(st, line).section ==
        if Contains(u, "BOOKS IDENTIFIED") then Books
        else if Contains(u, "GENRES") then Genres
        else if Contains(u, "THEMES") then Themes
        else Profile
  {
    var v := View(line);
    var u := Upper(Trim(line));
    assert v.header == HeaderOf(u);
    HeaderMovesCursor(st, v);
  }

  lemma HeaderMovesCursor(st: ParseState, v: LineView)
    requires v.header.Some?
    ensures Apply(st, v) == st.(section := v.header.value)
  {
  }

  /** The guards of the books and genres sections can never fire: a line
      mentioning "GENRES" or "THEMES" has already been taken as a header.
      Only the themes section's guard ("READER" without "READER PROFILE")
      ever drops a line. */
  lemma BooksAndGenresGuardsUnreachable(line: string)
    requires LineHeader(line).None?
    ensures !View(line).mentionsGenres && !View(line).mentionsThemes
  {
  }

  /** In the themes section a non-header line mentioning "READER" (in any
      case) is dropped. */
  lemma ThemesReaderLineDropped(st: ParseState, line: string)
    requires st.section == Themes && LineHeader(line).None?
    requires Contains(Upper(Trim(line)), "READER")
    ensures Step(st, line) == st
  {
    var v := View(line);
    assert v.mentionsReader;
    ThemesGuardDrops(st, v);
  }

  lemma ThemesGuardDrops(st: ParseState, v: LineView)
    requires st.section == Themes && v.header.None? && v.mentionsReader
    ensures Apply(st, v) == st
  {
  }

  /** A blank or whitespace-only line changes nothing, whatever the section. */
  lemma BlankLineIgnored(st: ParseState, line: string)
    requires AllSpace(line)
    ensures Step(st, line) == st
  {
    var v := View(line);
    assert v.text == [];
    assert Upper(v.text) == [];
  }

  /** Lines that open no section contribute nothing while the cursor is unset:
      text before the first header is ignored. */
  lemma {:induction false} LeadingLinesIgnored(pre: seq<LineView>, rest: seq<LineView>, want: Section)
    requires forall i :: 0 <= i < |pre| ==> pre[i].header.None?
    ensures Items(NoSection, pre + rest, want) == Items(NoSection, rest, want)
    ensures ProfileLines(NoSection, pre + rest) == ProfileLines(NoSection, rest)
    decreases |pre|
  {
    if |pre| > 0 {
      assert (pre + rest)[0] == pre[0];
      assert (pre + rest)[1..] == pre[1..] + rest;
      LeadingLinesIgnored(pre[1..], rest, want);
    } else {
      assert pre + rest == rest;
    }
  }

  /** Text without any header line yields exactly the defaults. */
  lemma NoHeadersGivesDefaults(text: string)
    requires forall i :: 0 <= i < |Split(text, '\n')| ==> LineHeader(Split(text, '\n')[i]).None?
    ensures ParseAnalysisText(text) == ParsedAnalysis(DefaultBooks, DefaultGenres, DefaultThemes, DefaultProfile)
  {
    var lines := Split(text, '\n');
    var vs := Views(lines);
    assert forall i :: 0 <= i < |vs| ==> vs[i].header == LineHeader(lines[i]);
    NoHeadersFinishDefaults(vs);
  }

  lemma NoHeadersFinishDefaults(vs: seq<LineView>)
    requires forall i :: 0 <= i < |vs| ==> vs[i].header.None? && IsTrimmed(vs[i].text)
    ensures Finish(Run(Initial, vs)) == ParsedAnalysis(DefaultBooks, DefaultGenres, DefaultThemes, DefaultProfile)
  {
    FinishRunMatchesReference(vs);
    NothingBeforeAHeader(vs, Books);
    NothingBeforeAHeader(vs, Genres);
    NothingBeforeAHeader(vs, Themes);
  }

  /** With the cursor unset and no header anywhere, nothing is collected. */
  lemma {:induction false} NothingBeforeAHeader(vs: seq<LineView>, want: Section)
    requires forall i :: 0 <= i < |vs| ==> vs[i].header.None?
    ensures Items(NoSection, vs, want) == [] && ProfileLines(NoSection, vs) == []
    decreases |vs|
  {
    if |vs| > 0 {
      NothingBeforeAHeader(vs[1..], want);
    }
  }

  /** A list section whose lines are all kept yields their cleaned items in
      input order. */
  lemma {:induction false} ListSectionInOrder(sec: Section, body: seq<LineView>)
    requires sec == Books || sec == Genres || sec == Themes
    requires forall i :: 0 <= i < |body| ==> body[i].header.None? && Contributes(sec, sec, body[i])
    ensures Items(sec, body, sec) == seq(|body|, i requires 0 <= i < |body| => body[i].item)
    decreases |body|
  {
    if |body| > 0 {
      ListSectionInOrder(sec, body[1..]);
    }
  }

  /** Cleaning a bulleted item: the bullet and the whitespace after it go,
      the item stays. */
  lemma CleanBulletItem(bullet: char, gap: string, item: string)
    requires IsBullet(bullet) && AllSpace(gap)
    requires item == [] || (!IsSpace(item[0]) && !IsDigit(item[0]))
    ensures CleanItem([bullet] + gap + item) == item
  {
    var t := [bullet] + gap + item;
    assert t[1..] == gap + item;
    SkipSpaces(gap, item);
  }

  /** Cleaning a numbered item: the digits, the dot and the whitespace after
      it go, the item stays. */
  lemma CleanNumberedItem(digits: string, gap: string, item: string)
    requires |digits| > 0 && forall i :: 0 <= i < |digits| ==> IsDigit(digits[i])
    requires AllSpace(gap)
    requires item == [] || !IsSpace(item[0])
    ensures CleanItem(digits + ['.'] + gap + item) == item
  {
    var t := digits + ['.'] + gap + item;
    assert StripBullet(t) == t by {
      assert t[0] == digits[0];
    }
    StripNumberOf(digits, gap, item);
  }

  lemma StripNumberOf(digits: string, gap: string, item: string)
    requires |digits| > 0 && forall i :: 0 <= i < |digits| ==> IsDigit(digits[i])
    requires AllSpace(gap)
    requires item == [] || !IsSpace(item[0])
    ensures StripNumber(digits + ['.'] + gap + item) == item
  {
    var after := ['.'] + gap + item;
    var t := digits + after;
    assert t == digits + ['.'] + gap + item;
    DigitRunOf(digits, after);
    assert t[|digits|] == '.';
    assert t[|digits| + 1..] == gap + item;
    SkipSpaces(gap, item);
  }

  lemma {:induction false} SkipSpaces(gap: string, item: string)
    requires AllSpace(gap)
    requires item == [] || !IsSpace(item[0])
    ensures TrimStart(gap + item) == item
    decreases |gap|
  {
    if |gap| > 0 {
      assert (gap + item)[1..] == gap[1..] + item;
      SkipSpaces(gap[1..], item);
    } else {
      assert gap + item == item;
    }
  }

  lemma {:induction false} DigitRunOf(digits: string, rest: string)
    requires forall i :: 0 <= i < |digits| ==> IsDigit(digits[i])
    requires rest == [] || !IsDigit(rest[0])
    ensures DigitRun(digits + rest) == |digits|
    decreases |digits|
  {
    if |digits| > 0 {
      assert (digits + rest)[1..] == digits[1..] + rest;
      DigitRunOf(digits[1..], rest);
    } else {
      assert digits + rest == rest;
    }
  }
}
