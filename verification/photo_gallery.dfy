/** The gallery page of `components/PhotoGallery.tsx`: the photo list, the
    selected index (`-1` when the lightbox is closed) and the upload panel
    flag, with the event handlers as state transitions. Fetching the list and
    the loading flag are not modelled. */
module PhotoGallery {
  import opened MediaTypes
  import PhotoModal

  datatype GalleryState = GalleryState(photos: seq<CosmicMedia>, selected: int, showUpload: bool)

  /** `isOpen={selectedPhotoIndex >= 0}`. */
  predicate IsOpen(g: GalleryState) {
    g.selected >= 0
  }

  /** The states the handlers can reach: closed, or a photo selected. */
  predicate Valid(g: GalleryState) {
    -1 <= g.selected < |g.photos|
  }

  /** The modal as the page renders it. */
  function Modal(g: GalleryState): PhotoModal.ModalView {
    PhotoModal.Render(g.photos, g.selected, IsOpen(g))
  }

  /** In a reachable state the modal shows a photo exactly when it is open. */
  lemma ValidOpenShows(g: GalleryState)
    requires Valid(g)
    ensures Modal(g).Shown? <==> IsOpen(g)
    ensures IsOpen(g) ==> Modal(g).photo == g.photos[g.selected]
  {
  }

  // ----- Navigation -----

  /** The `'prev'` update: back one, from the first to the last. */
  function PrevIndex(i: int, n: int): (j: int)
    ensures 0 <= i < n ==> 0 <= j < n
    ensures i > 0 ==> j == i - 1
    ensures n > 0 && i == 0 ==> j == n - 1
  {
    if i > 0 then i - 1 else n - 1
  }

  /** The `'next'` update: on one, from the last to the first. */
  function NextIndex(i: int, n: int): (j: int)
    ensures 0 <= i < n ==> 0 <= j < n
    ensures i < n - 1 ==> j == i + 1
    ensures n > 0 && i == n - 1 ==> j == 0
  {
    if i < n - 1 then i + 1 else 0
  }

  /** `handleNavigate(direction)`: only the index moves. */
  function Navigate(g: GalleryState, d: Direction): (h: GalleryState)
    ensures h.photos == g.photos && h.showUpload == g.showUpload
    ensures 0 <= g.selected < |g.photos| ==> 0 <= h.selected < |h.photos|
    ensures d == Next && 0 <= g.selected < |g.photos| - 1 ==> h.selected == g.selected + 1
    ensures d == Prev && 0 < g.selected < |g.photos| ==> h.selected == g.selected - 1
  {
    match d
    case Prev => g.(selected := PrevIndex(g.selected, |g.photos|))
    case Next => g.(selected := NextIndex(g.selected, |g.photos|))
  }

  /** Going back undoes going forward, and the other way round. */
  lemma PrevNextInverse(i: int, n: int)
    requires 0 <= i < n
    ensures PrevIndex(NextIndex(i, n), n) == i
    ensures NextIndex(PrevIndex(i, n), n) == i
  {
  }

  /** `k` presses of "next". */
  function NextTimes(i: int, n: int, k: nat): int
    decreases k
  {
    if k == 0 then i else NextIndex(NextTimes(i, n, k - 1), n)
  }

  /** Presses add up: `a` presses then `b` presses are `a + b` presses. */
  lemma {:induction false} NextTimesAdd(i: int, n: int, a: nat, b: nat)
    ensures NextTimes(i, n, a + b) == NextTimes(NextTimes(i, n, a), n, b)
    decreases b
  {
    if b > 0 {
      NextTimesAdd(i, n, a, b - 1);
    }
  }

  /** Before the end of the list, `k` presses move `k` places on. */
  lemma {:induction false} NextAdvances(i: int, n: int, k: nat)
    requires 0 <= i && i + k < n
    ensures NextTimes(i, n, k) == i + k
    decreases k
  {
    if k > 0 {
      NextAdvances(i, n, k - 1);
    }
  }

  /** "Next" walks the photos cyclically: `n` presses from any photo visit
      every other photo once and come back to it. */
  lemma NextCycles(i: int, n: int)
    requires 0 <= i < n
    ensures NextTimes(i, n, n) == i
    ensures forall k: nat :: 0 < k < n ==> NextTimes(i, n, k) != i
  {
    var toLast: nat := n - 1 - i;
    NextAdvances(i, n, toLast);
    assert NextTimes(i, n, toLast + 1) == 0;
    NextTimesAdd(i, n, toLast + 1, i);
    NextAdvances(0, n, i);
    forall k: nat | 0 < k < n ensures NextTimes(i, n, k) != i {
      if k <= toLast {
        NextAdvances(i, n, k);
      } else {
        NextTimesAdd(i, n, toLast + 1, k - toLast - 1);
        NextAdvances(0, n, k - toLast - 1);
      }
    }
  }

  // ----- The other handlers -----

  /** `handleCloseModal`. */
  function Close(g: GalleryState): (h: GalleryState)
    ensures !IsOpen(h) && Valid(h)
    ensures h.photos == g.photos && h.showUpload == g.showUpload
  {
    g.(selected := -1)
  }

  /** `handlePhotoClick` and `handleThumbnailClick`: select the clicked position. */
  function Select(g: GalleryState, index: int): (h: GalleryState)
    ensures h.selected == index && h.photos == g.photos && h.showUpload == g.showUpload
    ensures 0 <= index < |g.photos| ==> IsOpen(h) && Valid(h) && Modal(h).Shown? && Modal(h).photo == g.photos[index]
  {
    g.(selected := index)
  }

  /** `handleUploadSuccess`: the new photo goes first and the panel closes.
      The selected index is left as it is. */
  function UploadSucceeded(g: GalleryState, photo: CosmicMedia): (h: GalleryState)
    ensures |h.photos| == |g.photos| + 1 && h.photos[0] == photo
    ensures forall i :: 0 <= i < |g.photos| ==> h.photos[i + 1] == g.photos[i]
    ensures !h.showUpload && h.selected == g.selected
  {
    g.(photos := [photo] + g.photos, showUpload := false)
  }

  /** The header button. */
  function ToggleUpload(g: GalleryState): (h: GalleryState)
    ensures h.showUpload != g.showUpload && h.photos == g.photos && h.selected == g.selected
  {
    g.(showUpload := !g.showUpload)
  }

  /** A key press on the page, routed through the modal's key handler. */
  function OnKey(g: GalleryState, key: string): (h: GalleryState)
    ensures !IsOpen(g) ==> h == g
    ensures h.photos == g.photos && h.showUpload == g.showUpload
  {
    match PhotoModal.HandleKey(IsOpen(g), key)
    case CloseModal => Close(g)
    case NavigateTo(d) => Navigate(g, d)
    case NoAction => g
  }

  /** Every handler keeps the state reachable: clicks select a shown
      position, keys and buttons never push the index out of range, and an
      upload only lengthens the list. */
  lemma HandlersKeepValid(g: GalleryState, key: string, d: Direction, index: int, photo: CosmicMedia)
    requires Valid(g)
    ensures Valid(OnKey(g, key))
    ensures IsOpen(g) ==> Valid(Navigate(g, d))
    ensures 0 <= index < |g.photos| ==> Valid(Select(g, index))
    ensures Valid(Close(g)) && Valid(UploadSucceeded(g, photo)) && Valid(ToggleUpload(g))
  {
  }

  /** While browsing, arrow keys keep a photo on screen; Escape hides it. */
  lemma KeysWhileOpen(g: GalleryState, key: string)
    requires Valid(g) && IsOpen(g)
    ensures key == "Escape" ==> Modal(OnKey(g, key)) == PhotoModal.Hidden
    ensures key != "Escape" ==> Modal(OnKey(g, key)).Shown?
  {
  }

  /** An upload while the lightbox is open shifts the list under the fixed
      index: the modal then shows the photo that was before the current one
      (or the new photo, at the first position). */
  lemma UploadWhileOpenShiftsView(g: GalleryState, photo: CosmicMedia)
    requires Valid(g) && IsOpen(g)
    ensures var h := UploadSucceeded(g, photo);
      Modal(h).Shown? && Modal(h).photo == if g.selected == 0 then photo else g.photos[g.selected - 1]
  {
    var h := UploadSucceeded(g, photo);
    if g.selected > 0 {
      assert h.photos[g.selected] == g.photos[g.selected - 1];
    }
  }
}
