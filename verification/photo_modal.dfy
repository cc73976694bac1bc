/** The lightbox of `components/PhotoModal.tsx`: which keys it reacts to, and
    what it shows for a list of photos, an index and an open flag. Styling,
    image URLs and the page-scroll lock are not modelled. */
module PhotoModal {
  import opened MediaTypes

  /** What a key press asks the gallery to do. */
  datatype KeyAction = CloseModal | NavigateTo(direction: Direction) | NoAction

  /** `handleKeyDown`: nothing while closed; Escape closes, the left and
      right arrows navigate, every other key is ignored. */
  function HandleKey(isOpen: bool, key: string): (a: KeyAction)
    ensures !isOpen ==> a == NoAction
    ensures a == CloseModal <==> isOpen && key == "Escape"
    ensures a == NavigateTo(Prev) <==> isOpen && key == "ArrowLeft"
    ensures a == NavigateTo(Next) <==> isOpen && key == "ArrowRight"
  {
    if !isOpen then NoAction
    else if key == "Escape" then CloseModal
    else if key == "ArrowLeft" then NavigateTo(Prev)
    else if key == "ArrowRight" then NavigateTo(Next)
    else NoAction
  }

  /** One entry of the thumbnail strip. */
  datatype Thumbnail = Thumbnail(photo: CosmicMedia, active: bool)

  /** What the modal renders: nothing, or the current photo with its
      `position of total` label and the thumbnail strip. */
  datatype ModalView =
    | Hidden
    | Shown(photo: CosmicMedia, position: nat, total: nat, thumbnails: seq<Thumbnail>)

  /** The strip: every photo in order, marked active exactly at `currentIndex`. */
  function Strip(photos: seq<CosmicMedia>, currentIndex: int): (strip: seq<Thumbnail>)
    ensures |strip| == |photos|
    ensures forall i :: 0 <= i < |photos| ==> strip[i].photo == photos[i] && (strip[i].active <==> i == currentIndex)
  {
    seq(|photos|, i requires 0 <= i < |photos| => Thumbnail(photos[i], i == currentIndex))
  }

  /** The render function: the guard `!isOpen || currentIndex < 0 ||
      !photos[currentIndex]` hides the modal (every photo object is truthy,
      so the last test is "the index is past the end"). */
  function Render(photos: seq<CosmicMedia>, currentIndex: int, isOpen: bool): (v: ModalView)
    ensures v.Shown? <==> isOpen && 0 <= currentIndex < |photos|
    ensures v.Shown? ==>
      && v.photo == photos[currentIndex]
      && v.position == currentIndex + 1
      && 1 <= v.position <= v.total
      && v.total == |photos|
      && |v.thumbnails| == |photos|
      && (forall i :: 0 <= i < |photos| ==> v.thumbnails[i].photo == photos[i])
  {
    if !isOpen || currentIndex < 0 || currentIndex >= |photos| then Hidden
    else Shown(photos[currentIndex], currentIndex + 1, |photos|, Strip(photos, currentIndex))
  }

  /** Exactly one thumbnail is marked active, the one of the photo shown. */
  lemma OneActiveThumbnail(photos: seq<CosmicMedia>, currentIndex: int, isOpen: bool, i: int)
    requires Render(photos, currentIndex, isOpen).Shown?
    requires 0 <= i < |photos|
    ensures Render(photos, currentIndex, isOpen).thumbnails[i].active <==> i == currentIndex
    ensures Render(photos, currentIndex, isOpen).thumbnails[i].active ==>
      Render(photos, currentIndex, isOpen).thumbnails[i].photo == Render(photos, currentIndex, isOpen).photo
  {
  }
}
