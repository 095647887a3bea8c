/** The PDF viewer's toolbar state: page navigation clamped to the page
    count, quarter-turn rotation, and the load-success and load-error
    callbacks of the rendering library. */
module PdfViewer {
  import opened Common

  /** The previous-page updater: `max(1, page - 1)`. */
  function PrevPage(page: int): (r: int)
    ensures r >= 1
    ensures page > 1 ==> r == page - 1
    ensures page <= 1 ==> r == 1
  {
    if page - 1 > 1 then page - 1 else 1
  }

  /** The next-page updater: `min(numPages, page + 1)`. */
  function NextPage(page: int, numPages: int): (r: int)
    ensures r <= numPages
    ensures page < numPages ==> r == page + 1
    ensures numPages <= page ==> r == numPages
    ensures 1 <= page <= numPages ==> 1 <= r <= numPages
  {
    if numPages < page + 1 then numPages else page + 1
  }

  /** The rotation updater: a quarter turn clockwise, modulo 360. */
  function Rotate(r: int): (q: int)
    requires r >= 0
    ensures 0 <= q < 360
    ensures 0 <= r < 270 ==> q == r + 90
    ensures 270 <= r < 360 ==> q == r - 270
  {
    (r + 90) % 360
  }

  predicate IsQuarterTurn(r: int) {
    r == 0 || r == 90 || r == 180 || r == 270
  }

  lemma RotateKeepsQuarterTurns(r: int)
    requires IsQuarterTurn(r)
    ensures IsQuarterTurn(Rotate(r))
  {
  }

  /** Four quarter turns are the identity on every angle below 360. */
  lemma FourRotationsIdentity(r: int)
    requires 0 <= r < 360
    ensures Rotate(Rotate(Rotate(Rotate(r)))) == r
  {
  }

  /** The Previous button is disabled iff the page is at most 1: on every
      page the viewer can show, exactly when pressing it would not move. */
  predicate PrevDisabled(page: int): (d: bool)
    ensures page >= 1 ==> (d <==> PrevPage(page) == page)
  {
    page <= 1
  }

  /** The Next button is disabled iff the page is at least the page count:
      up to the last page, exactly when pressing it would not move. */
  predicate NextDisabled(page: int, numPages: int): (d: bool)
    ensures page <= numPages ==> (d <==> NextPage(page, numPages) == page)
  {
    page >= numPages
  }

  /** An enabled button moves by exactly one page, and a disabled Previous
      button would not move at page 1. */
  lemma EnabledButtonsStep(page: int, numPages: int)
    ensures !PrevDisabled(page) ==> PrevPage(page) == page - 1
    ensures !NextDisabled(page, numPages) ==> NextPage(page, numPages) == page + 1
    ensures PrevDisabled(page) && page == 1 ==> PrevPage(page) == page
  {
  }

  const LoadErrorMessage: string := "Failed to load PDF. Please try uploading a different file."

  class Viewer {
    var numPages: nat
    var pageNumber: int
    var rotation: int
    var isLoading: bool
    var error: Option<string>

    ghost predicate Valid()
      reads this
    {
      pageNumber >= 0 && IsQuarterTurn(rotation)
    }

    constructor ()
      ensures Valid()
      ensures numPages == 0 && pageNumber == 1 && rotation == 0 && isLoading && error == None
      ensures NextDisabledNow() && PrevDisabledNow()
    {
      numPages, pageNumber, rotation, isLoading, error := 0, 1, 0, true, None;
    }

    predicate PrevDisabledNow()
      reads this
    {
      PrevDisabled(pageNumber)
    }

    predicate NextDisabledNow()
      reads this
    {
      NextDisabled(pageNumber, numPages)
    }

    /** While an error is shown the document is not rendered. */
    predicate DocumentRendered()
      reads this
    {
      error == None
    }

    method OnDocumentLoadSuccess(n: nat)
      modifies this`numPages, this`isLoading, this`error
      ensures numPages == n && !isLoading && error == None
    {
      numPages := n;
      isLoading := false;
      error := None;
    }

    method OnDocumentLoadError()
      modifies this`isLoading, this`error
      ensures error == Some(LoadErrorMessage) && !isLoading && !DocumentRendered()
    {
      error := Some(LoadErrorMessage);
      isLoading := false;
    }

    /** Previous page; nothing but the page number changes. */
    method GoToPrevPage()
      requires Valid()
      modifies this`pageNumber
      ensures Valid()
      ensures pageNumber == PrevPage(old(pageNumber))
      ensures 1 <= old(pageNumber) <= numPages ==> 1 <= pageNumber <= numPages
    {
      pageNumber := PrevPage(pageNumber);
    }

    /** Next page; nothing but the page number changes. */
    method GoToNextPage()
      requires Valid()
      modifies this`pageNumber
      ensures Valid()
      ensures pageNumber == NextPage(old(pageNumber), numPages)
      ensures 1 <= old(pageNumber) <= numPages ==> 1 <= pageNumber <= numPages
    {
      pageNumber := NextPage(pageNumber, numPages);
    }

    /** Rotate; nothing but the rotation changes. */
    method RotateClockwise()
      requires Valid()
      modifies this`rotation
      ensures Valid()
      ensures rotation == Rotate(old(rotation))
    {
      RotateKeepsQuarterTurns(rotation);
      rotation := Rotate(rotation);
    }
  }
}
