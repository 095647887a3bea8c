/** The document icon: a small page preview with a red scan line that runs
    while a summary is being produced, an expand/collapse control, a hover
    context menu and a status dot. The component's effects are modelled as
    explicit commit passes; animation frames, the one-second hide timer and
    the parent's re-render with a new `isSuccess` are explicit events. */
module DocumentIcon {
  import opened Common

  datatype IconSize = Small | Medium | Large

  datatype Dimensions = Dimensions(width: nat, height: nat)

  /** `sizeConfig`: every icon is portrait and tall enough for the 4 px
      scan line to travel. */
  function SizeConfig(size: IconSize): (d: Dimensions)
    ensures d.width < d.height && d.height > 4
  {
    match size
    case Small => Dimensions(48, 64)
    case Medium => Dimensions(64, 84)
    case Large => Dimensions(80, 104)
  }

  lemma SizeTable()
    ensures SizeConfig(Small) == Dimensions(48, 64)
    ensures SizeConfig(Medium) == Dimensions(64, 84)
    ensures SizeConfig(Large) == Dimensions(80, 104)
  {
  }

  /** The status dot: error wins over success, success over processing. */
  datatype Indicator = ErrorDot | SuccessDot | ProcessingDot | NoDot

  function StatusIndicator(isError: bool, isSuccess: bool, isProcessing: bool): (c: Indicator)
    ensures c == ErrorDot <==> isError
    ensures c == SuccessDot <==> !isError && isSuccess
    ensures c == ProcessingDot <==> !isError && !isSuccess && isProcessing
    ensures c == NoDot <==> !isError && !isSuccess && !isProcessing
  {
    if isError then ErrorDot
    else if isSuccess then SuccessDot
    else if isProcessing then ProcessingDot
    else NoDot
  }

  function IndicatorColour(c: Indicator): (colour: string)
    ensures c == NoDot <==> colour == "transparent"
  {
    match c
    case ErrorDot => "#ef4444"
    case SuccessDot => "#22c55e"
    case ProcessingDot => "#f59e0b"
    case NoDot => "transparent"
  }

  /** The icon component's state. `isSuccess` is the latest value of the
      prop; `frameScheduled` says an animation frame is requested;
      `pendingHides` counts one-second hide timers not yet fired (they are
      never cancelled); the three `seen` fields are the dependency values at
      the last commit, which decide which effects run next. */
  class ScanIcon {
    const height: nat
    const hasSummarizeHandler: bool
    const pageNumber: nat
    var isSuccess: bool
    var hasStartedScan: bool
    var scanComplete: bool
    var scanPosition: real
    var isExpanded: bool
    var showContextMenu: bool
    var frameScheduled: bool
    var pendingHides: nat
    var numPages: Option<nat>
    var summarizeRequests: nat
    var seenStarted: bool
    var seenComplete: bool
    var seenSuccess: bool

    /** How far the 4 px scan line can travel. */
    function Track(): real
      requires height >= 4
    {
      (height - 4) as real
    }

    predicate AnimationDepsChanged()
      reads this
    {
      hasStartedScan != seenStarted || scanComplete != seenComplete
    }

    predicate AnyDepChanged()
      reads this
    {
      AnimationDepsChanged() || isSuccess != seenSuccess
    }

    /** `scanComplete` became true since the last commit. */
    predicate CompletionArrived()
      reads this
    {
      scanComplete && !seenComplete
    }

    /** A settled state: no effect is due, and the scan flags, the line's
        position and the animation agree. */
    ghost predicate Valid()
      reads this
    {
      && height > 4
      && pageNumber == 1
      && seenStarted == hasStartedScan && seenComplete == scanComplete && seenSuccess == isSuccess
      && (hasStartedScan && isSuccess ==> scanComplete)
      && (frameScheduled ==> hasStartedScan && !scanComplete)
      && 0.0 <= scanPosition <= Track()
      && (hasStartedScan && scanComplete ==> scanPosition == Track())
      && (!hasStartedScan ==> scanPosition == 0.0)
    }

    constructor (size: IconSize, hasSummarizeHandler: bool, isSuccess: bool)
      ensures Valid()
      ensures height == SizeConfig(size).height && this.hasSummarizeHandler == hasSummarizeHandler
      ensures this.isSuccess == isSuccess && !hasStartedScan && !scanComplete && scanPosition == 0.0
      ensures !isExpanded && !showContextMenu && !frameScheduled && pendingHides == 0
      ensures numPages == None && summarizeRequests == 0
    {
      height := SizeConfig(size).height;
      this.hasSummarizeHandler := hasSummarizeHandler;
      pageNumber := 1;
      this.isSuccess := isSuccess;
      hasStartedScan, scanComplete, scanPosition := false, false, 0.0;
      isExpanded, showContextMenu, frameScheduled, pendingHides := false, false, false, 0;
      numPages, summarizeRequests := None, 0;
      seenStarted, seenComplete, seenSuccess := false, false, isSuccess;
    }

    /** One commit. The effects run in declaration order, each only if one of
        its dependencies changed since the previous commit, each reading the
        rendered values; what they set is seen by the next render.
        The scan effect (dependencies `hasStartedScan`, `scanComplete`)
        cancels the pending frame and, while scanning, puts the line at the
        top and requests a frame; the completion detector (also `isSuccess`)
        completes a scan once the summary is there; the completion effect
        (`scanComplete`) cancels the frame, moves the line to the bottom and
        starts a hide timer. */
    method RunEffects()
      requires height > 4
      modifies this`scanComplete, this`frameScheduled, this`scanPosition, this`pendingHides
      modifies this`seenStarted, this`seenComplete, this`seenSuccess
      ensures seenStarted == hasStartedScan && seenComplete == old(scanComplete) && seenSuccess == isSuccess
      ensures scanComplete == (old(scanComplete) || (old(AnyDepChanged()) && hasStartedScan && isSuccess))
      ensures frameScheduled ==
                if old(CompletionArrived()) then false
                else if old(AnimationDepsChanged()) then hasStartedScan && !old(scanComplete)
                else old(frameScheduled)
      ensures scanPosition ==
                if old(CompletionArrived()) then Track()
                else if old(AnimationDepsChanged()) && hasStartedScan && !old(scanComplete) then 0.0
                else old(scanPosition)
      ensures pendingHides == old(pendingHides) + (if old(CompletionArrived()) then 1 else 0)
    {
      var started, complete, success := hasStartedScan, scanComplete, isSuccess;
      var animationDeps := started != seenStarted || complete != seenComplete;
      var detectorDeps := animationDeps || success != seenSuccess;
      var completionDeps := complete != seenComplete;
      if animationDeps {
        frameScheduled := false;
        if started && !complete {
          scanPosition := 0.0;
          frameScheduled := true;
        }
      }
      if detectorDeps && started && success && !complete {
        scanComplete := true;
      }
      if completionDeps && complete {
        frameScheduled := false;
        scanPosition := Track();
        pendingHides := pendingHides + 1;
      }
      seenStarted, seenComplete, seenSuccess := started, complete, success;
    }

    /** Commits until no effect is due: a second pass is needed only when the
        detector completed the scan in the first. */
    method Settle()
      requires height > 4
      modifies this`scanComplete, this`frameScheduled, this`scanPosition, this`pendingHides
      modifies this`seenStarted, this`seenComplete, this`seenSuccess
      ensures seenStarted == hasStartedScan && seenComplete == scanComplete && seenSuccess == isSuccess
      ensures scanComplete == (old(scanComplete) || (old(AnyDepChanged()) && hasStartedScan && isSuccess))
      ensures var completed := old(CompletionArrived()) || (!old(scanComplete) && scanComplete);
              && frameScheduled ==
                   (if completed then false
                    else if old(AnimationDepsChanged()) then hasStartedScan && !old(scanComplete)
                    else old(frameScheduled))
              && scanPosition ==
                   (if completed then Track()
                    else if old(AnimationDepsChanged()) && hasStartedScan && !old(scanComplete) then 0.0
                    else old(scanPosition))
              && pendingHides == old(pendingHides) + (if completed then 1 else 0)
    {
      RunEffects();
      if scanComplete != seenComplete {
        RunEffects();
      }
    }

    /** The context menu's Summarize: start a scan, then ask the parent for
        a summary. With no summary on hand the scan runs (a scan already
        running is not restarted); with a summary still on hand from before,
        the scan completes at once. */
    method Summarize()
      requires Valid()
      modifies this
      ensures Valid()
      ensures hasStartedScan && scanComplete == isSuccess
      ensures isSuccess == old(isSuccess) && isExpanded == old(isExpanded)
      ensures showContextMenu == old(showContextMenu) && numPages == old(numPages)
      ensures summarizeRequests == old(summarizeRequests) + (if hasSummarizeHandler then 1 else 0)
      ensures !isSuccess && old(hasStartedScan && !scanComplete) ==>
                frameScheduled == old(frameScheduled) && scanPosition == old(scanPosition)
      ensures !isSuccess && !old(hasStartedScan && !scanComplete) ==>
                frameScheduled && scanPosition == 0.0
      ensures isSuccess ==>
                !frameScheduled && scanPosition == Track() && pendingHides == old(pendingHides) + 1
      ensures !isSuccess ==> pendingHides == old(pendingHides)
    {
      hasStartedScan := true;
      scanComplete := false;
      if hasSummarizeHandler {
        summarizeRequests := summarizeRequests + 1;
      }
      Settle();
    }

    /** The parent re-renders with a new `isSuccess`. Only success completes
        a scan: a failed summary leaves it running. */
    method SuccessChanges(b: bool)
      requires Valid()
      modifies this
      ensures Valid()
      ensures isSuccess == b && hasStartedScan == old(hasStartedScan)
      ensures scanComplete == (old(scanComplete) || (hasStartedScan && b))
      ensures !old(scanComplete) && scanComplete ==>
                !frameScheduled && scanPosition == Track() && pendingHides == old(pendingHides) + 1
      ensures !(!old(scanComplete) && scanComplete) ==>
                frameScheduled == old(frameScheduled) && scanPosition == old(scanPosition)
                && pendingHides == old(pendingHides)
      ensures isExpanded == old(isExpanded) && showContextMenu == old(showContextMenu)
      ensures numPages == old(numPages) && summarizeRequests == old(summarizeRequests)
    {
      isSuccess := b;
      Settle();
    }

    /** An animation frame runs with the estimated fraction of the nominal
        duration; the line sits at that fraction of the track, and another
        frame is requested until the fraction reaches 1. */
    method AnimationFrame(fraction: real)
      requires Valid() && frameScheduled && 0.0 <= fraction <= 1.0
      modifies this`scanPosition, this`frameScheduled
      ensures Valid()
      ensures scanPosition == fraction * Track()
      ensures frameScheduled == (fraction < 1.0)
    {
      scanPosition := fraction * Track();
      frameScheduled := fraction < 1.0;
    }

    /** A one-second hide timer fires: the scan line is hidden and put back
        at the top. A timer left over from an earlier completion ends a scan
        that was restarted since. */
    method HideTimerFires()
      requires Valid() && pendingHides > 0
      modifies this
      ensures Valid()
      ensures !hasStartedScan && scanPosition == 0.0 && !frameScheduled
      ensures scanComplete == old(scanComplete) && isSuccess == old(isSuccess)
      ensures pendingHides == old(pendingHides) - 1
      ensures isExpanded == old(isExpanded) && showContextMenu == old(showContextMenu)
      ensures numPages == old(numPages) && summarizeRequests == old(summarizeRequests)
    {
      hasStartedScan := false;
      scanPosition := 0.0;
      pendingHides := pendingHides - 1;
      Settle();
    }

    /** The context menu's Show. */
    method HandleShow()
      modifies this`showContextMenu, this`isExpanded
      ensures !showContextMenu && isExpanded
    {
      showContextMenu := false;
      isExpanded := true;
    }

    /** The expand/collapse button toggles. */
    method HandleExpandClick()
      modifies this`isExpanded
      ensures isExpanded == !old(isExpanded)
    {
      isExpanded := !isExpanded;
    }

    /** A click on the backdrop always collapses. */
    method BackdropClick()
      modifies this`isExpanded
      ensures !isExpanded
    {
      isExpanded := false;
    }

    /** Hovering shows the menu, but only while collapsed. */
    method MouseEnter()
      modifies this`showContextMenu
      ensures showContextMenu == (old(showContextMenu) || !isExpanded)
    {
      if !isExpanded {
        showContextMenu := true;
      }
    }

    method MouseLeave()
      modifies this`showContextMenu
      ensures showContextMenu == (old(showContextMenu) && isExpanded)
    {
      if !isExpanded {
        showContextMenu := false;
      }
    }

    /** The preview reports its page count; the page shown stays 1. */
    method DocumentLoaded(n: nat)
      modifies this`numPages
      ensures numPages == Some(n)
    {
      numPages := Some(n);
    }

    /** The context menu is mounted only with a summarize handler and while
        collapsed; it takes clicks only while shown. */
    predicate MenuMounted()
      reads this
    {
      hasSummarizeHandler && !isExpanded
    }

    predicate MenuClickable()
      reads this
    {
      MenuMounted() && showContextMenu
    }

    /** The scan line is drawn only while a scan has started. */
    predicate ScanLineDrawn()
      reads this
    {
      hasStartedScan
    }
  }

  /** Two clicks on the expand control leave the icon as it was. */
  method ExpandTwice(icon: ScanIcon)
    modifies icon
    ensures icon.isExpanded == old(icon.isExpanded)
  {
    icon.HandleExpandClick();
    icon.HandleExpandClick();
  }

  /** A scan that the summary never ends: summarize, the parent reports an
      error but no success, animation frames run to the end, and the scan is
      still under way with the line at the bottom. */
  method FailedSummaryKeepsScanning(icon: ScanIcon)
    requires icon.Valid() && !icon.isSuccess && !icon.hasStartedScan
    modifies icon
    ensures icon.Valid() && icon.hasStartedScan && !icon.scanComplete
    ensures icon.scanPosition == icon.Track() && !icon.frameScheduled
  {
    icon.Summarize();
    icon.SuccessChanges(false);
    icon.AnimationFrame(0.5);
    icon.AnimationFrame(1.0);
  }
}
