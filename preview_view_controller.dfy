/**
 * `PreviewViewController`: the Quick Look preview. Preparing a preview runs
 * the content gate and the load, then either installs a playing animation
 * view, reports `notALottieFile` without changing the display, or shows an
 * error label and reports the error. The controller holds at most one
 * animation view and one error label, and each setup takes both off screen
 * before putting up the new one.
 */
module PreviewViewController {
  import opened Wrappers
  import opened Text
  import opened ThorVG
  import opened LottieFileHandler
  import opened LottieAnimationView

  /** The text of the label `showError` puts up. */
  const FailedToLoadMessage := "Failed to load animation"

  /** What `preparePreviewOfFile` does once the file is examined. */
  datatype PreviewOutcome =
    | ShowAnimation(lottie: Lottie)
    | ReportSilently(error: LottieFileError)
    | ShowErrorAndReport(error: LottieFileError)

  /** The branch `preparePreviewOfFile(at:completionHandler:)` takes. */
  function PreviewOutcomeFor(file: FileRef, openResult: Option<Lottie>): (outcome: PreviewOutcome)
    ensures match outcome
      case ShowAnimation(lottie) => openResult == Some(lottie) && IsLikelyLottieFile(file)
      case ReportSilently(e) => e == NotALottieFile
      case ShowErrorAndReport(e) => e == InvalidFormat
  {
    if Lowercased(file.pathExtension) == "json" && !IsLikelyLottieFile(file) then
      ReportSilently(NotALottieFile)
    else
      match LoadLottie(file, openResult)
      case Success(lottie) => ShowAnimation(lottie)
      case Failure(NotALottieFile) => ReportSilently(NotALottieFile)
      case Failure(e) => ShowErrorAndReport(e)
  }

  /** The argument the completion handler receives. */
  function Reported(outcome: PreviewOutcome): (e: Option<LottieFileError>)
    ensures e.None? <==> outcome.ShowAnimation?
  {
    match outcome
    case ShowAnimation(_) => None
    case ReportSilently(e) => Some(e)
    case ShowErrorAndReport(e) => Some(e)
  }

  /**
   * A `json` file the content heuristic rejects is reported as `notALottieFile`
   * whatever opening it would have given: it is never loaded.
   */
  lemma RejectedJsonReported(file: FileRef, openResult: Option<Lottie>, other: Option<Lottie>)
    ensures Lowercased(file.pathExtension) == "json" && !IsLikelyLottieFile(file) ==>
      && PreviewOutcomeFor(file, openResult) == ReportSilently(NotALottieFile)
      && PreviewOutcomeFor(file, other) == ReportSilently(NotALottieFile)
  {
  }

  /**
   * The animation is shown exactly when the file passes the gate, has a
   * supported extension and opens; it is then the opened animation.
   */
  lemma ShowsAnimationWhen(file: FileRef, openResult: Option<Lottie>)
    ensures PreviewOutcomeFor(file, openResult).ShowAnimation? <==>
      && !(Lowercased(file.pathExtension) == "json" && !IsLikelyLottieFile(file))
      && IsSupportedExtension(Lowercased(file.pathExtension))
      && openResult.Some?
    ensures PreviewOutcomeFor(file, openResult).ShowAnimation? ==>
      openResult == Some(PreviewOutcomeFor(file, openResult).lottie)
  {
  }

  /**
   * The error label is only ever shown for `invalidFormat`, that is for an
   * extension other than `json` and `lot`; a supported file that fails to
   * open is reported silently.
   */
  lemma ErrorLabelOnlyForUnsupported(file: FileRef, openResult: Option<Lottie>)
    ensures PreviewOutcomeFor(file, openResult).ShowErrorAndReport? <==>
      !IsSupportedExtension(Lowercased(file.pathExtension))
    ensures PreviewOutcomeFor(file, openResult).ShowErrorAndReport? ==>
      PreviewOutcomeFor(file, openResult).error == InvalidFormat
    ensures PreviewOutcomeFor(file, openResult).ReportSilently? ==>
      PreviewOutcomeFor(file, openResult).error == NotALottieFile
  {
    var ext := Lowercased(file.pathExtension);
    if !IsSupportedExtension(ext) {
      assert ext != "json";
    }
  }

  /** `NSTextField(labelWithString:)`. */
  class Label {
    const text: string

    constructor(text: string)
      ensures this.text == text
    {
      this.text := text;
    }
  }

  class PreviewController {
    var animationView: AnimationView?
    var errorLabel: Label?
    /** The views currently added to the controller's view. */
    var subviews: set<object>

    /** The views held in the two slots. */
    ghost function Slots(): set<object>
      reads this
    {
      (if animationView != null then {animationView as object} else {}) +
      (if errorLabel != null then {errorLabel as object} else {})
    }

    /** Only the slots' views are on screen, and the animation view, if any, is in a consistent state. */
    ghost predicate Valid()
      reads this, animationView
    {
      && subviews <= Slots()
      && (animationView != null ==> animationView.Valid())
    }

    /** The controller once `loadView` has run: nothing shown yet. */
    constructor()
      ensures Valid()
      ensures animationView == null && errorLabel == null && subviews == {}
    {
      animationView := null;
      errorLabel := null;
      subviews := {};
    }

    /** `viewDidDisappear()`: stops the animation view's playback, if there is one. */
    method ViewDidDisappear()
      requires Valid()
      modifies animationView
      ensures Valid()
      ensures animationView != null ==> !animationView.displayLinkRunning
      ensures animationView != null ==>
        && animationView.currentFrame == old(animationView.currentFrame)
        && animationView.layerContents == old(animationView.layerContents)
        && animationView.lastRenderTime == old(animationView.lastRenderTime)
        && animationView.queuedAdvances == old(animationView.queuedAdvances)
        && animationView.renderWidth == old(animationView.renderWidth)
        && animationView.renderHeight == old(animationView.renderHeight)
      ensures animationView == old(animationView) && errorLabel == old(errorLabel) && subviews == old(subviews)
    {
      if animationView != null {
        animationView.Stop();
      }
    }

    /**
     * `setupAnimationView(with:)`: takes both slots' views off screen, adds a
     * new animation view for `lottie` and starts it (`now` and `linkCreated` as
     * for `play`). The replaced animation view loses its last reference, so its
     * `deinit` stops it.
     */
    method SetupAnimationView(lottie: Lottie, now: real, linkCreated: bool)
      requires Valid()
      modifies this, animationView
      ensures Valid()
      ensures fresh(animationView) && animationView.lottie == lottie
      ensures subviews == {animationView}
      ensures errorLabel == old(errorLabel)
      ensures animationView.displayLinkRunning == linkCreated && animationView.currentFrame == 0.0
      ensures animationView.lastRenderTime == (if linkCreated then now else 0.0)
      ensures animationView.renderWidth == 0 && animationView.renderHeight == 0
      ensures animationView.queuedAdvances == 0 && animationView.layerContents.None?
      ensures old(animationView) != null ==> !old(animationView).displayLinkRunning
    {
      var previous := animationView;
      if animationView != null {
        subviews := subviews - {animationView};
      }
      if errorLabel != null {
        subviews := subviews - {errorLabel};
      }
      var animView := new AnimationView(lottie);
      subviews := subviews + {animView};
      animationView := animView;
      if previous != null {
        previous.Deinit();
      }
      animView.Play(now, linkCreated);
    }

    /**
     * `showError(_:)`: takes both slots' views off screen and puts up a label
     * with `message`. The animation view stays referenced and keeps its state.
     */
    method ShowError(message: string)
      requires Valid()
      modifies this
      ensures Valid()
      ensures fresh(errorLabel) && errorLabel.text == message
      ensures subviews == {errorLabel}
      ensures animationView == old(animationView)
    {
      if animationView != null {
        subviews := subviews - {animationView};
      }
      if errorLabel != null {
        subviews := subviews - {errorLabel};
      }
      var newLabel := new Label(message);
      subviews := subviews + {newLabel};
      errorLabel := newLabel;
    }

    /**
     * `preparePreviewOfFile(at:completionHandler:)`, with the work on the
     * background and main queues run in order: returns what the handler is
     * called with, after updating the display as the outcome says.
     */
    method PreparePreview(file: FileRef, openResult: Option<Lottie>, now: real, linkCreated: bool)
      returns (reported: Option<LottieFileError>)
      requires Valid()
      modifies this, animationView
      ensures Valid()
      ensures reported == Reported(PreviewOutcomeFor(file, openResult))
      ensures match PreviewOutcomeFor(file, openResult)
        case ShowAnimation(lottie) =>
          && fresh(animationView) && animationView.lottie == lottie
          && subviews == {animationView}
          && animationView.displayLinkRunning == linkCreated && animationView.currentFrame == 0.0
          && animationView.lastRenderTime == (if linkCreated then now else 0.0)
          && animationView.renderWidth == 0 && animationView.renderHeight == 0
          && animationView.queuedAdvances == 0 && animationView.layerContents.None?
          && errorLabel == old(errorLabel)
          && (old(animationView) != null ==> !old(animationView).displayLinkRunning)
        case ReportSilently(_) =>
          && animationView == old(animationView) && errorLabel == old(errorLabel)
          && subviews == old(subviews)
        case ShowErrorAndReport(_) =>
          && fresh(errorLabel) && errorLabel.text == FailedToLoadMessage
          && subviews == {errorLabel}
          && animationView == old(animationView)
      ensures !PreviewOutcomeFor(file, openResult).ShowAnimation? && old(animationView) != null ==>
        unchanged(old(animationView))
    {
      var outcome := PreviewOutcomeFor(file, openResult);
      match outcome
      case ShowAnimation(lottie) =>
        SetupAnimationView(lottie, now, linkCreated);
        reported := None;
      case ReportSilently(e) =>
        reported := Some(e);
      case ShowErrorAndReport(e) =>
        ShowError(FailedToLoadMessage);
        reported := Some(e);
    }
  }
}
