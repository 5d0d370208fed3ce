/**
 * The image-crop page's state and its reactions to events (src/page/ImageCrop.jsx).
 *
 * The page keeps five state values: the image's data URL, the crop the widget
 * shows, the crop committed at the end of the last gesture, and a scale and a
 * rotation handed to the preview renderer. Each event handler replaces some of
 * them. An effect keyed on (completedCrop, scale, rotate) then decides whether
 * the external renderer `canvasPreview` is called, and with what.
 *
 * The renderer itself is not modelled: a call to it is recorded as the
 * arguments it receives. The image element exists exactly when an image source
 * is set, and the preview canvas exactly when a completed crop exists, so the
 * two element refs the effect tests are derived from the state.
 */
module CropPage {
  import opened Wrappers
  import opened CropGeometry

  /** The page's React state. `None` stands for `undefined`. */
  datatype PageState = PageState(
    imgSrc: string,
    crop: Option<Crop>,
    completedCrop: Option<Crop>,
    scale: real,
    rotate: real)

  /** The arguments of one canvasPreview call, besides the image and canvas elements. */
  datatype RenderCall = RenderCall(crop: Crop, scale: real, rotate: real)

  /** The events the page reacts to. */
  datatype Event =
    | SelectFile(files: Option<nat>)      // the file input changed: no file list, or how many files it holds
    | FileRead(result: string)            // the FileReader finished: its data URL
    | ImageLoad(width: real, height: real) // the image element loaded, at this displayed size
    | CropChange(c: Crop)                 // the crop widget moved the crop
    | CropComplete(c: Crop)               // the crop widget ended a gesture

  /** The state on mount. */
  function Initial(): PageState
  {
    PageState("", None, None, 1.0, 0.0)
  }

  /** The image element (and the crop widget around it) is mounted: `!!imgSrc`. */
  predicate ImageMounted(s: PageState)
  {
    s.imgSrc != ""
  }

  /** The preview canvas (and the download button) is mounted: `!!completedCrop`. */
  predicate CanvasMounted(s: PageState)
  {
    s.completedCrop.Some?
  }

  /** `e.target.files && e.target.files.length > 0` */
  predicate FilesChosen(files: Option<nat>)
  {
    files.Some? && files.value > 0
  }

  /** The state update an event handler performs. */
  function Apply(s: PageState, e: Event): (next: PageState)
    ensures next.scale == s.scale && next.rotate == s.rotate
    ensures next.imgSrc != s.imgSrc ==> e.FileRead?
    ensures next.completedCrop != s.completedCrop ==> e.CropComplete?
    ensures next.crop != s.crop ==> e.SelectFile? || e.ImageLoad? || e.CropChange?
    ensures e.CropComplete? ==> next.completedCrop == Some(e.c)
  {
    match e
    case SelectFile(files) => if FilesChosen(files) then s.(crop := None) else s
    case FileRead(result) => s.(imgSrc := result)
    case ImageLoad(w, h) => s.(crop := Some(CenterAspectCrop(w, h)))
    case CropChange(c) => s.(crop := Some(c))
    case CropComplete(c) => s.(completedCrop := Some(c))
  }

  /** The condition of the preview effect: a completed crop with a non-zero
      width and a non-zero height, and both element refs set. */
  predicate RenderGuard(completedCrop: Option<Crop>, imgRef: bool, canvasRef: bool)
  {
    completedCrop.Some? && completedCrop.value.width != 0.0 && completedCrop.value.height != 0.0
    && imgRef && canvasRef
  }

  /** What the preview effect does when it runs in state s: the canvasPreview call, if any. */
  function Effect(s: PageState): (r: Option<RenderCall>)
    ensures r.Some? <==>
      s.completedCrop.Some? && s.completedCrop.value.width != 0.0 && s.completedCrop.value.height != 0.0
      && s.imgSrc != ""
    ensures r.Some? ==>
      r.value.crop == s.completedCrop.value && r.value.scale == s.scale && r.value.rotate == s.rotate
  {
    if RenderGuard(s.completedCrop, ImageMounted(s), CanvasMounted(s)) then
      Some(RenderCall(s.completedCrop.value, s.scale, s.rotate))
    else
      None
  }

  /** The event changes one of the effect's dependencies. Only onComplete
      stores a new completedCrop; nothing ever sets scale or rotate. */
  predicate ChangesDependency(e: Event)
  {
    e.CropComplete?
  }

  function Calls(r: Option<RenderCall>): (calls: seq<RenderCall>)
  {
    match r
    case None => []
    case Some(call) => [call]
  }

  /** One event: the handler's update, then the effect if a dependency changed. */
  function Step(s: PageState, e: Event): (r: (PageState, Option<RenderCall>))
    ensures r.1.Some? <==> e.CropComplete? && e.c.width != 0.0 && e.c.height != 0.0 && s.imgSrc != ""
    ensures r.1.Some? ==> r.1.value == RenderCall(e.c, s.scale, s.rotate)
  {
    var next := Apply(s, e);
    (next, if ChangesDependency(e) then Effect(next) else None)
  }

  function CompletionCount(es: seq<Event>): (n: nat)
  {
    if es == [] then 0 else (if es[0].CropComplete? then 1 else 0) + CompletionCount(es[1..])
  }

  /** The crops the widget delivered as completed in a sequence of events. */
  function Completed(es: seq<Event>): (crops: set<Crop>)
  {
    set i | 0 <= i < |es| && es[i].CropComplete? :: es[i].c
  }

  /** A sequence of events from state s: the final state and every canvasPreview call, in order.
      There is at most one call per completed gesture. */
  function Run(s: PageState, es: seq<Event>): (r: (PageState, seq<RenderCall>))
    ensures |r.1| <= CompletionCount(es)
    decreases |es|
  {
    if es == [] then (s, [])
    else
      var (next, call) := Step(s, es[0]);
      var (last, calls) := Run(next, es[1..]);
      (last, Calls(call) + calls)
  }

  lemma CompletedTail(es: seq<Event>)
    requires es != []
    ensures Completed(es[1..]) <= Completed(es)
    ensures es[0].CropComplete? ==> es[0].c in Completed(es)
  {
  }

  /** Every canvasPreview call draws a crop that the widget delivered as
      completed, and never one with a zero width or height. */
  lemma {:induction false} RunRendersOnlyCompletedCrops(s: PageState, es: seq<Event>)
    ensures forall call :: call in Run(s, es).1 ==>
      call.crop in Completed(es) && call.crop.width != 0.0 && call.crop.height != 0.0
    decreases |es|
  {
    if es != [] {
      RunRendersOnlyCompletedCrops(Step(s, es[0]).0, es[1..]);
      CompletedTail(es);
    }
  }

  /** Scale and rotate never change, and every canvasPreview call receives the current ones. */
  lemma {:induction false} RunKeepsTransform(s: PageState, es: seq<Event>)
    ensures Run(s, es).0.scale == s.scale && Run(s, es).0.rotate == s.rotate
    ensures forall call :: call in Run(s, es).1 ==> call.scale == s.scale && call.rotate == s.rotate
    decreases |es|
  {
    if es != [] {
      RunKeepsTransform(Step(s, es[0]).0, es[1..]);
    }
  }

  /** From the initial state, the preview is always drawn at scale 1 without rotation. */
  lemma ReachableRendersUseIdentityTransform(es: seq<Event>)
    ensures Run(Initial(), es).0.scale == 1.0 && Run(Initial(), es).0.rotate == 0.0
    ensures forall call :: call in Run(Initial(), es).1 ==> call.scale == 1.0 && call.rotate == 0.0
  {
    RunKeepsTransform(Initial(), es);
  }

  /** After a sequence of events, completedCrop is the crop of the last
      completed gesture, or unchanged when there was none. */
  lemma {:induction false} RunCompletedCropIsLastCompletion(s: PageState, es: seq<Event>)
    ensures (forall i :: 0 <= i < |es| ==> !es[i].CropComplete?) ==>
      Run(s, es).0.completedCrop == s.completedCrop
    ensures forall i ::
      (0 <= i < |es| && es[i].CropComplete? && forall j :: i < j < |es| ==> !es[j].CropComplete?) ==>
      Run(s, es).0.completedCrop == Some(es[i].c)
    decreases |es|
  {
    if es != [] {
      var next := Step(s, es[0]).0;
      RunCompletedCropIsLastCompletion(next, es[1..]);
      forall i | 0 <= i < |es| && es[i].CropComplete? && (forall j :: i < j < |es| ==> !es[j].CropComplete?)
        ensures Run(s, es).0.completedCrop == Some(es[i].c)
      {
        if i == 0 {
          assert forall j :: 0 <= j < |es[1..]| ==> !es[1..][j].CropComplete? by {
            forall j | 0 <= j < |es[1..]| ensures !es[1..][j].CropComplete? {
              assert es[1..][j] == es[j + 1];
            }
          }
        } else {
          assert es[1..][i - 1] == es[i];
          assert forall j :: i - 1 < j < |es[1..]| ==> !es[1..][j].CropComplete? by {
            forall j | i - 1 < j < |es[1..]| ensures !es[1..][j].CropComplete? {
              assert es[1..][j] == es[j + 1];
            }
          }
        }
      }
      if forall i :: 0 <= i < |es| ==> !es[i].CropComplete? {
        assert forall j :: 0 <= j < |es[1..]| ==> !es[1..][j].CropComplete? by {
          forall j | 0 <= j < |es[1..]| ensures !es[1..][j].CropComplete? {
            assert es[1..][j] == es[j + 1];
          }
        }
      }
    }
  }

  /** Once the preview canvas is mounted, no event unmounts it. */
  lemma {:induction false} CanvasStaysMounted(s: PageState, es: seq<Event>)
    requires CanvasMounted(s)
    ensures CanvasMounted(Run(s, es).0)
    decreases |es|
  {
    if es != [] {
      CanvasStaysMounted(Step(s, es[0]).0, es[1..]);
    }
  }

  /** A sequence of events without a completed gesture draws nothing and keeps
      the completed crop: only the end of a gesture redraws the preview. */
  lemma {:induction false} RunWithoutCompletionKeepsPreview(s: PageState, es: seq<Event>)
    requires forall i :: 0 <= i < |es| ==> !es[i].CropComplete?
    ensures Run(s, es).1 == []
    ensures Run(s, es).0.completedCrop == s.completedCrop
    decreases |es|
  {
    if es != [] {
      assert forall j :: 0 <= j < |es[1..]| ==> !es[1..][j].CropComplete? by {
        forall j | 0 <= j < |es[1..]| ensures !es[1..][j].CropComplete? {
          assert es[1..][j] == es[j + 1];
        }
      }
      RunWithoutCompletionKeepsPreview(Step(s, es[0]).0, es[1..]);
    }
  }

  /** Choosing a new file and reading it clears the crop and sets the new source;
      loading it then centres the crop on the new image. The previous completed
      crop is kept and nothing is drawn: the preview still shows the crop of the
      earlier image until the next gesture. */
  lemma NewImageKeepsPreview(s: PageState, n: nat, url: string, w: real, h: real)
    requires 0 < n
    ensures Run(s, [SelectFile(Some(n)), FileRead(url)]) == (s.(crop := None, imgSrc := url), [])
    ensures Run(s, [SelectFile(Some(n)), FileRead(url), ImageLoad(w, h)]) ==
      (s.(imgSrc := url, crop := Some(CenterAspectCrop(w, h))), [])
  {
    var es := [SelectFile(Some(n)), FileRead(url), ImageLoad(w, h)];
    var s1 := s.(crop := None);
    var s2 := s1.(imgSrc := url);
    var s3 := s2.(crop := Some(CenterAspectCrop(w, h)));
    assert es[1..] == [FileRead(url), ImageLoad(w, h)];
    assert es[1..][1..] == [ImageLoad(w, h)];
    assert Run(s3, []) == (s3, []);
    assert Run(s2, [ImageLoad(w, h)]) == (s3, []);
    assert Run(s1, [FileRead(url), ImageLoad(w, h)]) == (s3, []);
    assert Run(s, es) == (s3, []);
    assert Run(s2, []) == (s2, []);
    assert Run(s1, [FileRead(url)]) == (s2, []);
  }

  /** The arguments of a download: what the preview canvas holds and how it is exported. */
  datatype Download = Download(drawn: Option<RenderCall>, mimeType: string, quality: real, fileName: string)

  /** The page as an object whose fields the event handlers update in place. */
  class Page {
    var imgSrc: string
    var crop: Option<Crop>
    var completedCrop: Option<Crop>
    var scale: real
    var rotate: real
    /** Every canvasPreview call so far, oldest first; the canvas shows the last one. */
    var renders: seq<RenderCall>

    function State(): PageState
      reads this
    {
      PageState(imgSrc, crop, completedCrop, scale, rotate)
    }

    /** Scale and rotation keep their initial values; everything drawn was a
        non-degenerate crop at that transform, on a canvas that exists. */
    ghost predicate Valid()
      reads this
    {
      scale == 1.0 && rotate == 0.0
      && (renders != [] ==> completedCrop.Some?)
      && forall i :: 0 <= i < |renders| ==>
           renders[i].crop.width != 0.0 && renders[i].crop.height != 0.0
           && renders[i].scale == 1.0 && renders[i].rotate == 0.0
    }

    /** Mount: the initial state, then the effect's first run, which draws nothing. */
    constructor ()
      ensures Valid()
      ensures State() == Initial()
      ensures imgSrc == "" && crop == None && completedCrop == None && scale == 1.0 && rotate == 0.0
      ensures renders == []
    {
      imgSrc, crop, completedCrop := "", None, None;
      scale, rotate := 1.0, 0.0;
      renders := [];
      new;
      PreviewEffect();
    }

    /** The useEffect body: call canvasPreview with the current completed crop,
        scale and rotation when the guard holds; otherwise leave the canvas alone. */
    method PreviewEffect()
      requires Valid()
      modifies this`renders
      ensures Valid()
      ensures renders == old(renders) + Calls(Effect(State()))
    {
      var imgRef := imgSrc != "";
      var canvasRef := completedCrop.Some?;
      if completedCrop.Some? && completedCrop.value.width != 0.0 && completedCrop.value.height != 0.0
         && imgRef && canvasRef
      {
        renders := renders + [RenderCall(completedCrop.value, scale, rotate)];
      }
    }

    /** The file input's change handler: clears the crop when at least one file
        was chosen (and starts reading it); otherwise changes nothing. */
    method OnSelectFile(files: Option<nat>)
      requires Valid()
      modifies this
      ensures Valid()
      ensures crop == if FilesChosen(files) then None else old(crop)
      ensures imgSrc == old(imgSrc) && completedCrop == old(completedCrop)
      ensures scale == old(scale) && rotate == old(rotate) && renders == old(renders)
      ensures State() == Step(old(State()), SelectFile(files)).0
      ensures Step(old(State()), SelectFile(files)).1 == None
    {
      if files.Some? && files.value > 0 {
        crop := None;
      }
    }

    /** The FileReader's load listener: the data URL becomes the image source. */
    method OnFileRead(result: string)
      requires Valid()
      modifies this
      ensures Valid()
      ensures imgSrc == result
      ensures crop == old(crop) && completedCrop == old(completedCrop)
      ensures scale == old(scale) && rotate == old(rotate) && renders == old(renders)
      ensures State() == Step(old(State()), FileRead(result)).0
      ensures Step(old(State()), FileRead(result)).1 == None
    {
      imgSrc := result;
    }

    /** The image's load handler: the crop becomes the centred square for the
        image's displayed size. */
    method OnImageLoad(width: real, height: real)
      requires Valid()
      modifies this
      ensures Valid()
      ensures crop == Some(CenterAspectCrop(width, height))
      ensures imgSrc == old(imgSrc) && completedCrop == old(completedCrop)
      ensures scale == old(scale) && rotate == old(rotate) && renders == old(renders)
      ensures State() == Step(old(State()), ImageLoad(width, height)).0
      ensures Step(old(State()), ImageLoad(width, height)).1 == None
    {
      crop := Some(CenterAspectCrop(width, height));
    }

    /** The crop widget's onChange: the crop becomes the widget's rectangle. */
    method OnCropChange(c: Crop)
      requires Valid()
      modifies this
      ensures Valid()
      ensures crop == Some(c)
      ensures imgSrc == old(imgSrc) && completedCrop == old(completedCrop)
      ensures scale == old(scale) && rotate == old(rotate) && renders == old(renders)
      ensures State() == Step(old(State()), CropChange(c)).0
      ensures Step(old(State()), CropChange(c)).1 == None
    {
      crop := Some(c);
    }

    /** The crop widget's onComplete: the completed crop becomes the widget's
        rectangle, and the effect redraws the preview from it when it has a
        non-zero size and an image is shown. */
    method OnCropComplete(c: Crop)
      requires Valid()
      modifies this
      ensures Valid()
      ensures completedCrop == Some(c)
      ensures imgSrc == old(imgSrc) && crop == old(crop)
      ensures scale == old(scale) && rotate == old(rotate)
      ensures renders == old(renders) +
        if c.width != 0.0 && c.height != 0.0 && imgSrc != "" then [RenderCall(c, scale, rotate)] else []
      ensures State() == Step(old(State()), CropComplete(c)).0
      ensures renders == old(renders) + Calls(Step(old(State()), CropComplete(c)).1)
    {
      completedCrop := Some(c);
      PreviewEffect();
    }

    /** The download button's handler, up to the hand-over of the canvas to the
        encoder: it fails when there is no preview canvas, and otherwise exports
        what the canvas shows as PNG, compressed at quality 0.8, under a fixed name. */
    method OnDownloadCropClick() returns (r: Result<Download, string>)
      requires Valid()
      ensures r.Failure? <==> completedCrop.None?
      ensures r.Failure? ==> renders == []
      ensures r.Failure? ==> r.error == "Crop canvas does not exist"
      ensures r.Success? ==>
        r.value.drawn == (if renders == [] then None else Some(renders[|renders| - 1]))
        && r.value.mimeType == "image/png" && r.value.quality == 0.8
        && r.value.fileName == "croped-image.png"
      ensures r.Success? && r.value.drawn.Some? ==>
        r.value.drawn.value.crop.width != 0.0 && r.value.drawn.value.crop.height != 0.0
        && r.value.drawn.value.scale == 1.0 && r.value.drawn.value.rotate == 0.0
    {
      if completedCrop.None? {
        return Failure("Crop canvas does not exist");
      }
      var drawn := if renders == [] then None else Some(renders[|renders| - 1]);
      r := Success(Download(drawn, "image/png", 0.8, "croped-image.png"));
    }
  }
}
