/**
 * The screen's state and its two handlers (the `App` component of ModelLoader.js).
 *
 * The component keeps the typed link, whether "Predict" is enabled, and the list of
 * annotated regions it draws. Typing updates the first two; pressing "Predict" runs
 * the prediction and replaces the list only when every step succeeded. Every
 * collaborator that talks to the network, decodes, resizes or runs a model is a
 * parameter (`Collaborators`); a collaborator returning `None` stands for a throw,
 * which the handler's catch swallows.
 */
module Screen {
  import opened Wrappers
  import opened Pixels
  import opened Geometry
  import opened Annotations
  import opened LinkFilter

  datatype Collaborators = Collaborators(
    fetch: string -> Option<seq<uint8>>,           // fetch of the link, then arrayBuffer
    decode: seq<uint8> -> Option<DecodedImage>,     // the JPEG decoder
    resize: Tensor3 -> Tensor3,                     // resizeBilinear to 224 x 224
    detect: Tensor3 -> Option<seq<Region>>,         // the region detector
    classify: Classifier)                           // slice, resize, reshape and predict

  /** What one prediction yields for a link: the annotation list, or `None` when any step throws. */
  function Predict(link: string, env: Collaborators): (r: Option<seq<Annotation>>)
    ensures r.Some? ==> env.fetch(link).Some? && env.decode(env.fetch(link).value).Some?
  {
    match env.fetch(link)
    case None => None
    case Some(raw) =>
      match env.decode(raw)
      case None => None
      case Some(decoded) =>
        var image := env.resize(TensorOf(decoded));
        match env.detect(image)
        case None => None
        case Some(regions) => Annotate(image, regions, env.classify)
  }

  /** A prediction that fails at any step, or in any region, yields nothing. */
  lemma PredictFailures(link: string, env: Collaborators)
    ensures env.fetch(link).None? ==> Predict(link, env).None?
    ensures env.fetch(link).Some? && env.decode(env.fetch(link).value).None? ==> Predict(link, env).None?
    ensures env.fetch(link).Some? && env.decode(env.fetch(link).value).Some? ==>
      var image := env.resize(TensorOf(env.decode(env.fetch(link).value).value));
      env.detect(image).None? ==> Predict(link, env).None?
    ensures Predict(link, env).Some? ==>
      var decoded := env.decode(env.fetch(link).value).value;
      var image := env.resize(TensorOf(decoded));
      var regions := env.detect(image).value;
      |Predict(link, env).value| == |regions| &&
      forall j :: 0 <= j < |regions| ==> env.classify(image, Crop(regions[j])).Some?
  {
  }

  /** When the detector finds nothing the prediction is the empty list, whatever the classifier. */
  lemma NoRegionsNoAnnotations(link: string, env: Collaborators, decoded: DecodedImage)
    requires env.fetch(link).Some? && env.decode(env.fetch(link).value) == Some(decoded)
    requires env.detect(env.resize(TensorOf(decoded))) == Some([])
    ensures Predict(link, env) == Some([])
  {
  }

  class App {
    var imageLink: string
    var isEnabled: bool
    var wraps: seq<Annotation>

    /** The initial state: an empty link, "Predict" enabled, nothing drawn. */
    constructor ()
      ensures imageLink == "" && isEnabled && wraps == []
    {
      imageLink := "";
      isEnabled := true;
      wraps := [];
    }

    /** `onChangeText`: store the text and enable "Predict" for a ".jpg" or ".jpeg" link. */
    method OnChangeText(inputText: string)
      modifies this`imageLink, this`isEnabled
      ensures imageLink == inputText
      ensures isEnabled == PredictEnabled(inputText)
      ensures isEnabled <==> (inputText == "jpg" || inputText == "jpeg" ||
        EndsWith(inputText, ".jpg") || EndsWith(inputText, ".jpeg"))
    {
      imageLink := inputText;
      var elements := Split(inputText, '.');
      if elements[|elements| - 1] == "jpg" || elements[|elements| - 1] == "jpeg" {
        isEnabled := true;
      } else {
        isEnabled := false;
      }
      PredictEnabledIff(inputText);
    }

    /**
     * `getWraps`: run the prediction for the current link. The list is replaced only
     * after the loop over all regions completes; any throw leaves it as it was.
     */
    method GetWraps(env: Collaborators)
      modifies this`wraps
      ensures Predict(imageLink, env).Some? ==> wraps == Predict(imageLink, env).value
      ensures Predict(imageLink, env).None? ==> wraps == old(wraps)
    {
      var response := env.fetch(imageLink);
      if response.None? {
        return;
      }
      var decoded := env.decode(response.value);
      if decoded.None? {
        return;
      }
      var tensor := ImageToTensor(decoded.value);
      var imageTensor := env.resize(tensor);
      var detected := env.detect(imageTensor);
      if detected.None? {
        return;
      }
      var tempArray, queried := CollectAnnotations(imageTensor, detected.value, env.classify);
      if tempArray.None? {
        return;
      }
      wraps := tempArray.value;
    }

    /** The "Predict" button: runs `getWraps` only while it is enabled. */
    method PressPredict(env: Collaborators)
      modifies this`wraps
      ensures isEnabled && Predict(imageLink, env).Some? ==> wraps == Predict(imageLink, env).value
      ensures !isEnabled || Predict(imageLink, env).None? ==> wraps == old(wraps)
    {
      if isEnabled {
        GetWraps(env);
      }
    }
  }
}
