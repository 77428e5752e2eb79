/**
 * The detector model configuration: its defaults, the label maps merged from
 * the label file and the configured customization, and the rewrite of a
 * `plus://` model reference to the local model cache.
 */
module DetectorConfig {
  import opened Wrappers
  import opened JsText

  const PLUS_PREFIX: string := "plus://"
  const MODEL_CACHE: string := "/config/model_cache/"
  const DEFAULT_LABELMAP_PATH: string := "/labelmap.txt"
  const DEFAULT_FACELABELMAP_PATH: string := "/facelabelmap.txt"

  /** The keys the configuration may set; `None` leaves the field at its default. */
  datatype ModelOptions = ModelOptions(
    path: Option<string>,
    labelmapPath: Option<string>,
    facelabelmapPath: Option<string>,
    width: Option<int>,
    height: Option<int>,
    labelmap: Option<map<int, string>>,
    facelabelmap: Option<map<int, string>>,
    inputTensor: Option<string>,
    inputPixelFormat: Option<string>,
    modelType: Option<string>,
    faceDetectionWidth: Option<int>,
    faceDetectionHeight: Option<int>,
    faceRecognitionModel: Option<string>,
    faceRecognitionMinArea: Option<int>,
    faceRecognitionMaxArea: Option<int>,
    faceRecognitionMinScore: Option<real>,
    faceRecognitionArea: Option<string>,
    faceRecognitionPauseOnTimeout: Option<real>,
    faceRecognitionWidthCrop: Option<real>,
    faceRecognitionHeightCrop: Option<real>,
    faceRecognitionMaxScoreConversion: Option<real>,
    faceTrainingCamera: Option<string>,
    faceTrainingUnknownOnly: Option<bool>)

  /** The model info file: a JSON object whose label map keys are strings, in file order. */
  datatype ModelInfo = ModelInfo(
    width: int,
    height: int,
    inputShape: string,
    pixelFormat: string,
    modelType: string,
    supportedDetectors: seq<string>,
    labelMap: seq<(string, string)>,
    facelabelMap: seq<(string, string)>)

  /** `{**loaded, **custom}`: every key of either map, the customization winning on shared keys. */
  function MergeLabelmap(loaded: map<int, string>, custom: map<int, string>): (r: map<int, string>)
    ensures r.Keys == loaded.Keys + custom.Keys
    ensures forall k :: k in custom ==> r[k] == custom[k]
    ensures forall k :: k in loaded && k !in custom ==> r[k] == loaded[k]
  {
    loaded + custom
  }

  /** An empty customization leaves the loaded map as it is; customizing twice changes nothing more. */
  lemma MergeLaws(loaded: map<int, string>, custom: map<int, string>)
    ensures MergeLabelmap(loaded, map[]) == loaded
    ensures MergeLabelmap(MergeLabelmap(loaded, custom), custom) == MergeLabelmap(loaded, custom)
    ensures MergeLabelmap(map[], custom) == custom
  {
  }

  /** The error `int()` raises on a key that is not a decimal literal. */
  function IntError(key: string): PyError
  {
    ValueError("invalid literal for int() with base 10: '" + key + "'")
  }

  /**
   * `{int(key): val for key, val in pairs}`: the first key that does not
   * parse raises `ValueError`; when two keys parse to the same integer, the
   * later one wins.
   */
  function IntKeys(pairs: seq<(string, string)>): (r: Result<map<int, string>, PyError>)
    ensures r.Success? <==> forall i :: 0 <= i < |pairs| ==> ParseDecimal(pairs[i].0).Some?
    ensures r.Failure? ==> exists i :: 0 <= i < |pairs| && ParseDecimal(pairs[i].0).None? && r.error == IntError(pairs[i].0)
  {
    if pairs == [] then Success(map[])
    else
      var init := pairs[..|pairs| - 1];
      var last := pairs[|pairs| - 1];
      match IntKeys(init)
      case Failure(e) => Failure(e)
      case Success(m) =>
        match ParseDecimal(last.0)
        case None => Failure(IntError(last.0))
        case Some(k) => Success(m[k := last.1])
  }

  /** The converted map has exactly the parsed keys, each holding the value of its last occurrence. */
  lemma {:induction false} IntKeysEntries(pairs: seq<(string, string)>)
    requires IntKeys(pairs).Success?
    ensures forall i :: 0 <= i < |pairs| ==> ParseDecimal(pairs[i].0).value in IntKeys(pairs).value
    ensures forall k :: k in IntKeys(pairs).value ==>
              exists i :: 0 <= i < |pairs| && LastKeyAt(pairs, k, i) && IntKeys(pairs).value[k] == pairs[i].1
  {
    if pairs != [] {
      var n := |pairs| - 1;
      var init := pairs[..n];
      IntKeysEntries(init);
      var m0 := IntKeys(init).value;
      var k0 := ParseDecimal(pairs[n].0).value;
      var m := IntKeys(pairs).value;
      assert m == m0[k0 := pairs[n].1];
      assert forall i :: 0 <= i < n ==> pairs[i] == init[i];
      assert LastKeyAt(pairs, k0, n);
      forall k | k in m
        ensures exists i :: 0 <= i < |pairs| && LastKeyAt(pairs, k, i) && m[k] == pairs[i].1
      {
        if k != k0 {
          var i :| 0 <= i < n && LastKeyAt(init, k, i) && m0[k] == init[i].1;
          LastKeyAtExtend(pairs, k, i);
        }
      }
    }
  }

  /** An entry last for `k` among all but the final pair stays last when the final key is not `k`. */
  lemma LastKeyAtExtend(pairs: seq<(string, string)>, k: int, i: nat)
    requires i < |pairs| - 1
    requires LastKeyAt(pairs[..|pairs| - 1], k, i)
    requires ParseDecimal(pairs[|pairs| - 1].0) != Some(k)
    ensures LastKeyAt(pairs, k, i)
  {
    assert forall j :: i < j < |pairs| - 1 ==> pairs[j] == pairs[..|pairs| - 1][j];
  }

  /** Entry `i` is the last one whose key parses to `k`. */
  predicate LastKeyAt(pairs: seq<(string, string)>, k: int, i: nat)
    requires i < |pairs|
  {
    ParseDecimal(pairs[i].0) == Some(k) && forall j :: i < j < |pairs| ==> ParseDecimal(pairs[j].0) != Some(k)
  }

  /** `json.dump` writes integer keys as their decimal text; `int()` reads each back, so the map survives. */
  lemma {:induction false} IntKeysOfRendered(entries: seq<(int, string)>)
    requires forall i, j :: 0 <= i < j < |entries| ==> entries[i].0 != entries[j].0
    ensures IntKeys(Rendered(entries)) == Success(AsMap(entries))
  {
    if entries != [] {
      var init := entries[..|entries| - 1];
      var last := entries[|entries| - 1];
      IntKeysOfRendered(init);
      assert Rendered(entries)[..|entries| - 1] == Rendered(init);
      ParseIntToString(last.0);
    }
  }

  /** The entries with their keys written as decimal text. */
  function Rendered(entries: seq<(int, string)>): (r: seq<(string, string)>)
    ensures |r| == |entries|
    ensures forall i :: 0 <= i < |entries| ==> r[i] == (IntToString(entries[i].0), entries[i].1)
  {
    if entries == [] then []
    else Rendered(entries[..|entries| - 1]) + [(IntToString(entries[|entries| - 1].0), entries[|entries| - 1].1)]
  }

  /** The entries as a map, a later entry winning. */
  function AsMap(entries: seq<(int, string)>): (m: map<int, string>)
    ensures forall i :: 0 <= i < |entries| ==> entries[i].0 in m
  {
    if entries == [] then map[]
    else AsMap(entries[..|entries| - 1])[entries[|entries| - 1].0 := entries[|entries| - 1].1]
  }

  /** Whether the model path names a model to fetch from the plus service. */
  predicate IsPlusPath(path: Option<string>)
  {
    path.Some? && path.value != "" && |path.value| >= |PLUS_PREFIX| && path.value[..|PLUS_PREFIX|] == PLUS_PREFIX
  }

  /** A detector is named (a non-empty string) that the model does not list as supported. */
  predicate Unsupported(info: ModelInfo, detector: Option<string>)
  {
    detector.Some? && detector.value != "" && detector.value !in info.supportedDetectors
  }

  /** `ModelConfig`: the detector model settings. */
  class ModelConfig {
    var path: Option<string>
    var width: int
    var height: int
    const labelmap: map<int, string>
    const facelabelmap: map<int, string>
    var inputTensor: string
    var inputPixelFormat: string
    var modelType: string
    const faceDetectionWidth: int
    const faceDetectionHeight: int
    const faceRecognitionModel: string
    const faceRecognitionMinArea: int
    const faceRecognitionMaxArea: int
    const faceRecognitionMinScore: real
    const faceRecognitionArea: string
    const faceRecognitionPauseOnTimeout: real
    const faceRecognitionWidthCrop: real
    const faceRecognitionHeightCrop: real
    const faceRecognitionMaxScoreConversion: real
    const faceTrainingCamera: string
    const faceTrainingUnknownOnly: bool
    var mergedLabelmap: map<int, string>
    var mergedFacelabelmap: map<int, string>

    /**
     * `ModelConfig(**config)`: unset keys take their defaults, and each
     * merged map is the label file (`loadLabels` of the configured or default
     * path) overridden by the customization.
     */
    constructor (options: ModelOptions, loadLabels: string -> map<int, string>)
      ensures path == options.path
      ensures width == options.width.GetOr(320) && height == options.height.GetOr(320)
      ensures faceDetectionWidth == options.faceDetectionWidth.GetOr(320)
      ensures faceDetectionHeight == options.faceDetectionHeight.GetOr(320)
      ensures inputTensor == options.inputTensor.GetOr("nhwc")
      ensures inputPixelFormat == options.inputPixelFormat.GetOr("rgb")
      ensures modelType == options.modelType.GetOr("ssd")
      ensures faceRecognitionModel == options.faceRecognitionModel.GetOr("DOODS_COS")
      ensures faceRecognitionMinArea == options.faceRecognitionMinArea.GetOr(0)
      ensures faceRecognitionMaxArea == options.faceRecognitionMaxArea.GetOr(24000000)
      ensures faceRecognitionMinScore == options.faceRecognitionMinScore.GetOr(0.5)
      ensures faceRecognitionArea == options.faceRecognitionArea.GetOr("Regions")
      ensures faceRecognitionPauseOnTimeout == options.faceRecognitionPauseOnTimeout.GetOr(0.05)
      ensures faceRecognitionWidthCrop == options.faceRecognitionWidthCrop.GetOr(0.70)
      ensures faceRecognitionHeightCrop == options.faceRecognitionHeightCrop.GetOr(0.70)
      ensures faceRecognitionMaxScoreConversion == options.faceRecognitionMaxScoreConversion.GetOr(100.0)
      ensures faceTrainingCamera == options.faceTrainingCamera.GetOr("Any")
      ensures faceTrainingUnknownOnly == options.faceTrainingUnknownOnly.GetOr(true)
      ensures labelmap == options.labelmap.GetOr(map[]) && facelabelmap == options.facelabelmap.GetOr(map[])
      ensures mergedLabelmap ==
              MergeLabelmap(loadLabels(options.labelmapPath.GetOr(DEFAULT_LABELMAP_PATH)), labelmap)
      ensures mergedFacelabelmap ==
              MergeLabelmap(loadLabels(options.facelabelmapPath.GetOr(DEFAULT_FACELABELMAP_PATH)), facelabelmap)
    {
      path := options.path;
      width := options.width.GetOr(320);
      height := options.height.GetOr(320);
      labelmap := options.labelmap.GetOr(map[]);
      facelabelmap := options.facelabelmap.GetOr(map[]);
      inputTensor := options.inputTensor.GetOr("nhwc");
      inputPixelFormat := options.inputPixelFormat.GetOr("rgb");
      modelType := options.modelType.GetOr("ssd");
      faceDetectionWidth := options.faceDetectionWidth.GetOr(320);
      faceDetectionHeight := options.faceDetectionHeight.GetOr(320);
      faceRecognitionModel := options.faceRecognitionModel.GetOr("DOODS_COS");
      faceRecognitionMinArea := options.faceRecognitionMinArea.GetOr(0);
      faceRecognitionMaxArea := options.faceRecognitionMaxArea.GetOr(24000000);
      faceRecognitionMinScore := options.faceRecognitionMinScore.GetOr(0.5);
      faceRecognitionArea := options.faceRecognitionArea.GetOr("Regions");
      faceRecognitionPauseOnTimeout := options.faceRecognitionPauseOnTimeout.GetOr(0.05);
      faceRecognitionWidthCrop := options.faceRecognitionWidthCrop.GetOr(0.70);
      faceRecognitionHeightCrop := options.faceRecognitionHeightCrop.GetOr(0.70);
      faceRecognitionMaxScoreConversion := options.faceRecognitionMaxScoreConversion.GetOr(100.0);
      faceTrainingCamera := options.faceTrainingCamera.GetOr("Any");
      faceTrainingUnknownOnly := options.faceTrainingUnknownOnly.GetOr(true);
      mergedLabelmap :=
        MergeLabelmap(loadLabels(options.labelmapPath.GetOr(DEFAULT_LABELMAP_PATH)), options.labelmap.GetOr(map[]));
      mergedFacelabelmap :=
        MergeLabelmap(loadLabels(options.facelabelmapPath.GetOr(DEFAULT_FACELABELMAP_PATH)), options.facelabelmap.GetOr(map[]));
    }

    /**
     * `check_and_load_plus_model`: a path that is not a `plus://` reference
     * changes nothing. Otherwise the path is rewritten into the model cache
     * (`infoPath` is the info file beside it), an unsupported detector
     * raises `ValueError`, and the model's settings and maps are taken from
     * `info`; a label key that does not parse raises `ValueError` after the
     * fields assigned before it.
     */
    method CheckAndLoadPlusModel(info: ModelInfo, detector: Option<string>)
      returns (infoPath: Option<string>, r: Result<(), PyError>)
      modifies this
      ensures !IsPlusPath(old(path)) ==>
                infoPath.None? && r.Success? &&
                path == old(path) && width == old(width) && height == old(height) &&
                inputTensor == old(inputTensor) && inputPixelFormat == old(inputPixelFormat) &&
                modelType == old(modelType) &&
                mergedLabelmap == old(mergedLabelmap) && mergedFacelabelmap == old(mergedFacelabelmap)
      ensures IsPlusPath(old(path)) ==>
                && path == Some(MODEL_CACHE + old(path).value[|PLUS_PREFIX|..])
                && infoPath == Some(path.value + ".json")
      ensures IsPlusPath(old(path)) && Unsupported(info, detector) ==>
                && r == Failure(ValueError("Model does not support detector type of " + detector.value))
                && width == old(width) && height == old(height) && inputTensor == old(inputTensor)
                && inputPixelFormat == old(inputPixelFormat) && modelType == old(modelType)
                && mergedLabelmap == old(mergedLabelmap) && mergedFacelabelmap == old(mergedFacelabelmap)
      ensures IsPlusPath(old(path)) && !Unsupported(info, detector) ==> Loaded(info, old(mergedLabelmap), old(mergedFacelabelmap), r)
    {
      if path.None? || path.value == "" || !(|path.value| >= |PLUS_PREFIX| && path.value[..|PLUS_PREFIX|] == PLUS_PREFIX) {
        return None, Success(());
      }
      var modelId := path.value[|PLUS_PREFIX|..];
      path := Some(MODEL_CACHE + modelId);
      infoPath := Some(path.value + ".json");
      if detector.Some? && detector.value != "" && detector.value !in info.supportedDetectors {
        return infoPath, Failure(ValueError("Model does not support detector type of " + detector.value));
      }
      r := LoadModelInfo(info);
    }

    /**
     * The state after the model info is applied: its settings are taken,
     * then each merged map is its label map with integer keys overridden by
     * the customization, stopping at the first key that does not parse.
     */
    ghost predicate Loaded(info: ModelInfo, oldMerged: map<int, string>, oldMergedFace: map<int, string>,
                           r: Result<(), PyError>)
      reads this
    {
      && width == info.width && height == info.height
      && inputTensor == info.inputShape && inputPixelFormat == info.pixelFormat && modelType == info.modelType
      && Merged(info, oldMerged, oldMergedFace, r)
    }

    /** The label-map half of `Loaded`. */
    ghost predicate Merged(info: ModelInfo, oldMerged: map<int, string>, oldMergedFace: map<int, string>,
                           r: Result<(), PyError>)
      reads this
    {
      match IntKeys(info.labelMap)
      case Failure(e) => r == Failure(e) && mergedLabelmap == oldMerged && mergedFacelabelmap == oldMergedFace
      case Success(labels) =>
        && mergedLabelmap == MergeLabelmap(labels, labelmap)
        && match IntKeys(info.facelabelMap)
           case Failure(e) => r == Failure(e) && mergedFacelabelmap == oldMergedFace
           case Success(faceLabels) => r.Success? && mergedFacelabelmap == MergeLabelmap(faceLabels, facelabelmap)
    }

    /** The assignments from the model info that end `check_and_load_plus_model`. */
    method LoadModelInfo(info: ModelInfo) returns (r: Result<(), PyError>)
      modifies this
      ensures path == old(path)
      ensures Loaded(info, old(mergedLabelmap), old(mergedFacelabelmap), r)
    {
      width := info.width;
      height := info.height;
      inputTensor := info.inputShape;
      inputPixelFormat := info.pixelFormat;
      modelType := info.modelType;
      r := MergeModelLabels(info);
    }

    /** The two label-map merges, the first failure ending the load. */
    method MergeModelLabels(info: ModelInfo) returns (r: Result<(), PyError>)
      modifies this`mergedLabelmap, this`mergedFacelabelmap
      ensures Merged(info, old(mergedLabelmap), old(mergedFacelabelmap), r)
    {
      var labels := IntKeys(info.labelMap);
      if labels.Failure? {
        r := Failure(labels.error);
      } else {
        mergedLabelmap := MergeLabelmap(labels.value, labelmap);
        var faceLabels := IntKeys(info.facelabelMap);
        if faceLabels.Failure? {
          r := Failure(faceLabels.error);
        } else {
          mergedFacelabelmap := MergeLabelmap(faceLabels.value, facelabelmap);
          r := Success(());
        }
      }
    }
  }
}
