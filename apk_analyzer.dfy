/** `apk_analyzer`: permissions of an APK turned into a 0/1 feature vector for a trained
    classifier. The APK parser, the feature file and the classifier are collaborators. */
module ApkAnalyzer {
  import opened Wrappers
  import opened Records
  import opened PyText

  /** A file loaded at analysis time, or the message of the exception loading it raised. */
  datatype Resource<+T> = Loaded(value: T) | LoadError(message: string)

  /** What `analyze_apk` depends on besides the APK itself. */
  datatype Analyzer = Analyzer(
    featureCsv: Resource<string>,                   // the text of feature.csv
    model: Resource<seq<int> -> int>,               // `predict` of svm_rbf_model.pkl, one vector at a time
    permissionsOf: Bytes -> Option<set<string>>)    // the APK parser; None when it raises

  datatype AnalysisResult = AnalysisResult(apkFile: string, prediction: int)

  const ANALYSIS_ERROR := "Error during APK analysis: "
  const EXTRACTION_FAILED := "Failed to extract features from APK."

  /** `load_features_from_csv`: one feature name per line of the file, surrounding whitespace removed. */
  function LoadFeaturesFromCsv(csv: Resource<string>): (r: Outcome<seq<string>>)
    ensures csv.LoadError? ==> r == Raised(csv.message)
    ensures csv.Loaded? ==> r.Returned? && |r.value| == |ReadLines(csv.value)|
    ensures csv.Loaded? ==> forall i :: 0 <= i < |r.value| ==>
              r.value[i] == Strip(ReadLines(csv.value)[i]) && '\n' !in r.value[i]
  {
    match csv
    case LoadError(m) => Raised(m)
    case Loaded(text) =>
      var lines := ReadLines(text);
      ReadLinesSplitsAtLineFeeds(text);
      var names := seq(|lines|, i requires 0 <= i < |lines| => Strip(lines[i]));
      assert forall i :: 0 <= i < |names| ==> '\n' !in names[i] by {
        forall i | 0 <= i < |names| ensures '\n' !in names[i] {
          StrippedLineHasNoLineFeed(lines[i]);
        }
      }
      Returned(names)
  }

  /** The features map the loop of `extract_apk_features` has built after visiting `selected`
      in order: each visited name is set to 1 when it is a requested permission, else to 0. */
  function FeatureMap(selected: seq<string>, permissions: set<string>): (features: map<string, int>)
    ensures features.Keys == set f | f in selected
    ensures forall f :: f in features ==> features[f] == (if f in permissions then 1 else 0)
    ensures features == map[] <==> selected == []
  {
    if selected == [] then map[]
    else
      var f := selected[|selected| - 1];
      FeatureMap(selected[..|selected| - 1], permissions)[f := if f in permissions then 1 else 0]
  }

  /** `extract_apk_features`: None when the APK parser raises; otherwise the features map. */
  method ExtractApkFeatures(apk: Bytes, selected: seq<string>, permissionsOf: Bytes -> Option<set<string>>)
    returns (features: Option<map<string, int>>)
    ensures features.None? <==> permissionsOf(apk).None?
    ensures features.Some? ==> features.value.Keys == set f | f in selected
    ensures features.Some? ==> forall f :: f in features.value ==>
              features.value[f] == (if f in permissionsOf(apk).value then 1 else 0)
    ensures features.Some? ==> features.value == FeatureMap(selected, permissionsOf(apk).value)
  {
    var parsed := permissionsOf(apk);
    if parsed.None? {
      return None;
    }
    var permissions := parsed.value;
    var m: map<string, int> := map[];
    var i := 0;
    while i < |selected|
      invariant 0 <= i <= |selected|
      invariant m == FeatureMap(selected[..i], permissions)
    {
      var feature := selected[i];
      if feature in permissions {
        m := m[feature := 1];
      } else {
        m := m[feature := 0];
      }
      assert selected[..i + 1][..i] == selected[..i];
      i := i + 1;
    }
    assert selected[..i] == selected;
    features := Some(m);
  }

  /** `[features.get(f, 0) for f in selected_features]`. */
  function FeatureVector(features: map<string, int>, selected: seq<string>): (v: seq<int>)
    ensures |v| == |selected|
  {
    seq(|selected|, i requires 0 <= i < |selected| =>
      if selected[i] in features then features[selected[i]] else 0)
  }

  /** The vector a classifier should see: position i is 1 exactly when feature i is a requested permission. */
  function Indicator(selected: seq<string>, permissions: set<string>): (v: seq<int>)
    ensures |v| == |selected|
  {
    seq(|selected|, i requires 0 <= i < |selected| => if selected[i] in permissions then 1 else 0)
  }

  /** Building the map and then reading it back in the order of the feature list yields the
      indicator vector: same length, same order, every entry 0 or 1. */
  lemma FeatureVectorIsIndicator(selected: seq<string>, permissions: set<string>)
    ensures FeatureVector(FeatureMap(selected, permissions), selected) == Indicator(selected, permissions)
    ensures forall i :: 0 <= i < |selected| ==> Indicator(selected, permissions)[i] in {0, 1}
  {
  }

  /** `analyze_apk`: reads the feature list, loads the model, extracts the features and
      predicts. Every failure, including an empty features map, is raised again with the
      analysis prefix. */
  function AnalyzeApk(filepath: string, apk: Bytes, analyzer: Analyzer): (r: Outcome<AnalysisResult>)
    ensures r.Returned? <==>
              && analyzer.featureCsv.Loaded? && analyzer.featureCsv.value != ""
              && analyzer.model.Loaded?
              && analyzer.permissionsOf(apk).Some?
    ensures r.Returned? ==>
              && r.value.apkFile == filepath
              && r.value.prediction == analyzer.model.value(
                   Indicator(LoadFeaturesFromCsv(analyzer.featureCsv).value, analyzer.permissionsOf(apk).value))
    ensures r.Raised? ==> |r.message| >= |ANALYSIS_ERROR| && r.message[..|ANALYSIS_ERROR|] == ANALYSIS_ERROR
    ensures analyzer.featureCsv.LoadError? ==> r == Raised(ANALYSIS_ERROR + analyzer.featureCsv.message)
  {
    match LoadFeaturesFromCsv(analyzer.featureCsv)
    case Raised(m) => Raised(ANALYSIS_ERROR + m)
    case Returned(selected) =>
      match analyzer.model
      case LoadError(m) => Raised(ANALYSIS_ERROR + m)
      case Loaded(predict) =>
        var parsed := analyzer.permissionsOf(apk);
        var features := if parsed.Some? then Some(FeatureMap(selected, parsed.value)) else None;
        if features.Some? && features.value != map[] then
          FeatureVectorIsIndicator(selected, parsed.value);
          Returned(AnalysisResult(filepath, predict(FeatureVector(features.value, selected))))
        else
          Raised(ANALYSIS_ERROR + EXTRACTION_FAILED)
  }
}
