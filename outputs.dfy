/** What app.py shows after the prediction button is pressed: the classifier's
    verdict as one of two messages, and the cluster number as a description. */
module Outputs {
  import opened Encoder

  /** `cluster_labels`: the clustering model's numbers and their descriptions. */
  const ClusterLabels: map<int, string> := map[
    0 := "Cluster Sehat",
    1 := "Cluster Rentan",
    2 := "Cluster Berisiko Tinggi"]

  /** The description shown for any number the table does not know. */
  const UnknownCluster: string := "Unknown Cluster"

  /** `cluster_labels.get(cluster, 'Unknown Cluster')`. */
  function ClusterDescription(cluster: int): (description: string)
    ensures 0 <= cluster <= 2 ==> description == ClusterLabels[cluster]
    ensures description == UnknownCluster <==> !(0 <= cluster <= 2)
  {
    if cluster in ClusterLabels then ClusterLabels[cluster] else UnknownCluster
  }

  /** Different known clusters read differently, and every unknown number
      reads like every other. */
  lemma ClusterDescriptionsDistinct(c: int, d: int)
    ensures ClusterDescription(c) == ClusterDescription(d) <==>
      c == d || (!(0 <= c <= 2) && !(0 <= d <= 2))
  {
  }

  /** How the verdict is shown: as an error box or as a success box. */
  datatype Tone = Alarm | Reassurance

  /** The verdict's box text and the line of advice under it. */
  datatype Report = Report(tone: Tone, headline: string, advice: string)

  const AtRiskHeadline: string :=
    "\U{26A0}\U{FE0F} Anda kemungkinan **berisiko terkena penyakit jantung**. (Skor Probabilitas: "
  const AtRiskAdvice: string :=
    "\U{1F449} Disarankan untuk konsultasi ke dokter dan mulai gaya hidup sehat."
  const NotAtRiskHeadline: string :=
    "\U{2705} Anda kemungkinan **tidak berisiko** terkena penyakit jantung. (Skor Probabilitas: "
  const NotAtRiskAdvice: string :=
    "\U{1F44D} Tetap jaga pola makan, olahraga rutin, dan periksa kesehatan secara berkala."

  /** The verdict for the classifier's `prediction`; `score` is the probability
      of the at-risk class as the page formats it. */
  function PredictionReport(prediction: int, score: string): (r: Report)
    ensures r.tone == Alarm <==> prediction == 1
    ensures prediction == 1 ==> r.headline == AtRiskHeadline + score + ")" && r.advice == AtRiskAdvice
    ensures prediction != 1 ==> r.headline == NotAtRiskHeadline + score + ")" && r.advice == NotAtRiskAdvice
    ensures r.advice == AtRiskAdvice <==> prediction == 1
    ensures |r.headline| > |score| + 1 && r.headline[|r.headline| - |score| - 1..] == score + ")"
  {
    if prediction == 1 then
      Report(Alarm, AtRiskHeadline + score + ")", AtRiskAdvice)
    else
      Report(Reassurance, NotAtRiskHeadline + score + ")", NotAtRiskAdvice)
  }

  /** Only whether the prediction is 1 matters: two predictions give the same
      report exactly when both are 1 or both are not. */
  lemma ReportDependsOnlyOnRisk(p: int, q: int, score: string)
    ensures PredictionReport(p, score) == PredictionReport(q, score) <==> ((p == 1) == (q == 1))
  {
  }

  /** What the page shows for one press of the button. */
  datatype Outcome = Outcome(features: Features, report: Report, cluster: string)

  /** The button's handler: encode the form, give the record to the classifier,
      to its probability output and to the clustering model, and describe what
      they return. The models are parameters. A failed encoding stands for the
      KeyError the handler raises. */
  function RunPrediction(
    form: Form, classify: Features -> int, score: Features -> string, assign: Features -> int
  ): (r: Result<Outcome>)
    ensures r.Ok? <==> EncodeInputs(form).Ok?
    ensures r.Err? ==> r.error == EncodeInputs(form).error
    ensures r.Ok? ==> r.value.features == EncodeInputs(form).value
    ensures r.Ok? ==> r.value.report == PredictionReport(classify(r.value.features), score(r.value.features))
    ensures r.Ok? ==> (r.value.report.tone == Alarm <==> classify(r.value.features) == 1)
    ensures r.Ok? ==> r.value.cluster == ClusterDescription(assign(r.value.features))
  {
    var features :- EncodeInputs(form);
    Ok(Outcome(
      features,
      PredictionReport(classify(features), score(features)),
      ClusterDescription(assign(features))))
  }

  /** On a form filled in with offered answers the handler always gets to show a
      verdict and a cluster, whatever the models return. */
  lemma OfferedFormsGetOutcome(
    form: Form, classify: Features -> int, score: Features -> string, assign: Features -> int)
    requires Offered(form)
    ensures RunPrediction(form, classify, score, assign).Ok?
  {
    OfferedFormsEncode(form);
  }
}
