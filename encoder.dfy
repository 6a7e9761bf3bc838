/** app.py's `encode_inputs`: the eleven answers of the patient form become
    the one-row, eleven-column record both pre-trained models are fed. */
module Encoder {
  import opened LabelMaps

  /** The eleven answers as the form's widgets return them: whole numbers from
      the integer inputs, the Oldpeak number, and the chosen option's text. */
  datatype Form = Form(
    age: int,
    sex: string,
    chestPainType: string,
    restingBP: int,
    cholesterol: int,
    fastingBS: string,
    restingECG: string,
    maxHR: int,
    exerciseAngina: string,
    oldpeak: real,
    stSlope: string)

  /** The encoded record, one field per column. */
  datatype Features = Features(
    age: int,
    sex: int,
    chestPainType: int,
    restingBP: int,
    cholesterol: int,
    fastingBS: int,
    restingECG: int,
    maxHR: int,
    exerciseAngina: int,
    oldpeak: real,
    stSlope: int)

  datatype Option<T> = None | Some(value: T)

  /** A token missing from a `label_map` table. Python raises a KeyError that
      holds only the token; the column stands for the source line the
      traceback points at. */
  datatype KeyError = KeyError(column: string, token: string)

  datatype Result<T> = Ok(value: T) | Err(error: KeyError) {
    predicate IsFailure() {
      Err?
    }

    function PropagateFailure<U>(): Result<U>
      requires Err?
    {
      Err(error)
    }

    function Extract(): T
      requires Ok?
    {
      value
    }
  }

  /** The columns of the record, in the order the models were trained on. */
  const Columns: seq<string> := [
    "Age", "Sex", "ChestPainType", "RestingBP", "Cholesterol", "FastingBS",
    "RestingECG", "MaxHR", "ExerciseAngina", "Oldpeak", "ST_Slope"]

  /** `label_map[column][token]`. */
  function Lookup(column: string, token: string): (r: Result<int>)
    requires column in LabelMap
    ensures r.Ok? <==> token in LabelMap[column]
    ensures r.Ok? ==> r.value == LabelMap[column][token]
    ensures r.Err? ==> r.error == KeyError(column, token)
  {
    if token in LabelMap[column] then Ok(LabelMap[column][token]) else Err(KeyError(column, token))
  }

  /** Every answer is one the form offers. */
  ghost predicate Offered(form: Form) {
    && form.sex in SexOptions
    && form.chestPainType in ChestPainOptions
    && form.fastingBS in YesNoOptions
    && form.restingECG in RestingEcgOptions
    && form.exerciseAngina in YesNoOptions
    && form.stSlope in StSlopeOptions
  }

  /** The limits the form's number inputs put on age, resting blood pressure,
      cholesterol and maximum heart rate. */
  ghost predicate WithinFormLimits(age: int, restingBP: int, cholesterol: int, maxHR: int) {
    && 1 <= age <= 120
    && 80 <= restingBP <= 200
    && 100 <= cholesterol <= 600
    && 60 <= maxHR <= 250
  }

  /** Every categorical code lies in 0..n-1, n the number of answers its question offers. */
  ghost predicate ValidCodes(f: Features) {
    && 0 <= f.sex < |SexOptions|
    && 0 <= f.chestPainType < |ChestPainOptions|
    && 0 <= f.fastingBS < |YesNoOptions|
    && 0 <= f.restingECG < |RestingEcgOptions|
    && 0 <= f.exerciseAngina < |YesNoOptions|
    && 0 <= f.stSlope < |StSlopeOptions|
  }

  /** The five measured values reach the record unchanged. */
  ghost predicate SameMeasurements(form: Form, f: Features) {
    && f.age == form.age
    && f.restingBP == form.restingBP
    && f.cholesterol == form.cholesterol
    && f.maxHR == form.maxHR
    && f.oldpeak == form.oldpeak
  }

  /** `encode_inputs`. The record's entries are computed in column order, so a
      failing lookup reports the first column whose answer is not in its table.
      The sex and exercise angina answers are translated to a token that is
      always in the table, so only the chest pain type, resting ECG and ST slope can
      fail. */
  function EncodeInputs(form: Form): (r: Result<Features>)
    ensures r.Ok? <==>
      form.chestPainType in ChestPainCodes && form.restingECG in RestingEcgCodes && form.stSlope in StSlopeCodes
    ensures form.chestPainType !in ChestPainCodes ==>
      r == Err(KeyError("ChestPainType", form.chestPainType))
    ensures form.chestPainType in ChestPainCodes && form.restingECG !in RestingEcgCodes ==>
      r == Err(KeyError("RestingECG", form.restingECG))
    ensures form.chestPainType in ChestPainCodes && form.restingECG in RestingEcgCodes && form.stSlope !in StSlopeCodes ==>
      r == Err(KeyError("ST_Slope", form.stSlope))
    ensures r.Ok? ==> ValidCodes(r.value) && SameMeasurements(form, r.value)
    ensures r.Ok? ==>
      && r.value.chestPainType == ChestPainCodes[form.chestPainType]
      && r.value.restingECG == RestingEcgCodes[form.restingECG]
      && r.value.stSlope == StSlopeCodes[form.stSlope]
    ensures r.Ok? ==> (r.value.sex == 1 <==> form.sex == "Laki-laki")
    ensures r.Ok? ==> (r.value.fastingBS == 1 <==> form.fastingBS == "Ya")
    ensures r.Ok? ==> (r.value.exerciseAngina == 1 <==> form.exerciseAngina == "Ya")
  {
    // the translated sex and exercise angina tokens are always in their tables
    var sex := LabelMap["Sex"][SexToken(form.sex)];
    var chestPain :- Lookup("ChestPainType", form.chestPainType);
    var restingEcg :- Lookup("RestingECG", form.restingECG);
    var angina := LabelMap["ExerciseAngina"][AnginaToken(form.exerciseAngina)];
    var slope :- Lookup("ST_Slope", form.stSlope);
    Ok(Features(
      form.age, sex, chestPain, form.restingBP, form.cholesterol, FastingCode(form.fastingBS),
      restingEcg, form.maxHR, angina, form.oldpeak, slope))
  }

  /** The answer to a yes/no question whose code is given. */
  function YesNoAnswer(code: int): (answer: string) {
    if code == 1 then "Ya" else "Tidak"
  }

  /** The form's sex answer for a dataset token. */
  function SexAnswer(token: string): (answer: string) {
    if token == "M" then "Laki-laki" else "Perempuan"
  }

  /** Reads the answers back off a record: each code picks the token at that
      position of its sorted table, translated back to the form's wording. */
  function Decode(f: Features): (form: Form)
    requires ValidCodes(f)
  {
    Form(
      f.age, SexAnswer(SexTokens[f.sex]), ChestPainTokens[f.chestPainType], f.restingBP,
      f.cholesterol, YesNoAnswer(f.fastingBS), RestingEcgTokens[f.restingECG], f.maxHR,
      YesNoAnswer(f.exerciseAngina), f.oldpeak, StSlopeTokens[f.stSlope])
  }

  /** The DataFrame's row: the record's values in column order, as the models
      read them (as floating-point numbers). */
  function Row(f: Features): (row: seq<real>)
    ensures |row| == |Columns|
  {
    [f.age as real, f.sex as real, f.chestPainType as real, f.restingBP as real,
     f.cholesterol as real, f.fastingBS as real, f.restingECG as real, f.maxHR as real,
     f.exerciseAngina as real, f.oldpeak, f.stSlope as real]
  }

  /** The DataFrame's column of the given name. */
  function Column(f: Features, name: string): (value: Option<real>) {
    match name
    case "Age" => Some(f.age as real)
    case "Sex" => Some(f.sex as real)
    case "ChestPainType" => Some(f.chestPainType as real)
    case "RestingBP" => Some(f.restingBP as real)
    case "Cholesterol" => Some(f.cholesterol as real)
    case "FastingBS" => Some(f.fastingBS as real)
    case "RestingECG" => Some(f.restingECG as real)
    case "MaxHR" => Some(f.maxHR as real)
    case "ExerciseAngina" => Some(f.exerciseAngina as real)
    case "Oldpeak" => Some(f.oldpeak)
    case "ST_Slope" => Some(f.stSlope as real)
    case _ => None
  }

  /** No lookup fails on a form whose answers are all offered ones. */
  lemma OfferedFormsEncode(form: Form)
    requires Offered(form)
    ensures EncodeInputs(form).Ok?
  {
    ChestPainAnswersCovered();
    RestingEcgAnswersCovered();
    StSlopeAnswersCovered();
  }

  /** The Indonesian answers are translated exactly: "Laki-laki" is 1 and
      "Perempuan" 0 for sex, "Ya" is 1 and "Tidak" 0 for fasting blood sugar
      and exercise angina. */
  lemma TranslationExact(form: Form)
    requires Offered(form)
    ensures EncodeInputs(form).Ok?
    ensures var f := EncodeInputs(form).value;
      && (f.sex == 1 <==> form.sex == "Laki-laki") && (f.sex == 0 <==> form.sex == "Perempuan")
      && (f.fastingBS == 1 <==> form.fastingBS == "Ya") && (f.fastingBS == 0 <==> form.fastingBS == "Tidak")
      && (f.exerciseAngina == 1 <==> form.exerciseAngina == "Ya")
      && (f.exerciseAngina == 0 <==> form.exerciseAngina == "Tidak")
  {
    OfferedFormsEncode(form);
  }

  /** Within the form's limits, the encoded measurements stay within the same limits. */
  lemma EncodedWithinFormLimits(form: Form)
    requires Offered(form) && WithinFormLimits(form.age, form.restingBP, form.cholesterol, form.maxHR)
    ensures EncodeInputs(form).Ok?
    ensures var f := EncodeInputs(form).value;
      WithinFormLimits(f.age, f.restingBP, f.cholesterol, f.maxHR) && f.oldpeak == form.oldpeak
  {
    OfferedFormsEncode(form);
  }

  /** Decoding an encoded form gives back the form's answers. */
  lemma DecodeEncode(form: Form)
    requires Offered(form)
    ensures EncodeInputs(form).Ok?
    ensures Decode(EncodeInputs(form).value) == form
  {
    OfferedFormsEncode(form);
  }

  /** Every record whose codes are in range is the encoding of exactly one
      offered form: the one Decode reads off it. */
  lemma EncodeDecode(f: Features)
    requires ValidCodes(f)
    ensures Offered(Decode(f))
    ensures EncodeInputs(Decode(f)) == Ok(f)
  {
    SexCodeDecodes(f.sex);
    ChestPainCodeDecodes(f.chestPainType);
    YesNoCodeDecodes(f.fastingBS);
    RestingEcgCodeDecodes(f.restingECG);
    YesNoCodeDecodes(f.exerciseAngina);
    StSlopeCodeDecodes(f.stSlope);
  }

  lemma SexCodeDecodes(c: int)
    requires 0 <= c < |SexOptions|
    ensures SexAnswer(SexTokens[c]) in SexOptions
    ensures SexToken(SexAnswer(SexTokens[c])) in SexCodes && SexCodes[SexToken(SexAnswer(SexTokens[c]))] == c
  {
  }

  lemma YesNoCodeDecodes(c: int)
    requires 0 <= c < |YesNoOptions|
    ensures YesNoAnswer(c) in YesNoOptions && FastingCode(YesNoAnswer(c)) == c
    ensures AnginaToken(YesNoAnswer(c)) in ExerciseAnginaCodes && ExerciseAnginaCodes[AnginaToken(YesNoAnswer(c))] == c
  {
  }

  lemma ChestPainCodeDecodes(c: int)
    requires 0 <= c < |ChestPainOptions|
    ensures ChestPainTokens[c] in ChestPainOptions
    ensures ChestPainTokens[c] in ChestPainCodes && ChestPainCodes[ChestPainTokens[c]] == c
  {
  }

  lemma RestingEcgCodeDecodes(c: int)
    requires 0 <= c < |RestingEcgOptions|
    ensures RestingEcgTokens[c] in RestingEcgOptions
    ensures RestingEcgTokens[c] in RestingEcgCodes && RestingEcgCodes[RestingEcgTokens[c]] == c
  {
  }

  lemma StSlopeCodeDecodes(c: int)
    requires 0 <= c < |StSlopeOptions|
    ensures StSlopeTokens[c] in StSlopeOptions
    ensures StSlopeTokens[c] in StSlopeCodes && StSlopeCodes[StSlopeTokens[c]] == c
  {
  }

  /** Two offered forms with the same encoding are the same form; in particular
      different answers to one question get different codes. */
  lemma EncodeInjective(a: Form, b: Form)
    requires Offered(a) && Offered(b)
    ensures EncodeInputs(a) == EncodeInputs(b) ==> a == b
    ensures a.sex != b.sex ==> EncodeInputs(a).value.sex != EncodeInputs(b).value.sex
    ensures a.chestPainType != b.chestPainType ==>
      EncodeInputs(a).value.chestPainType != EncodeInputs(b).value.chestPainType
    ensures a.fastingBS != b.fastingBS ==> EncodeInputs(a).value.fastingBS != EncodeInputs(b).value.fastingBS
    ensures a.restingECG != b.restingECG ==> EncodeInputs(a).value.restingECG != EncodeInputs(b).value.restingECG
    ensures a.exerciseAngina != b.exerciseAngina ==>
      EncodeInputs(a).value.exerciseAngina != EncodeInputs(b).value.exerciseAngina
    ensures a.stSlope != b.stSlope ==> EncodeInputs(a).value.stSlope != EncodeInputs(b).value.stSlope
  {
    DecodeEncode(a);
    DecodeEncode(b);
  }

  /** The row holds exactly the eleven columns, each once, in the fixed order:
      its i-th value is the DataFrame's column named Columns[i]. */
  lemma RowFollowsColumns(f: Features)
    ensures |Row(f)| == |Columns| == 11
    ensures forall i, j :: 0 <= i < j < |Columns| ==> Columns[i] != Columns[j]
    ensures forall i :: 0 <= i < |Columns| ==> Column(f, Columns[i]) == Some(Row(f)[i])
    ensures forall name :: Column(f, name).Some? <==> name in Columns
  {
  }
}
