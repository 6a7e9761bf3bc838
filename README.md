# Heart-disease risk form: encoder and result labels

The application is a one-page form. It asks for eleven patient answers: age,
sex, chest pain type, resting blood pressure, cholesterol, fasting blood sugar,
resting ECG, maximum heart rate, exercise angina, Oldpeak and ST slope. It
encodes them into the numeric record that two pre-trained models expect. Then it
shows the classifier's verdict as one of two messages and the clustering
model's cluster number as a description.

This project models the deterministic part of that page in Dafny:

- `LexOrder`: Python's `<` on strings. The codes of every label table follow
  this order, as a label encoder fitted on the dataset's tokens would assign
  them. Its laws (irreflexive, asymmetric, transitive, total) are proved.
- `LabelMaps`: the five `label_map` tables, the answers each question offers,
  and the translation of the Indonesian sex and yes/no answers into the
  dataset's tokens ("Laki-laki" to "M", "Ya" to "Y"). It proves that each
  table is a label encoding: its codes fill 0..n-1 and follow the token order.
  It also proves that a label encoding is injective, gives every token its rank,
  and is therefore unique for its tokens.
- `Encoder`: `encode_inputs`, as a function from the eleven answers to a
  `Result` holding either the eleven-field record or an error for the lookup
  that raises Python's `KeyError`, naming the missing token and its column. It also defines a decoder. The two are proved to be inverse
  bijections between forms filled in with offered answers and records whose
  codes are in range. The lemmas cover totality, exact translation, numeric
  pass-through and the fixed column order.
- `Outputs`: the `cluster_labels.get(..., 'Unknown Cluster')` lookup, the
  choice between the at-risk and not-at-risk messages, and the button handler
  that connects encoder, models and messages. The models are function
  parameters.

Categorical answers stay strings, as in the source. `Encoder.Offered` says that
every answer is one the form offers. Outside the offered answers the model keeps
the source's behaviour: any sex answer other than "Laki-laki" encodes as F.
Any exercise angina or fasting blood sugar answer other than "Ya" encodes as
0. An unknown chest pain type, resting ECG or ST slope is a lookup error for the
first such column, in the order the record is built.

## Model

| member | source | states |
|---|---|---|
| `LabelMaps.SexToken` | app.py:42 | the sex answer becomes a token that is always in the Sex table, and it is "M" exactly for "Laki-laki" |
| `LabelMaps.AnginaToken` | app.py:49 | the exercise angina answer becomes a token that is always in the ExerciseAngina table, and it is "Y" exactly for "Ya" |
| `Encoder.Lookup` | app.py:43-51 | `label_map[column][token]` succeeds exactly when the token is in that column's table, gives the table's code, and otherwise is the error naming the missing token (Python's KeyError) and the column |
| `LabelMaps.FastingCode` | app.py:46 | FastingBS is 0 or 1, and 1 exactly when the answer is "Ya" |
| `LabelMaps.TablesAreLabelEncodings` | app.py:32-38 | each of the five tables uses exactly the codes 0..n-1 (n its token count), and a smaller code belongs to exactly the lexicographically smaller token (ASY<ATA<NAP<TA, LVH<Normal<ST, Down<Flat<Up, F<M, N<Y) |
| `LabelMaps.SexListsTokensInOrder` | app.py:33 | the Sex table numbers its tokens F, M in sorted order from 0 |
| `LabelMaps.ChestPainListsTokensInOrder` | app.py:34 | the ChestPainType table numbers ASY, ATA, NAP, TA in sorted order from 0 |
| `LabelMaps.RestingEcgListsTokensInOrder` | app.py:35 | the RestingECG table numbers LVH, Normal, ST in sorted order from 0 |
| `LabelMaps.ExerciseAnginaListsTokensInOrder` | app.py:36 | the ExerciseAngina table numbers N, Y in sorted order from 0 |
| `LabelMaps.StSlopeListsTokensInOrder` | app.py:37 | the ST_Slope table numbers Down, Flat, Up in sorted order from 0 |
| `LabelMaps.SortedListingIsLabelEncoding` | app.py:32-38 | a table that numbers its sorted tokens 0, 1, 2, ... is a label encoding |
| `LabelMaps.FollowsTokenOrderInjective` | app.py:33-37 | a table whose codes follow the token order never gives two tokens the same code |
| `LabelMaps.LabelEncodingIsRank` | app.py:32-38 | in a label encoding, a token's code is the number of tokens sorting before it |
| `LabelMaps.LabelEncodingUnique` | app.py:32-38 | two label encodings of the same tokens are the same table, so each table is the only one consistent with the dataset's token order |
| `LabelMaps.SexAnswersCovered` | app.py:19-42 | the two sex answers are distinct, translate to distinct tokens that are both in the table, and match the table's size |
| `LabelMaps.ChestPainAnswersCovered` | app.py:20-43 | the four chest pain answers are distinct, all in the table, and as many as its codes |
| `LabelMaps.RestingEcgAnswersCovered` | app.py:24-47 | the three resting ECG answers are distinct, all in the table, and as many as its codes |
| `LabelMaps.ExerciseAnginaAnswersCovered` | app.py:26-49 | the two yes/no answers are distinct, translate to distinct tokens that are both in the table, and match its size |
| `LabelMaps.StSlopeAnswersCovered` | app.py:28-51 | the three ST slope answers are distinct, all in the table, and as many as its codes |
| `Encoder.EncodeInputs` | app.py:31-52 | encoding succeeds iff chest pain type, resting ECG and ST slope are table tokens; otherwise it is the KeyError of the first failing column; on success each of those three codes is its table's code for the answer, every code is in 0..n-1 for its question's n answers, the five measurements are unchanged, and sex, fasting blood sugar and exercise angina are 1 exactly for "Laki-laki" or "Ya" |
| `Encoder.OfferedFormsEncode` | app.py:18-52 | no lookup fails for any combination of offered answers |
| `Encoder.TranslationExact` | app.py:42-49 | for offered answers: Laki-laki is 1 and Perempuan 0, Ya is 1 and Tidak 0 for both yes/no questions |
| `Encoder.EncodedWithinFormLimits` | app.py:18-48 | within the form's limits (age 1..120, resting BP 80..200, cholesterol 100..600, max HR 60..250) the encoded values keep the same limits, and Oldpeak passes through |
| `Encoder.DecodeEncode` | app.py:31-52 | decoding the encoding of an offered form gives back the form |
| `Encoder.EncodeDecode` | app.py:31-52 | every record with in-range codes is the encoding of the offered form decoded from it |
| `Encoder.EncodeInjective` | app.py:33-49 | offered forms with the same encoding are equal, and different answers to one question get different codes |
| `Encoder.RowFollowsColumns` | app.py:40-52 | the record has exactly 11 distinct columns in the order Age, Sex, ChestPainType, RestingBP, Cholesterol, FastingBS, RestingECG, MaxHR, ExerciseAngina, Oldpeak, ST_Slope; the i-th value is the column of that name, and no other name is a column |
| `Outputs.ClusterDescription` | app.py:68-96 | clusters 0, 1, 2 get their fixed descriptions; the result is "Unknown Cluster" exactly for every other number |
| `Outputs.ClusterDescriptionsDistinct` | app.py:68-72 | two cluster numbers read the same exactly when they are equal or both unknown |
| `Outputs.PredictionReport` | app.py:88-93 | a prediction of 1 shows the alarm box with the at-risk headline and advice; any other value shows the success box with the not-at-risk headline and advice; either headline ends with the score followed by ")" |
| `Outputs.ReportDependsOnlyOnRisk` | app.py:88-93 | two predictions give the same report exactly when both are 1 or both are not 1 |
| `Outputs.RunPrediction` | app.py:75-96 | the handler fails exactly when encoding fails, with the same lookup error; otherwise it shows the encoded record, the report `PredictionReport` gives for the classifier's prediction and the formatted score of that record (an alarm exactly when the classifier returns 1), and the description of the cluster number |
| `Outputs.OfferedFormsGetOutcome` | app.py:75-96 | on an offered form the handler always shows a verdict and a cluster, whatever the models return |

## Left out

- `Encoder.Lookup`: its error names the column as well as the missing token. Python's `KeyError` holds only the token; the column stands for the line of app.py the traceback points at. Two failures that Python reports with the same `KeyError('Foo')`, one in the chest pain column and one in the resting ECG column, are therefore different values in the model.
- The Streamlit page: widgets, layout, headings and the footer (app.py:9-28, 75-100). Of the page, only the option lists and the number-input limits are kept, as constants and predicates; the data preview at app.py:77 is modelled as `Outcome.features`.
- Loading the two pickled models with `joblib.load` under `@st.cache_resource` (app.py:54-65). This is file I/O of opaque artifacts.
- The models themselves (`model.predict`, `model.predict_proba`, `kmeans_model.predict`). They are pre-fitted scikit-learn objects, so `Outputs.RunPrediction` takes them as arbitrary functions.
- `Outputs.PredictionReport`: the probability is received as already-formatted text. The `:.2f` formatting of a floating-point number is not modelled.
- Oldpeak's limits 0.0..6.0 (app.py:27). Oldpeak is a floating-point value; it is a `real` that passes through unchanged, with no reasoning about its bounds.
- The DataFrame's column dtypes. The model's record holds integers and a real; `Encoder.Row` gives all eleven values as reals, the way the models read them.
- The unused `LabelEncoder`, `KMeans` and `ngrok` imports (app.py:5-7).
