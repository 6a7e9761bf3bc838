/** The fixed label tables of app.py's encoder (the `label_map` of
    `encode_inputs`), the answer lists the form offers, and the translation of
    the form's Indonesian yes/no and sex answers into the dataset's tokens. */
module LabelMaps {
  import LexOrder

  // The five tables, token -> code.
  const SexCodes: map<string, int> := map["F" := 0, "M" := 1]
  const ChestPainCodes: map<string, int> := map["ASY" := 0, "ATA" := 1, "NAP" := 2, "TA" := 3]
  const RestingEcgCodes: map<string, int> := map["LVH" := 0, "Normal" := 1, "ST" := 2]
  const ExerciseAnginaCodes: map<string, int> := map["N" := 0, "Y" := 1]
  const StSlopeCodes: map<string, int> := map["Down" := 0, "Flat" := 1, "Up" := 2]

  /** `label_map`, keyed by column name. */
  const LabelMap: map<string, map<string, int>> := map[
    "Sex" := SexCodes,
    "ChestPainType" := ChestPainCodes,
    "RestingECG" := RestingEcgCodes,
    "ExerciseAngina" := ExerciseAnginaCodes,
    "ST_Slope" := StSlopeCodes]

  // The tokens of each table in increasing order; a token's code is its position.
  const SexTokens: seq<string> := ["F", "M"]
  const ChestPainTokens: seq<string> := ["ASY", "ATA", "NAP", "TA"]
  const RestingEcgTokens: seq<string> := ["LVH", "Normal", "ST"]
  const ExerciseAnginaTokens: seq<string> := ["N", "Y"]
  const StSlopeTokens: seq<string> := ["Down", "Flat", "Up"]

  // The answers each select box or radio group of the form offers, in display order.
  const SexOptions: seq<string> := ["Laki-laki", "Perempuan"]
  const ChestPainOptions: seq<string> := ["ATA", "NAP", "ASY", "TA"]
  const RestingEcgOptions: seq<string> := ["Normal", "ST", "LVH"]
  const StSlopeOptions: seq<string> := ["Up", "Flat", "Down"]
  /** Both the fasting blood sugar and the exercise angina questions offer these. */
  const YesNoOptions: seq<string> := ["Ya", "Tidak"]

  /** The sex answer as a dataset token: "Laki-laki" is "M", anything else "F". */
  function SexToken(answer: string): (token: string)
    ensures token in SexCodes
    ensures token == "M" <==> answer == "Laki-laki"
  {
    if answer == "Laki-laki" then "M" else "F"
  }

  /** The exercise angina answer as a dataset token: "Ya" is "Y", anything else "N". */
  function AnginaToken(answer: string): (token: string)
    ensures token in ExerciseAnginaCodes
    ensures token == "Y" <==> answer == "Ya"
  {
    if answer == "Ya" then "Y" else "N"
  }

  /** FastingBS has no table: "Ya" is 1, anything else 0. */
  function FastingCode(answer: string): (code: int)
    ensures 0 <= code <= 1
    ensures code == 1 <==> answer == "Ya"
  {
    if answer == "Ya" then 1 else 0
  }

  /** Every code lies in 0..n-1, n the number of tokens of the table. */
  ghost predicate CodesInRange(table: map<string, int>) {
    forall t :: t in table ==> 0 <= table[t] < |table|
  }

  /** Every code of 0..n-1 is used. */
  ghost predicate CodesCoverRange(table: map<string, int>) {
    forall c :: 0 <= c < |table| ==> c in table.Values
  }

  /** A smaller code belongs to exactly the lexicographically smaller token. */
  ghost predicate FollowsTokenOrder(table: map<string, int>) {
    forall s, t :: s in table && t in table ==> (table[s] < table[t] <==> LexOrder.Less(s, t))
  }

  /** Distinct tokens have distinct codes. */
  ghost predicate Injective(table: map<string, int>) {
    forall s, t :: s in table && t in table && s != t ==> table[s] != table[t]
  }

  /** The codes a label encoder fitted on the table's tokens would give: the
      tokens sorted, each coded by its position. */
  ghost predicate IsLabelEncoding(table: map<string, int>) {
    CodesInRange(table) && CodesCoverRange(table) && FollowsTokenOrder(table)
  }

  /** A table whose codes follow the token order never gives two tokens the same code. */
  lemma FollowsTokenOrderInjective(table: map<string, int>)
    requires FollowsTokenOrder(table)
    ensures Injective(table)
  {
    forall s, t | s in table && t in table && s != t
      ensures table[s] != table[t]
    {
      LexOrder.LessTotal(s, t);
      LexOrder.LessAsymmetric(s, t);
    }
  }

  /** `tokens` lists the table's tokens in increasing order, and each token's
      code is its position in that list. */
  ghost predicate ListsTokensInOrder(table: map<string, int>, tokens: seq<string>) {
    && |tokens| == |table|
    && (forall t :: t in table ==> t in tokens)
    && (forall i :: 0 <= i < |tokens| ==> tokens[i] in table && table[tokens[i]] == i)
    && (forall i :: 0 < i < |tokens| ==> LexOrder.Less(tokens[i - 1], tokens[i]))
  }

  /** A table that numbers its sorted tokens 0, 1, 2, ... is a label encoding. */
  lemma SortedListingIsLabelEncoding(table: map<string, int>, tokens: seq<string>)
    requires ListsTokensInOrder(table, tokens)
    ensures IsLabelEncoding(table)
  {
    forall c | 0 <= c < |table|
      ensures c in table.Values
    {
      assert table[tokens[c]] == c;
    }
    forall s, t | s in table && t in table
      ensures table[s] < table[t] <==> LexOrder.Less(s, t)
    {
      var i, j := table[s], table[t];
      assert tokens[i] == s && tokens[j] == t;
      if i < j {
        SortedListingLess(tokens, i, j);
      } else if i == j {
        LexOrder.LessIrreflexive(s);
      } else {
        SortedListingLess(tokens, j, i);
        LexOrder.LessAsymmetric(s, t);
      }
    }
  }

  lemma {:induction false} SortedListingLess(tokens: seq<string>, i: nat, j: nat)
    requires forall k :: 0 < k < |tokens| ==> LexOrder.Less(tokens[k - 1], tokens[k])
    requires i < j < |tokens|
    ensures LexOrder.Less(tokens[i], tokens[j])
    decreases j - i
  {
    if i + 1 < j {
      SortedListingLess(tokens, i + 1, j);
      LexOrder.LessTransitive(tokens[i], tokens[i + 1], tokens[j]);
    }
  }

  /** Each table of the encoder is the label encoding of its dataset tokens. */
  lemma TablesAreLabelEncodings()
    ensures IsLabelEncoding(SexCodes)
    ensures IsLabelEncoding(ChestPainCodes)
    ensures IsLabelEncoding(RestingEcgCodes)
    ensures IsLabelEncoding(ExerciseAnginaCodes)
    ensures IsLabelEncoding(StSlopeCodes)
  {
    SexListsTokensInOrder();
    SortedListingIsLabelEncoding(SexCodes, SexTokens);
    ChestPainListsTokensInOrder();
    SortedListingIsLabelEncoding(ChestPainCodes, ChestPainTokens);
    RestingEcgListsTokensInOrder();
    SortedListingIsLabelEncoding(RestingEcgCodes, RestingEcgTokens);
    ExerciseAnginaListsTokensInOrder();
    SortedListingIsLabelEncoding(ExerciseAnginaCodes, ExerciseAnginaTokens);
    StSlopeListsTokensInOrder();
    SortedListingIsLabelEncoding(StSlopeCodes, StSlopeTokens);
  }

  lemma SexListsTokensInOrder()
    ensures ListsTokensInOrder(SexCodes, SexTokens)
  {
    assert LexOrder.Less("F", "M");
  }

  lemma ChestPainListsTokensInOrder()
    ensures ListsTokensInOrder(ChestPainCodes, ChestPainTokens)
  {
    assert LexOrder.Less("ASY", "ATA");
    assert LexOrder.Less("ATA", "NAP");
    assert LexOrder.Less("NAP", "TA");
  }

  lemma RestingEcgListsTokensInOrder()
    ensures ListsTokensInOrder(RestingEcgCodes, RestingEcgTokens)
  {
    assert LexOrder.Less("LVH", "Normal");
    assert LexOrder.Less("Normal", "ST");
  }

  lemma ExerciseAnginaListsTokensInOrder()
    ensures ListsTokensInOrder(ExerciseAnginaCodes, ExerciseAnginaTokens)
  {
    assert LexOrder.Less("N", "Y");
  }

  lemma StSlopeListsTokensInOrder()
    ensures ListsTokensInOrder(StSlopeCodes, StSlopeTokens)
  {
    assert LexOrder.Less("Down", "Flat");
    assert LexOrder.Less("Flat", "Up");
  }

  /** No answer list offers the same answer twice. */
  ghost predicate Distinct(options: seq<string>) {
    forall i, j :: 0 <= i < j < |options| ==> options[i] != options[j]
  }

  // Every answer the form offers has a code, different answers to one question
  // have different tokens, and each question offers as many answers as its
  // table has codes.

  lemma SexAnswersCovered()
    ensures Distinct(SexOptions) && |SexOptions| == |SexCodes|
    ensures forall a :: a in SexOptions ==> SexToken(a) in SexCodes
    ensures forall a, b :: a in SexOptions && b in SexOptions && a != b ==> SexToken(a) != SexToken(b)
  {
  }

  lemma ChestPainAnswersCovered()
    ensures Distinct(ChestPainOptions) && |ChestPainOptions| == |ChestPainCodes|
    ensures forall a :: a in ChestPainOptions ==> a in ChestPainCodes
  {
  }

  lemma RestingEcgAnswersCovered()
    ensures Distinct(RestingEcgOptions) && |RestingEcgOptions| == |RestingEcgCodes|
    ensures forall a :: a in RestingEcgOptions ==> a in RestingEcgCodes
  {
  }

  lemma ExerciseAnginaAnswersCovered()
    ensures Distinct(YesNoOptions) && |YesNoOptions| == |ExerciseAnginaCodes|
    ensures forall a :: a in YesNoOptions ==> AnginaToken(a) in ExerciseAnginaCodes
    ensures forall a, b :: a in YesNoOptions && b in YesNoOptions && a != b ==> AnginaToken(a) != AnginaToken(b)
  {
  }

  lemma StSlopeAnswersCovered()
    ensures Distinct(StSlopeOptions) && |StSlopeOptions| == |StSlopeCodes|
    ensures forall a :: a in StSlopeOptions ==> a in StSlopeCodes
  {
  }

  /** What a label encoder fitted on the table's tokens assigns to t: the number
      of tokens that sort before it, that is, t's position in the sorted tokens. */
  ghost function Rank(table: map<string, int>, t: string): nat {
    |set s | s in table && LexOrder.Less(s, t)|
  }

  /** A label encoding gives every token its rank. */
  lemma LabelEncodingIsRank(table: map<string, int>, t: string)
    requires IsLabelEncoding(table) && t in table
    ensures table[t] == Rank(table, t)
  {
    FollowsTokenOrderInjective(table);
    var below := set s | s in table && LexOrder.Less(s, t);
    var codes := set s | s in below :: table[s];
    // the codes of the tokens below t are exactly 0..table[t]-1
    assert codes == Range(table[t]) by {
      forall c | c in Range(table[t])
        ensures c in codes
      {
        InRange(table[t], c);
        assert c in table.Values;
        var s :| s in table && table[s] == c;
        assert s in below;
      }
      forall c | c in codes
        ensures c in Range(table[t])
      {
        InRange(table[t], c);
      }
    }
    InjectiveImageSize(table, below);
    RangeSize(table[t]);
  }

  /** Hence two label encodings of the same tokens are the same table. */
  lemma LabelEncodingUnique(table: map<string, int>, other: map<string, int>)
    requires IsLabelEncoding(table) && IsLabelEncoding(other)
    requires table.Keys == other.Keys
    ensures table == other
  {
    forall t | t in table
      ensures table[t] == other[t]
    {
      LabelEncodingIsRank(table, t);
      LabelEncodingIsRank(other, t);
      assert Rank(table, t) == Rank(other, t) by {
        assert (set s | s in table && LexOrder.Less(s, t)) == (set s | s in other && LexOrder.Less(s, t));
      }
    }
  }

  /** An injective table maps a set of its tokens to as many codes. */
  lemma {:induction false} InjectiveImageSize(table: map<string, int>, tokens: set<string>)
    requires Injective(table) && tokens <= table.Keys
    ensures |set s | s in tokens :: table[s]| == |tokens|
    decreases |tokens|
  {
    if tokens != {} {
      var s :| s in tokens;
      var rest := tokens - {s};
      InjectiveImageSize(table, rest);
      assert (set u | u in tokens :: table[u]) == (set u | u in rest :: table[u]) + {table[s]};
    }
  }

  /** The integers 0..n-1. */
  function Range(n: nat): (s: set<int>) {
    if n == 0 then {} else Range(n - 1) + {n - 1}
  }

  lemma {:induction false} InRange(n: nat, c: int)
    ensures c in Range(n) <==> 0 <= c < n
  {
    if n > 0 {
      InRange(n - 1, c);
    }
  }

  lemma {:induction false} RangeSize(n: nat)
    ensures |Range(n)| == n
  {
    if n > 0 {
      RangeSize(n - 1);
      InRange(n - 1, n - 1);
    }
  }
}
