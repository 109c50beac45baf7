/**
 * What `predict` in bacpred.py does around the classifier: it normalises
 * its input into (id, sequence) entries, extracts the feature vector of
 * each, fits the matrix to the 420 columns the scaler expects, and labels
 * each probability. Parsing FASTA text (SeqIO) and the fitted scaler and
 * classifier are parameters.
 */
module BacPredict {
  import opened Text
  import opened BacPred

  // ---------------------------------------------------------------------
  // Input normalisation
  // ---------------------------------------------------------------------

  /** One element of a list given to `predict`: a bare string or an (id, sequence) pair. */
  datatype Item = Str(s: string) | Pair(id: string, sequence: string)

  /** The argument of `predict`: a string, a list, or a value of any other type. */
  datatype PredictInput = StringInput(s: string) | ListInput(items: seq<Item>) | OtherInput

  /** The two exceptions `predict` lets escape from normalisation and unpacking. */
  datatype Failure = InputTypeError | UnpackError

  datatype Outcome<T> = Ok(value: T) | Raised(failure: Failure)

  /** `f"Sequence_{i+1}"`. */
  function SequenceName(i: nat): (r: string)
    ensures StartsWith(r, "Sequence_") && r[9..] == NatToString(i + 1)
  {
    "Sequence_" + NatToString(i + 1)
  }

  predicate AllStrings(items: seq<Item>)
  {
    forall k :: 0 <= k < |items| ==> items[k].Str?
  }

  /** The records of a parsed FASTA text, as (id, sequence) pairs. */
  function Records(parsed: seq<(string, string)>): (r: seq<Item>)
    ensures |r| == |parsed|
    ensures forall k :: 0 <= k < |r| ==> r[k] == Pair(parsed[k].0, parsed[k].1)
  {
    if |parsed| == 0 then [] else [Pair(parsed[0].0, parsed[0].1)] + Records(parsed[1..])
  }

  /** The strings of an all-string list, named `Sequence_1`, `Sequence_2`, ... from position `from`. */
  function Numbered(items: seq<Item>, from: nat): (r: seq<Item>)
    requires AllStrings(items)
    ensures |r| == |items|
    ensures forall k :: 0 <= k < |r| ==> r[k] == Pair(SequenceName(from + k), items[k].s)
    decreases |items|
  {
    if |items| == 0 then [] else [Pair(SequenceName(from), items[0].s)] + Numbered(items[1..], from + 1)
  }

  /** `seq_list`: the entries `predict` goes on to unpack, or the `ValueError` for other input types. */
  function Normalise(input: PredictInput, parseFasta: string -> seq<(string, string)>): Outcome<seq<Item>>
  {
    match input
    case StringInput(s) => if '>' in s then Ok(Records(parseFasta(s))) else Ok([Pair("Sequence", s)])
    case ListInput(items) => if AllStrings(items) then Ok(Numbered(items, 0)) else Ok(items)
    case OtherInput => Raised(InputTypeError)
  }

  /**
   * `for seq_id, seq in seq_list`: a pair unpacks; a bare string left in a
   * mixed list unpacks only when it has exactly two characters.
   */
  function Unpack(item: Item): Outcome<(string, string)>
  {
    match item
    case Pair(id, s) => Ok((id, s))
    case Str(s) => if |s| == 2 then Ok(([s[0]], [s[1]])) else Raised(UnpackError)
  }

  /** Unpacking the whole list: the first failure escapes. */
  function UnpackAll(items: seq<Item>): (r: Outcome<seq<(string, string)>>)
    ensures r.Ok? <==> forall k :: 0 <= k < |items| ==> Unpack(items[k]).Ok?
    ensures r.Ok? ==> |r.value| == |items| && forall k :: 0 <= k < |items| ==> r.value[k] == Unpack(items[k]).value
    ensures r.Raised? ==> r.failure == UnpackError
  {
    if |items| == 0 then Ok([])
    else match Unpack(items[0])
      case Raised(f) => Raised(f)
      case Ok(entry) =>
        match UnpackAll(items[1..])
        case Raised(f) => Raised(f)
        case Ok(rest) => Ok([entry] + rest)
  }

  /** A string without '>' is one entry named "Sequence". */
  lemma PlainStringIsOneEntry(s: string, parseFasta: string -> seq<(string, string)>)
    requires '>' !in s
    ensures Normalise(StringInput(s), parseFasta) == Ok([Pair("Sequence", s)])
    ensures UnpackAll(Normalise(StringInput(s), parseFasta).value) == Ok([("Sequence", s)])
  {
    var items := [Pair("Sequence", s)];
    var r := UnpackAll(items);
    assert Unpack(items[0]).Ok?;
    assert r.value == [("Sequence", s)];
  }

  /** A list of strings becomes `Sequence_1`, `Sequence_2`, ... in list order, and always unpacks. */
  lemma StringListNumbered(items: seq<Item>, parseFasta: string -> seq<(string, string)>)
    requires AllStrings(items)
    ensures var r := UnpackAll(Normalise(ListInput(items), parseFasta).value);
      r.Ok? && |r.value| == |items| &&
      forall k :: 0 <= k < |items| ==> r.value[k] == (SequenceName(k), items[k].s)
  {
  }

  /** A list of pairs is taken as it is. */
  lemma PairListKept(items: seq<Item>, parseFasta: string -> seq<(string, string)>)
    requires |items| > 0 && forall k :: 0 <= k < |items| ==> items[k].Pair?
    ensures var r := UnpackAll(Normalise(ListInput(items), parseFasta).value);
      r.Ok? && |r.value| == |items| &&
      forall k :: 0 <= k < |items| ==> r.value[k] == (items[k].id, items[k].sequence)
  {
    assert !items[0].Str?;
  }

  // ---------------------------------------------------------------------
  // The 420-column width adjustment
  // ---------------------------------------------------------------------

  /** The number of columns the scaler was fitted on. */
  const ExpectedFeatures: nat := 420

  function Zeros(n: nat): (r: seq<real>)
    ensures |r| == n && forall j :: 0 <= j < n ==> r[j] == 0.0
  {
    if n == 0 then [] else Zeros(n - 1) + [0.0]
  }

  /** One row after the adjustment: truncated, or padded with zeros, to `width` columns. */
  function FitRow(row: seq<real>, width: nat): seq<real>
  {
    if |row| > width then row[..width]
    else if |row| < width then row + Zeros(width - |row|)
    else row
  }

  /** The adjusted row has exactly `width` columns, keeps the leading ones and pads with zeros. */
  lemma FitRowShape(row: seq<real>, width: nat)
    ensures |FitRow(row, width)| == width
    ensures forall j :: 0 <= j < width && j < |row| ==> FitRow(row, width)[j] == row[j]
    ensures forall j :: |row| <= j < width ==> FitRow(row, width)[j] == 0.0
  {
  }

  /** The matrix is rectangular, as `np.array` of equally long rows is. */
  predicate Rectangular(X: seq<seq<real>>)
  {
    forall i, j :: 0 <= i < |X| && 0 <= j < |X| ==> |X[i]| == |X[j]|
  }

  /**
   * The adjustment of `predict`: the decision is taken once on the column
   * count of the whole matrix, and `X` is rebound to the fitted matrix.
   */
  method AdjustWidth(X: seq<seq<real>>) returns (Y: seq<seq<real>>)
    requires |X| > 0 && Rectangular(X)
    ensures |Y| == |X|
    ensures forall i :: 0 <= i < |X| ==> Y[i] == FitRow(X[i], ExpectedFeatures)
  {
    var columns := |X[0]|;
    Y := X;
    if columns > ExpectedFeatures {
      Y := [];
      var i := 0;
      while i < |X|
        invariant 0 <= i <= |X| && |Y| == i
        invariant forall k :: 0 <= k < i ==> Y[k] == X[k][..ExpectedFeatures]
      {
        Y := Y + [X[i][..ExpectedFeatures]];
        i := i + 1;
      }
    } else if columns < ExpectedFeatures {
      var padding := Zeros(ExpectedFeatures - columns);
      Y := [];
      var i := 0;
      while i < |X|
        invariant 0 <= i <= |X| && |Y| == i
        invariant forall k :: 0 <= k < i ==> Y[k] == X[k] + padding
      {
        Y := Y + [X[i] + padding];
        i := i + 1;
      }
    }
  }

  /**
   * With the 433-wide vectors of `extract_features`, the adjustment keeps
   * the 20 residue and 400 dipeptide shares and drops all 13 pseudofeatures.
   */
  lemma WidthDropsPseudofeatures(sequence: string)
    ensures var u := Upper(sequence);
      FitRow(Features(sequence), ExpectedFeatures) == Composition(u) + DipeptideComposition(u)
    ensures FeatureNames()[ExpectedFeatures..] == PseudofeatureNames
  {
    var u := Upper(sequence);
    Parts(Composition(u), DipeptideComposition(u), Pseudofeatures(u));
    PseudofeatureNamesLast();
  }

  /** Hence two sequences with the same residue and dipeptide shares get the same probability. */
  lemma PseudofeaturesIgnored(s: string, t: string, model: seq<real> -> real)
    requires Composition(Upper(s)) == Composition(Upper(t))
    requires DipeptideComposition(Upper(s)) == DipeptideComposition(Upper(t))
    ensures Probability(s, model) == Probability(t, model)
  {
    WidthDropsPseudofeatures(s);
    WidthDropsPseudofeatures(t);
  }

  // ---------------------------------------------------------------------
  // Labels
  // ---------------------------------------------------------------------

  datatype Label = Bacteriocin | NonBacteriocin
  datatype Confidence = High | Medium | Low

  function Abs(x: real): real
  {
    if x < 0.0 then -x else x
  }

  /** `"Bacteriocin" if bac_prob >= 0.5 else "Non-bacteriocin"`. */
  function LabelOf(p: real): Label
  {
    if p >= 0.5 then Bacteriocin else NonBacteriocin
  }

  /** `"High" if abs(p - 0.5) > 0.3 else "Medium" if abs(p - 0.5) > 0.15 else "Low"`. */
  function ConfidenceOf(p: real): Confidence
  {
    if Abs(p - 0.5) > 0.3 then High else if Abs(p - 0.5) > 0.15 then Medium else Low
  }

  /** The label only flips once, at 0.5: raising the probability never turns a bacteriocin into a non-bacteriocin. */
  lemma LabelMonotone(p: real, q: real)
    requires p <= q
    ensures LabelOf(p) == Bacteriocin ==> LabelOf(q) == Bacteriocin
    ensures LabelOf(q) == NonBacteriocin ==> LabelOf(p) == NonBacteriocin
  {
  }

  /** The confidence bands written as intervals of the probability itself. */
  lemma ConfidenceBands(p: real)
    ensures ConfidenceOf(p) == High <==> p > 0.8 || p < 0.2
    ensures ConfidenceOf(p) == Medium <==> (0.65 < p <= 0.8) || (0.2 <= p < 0.35)
    ensures ConfidenceOf(p) == Low <==> 0.35 <= p <= 0.65
  {
  }

  /** The confidence is symmetric about 0.5. */
  lemma ConfidenceSymmetric(d: real)
    ensures ConfidenceOf(0.5 + d) == ConfidenceOf(0.5 - d)
  {
  }

  // ---------------------------------------------------------------------
  // Results
  // ---------------------------------------------------------------------

  /** One result dictionary: header, sequence, probability, prediction and confidence. */
  datatype PredictionResult = PredictionResult(
    header: string, sequence: string, probability: real, prediction: Label, confidence: Confidence)

  /**
   * `probabilities[i][1]` for the sequence: the scaler and classifier
   * (`model`) see its feature vector fitted to 420 columns. Both work row
   * by row, so one row stands for the whole batch.
   */
  function Probability(sequence: string, model: seq<real> -> real): real
  {
    model(FitRow(Features(sequence), ExpectedFeatures))
  }

  function ResultFor(id: string, sequence: string, model: seq<real> -> real): PredictionResult
  {
    Labelled(id, sequence, Probability(sequence, model))
  }

  /** The result record for one entry and its bacteriocin probability. */
  function Labelled(id: string, sequence: string, p: real): PredictionResult
  {
    PredictionResult(id, sequence, p, LabelOf(p), ConfidenceOf(p))
  }

  /** What `predict` returns or raises, input by input. */
  function PredictOutcome(input: PredictInput, parseFasta: string -> seq<(string, string)>,
                          model: seq<real> -> real): Outcome<seq<PredictionResult>>
  {
    match Normalise(input, parseFasta)
    case Raised(f) => Raised(f)
    case Ok(items) =>
      match UnpackAll(items)
      case Raised(f) => Raised(f)
      case Ok(entries) => Ok(Results(entries, model))
  }

  function Results(entries: seq<(string, string)>, model: seq<real> -> real): (r: seq<PredictionResult>)
    ensures |r| == |entries|
    ensures forall i :: 0 <= i < |entries| ==> r[i] == ResultFor(entries[i].0, entries[i].1, model)
  {
    if |entries| == 0 then [] else [ResultFor(entries[0].0, entries[0].1, model)] + Results(entries[1..], model)
  }

  /**
   * Every result belongs to the input at the same position, and its
   * prediction and confidence agree with its probability.
   */
  lemma ResultsFollowInput(input: PredictInput, parseFasta: string -> seq<(string, string)>,
                           model: seq<real> -> real)
    requires Normalise(input, parseFasta).Ok? && UnpackAll(Normalise(input, parseFasta).value).Ok?
    ensures var entries := UnpackAll(Normalise(input, parseFasta).value).value;
      var r := PredictOutcome(input, parseFasta, model);
      r.Ok? && |r.value| == |entries| &&
      forall i :: 0 <= i < |entries| ==>
        r.value[i].header == entries[i].0 && r.value[i].sequence == entries[i].1 &&
        (r.value[i].prediction == Bacteriocin <==> r.value[i].probability >= 0.5) &&
        (r.value[i].confidence == High <==> r.value[i].probability > 0.8 || r.value[i].probability < 0.2)
  {
    var entries := UnpackAll(Normalise(input, parseFasta).value).value;
    var r := PredictOutcome(input, parseFasta, model);
    forall i | 0 <= i < |entries|
      ensures r.value[i].confidence == High <==> r.value[i].probability > 0.8 || r.value[i].probability < 0.2
    {
      ConfidenceBands(r.value[i].probability);
    }
  }

  /** Only a value that is neither a string nor a list raises `ValueError`. */
  lemma OnlyOtherInputRaises(input: PredictInput, parseFasta: string -> seq<(string, string)>,
                             model: seq<real> -> real)
    ensures PredictOutcome(input, parseFasta, model) == Raised(InputTypeError) <==> input.OtherInput?
  {
  }

  /**
   * `predict` once the model is trained: normalise, extract the features of
   * each entry in order, fit the width, then label each probability.
   */
  method Predict(input: PredictInput, parseFasta: string -> seq<(string, string)>, model: seq<real> -> real)
    returns (r: Outcome<seq<PredictionResult>>)
    ensures r == PredictOutcome(input, parseFasta, model)
  {
    var listed := Normalise(input, parseFasta);
    if listed.Raised? {
      return Raised(listed.failure);
    }
    var unpacked := UnpackEach(listed.value);
    if unpacked.Raised? {
      return Raised(unpacked.failure);
    }
    var results := PredictEntries(unpacked.value, model);
    return Ok(results);
  }

  /** `predict` past unpacking: features, width, probabilities and labels, entry by entry. */
  method PredictEntries(entries: seq<(string, string)>, model: seq<real> -> real) returns (results: seq<PredictionResult>)
    ensures results == Results(entries, model)
  {
    var X := FeatureRows(entries);
    if |X| == 0 {
      return [];
    }
    FeatureRowsRectangular(X, entries);
    ghost var rows := X;
    X := AdjustWidth(X);
    var probabilities := seq(|X|, i requires 0 <= i < |X| => model(X[i]));
    ProbabilitiesOfRows(entries, rows, X, probabilities, model);
    results := LabelRows(entries, probabilities);
    ResultsOfProbabilities(entries, probabilities, results, model);
  }

  lemma ProbabilitiesOfRows(entries: seq<(string, string)>, rows: seq<seq<real>>, X: seq<seq<real>>,
                            probabilities: seq<real>, model: seq<real> -> real)
    requires |rows| == |X| == |entries| == |probabilities|
    requires forall k :: 0 <= k < |rows| ==> rows[k] == Features(entries[k].1)
    requires forall k :: 0 <= k < |X| ==> X[k] == FitRow(rows[k], ExpectedFeatures)
    requires forall k :: 0 <= k < |X| ==> probabilities[k] == model(X[k])
    ensures forall k :: 0 <= k < |entries| ==> probabilities[k] == Probability(entries[k].1, model)
  {
  }

  lemma ResultsOfProbabilities(entries: seq<(string, string)>, probabilities: seq<real>,
                               results: seq<PredictionResult>, model: seq<real> -> real)
    requires |results| == |entries| == |probabilities|
    requires forall k :: 0 <= k < |entries| ==> probabilities[k] == Probability(entries[k].1, model)
    requires forall k :: 0 <= k < |entries| ==> results[k] == Labelled(entries[k].0, entries[k].1, probabilities[k])
    ensures results == Results(entries, model)
  {
    SameElements(results, Results(entries, model));
  }

  /** The unpacking `for seq_id, seq in seq_list` of `predict`'s feature loop. */
  method UnpackEach(seqList: seq<Item>) returns (unpacked: Outcome<seq<(string, string)>>)
    ensures unpacked == UnpackAll(seqList)
  {
    var entries: seq<(string, string)> := [];
    var i := 0;
    while i < |seqList|
      invariant 0 <= i <= |seqList| && |entries| == i
      invariant forall k :: 0 <= k < i ==> Unpack(seqList[k]).Ok?
      invariant forall k :: 0 <= k < i ==> entries[k] == Unpack(seqList[k]).value
    {
      var entry := Unpack(seqList[i]);
      if entry.Raised? {
        UnpackFailsAt(seqList, i);
        return Raised(entry.failure);
      }
      entries := entries + [entry.value];
      i := i + 1;
    }
    UnpackAllOk(seqList, entries);
    unpacked := Ok(entries);
  }

  /** The feature loop of `predict`: one feature row per entry, in entry order. */
  method FeatureRows(entries: seq<(string, string)>) returns (X: seq<seq<real>>)
    ensures |X| == |entries|
    ensures forall k :: 0 <= k < |X| ==> X[k] == Features(entries[k].1)
  {
    X := [];
    var i := 0;
    while i < |entries|
      invariant 0 <= i <= |entries| && |X| == i
      invariant forall k :: 0 <= k < i ==> X[k] == Features(entries[k].1)
    {
      var features := ExtractFeatures(entries[i].1);
      X := X + [features];
      i := i + 1;
    }
  }

  lemma UnpackAllOk(items: seq<Item>, entries: seq<(string, string)>)
    requires |entries| == |items|
    requires forall k :: 0 <= k < |items| ==> Unpack(items[k]).Ok? && entries[k] == Unpack(items[k]).value
    ensures UnpackAll(items) == Ok(entries)
  {
    assert UnpackAll(items).value == entries;
  }

  /** The result loop of `predict`: one result per entry, in entry order. */
  method LabelRows(entries: seq<(string, string)>, probabilities: seq<real>) returns (results: seq<PredictionResult>)
    requires |probabilities| == |entries|
    ensures |results| == |entries|
    ensures forall k :: 0 <= k < |entries| ==> results[k] == Labelled(entries[k].0, entries[k].1, probabilities[k])
  {
    results := [];
    var i := 0;
    while i < |entries|
      invariant 0 <= i <= |entries| && |results| == i
      invariant forall k :: 0 <= k < i ==> results[k] == Labelled(entries[k].0, entries[k].1, probabilities[k])
    {
      var p := probabilities[i];
      results := results + [Labelled(entries[i].0, entries[i].1, p)];
      i := i + 1;
    }
  }

  /** Unpacking the whole list fails when one entry fails, with the first failure. */
  lemma UnpackFailsAt(items: seq<Item>, i: nat)
    requires i < |items| && Unpack(items[i]).Raised?
    requires forall k :: 0 <= k < i ==> Unpack(items[k]).Ok?
    ensures UnpackAll(items) == Raised(Unpack(items[i]).failure)
    decreases i
  {
    if i > 0 {
      UnpackFailsAt(items[1..], i - 1);
    }
  }

  lemma FeatureRowsRectangular(X: seq<seq<real>>, entries: seq<(string, string)>)
    requires |X| == |entries| && forall k :: 0 <= k < |X| ==> X[k] == Features(entries[k].1)
    ensures Rectangular(X)
  {
  }
}
