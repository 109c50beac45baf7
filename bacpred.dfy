/**
 * The feature vector and the labelling of bacpred.py: residue, dipeptide
 * and motif counting in `extract_features`, the name list of
 * `get_feature_names`, and what `predict` does around the classifier
 * (input normalisation, the 420-column width adjustment, the labels).
 * The classifier itself (`predict_proba`) is a parameter.
 */
module BacPred {
  import opened Text

  /** The twenty standard residues, in the order of `list("ACDEFGHIKLMNPQRSTVWY")`. */
  const Residues: string := "ACDEFGHIKLMNPQRSTVWY"

  /** The residue list is in ascending character order, so it has no repeats. */
  lemma ResiduesAscending()
    ensures |Residues| == 20
    ensures forall i, j :: 0 <= i < j < |Residues| ==> Residues[i] < Residues[j]
  {
    assert forall k :: 0 <= k < 19 ==> Residues[k] < Residues[k + 1];
    forall i, j | 0 <= i < j < |Residues|
      ensures Residues[i] < Residues[j]
    {
      AscendingStep(i, j);
    }
  }

  lemma AscendingStep(i: nat, j: nat)
    requires i < j < |Residues|
    requires forall k :: 0 <= k < |Residues| - 1 ==> Residues[k] < Residues[k + 1]
    ensures Residues[i] < Residues[j]
    decreases j - i
  {
    if i + 1 < j {
      AscendingStep(i + 1, j);
    }
  }

  /** The positions of the residues that the pseudofeatures read. */
  lemma ResidueLetters()
    ensures Residues[1] == 'C' && Residues[2] == 'D' && Residues[3] == 'E' && Residues[6] == 'H'
    ensures Residues[8] == 'K' && Residues[14] == 'R'
  {
  }

  // ---------------------------------------------------------------------
  // Counting
  // ---------------------------------------------------------------------

  /** `range(x)` has this many elements; it is empty for `x <= 0`. */
  function RangeLen(x: int): nat
  {
    if x > 0 then x else 0
  }

  /** `seq[i:i+len(w)] == w`, with the window inside the text. */
  predicate WindowAt(s: string, w: string, i: nat)
  {
    i + |w| <= |s| && forall j :: 0 <= j < |w| ==> s[i + j] == w[j]
  }

  /** How many of the positions `0 .. n-1` start the word `w`. */
  function Occurrences(s: string, w: string, n: nat): (r: nat)
    ensures r <= n
  {
    if n == 0 then 0 else Occurrences(s, w, n - 1) + (if WindowAt(s, w, n - 1) then 1 else 0)
  }

  /** `seq[i] == 'C' and seq[i+gap] == 'C'`. */
  predicate CysteinesAt(s: string, gap: nat, i: nat)
  {
    i + gap < |s| && s[i] == 'C' && s[i + gap] == 'C'
  }

  /** How many of the positions `0 .. n-1` hold a cysteine with another `gap` further on. */
  function CysteinePairs(s: string, gap: nat, n: nat): (r: nat)
    ensures r <= n
  {
    if n == 0 then 0 else CysteinePairs(s, gap, n - 1) + (if CysteinesAt(s, gap, n - 1) then 1 else 0)
  }

  /** The hydrophobic residues of the amphipathicity count. */
  predicate Hydrophobic(c: char)
  {
    c in "ACFILMVWY"
  }

  predicate TransitionAt(s: string, i: nat)
  {
    i + 1 < |s| && Hydrophobic(s[i]) != Hydrophobic(s[i + 1])
  }

  /** How many of the positions `0 .. n-1` change between hydrophobic and not. */
  function Transitions(s: string, n: nat): (r: nat)
    ensures r <= n
  {
    if n == 0 then 0 else Transitions(s, n - 1) + (if TransitionAt(s, n - 1) then 1 else 0)
  }

  /** A guarded division as the feature code writes it: `num / den if den > 0 else 0`. */
  datatype Quotient = Quotient(num: real, den: int)

  function Value(q: Quotient): real
  {
    if q.den > 0 then q.num / q.den as real else 0.0
  }

  /** The values of a list of quotients, in order. */
  function Values(qs: seq<Quotient>): (r: seq<real>)
    ensures |r| == |qs|
  {
    seq(|qs|, i requires 0 <= i < |qs| => Value(qs[i]))
  }

  /** `x / d if d > 0 else 0` on counts. */
  function Ratio(x: int, d: int): real
  {
    Value(Quotient(x as real, d))
  }

  /** The Kyte-Doolittle scale; letters outside it count 0. */
  function Hydropathy(c: char): real
  {
    match c
    case 'A' => 1.8 case 'R' => -4.5 case 'N' => -3.5 case 'D' => -3.5 case 'C' => 2.5
    case 'Q' => -3.5 case 'E' => -3.5 case 'G' => -0.4 case 'H' => -3.0 case 'I' => 4.5
    case 'L' => 3.8 case 'K' => -3.9 case 'M' => 1.9 case 'F' => 2.8 case 'P' => -1.6
    case 'S' => -0.8 case 'T' => -0.7 case 'W' => -0.9 case 'Y' => -1.3 case 'V' => 4.2
    case _ => 0.0
  }

  /** The scale summed over the first `n` letters. */
  function HydropathySum(s: string, n: nat): real
    requires n <= |s|
  {
    if n == 0 then 0.0 else HydropathySum(s, n - 1) + Hydropathy(s[n - 1])
  }

  /** `1.0 if 20 <= L <= 60 else 0.5`: most bacteriocins are 20 to 60 residues long. */
  function SizeFactor(n: nat): real
  {
    if 20 <= n <= 60 then 1.0 else 0.5
  }

  // ---------------------------------------------------------------------
  // The feature layout
  // ---------------------------------------------------------------------

  /** The dipeptides in the nested-loop order of `get_feature_names`: "AA", "AC", ..., "YY". */
  function DipeptideKeys(): (r: seq<string>)
    ensures |r| == 400
    ensures forall k :: 0 <= k < 400 ==> r[k] == KeyAt(k)
  {
    KeyList(400)
  }

  /** The first `n` dipeptides of the nested-loop order. */
  function KeyList(n: nat): (r: seq<string>)
    requires n <= 400
    ensures |r| == n
  {
    seq(n, k requires 0 <= k < n => KeyAt(k))
  }

  /** Position `k` of the nested loops: residue `k / 20` followed by residue `k % 20`. */
  function KeyAt(k: nat): (r: string)
    requires k < 400
    ensures |r| == 2
  {
    [Residues[k / 20], Residues[k % 20]]
  }

  /** Key `20 * a + b` is residue `a` followed by residue `b`. */
  lemma DipeptideKeyAt(a: nat, b: nat)
    requires a < 20 && b < 20
    ensures DipeptideKeys()[20 * a + b] == [Residues[a], Residues[b]]
  {
    var k := 20 * a + b;
    assert k / 20 == a && k % 20 == b;
  }

  /** Python's string order. */
  predicate LexLess(a: string, b: string)
  {
    |b| > 0 && (|a| == 0 || a[0] < b[0] || (a[0] == b[0] && LexLess(a[1..], b[1..])))
  }

  /**
   * The nested-loop order is `sorted(dipeptide_counts.keys())`: it lists
   * every two-residue word exactly once, in ascending string order, because
   * the residue list is itself in ascending order.
   */
  lemma DipeptideKeysSorted()
    ensures forall a, b :: 0 <= a < b < 400 ==> LexLess(DipeptideKeys()[a], DipeptideKeys()[b])
    ensures forall d :: d in DipeptideKeys() <==> |d| == 2 && d[0] in Residues && d[1] in Residues
  {
    forall a, b | 0 <= a < b < 400
      ensures LexLess(DipeptideKeys()[a], DipeptideKeys()[b])
    {
      KeysOrdered(a, b);
    }
    DipeptideKeysComplete();
  }

  /** Positions `a < b` of the nested loops hold keys in ascending string order. */
  lemma KeysOrdered(a: nat, b: nat)
    requires a < b < 400
    ensures LexLess(DipeptideKeys()[a], DipeptideKeys()[b])
  {
    var a1, b1, a2, b2 := a / 20, a % 20, b / 20, b % 20;
    assert a == 20 * a1 + b1 && b == 20 * a2 + b2;
    DipeptideKeyAt(a1, b1);
    DipeptideKeyAt(a2, b2);
    KeyOrder(a1, b1, a2, b2);
  }

  /** The keys are exactly the two-residue words. */
  lemma DipeptideKeysComplete()
    ensures forall d :: d in DipeptideKeys() <==> |d| == 2 && d[0] in Residues && d[1] in Residues
  {
    KeysAreWords();
    WordsAreKeys();
  }

  lemma KeysAreWords()
    ensures forall d :: d in DipeptideKeys() ==> |d| == 2 && d[0] in Residues && d[1] in Residues
  {
    forall d | d in DipeptideKeys()
      ensures |d| == 2 && d[0] in Residues && d[1] in Residues
    {
      var k :| 0 <= k < 400 && DipeptideKeys()[k] == d;
      KeyInResidues(k);
    }
  }

  lemma WordsAreKeys()
    ensures forall d :: |d| == 2 && d[0] in Residues && d[1] in Residues ==> d in DipeptideKeys()
  {
    forall d | |d| == 2 && d[0] in Residues && d[1] in Residues
      ensures d in DipeptideKeys()
    {
      WordIsKey(d);
    }
  }

  /** A two-residue word sits at position `20 * i + j` of the nested loops. */
  lemma WordIsKey(d: string)
    requires |d| == 2 && d[0] in Residues && d[1] in Residues
    ensures d in DipeptideKeys()
  {
    var i :| 0 <= i < 20 && Residues[i] == d[0];
    var j :| 0 <= j < 20 && Residues[j] == d[1];
    DipeptideKeyAt(i, j);
    assert d == [Residues[i], Residues[j]];
    assert DipeptideKeys()[20 * i + j] == d;
  }

  /** Every key is made of two residues. */
  lemma KeyInResidues(k: nat)
    requires k < 400
    ensures |DipeptideKeys()[k]| == 2 && DipeptideKeys()[k][0] in Residues && DipeptideKeys()[k][1] in Residues
  {
    var a, b := k / 20, k % 20;
    assert k == 20 * a + b;
    DipeptideKeyAt(a, b);
  }

  /** Two residue pairs compare as their positions in the nested loops do. */
  lemma KeyOrder(a1: nat, b1: nat, a2: nat, b2: nat)
    requires a1 < 20 && b1 < 20 && a2 < 20 && b2 < 20
    requires a1 < a2 || (a1 == a2 && b1 < b2)
    ensures LexLess([Residues[a1], Residues[b1]], [Residues[a2], Residues[b2]])
  {
    ResiduesAscending();
    var x, y := [Residues[a1], Residues[b1]], [Residues[a2], Residues[b2]];
    if a1 == a2 {
      assert x[1..] == [Residues[b1]] && y[1..] == [Residues[b2]];
    }
  }

  /** The thirteen pseudofeature names, in emission order. */
  const PseudofeatureNames: seq<string> := [
    "Cysteine_Fraction", "Cysteine_Pair_Density", "Avg_Hydrophobicity", "Charge_Density",
    "Positive_AA_Fraction", "Negative_AA_Fraction", "Amphipathicity", "Size_Factor",
    "Motif_CXC", "Motif_CXXC", "Motif_GG", "Motif_PGP", "Motif_LSXX"]

  /** `get_feature_names`: residues, dipeptides, pseudofeatures. */
  function FeatureNames(): (r: seq<string>)
    ensures |r| == 433
  {
    Singles(Residues) + DipeptideKeys() + PseudofeatureNames
  }

  /** Each of `letters` as a one-letter name. */
  function Singles(letters: string): (r: seq<string>)
    ensures |r| == |letters|
  {
    seq(|letters|, i requires 0 <= i < |letters| => [letters[i]])
  }

  /** Residue composition: the share of each residue in the text. */
  function Composition(u: string): (r: seq<real>)
    ensures |r| == 20
  {
    LetterShares(u, Residues)
  }

  /** The share of each of `letters` in the text. */
  function LetterShares(u: string, letters: string): (r: seq<real>)
    ensures |r| == |letters|
  {
    seq(|letters|, i requires 0 <= i < |letters| => Ratio(Occurrences(u, [letters[i]], |u|), |u|))
  }

  /** Dipeptide composition: the share of each dipeptide among the `L - 1` windows. */
  function DipeptideComposition(u: string): (r: seq<real>)
    ensures |r| == 400
  {
    WordShares(u, DipeptideKeys())
  }

  /** The share of each of `words` among the `L - 1` windows. */
  function WordShares(u: string, words: seq<string>): (r: seq<real>)
    ensures |r| == |words|
  {
    seq(|words|, k requires 0 <= k < |words| => Ratio(Occurrences(u, words[k], RangeLen(|u| - 1)), |u| - 1))
  }

  /** Residues counted as positive (K, R, H) and negative (D, E). */
  function Positives(u: string): nat
  {
    Occurrences(u, "K", |u|) + Occurrences(u, "R", |u|) + Occurrences(u, "H", |u|)
  }

  function Negatives(u: string): nat
  {
    Occurrences(u, "D", |u|) + Occurrences(u, "E", |u|)
  }

  /** The five motif scores CXC, CXXC, GG, PGP and LSXX. */
  function MotifScoreValues(u: string): (r: seq<real>)
    ensures |r| == 5
  {
    var n := |u|;
    Values([Quotient(CysteinePairs(u, 2, RangeLen(n - 2)) as real, n - 2),
            Quotient(CysteinePairs(u, 3, RangeLen(n - 3)) as real, n - 3),
            Quotient(Occurrences(u, "GG", RangeLen(n - 1)) as real, n - 1),
            Quotient(Occurrences(u, "PGP", RangeLen(n - 2)) as real, n - 2),
            Quotient(Occurrences(u, "LS", RangeLen(n - 3)) as real, n - 3)])
  }

  /** The pseudofeature list, from the counts it is made of. */
  function PseudofeatureList(n: nat, cysteines: int, cysteinePairs: int, hydropathy: real,
                             positives: int, negatives: int, transitions: int, motifScores: seq<real>): (r: seq<real>)
    ensures |r| == 8 + |motifScores|
  {
    Values([Quotient(cysteines as real, n),
            Quotient(cysteinePairs as real, n - 1),
            Quotient(hydropathy, n),
            Quotient((positives - negatives) as real, n),
            Quotient(positives as real, n),
            Quotient(negatives as real, n),
            Quotient(transitions as real, n - 1)]) +
    [SizeFactor(n)] + motifScores
  }

  function Pseudofeatures(u: string): (r: seq<real>)
    ensures |r| == 13
  {
    var n := |u|;
    PseudofeatureList(n, Occurrences(u, "C", n), Occurrences(u, "CC", RangeLen(n - 1)), HydropathySum(u, |u|),
                      Positives(u), Negatives(u), Transitions(u, RangeLen(n - 1)), MotifScoreValues(u))
  }

  /** `extract_features(sequence)`: 20 + 400 + 13 values. */
  function Features(sequence: string): (r: seq<real>)
    ensures |r| == 433
  {
    var u := Upper(sequence);
    Composition(u) + DipeptideComposition(u) + Pseudofeatures(u)
  }

  /** The first 20 values are the shares of the single residues named at the same positions. */
  lemma ResidueFeaturesMatchNames(sequence: string)
    ensures var u, f, names := Upper(sequence), Features(sequence), FeatureNames();
      forall i :: 0 <= i < 20 ==>
        |names[i]| == 1 && names[i][0] in Residues && f[i] == Ratio(Occurrences(u, names[i], |u|), |u|)
  {
    var u, f, names := Upper(sequence), Features(sequence), FeatureNames();
    var singles := Singles(Residues);
    assert names[..20] == singles;
    assert f[..20] == Composition(u);
    forall i | 0 <= i < 20
      ensures |names[i]| == 1 && names[i][0] in Residues && f[i] == Ratio(Occurrences(u, names[i], |u|), |u|)
    {
      assert names[i] == names[..20][i] && f[i] == f[..20][i];
    }
  }

  /**
   * The next 400 values are the shares, among the `L - 1` windows, of the
   * dipeptides named at the same positions.
   */
  lemma DipeptideFeaturesMatchNames(sequence: string)
    ensures var u, f, names := Upper(sequence), Features(sequence), FeatureNames();
      forall i :: 20 <= i < 420 ==>
        |names[i]| == 2 && f[i] == Ratio(Occurrences(u, names[i], RangeLen(|u| - 1)), |u| - 1)
  {
    var u := Upper(sequence);
    DipeptideBlock(FeatureNames(), Features(sequence), Singles(Residues), DipeptideKeys(), PseudofeatureNames,
                   Composition(u), Pseudofeatures(u), u);
  }

  /** The last 13 names are the pseudofeatures. */
  lemma PseudofeatureNamesLast()
    ensures FeatureNames()[420..] == PseudofeatureNames
  {
    var front := Singles(Residues) + DipeptideKeys();
    assert |front| == 420;
    assert FeatureNames() == front + PseudofeatureNames;
  }

  /** The block of word shares, whatever surrounds it, lines up with the words. */
  lemma DipeptideBlock(names: seq<string>, f: seq<real>, a: seq<string>, b: seq<string>, c: seq<string>,
                       x: seq<real>, z: seq<real>, u: string)
    requires names == a + b + c && f == x + WordShares(u, b) + z && |a| == |x|
    requires forall k :: 0 <= k < |b| ==> |b[k]| == 2
    ensures forall i :: |a| <= i < |a| + |b| ==>
      |names[i]| == 2 && f[i] == Ratio(Occurrences(u, names[i], RangeLen(|u| - 1)), |u| - 1)
  {
    forall i | |a| <= i < |a| + |b|
      ensures |names[i]| == 2 && f[i] == Ratio(Occurrences(u, names[i], RangeLen(|u| - 1)), |u| - 1)
    {
      DipeptideAt(a, b, c, x, z, u, i);
    }
  }

  /** Position `i` of the block of word shares, whatever surrounds it, holds the share of the word at `i`. */
  lemma DipeptideAt(a: seq<string>, b: seq<string>, c: seq<string>, x: seq<real>, z: seq<real>, u: string, i: nat)
    requires |a| == |x| && |a| <= i < |a| + |b|
    ensures (a + b + c)[i] == b[i - |a|]
    ensures (x + WordShares(u, b) + z)[i] == Ratio(Occurrences(u, b[i - |a|], RangeLen(|u| - 1)), |u| - 1)
  {
    var shares := WordShares(u, b);
    assert (a + b + c)[i] == (a + b)[i] == b[i - |a|];
    assert (x + shares + z)[i] == (x + shares)[i] == shares[i - |a|];
  }

  lemma SameElements<T>(a: seq<T>, b: seq<T>)
    requires |a| == |b|
    requires forall i :: 0 <= i < |a| ==> a[i] == b[i]
    ensures a == b
  {
  }

  lemma Parts<T>(a: seq<T>, b: seq<T>, c: seq<T>)
    ensures (a + b + c)[..|a|] == a && (a + b + c)[|a|..|a| + |b|] == b && (a + b + c)[|a| + |b|..] == c
  {
  }

  /** The empty sequence gives 0 everywhere except the size factor, which is 0.5. */
  lemma EmptySequenceFeatures()
    ensures forall i :: 0 <= i < 433 && i != 427 ==> Features("")[i] == 0.0
    ensures Features("")[427] == 0.5
  {
    var f := Features("");
    assert Upper("") == "";
    assert f == Composition("") + DipeptideComposition("") + Pseudofeatures("");
    assert forall i :: 0 <= i < 20 ==> f[i] == Composition("")[i];
    assert forall i :: 20 <= i < 420 ==> f[i] == DipeptideComposition("")[i - 20];
    assert forall i :: 420 <= i < 433 ==> f[i] == Pseudofeatures("")[i - 420];
  }

  /**
   * A letter outside the twenty residues lengthens the sequence but adds to
   * no residue count.
   */
  lemma {:induction false} OtherLettersUncounted(s: string, c: char, r: char)
    requires c !in Residues && r in Residues
    ensures Occurrences(s + [c], [r], |s| + 1) == Occurrences(s, [r], |s|)
  {
    assert !WindowAt(s + [c], [r], |s|) by {
      assert (s + [c])[|s| + 0] == c != r == [r][0];
    }
    PrefixOccurrences(s, [c], [r], |s|);
  }

  /** Windows that end inside `s` see the same letters in `s + t`. */
  lemma {:induction false} PrefixOccurrences(s: string, t: string, w: string, n: nat)
    requires n + |w| <= |s| + 1
    ensures Occurrences(s + t, w, n) == Occurrences(s, w, n)
  {
    if n > 0 {
      PrefixOccurrences(s, t, w, n - 1);
      if n - 1 + |w| <= |s| {
        forall j | 0 <= j < |w| ensures (s + t)[n - 1 + j] == w[j] <==> s[n - 1 + j] == w[j] { }
      }
    }
  }

  /** CXC counts overlapping pairs: "CCCC" has two, at 0 and at 1. */
  lemma CxcCountsOverlaps()
    ensures MotifScoreValues("CCCC")[0] == 1.0
  {
    assert CysteinesAt("CCCC", 2, 0) && CysteinesAt("CCCC", 2, 1);
    assert CysteinePairs("CCCC", 2, 2) == 2;
  }

  /** LSXX looks at positions 0 .. L-4 only: "AALS" ends in "LS" but scores 0. */
  lemma LsxxSkipsTheEnd()
    ensures Occurrences("AALS", "LS", 4) == 1
    ensures MotifScoreValues("AALS")[4] == 0.0
  {
    assert "AALS"[0 + 0] != "LS"[0] && "AALS"[1 + 0] != "LS"[0];
    assert !WindowAt("AALS", "LS", 0) && !WindowAt("AALS", "LS", 1) && WindowAt("AALS", "LS", 2);
    assert Occurrences("AALS", "LS", 1) == 0;
  }

  // ---------------------------------------------------------------------
  // extract_features, step by step
  // ---------------------------------------------------------------------

  /** `aa_counts`: every residue starts at 0, and `for aa in seq` bumps the residues it meets. */
  method CountResidues(u: string) returns (aaCounts: map<char, nat>)
    ensures forall c :: c in aaCounts <==> c in Residues
    ensures forall c :: c in aaCounts ==> aaCounts[c] == Occurrences(u, [c], |u|)
  {
    aaCounts := CountLetters(u, Residues);
  }

  /** The loop itself, for any list of letters to count. */
  method CountLetters(u: string, letters: string) returns (counts: map<char, nat>)
    ensures forall c :: c in counts <==> c in letters
    ensures forall c :: c in counts ==> counts[c] == Occurrences(u, [c], |u|)
  {
    counts := ZeroCounts(letters);
    var i := 0;
    while i < |u|
      invariant 0 <= i <= |u|
      invariant forall c :: c in counts <==> c in letters
      invariant forall c :: c in counts ==> counts[c] == Occurrences(u, [c], i)
    {
      var aa := u[i];
      ghost var before := counts;
      if aa in counts {
        counts := counts[aa := counts[aa] + 1];
      }
      ResidueCountStep(u, i, before, counts);
      i := i + 1;
    }
  }

  /** `{aa: 0 for aa in keys}`. */
  function ZeroCounts(keys: string): (m: map<char, nat>)
    ensures forall c :: c in m <==> c in keys
    ensures forall c :: c in m ==> m[c] == 0
  {
    map c | c in keys :: 0
  }

  /** One residue of the loop: the counts stay over the same keys and now cover position `i`. */
  lemma ResidueCountStep(u: string, i: nat, before: map<char, nat>, after: map<char, nat>)
    requires i < |u|
    requires forall c :: c in before ==> before[c] == Occurrences(u, [c], i)
    requires after == if u[i] in before then before[u[i] := before[u[i]] + 1] else before
    ensures after.Keys == before.Keys
    ensures forall c :: c in after ==> after[c] == Occurrences(u, [c], i + 1)
  {
    forall c | c in after
      ensures after[c] == Occurrences(u, [c], i + 1)
    {
      OccurrenceStep(u, i, c);
    }
  }

  /** Position `i` adds one to the count of `c` exactly when it holds `c`. */
  lemma OccurrenceStep(u: string, i: nat, c: char)
    requires i < |u|
    ensures Occurrences(u, [c], i + 1) == Occurrences(u, [c], i) + if u[i] == c then 1 else 0
  {
    SingleWindow(u, i, c);
  }

  lemma SingleWindow(u: string, i: nat, c: char)
    requires i < |u|
    ensures WindowAt(u, [c], i) <==> u[i] == c
  {
    assert u[i + 0] == u[i] && [c][0] == c;
  }

  /** The first `n` dipeptides of the nested-loop order, as a set. */
  function KeysBefore(n: nat): set<string>
    requires n <= 400
  {
    set k | 0 <= k < n :: DipeptideKeys()[k]
  }

  lemma KeysBeforeStep(n: nat)
    requires n < 400
    ensures KeysBefore(n + 1) == KeysBefore(n) + {DipeptideKeys()[n]}
  {
    forall d | d in KeysBefore(n + 1)
      ensures d in KeysBefore(n) + {DipeptideKeys()[n]}
    {
      var k :| 0 <= k < n + 1 && d == DipeptideKeys()[k];
      if k < n {
        assert d in KeysBefore(n);
      }
    }
  }

  /** The nested `for aa1 ... for aa2` loop that puts every dipeptide in `dipeptide_counts` with 0. */
  method ZeroDipeptideCounts() returns (counts: map<string, nat>)
    ensures counts.Keys == KeysBefore(400)
    ensures forall d :: d in counts ==> counts[d] == 0
  {
    counts := map[];
    var a := 0;
    while a < 20
      invariant 0 <= a <= 20
      invariant counts.Keys == KeysBefore(20 * a)
      invariant forall d :: d in counts ==> counts[d] == 0
    {
      var b := 0;
      while b < 20
        invariant 0 <= b <= 20
        invariant counts.Keys == KeysBefore(20 * a + b)
        invariant forall d :: d in counts ==> counts[d] == 0
      {
        ZeroStep(counts, a, b);
        counts := counts[[Residues[a], Residues[b]] := 0];
        b := b + 1;
      }
      a := a + 1;
    }
  }

  /** One pass of the inner loop adds the next key of the loop order, with count 0. */
  lemma ZeroStep(counts: map<string, nat>, a: nat, b: nat)
    requires a < 20 && b < 20
    requires counts.Keys == KeysBefore(20 * a + b)
    requires forall d :: d in counts ==> counts[d] == 0
    ensures var next := counts[[Residues[a], Residues[b]] := 0];
      next.Keys == KeysBefore(20 * a + b + 1) && forall d :: d in next ==> next[d] == 0
  {
    KeysBeforeStep(20 * a + b);
    DipeptideKeyAt(a, b);
  }

  /** `dipeptide_counts`: the 400 keys start at 0, then each of the `L - 1` windows is counted. */
  method CountDipeptides(u: string) returns (counts: map<string, nat>)
    ensures counts.Keys == KeysBefore(400)
    ensures forall d :: d in counts ==> counts[d] == Occurrences(u, d, RangeLen(|u| - 1))
  {
    counts := ZeroDipeptideCounts();
    KeysHaveTwoLetters();
    counts := CountWindows(u, counts);
  }

  /** The window loop, over any counts of two-letter words that start at 0. */
  method CountWindows(u: string, zeros: map<string, nat>) returns (counts: map<string, nat>)
    requires forall d :: d in zeros ==> |d| == 2 && zeros[d] == 0
    ensures counts.Keys == zeros.Keys
    ensures forall d :: d in counts ==> counts[d] == Occurrences(u, d, RangeLen(|u| - 1))
  {
    counts := zeros;
    var i := 0;
    var limit := RangeLen(|u| - 1);
    while i < limit
      invariant 0 <= i <= limit
      invariant counts == WindowCounts(zeros, u, i)
    {
      var dipept := u[i..i + 2];
      if dipept in counts {
        counts := counts[dipept := counts[dipept] + 1];
      }
      i := i + 1;
    }
    WindowCountsCount(zeros, u, limit);
  }

  /** The counts after the first `n` windows: each window adds one to its own word, when that word is a key. */
  ghost function WindowCounts(zeros: map<string, nat>, u: string, n: nat): map<string, nat>
    requires n + 1 <= |u| || n == 0
  {
    if n == 0 then zeros else Bump(WindowCounts(zeros, u, n - 1), u[n - 1..n + 1])
  }

  /** `if w in m: m[w] += 1`. */
  function Bump(m: map<string, nat>, w: string): map<string, nat>
  {
    if w in m then m[w := m[w] + 1] else m
  }

  /** After `n` windows the keys are those it started with, and each holds the occurrences of its word. */
  lemma {:induction false} WindowCountsCount(zeros: map<string, nat>, u: string, n: nat)
    requires n + 1 <= |u| || n == 0
    requires forall d :: d in zeros ==> |d| == 2 && zeros[d] == 0
    ensures WindowCounts(zeros, u, n).Keys == zeros.Keys
    ensures forall d :: d in WindowCounts(zeros, u, n) ==> |d| == 2 && WindowCounts(zeros, u, n)[d] == Occurrences(u, d, n)
  {
    if n > 0 {
      WindowCountsCount(zeros, u, n - 1);
      var before := WindowCounts(zeros, u, n - 1);
      var w := u[n - 1..n + 1];
      if w in before {
        WindowHit(before, u, n - 1, w);
      } else {
        WindowMiss(before, u, n - 1, w);
      }
    }
  }

  lemma KeysHaveTwoLetters()
    ensures forall d :: d in KeysBefore(400) ==> |d| == 2
  {
  }

  /** Counting the window at `i`, whose word is a key, brings every count from `i` windows to `i + 1`. */
  lemma WindowHit(before: map<string, nat>, u: string, i: nat, w: string)
    requires i + 2 <= |u| && w == u[i..i + 2] && w in before
    requires forall d :: d in before ==> |d| == 2 && before[d] == Occurrences(u, d, i)
    ensures forall d :: d in before ==> (if d == w then before[d] + 1 else before[d]) == Occurrences(u, d, i + 1)
  {
    forall d | d in before
      ensures (if d == w then before[d] + 1 else before[d]) == Occurrences(u, d, i + 1)
    {
      assert WindowAt(u, d, i) <==> d == w;
    }
  }

  /** A window whose word is not a key leaves every count right for `i + 1` windows. */
  lemma WindowMiss(before: map<string, nat>, u: string, i: nat, w: string)
    requires i + 2 <= |u| && w == u[i..i + 2] && w !in before
    requires forall d :: d in before ==> |d| == 2 && before[d] == Occurrences(u, d, i)
    ensures forall d :: d in before ==> before[d] == Occurrences(u, d, i + 1)
  {
    forall d | d in before
      ensures before[d] == Occurrences(u, d, i + 1)
    {
      assert WindowAt(u, d, i) <==> d == w;
    }
  }

  /** The amphipathicity loop: changes between hydrophobic and not over the `L - 1` windows. */
  method CountTransitions(u: string) returns (n: nat)
    ensures n == Transitions(u, RangeLen(|u| - 1))
  {
    n := 0;
    var i := 0;
    while i < |u| - 1
      invariant 0 <= i <= RangeLen(|u| - 1)
      invariant n == Transitions(u, i)
    {
      var currIsHydrophobic := Hydrophobic(u[i]);
      var nextIsHydrophobic := Hydrophobic(u[i + 1]);
      if currIsHydrophobic != nextIsHydrophobic {
        n := n + 1;
      }
      i := i + 1;
    }
  }

  /** `seq[i] == 'C' and seq[i+gap] == 'C'` counted over `range(L - gap)`. */
  method CountCysteinePairs(u: string, gap: nat) returns (score: nat)
    ensures score == CysteinePairs(u, gap, RangeLen(|u| - gap))
  {
    score := 0;
    var i := 0;
    while i < |u| - gap
      invariant 0 <= i <= RangeLen(|u| - gap)
      invariant score == CysteinePairs(u, gap, i)
    {
      if u[i] == 'C' && u[i + gap] == 'C' {
        score := score + 1;
      }
      i := i + 1;
    }
  }

  /** `seq[i:i+len(w)] == w` counted over `range(L - stop)`. */
  method CountWord(u: string, w: string, stop: nat) returns (count: nat)
    requires |w| <= stop + 1
    ensures count == Occurrences(u, w, RangeLen(|u| - stop))
  {
    count := 0;
    var i := 0;
    while i < |u| - stop
      invariant 0 <= i <= RangeLen(|u| - stop)
      invariant count == Occurrences(u, w, i)
    {
      if u[i..i + |w|] == w {
        count := count + 1;
      }
      i := i + 1;
    }
  }

  /** The motifs of the pseudofeature loop, in loop order. */
  const MotifNames: seq<string> := ["CXC", "CXXC", "GG", "PGP", "LSXX"]

  /** The `for motif in motifs` loop. */
  method MotifScores(u: string) returns (motifScores: seq<real>)
    ensures motifScores == MotifScoreValues(u)
  {
    var motifs := MotifNames;
    motifScores := [];
    var m := 0;
    while m < |motifs|
      invariant 0 <= m <= |motifs|
      invariant motifScores == MotifScoreValues(u)[..m]
    {
      var score := MotifScore(u, motifs[m], m);
      motifScores := motifScores + [score];
      m := m + 1;
    }
  }

  /** One pass of the motif loop: the branches on the motif's name, and the score of the `m`-th motif. */
  method MotifScore(u: string, motif: string, m: nat) returns (score: real)
    requires m < |MotifNames| && motif == MotifNames[m]
    ensures score == MotifScoreValues(u)[m]
  {
    var n := |u|;
    if m == 0 {
      assert motif == "CXC";
    } else if m == 1 {
      assert motif == "CXXC" && motif != "CXC";
    } else if m == 2 {
      assert motif == "GG" && motif != "CXC" && motif != "CXXC";
    } else if m == 3 {
      assert motif == "PGP" && motif != "CXC" && motif != "CXXC" && motif[1] != 'X';
    } else {
      assert motif == "LSXX" && motif != "CXC" && motif != "CXXC" && motif[0] != 'C';
    }
    if motif == "CXC" {
      var pairs := CountCysteinePairs(u, 2);
      score := Ratio(pairs, n - 2);
    } else if motif == "CXXC" {
      var pairs := CountCysteinePairs(u, 3);
      score := Ratio(pairs, n - 3);
    } else if |motif| == 2 {
      var count := CountWord(u, motif, 1);
      score := Ratio(count, n - 1);
    } else if |motif| == 3 {
      var count := CountWord(u, motif, 2);
      score := Ratio(count, n - 2);
    } else {
      var count := CountWord(u, "LS", 3);
      score := Ratio(count, n - 3);
    }
  }

  /** `extract_features`: the counting loops, then the three blocks of values. */
  method ExtractFeatures(sequence: string) returns (features: seq<real>)
    ensures features == Features(sequence)
  {
    var u := Upper(sequence);
    var aaCounts := CountResidues(u);
    var aac := ResidueShares(u, aaCounts);
    var dipeptideCounts := CountDipeptides(u);
    var dc := DipeptideShares(u, dipeptideCounts);
    var pseudofeatures := PseudofeaturesFromCounts(u, aaCounts, dipeptideCounts);
    features := aac + dc + pseudofeatures;
  }

  /** The thirteen pseudofeatures, reading the residue and cysteine-pair counts off the two maps. */
  method PseudofeaturesFromCounts(u: string, aaCounts: map<char, nat>, dipeptideCounts: map<string, nat>)
    returns (pseudofeatures: seq<real>)
    requires forall c :: c in aaCounts <==> c in Residues
    requires forall c :: c in aaCounts ==> aaCounts[c] == Occurrences(u, [c], |u|)
    requires dipeptideCounts.Keys == KeysBefore(400)
    requires forall d :: d in dipeptideCounts ==> dipeptideCounts[d] == Occurrences(u, d, RangeLen(|u| - 1))
    ensures pseudofeatures == Pseudofeatures(u)
  {
    ChargedCounted(u, aaCounts);
    PairCounted(u, dipeptideCounts);
    pseudofeatures := PseudofeatureValues(u, Get(aaCounts, 'C'), Get(dipeptideCounts, "CC"),
      Get(aaCounts, 'K') + Get(aaCounts, 'R') + Get(aaCounts, 'H'), Get(aaCounts, 'D') + Get(aaCounts, 'E'));
  }

  /** `[aa_counts[aa] / L if L > 0 else 0 for aa in amino_acids]`. */
  method ResidueShares(u: string, aaCounts: map<char, nat>) returns (aac: seq<real>)
    requires forall c :: c in aaCounts <==> c in Residues
    requires forall c :: c in aaCounts ==> aaCounts[c] == Occurrences(u, [c], |u|)
    ensures aac == Composition(u)
  {
    aac := Shares(aaCounts, Residues, |u|);
    ResidueBlock(u, aaCounts, Residues, aac);
  }

  /** `[dipeptide_counts[dp] / (L - 1) if L > 1 else 0 for dp in sorted(dipeptide_counts.keys())]`. */
  method DipeptideShares(u: string, counts: map<string, nat>) returns (dc: seq<real>)
    requires counts.Keys == KeysBefore(400)
    requires forall d :: d in counts ==> counts[d] == Occurrences(u, d, RangeLen(|u| - 1))
    ensures dc == DipeptideComposition(u)
  {
    var keys := DipeptideKeys();
    KeysListed(keys);
    dc := Shares(counts, keys, |u| - 1);
    DipeptideValues(u, counts, keys, dc);
  }

  /** `[counts[key] / d if d > 0 else 0 for key in keys]`. */
  method Shares<K>(counts: map<K, nat>, keys: seq<K>, d: int) returns (shares: seq<real>)
    requires forall i :: 0 <= i < |keys| ==> keys[i] in counts
    ensures |shares| == |keys|
    ensures forall i :: 0 <= i < |keys| ==> shares[i] == Ratio(counts[keys[i]], d)
  {
    shares := [];
    var i := 0;
    while i < |keys|
      invariant 0 <= i <= |keys|
      invariant |shares| == i
      invariant forall j :: 0 <= j < i ==> shares[j] == Ratio(counts[keys[j]], d)
    {
      shares := shares + [Ratio(counts[keys[i]], d)];
      i := i + 1;
    }
  }

  /** Every listed dipeptide is a key of the count map. */
  lemma KeysListed(keys: seq<string>)
    requires keys == DipeptideKeys()
    ensures forall k :: 0 <= k < 400 ==> keys[k] in KeysBefore(400)
  {
  }

  /** `[aa_counts[aa] / L for aa in amino_acids]` is the residue composition. */
  lemma ResidueBlock(u: string, aaCounts: map<char, nat>, letters: string, aac: seq<real>)
    requires forall c :: c in aaCounts ==> aaCounts[c] == Occurrences(u, [c], |u|)
    requires |aac| == |letters|
    requires forall i :: 0 <= i < |letters| ==> letters[i] in aaCounts && aac[i] == Ratio(aaCounts[letters[i]], |u|)
    ensures aac == LetterShares(u, letters)
  {
  }

  /** `[dipeptide_counts[dp] / (L - 1) for dp in dipeptides]` is the dipeptide composition. */
  lemma DipeptideValues(u: string, counts: map<string, nat>, words: seq<string>, dc: seq<real>)
    requires forall d :: d in counts ==> counts[d] == Occurrences(u, d, RangeLen(|u| - 1))
    requires |dc| == |words|
    requires forall k :: 0 <= k < |words| ==> words[k] in counts && dc[k] == Ratio(counts[words[k]], |u| - 1)
    ensures dc == WordShares(u, words)
  {
  }

  /** `m.get(k, 0)`. */
  function Get<K>(m: map<K, nat>, k: K): nat
  {
    if k in m then m[k] else 0
  }

  /** The thirteen pseudofeatures, from the counts read off the two maps and the remaining loops. */
  method PseudofeatureValues(u: string, cysteineCount: nat, cysteinePairCount: nat, positiveCount: int, negativeCount: int)
    returns (pseudofeatures: seq<real>)
    requires cysteineCount == Occurrences(u, "C", |u|)
    requires cysteinePairCount == Occurrences(u, "CC", RangeLen(|u| - 1))
    requires positiveCount == Positives(u) && negativeCount == Negatives(u)
    ensures pseudofeatures == Pseudofeatures(u)
  {
    var n := |u|;
    var transitions := CountTransitions(u);
    var motifScores := MotifScores(u);
    pseudofeatures := PseudofeatureList(n, cysteineCount, cysteinePairCount, HydropathySum(u, |u|),
                                        positiveCount, negativeCount, transitions, motifScores);
    PseudofeaturesFrom(u, cysteineCount, cysteinePairCount, positiveCount, negativeCount, transitions, motifScores);
  }

  /** The pseudofeature list built from the right counts is the pseudofeatures. */
  lemma PseudofeaturesFrom(u: string, cysteines: int, cysteinePairs: int, positives: int, negatives: int,
                           transitions: int, motifScores: seq<real>)
    requires cysteines == Occurrences(u, "C", |u|)
    requires cysteinePairs == Occurrences(u, "CC", RangeLen(|u| - 1))
    requires positives == Positives(u) && negatives == Negatives(u)
    requires transitions == Transitions(u, RangeLen(|u| - 1))
    requires motifScores == MotifScoreValues(u)
    ensures PseudofeatureList(|u|, cysteines, cysteinePairs, HydropathySum(u, |u|), positives, negatives, transitions, motifScores)
      == Pseudofeatures(u)
  {
  }

  /** `aa_counts.get(aa, 0)` for C and the charged residues finds the key. */
  lemma ChargedCounted(u: string, aaCounts: map<char, nat>)
    requires forall c :: c in aaCounts <==> c in Residues
    requires forall c :: c in aaCounts ==> aaCounts[c] == Occurrences(u, [c], |u|)
    ensures Get(aaCounts, 'C') == Occurrences(u, "C", |u|)
    ensures Get(aaCounts, 'K') + Get(aaCounts, 'R') + Get(aaCounts, 'H') == Positives(u)
    ensures Get(aaCounts, 'D') + Get(aaCounts, 'E') == Negatives(u)
  {
    ResidueLetters();
  }

  /** `dipeptide_counts.get('CC', 0)` finds the key. */
  lemma PairCounted(u: string, counts: map<string, nat>)
    requires counts.Keys == KeysBefore(400)
    requires forall d :: d in counts ==> counts[d] == Occurrences(u, d, RangeLen(|u| - 1))
    ensures Get(counts, "CC") == Occurrences(u, "CC", RangeLen(|u| - 1))
  {
    DipeptideKeyAt(1, 1);
    ResidueLetters();
    assert DipeptideKeys()[21] == "CC";
  }
}
