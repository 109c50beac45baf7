/**
 * The search-and-predict page script (static/js/main.js): the selection of
 * search results and their download, and the filters, sort, cards, "Add All"
 * counter and CSV export of the prediction results. The DOM, notifications
 * and `fetch` are not modelled; what a request returns enters as a parameter.
 */
module MainPage {
  import opened Text
  import BacPredict
  import App

  // ---------------------------------------------------------------------
  // Selecting search results
  // ---------------------------------------------------------------------

  /** The selection after a click on the button of `index`, given whether the button was marked selected. */
  function Toggled(selected: seq<int>, index: int, isSelected: bool): seq<int>
  {
    if isSelected then Without(selected, index) else selected + [index]
  }

  /** The set of button indices carrying the 'selected' class after the same click. */
  function Flipped(marked: set<int>, index: int): set<int>
  {
    if index in marked then marked - {index} else marked + {index}
  }

  predicate Distinct(s: seq<int>)
  {
    forall i, j :: 0 <= i < j < |s| ==> s[i] != s[j]
  }

  /** The list agrees with the buttons: each marked index is listed exactly once. */
  ghost predicate Consistent(selected: seq<int>, marked: set<int>)
  {
    Distinct(selected) && forall y :: y in selected <==> y in marked
  }

  /** A consistent selection over `count` displayed sequences. */
  ghost predicate ValidPage(count: nat, selected: seq<int>, marked: set<int>)
  {
    Consistent(selected, marked) && forall y :: y in marked ==> 0 <= y < count
  }

  lemma {:induction false} WithoutDistinct(s: seq<int>, x: int)
    requires Distinct(s)
    ensures Distinct(Without(s, x))
  {
    if |s| > 0 {
      var rest := Without(s[1..], x);
      assert Distinct(s[1..]) by {
        forall i, j | 0 <= i < j < |s[1..]| ensures s[1..][i] != s[1..][j] {
          assert s[1..][i] == s[i + 1] && s[1..][j] == s[j + 1];
        }
      }
      WithoutDistinct(s[1..], x);
      if s[0] != x {
        assert s[0] !in s[1..] by {
          forall k | 0 <= k < |s[1..]| ensures s[1..][k] != s[0] {
            assert s[1..][k] == s[k + 1];
          }
        }
        assert s[0] !in rest;
        var r := [s[0]] + rest;
        forall i, j | 0 <= i < j < |r| ensures r[i] != r[j] {
          if i == 0 {
            assert r[j] == rest[j - 1];
          } else {
            assert r[i] == rest[i - 1] && r[j] == rest[j - 1];
          }
        }
      } else {
        assert Without(s, x) == rest;
      }
    }
  }

  /**
   * Toggling the same button twice gives back the same members; selecting an
   * unselected index and deselecting it again gives back the very same list.
   */
  lemma {:induction false} ToggleTwice(selected: seq<int>, index: int, isSelected: bool)
    requires isSelected == (index in selected)
    ensures forall y :: y in Toggled(Toggled(selected, index, isSelected), index, !isSelected) <==> y in selected
    ensures !isSelected ==> Toggled(Toggled(selected, index, isSelected), index, !isSelected) == selected
  {
    if !isSelected {
      WithoutAppend(selected, index);
      WithoutAbsent(selected, index);
    }
  }

  /** A click on a displayed button keeps the list consistent with the buttons. */
  lemma ToggleKeepsValid(count: nat, selected: seq<int>, marked: set<int>, index: int, isSelected: bool)
    requires ValidPage(count, selected, marked)
    requires 0 <= index < count && isSelected == (index in marked)
    ensures ValidPage(count, Toggled(selected, index, isSelected), Flipped(marked, index))
  {
    if isSelected {
      WithoutDistinct(selected, index);
    } else {
      var r := selected + [index];
      forall i, j | 0 <= i < j < |r| ensures r[i] != r[j] {
        if j == |selected| {
          assert r[i] == selected[i];
        }
      }
    }
  }

  /** `selectedSequences.map(index => window.currentSequences[index])`, `undefined` as `None`. */
  function At<T>(current: seq<T>, index: int): Option<T>
  {
    if 0 <= index < |current| then Some(current[index]) else None
  }

  /**
   * `downloadSequences`: nothing without sequences; otherwise the selected
   * sequences in selection order, or all of them when none is selected.
   */
  function Download<T>(current: seq<T>, selected: seq<int>): (r: Option<seq<Option<T>>>)
    ensures r.None? <==> |current| == 0
  {
    if |current| == 0 then None
    else if |selected| > 0 then Some(seq(|selected|, k requires 0 <= k < |selected| => At(current, selected[k])))
    else Some(seq(|current|, k requires 0 <= k < |current| => Some(current[k])))
  }

  /** A seq without repeats has as many members as entries. */
  lemma {:induction false} DistinctSize(s: seq<int>)
    requires Distinct(s)
    ensures |set y | y in s| == |s|
  {
    if |s| > 0 {
      var init := s[..|s| - 1];
      var last := s[|s| - 1];
      assert Distinct(init) by {
        forall i, j | 0 <= i < j < |init| ensures init[i] != init[j] {
          assert init[i] == s[i] && init[j] == s[j];
        }
      }
      DistinctSize(init);
      assert last !in init by {
        forall k | 0 <= k < |init| ensures init[k] != last {
          assert init[k] == s[k];
        }
      }
      assert s == init + [last];
      assert (set y | y in s) == (set y | y in init) + {last};
    }
  }

  /**
   * With a consistent selection the download holds no `undefined` entry: one
   * sequence per marked button, each the sequence at its index.
   */
  lemma {:induction false} ValidDownload<T>(current: seq<T>, selected: seq<int>, marked: set<int>)
    requires ValidPage(|current|, selected, marked)
    requires |current| > 0 && |selected| > 0
    ensures |Download(current, selected).value| == |marked|
    ensures forall k :: 0 <= k < |selected| ==>
      0 <= selected[k] < |current| && Download(current, selected).value[k] == Some(current[selected[k]])
  {
    DistinctSize(selected);
    assert (set y | y in selected) == marked;
    forall k | 0 <= k < |selected| ensures 0 <= selected[k] < |current| {
      assert selected[k] in selected;
    }
  }

  /**
   * The search results on the page. `marked` is the set of indices whose
   * Select button carries the 'selected' class; `predictions` is
   * `window.currentPredictions`.
   */
  class SequenceList {
    var current: seq<App.Record>
    var selected: seq<int>
    var marked: set<int>
    var predictions: seq<Prediction>

    ghost predicate Valid()
      reads this
    {
      ValidPage(|current|, selected, marked)
    }

    constructor()
      ensures current == [] && selected == [] && marked == {} && predictions == []
      ensures Valid()
    {
      current := [];
      selected := [];
      marked := {};
      predictions := [];
    }

    /** `toggleSequenceSelection(button, index)`. */
    method Toggle(index: int)
      requires 0 <= index < |current|
      modifies this
      ensures selected == Toggled(old(selected), index, index in old(marked))
      ensures marked == Flipped(old(marked), index)
      ensures current == old(current) && predictions == old(predictions)
      ensures old(Valid()) ==> Valid()
    {
      var isSelected := index in marked;
      if old(Valid()) {
        ToggleKeepsValid(|current|, selected, marked, index, isSelected);
      }
      if isSelected {
        marked := marked - {index};
        selected := Without(selected, index);
      } else {
        marked := marked + {index};
        selected := selected + [index];
      }
    }

    /** `displaySequences` as written: new results and fresh buttons, the old selection kept. */
    method DisplaySequences(sequences: seq<App.Record>)
      modifies this
      ensures |sequences| == 0 ==> current == old(current) && marked == old(marked)
      ensures |sequences| > 0 ==> current == sequences && marked == {}
      ensures selected == old(selected) && predictions == old(predictions)
    {
      if |sequences| == 0 {
        return;
      }
      current := sequences;
      marked := {};
    }

    /** `displaySequences` with the selection cleared together with the buttons, as `clearResults` does. */
    method DisplaySequencesReset(sequences: seq<App.Record>)
      modifies this
      ensures |sequences| == 0 ==> current == old(current) && marked == old(marked) && selected == old(selected)
      ensures |sequences| > 0 ==> current == sequences && marked == {} && selected == []
      ensures predictions == old(predictions)
      ensures old(Valid()) ==> Valid()
    {
      if |sequences| == 0 {
        return;
      }
      current := sequences;
      marked := {};
      selected := [];
    }

    /** `displayPredictions` keeps the predictions it is given, unless there are none. */
    method StorePredictions(preds: seq<Prediction>)
      modifies this`predictions
      ensures predictions == if |preds| == 0 then old(predictions) else preds
    {
      if |preds| == 0 {
        return;
      }
      predictions := preds;
    }

    /** `clearResults`: the results, the predictions and the selection are all emptied. */
    method ClearResults()
      modifies this
      ensures current == [] && selected == [] && marked == {} && predictions == []
      ensures Valid()
    {
      current := [];
      predictions := [];
      selected := [];
      marked := {};
    }
  }

  /**
   * A second search keeps the selection of the first: three results with the
   * third selected, then a search with one result; the page is no longer
   * consistent and the download asks for `undefined`.
   */
  lemma StaleSelection(a: App.Record, b: App.Record, c: App.Record, d: App.Record)
    ensures ValidPage(|[a, b, c]|, [2], {2})
    ensures !ValidPage(|[d]|, [2], {})
    ensures Download([d], [2]) == Some([None])
  {
    assert 2 in [2];
    var r := Download([d], [2]).value;
    assert |r| == 1 && r[0] == At([d], 2);
    assert r == [None];
  }

  // ---------------------------------------------------------------------
  // Prediction results
  // ---------------------------------------------------------------------

  /**
   * A prediction as the page holds it. The server sends `header`,
   * `sequence`, `probability`, `prediction`, `confidence`, `sequence_id`
   * and `name`; the script also reads `id`, which it may lack.
   */
  datatype Prediction = Prediction(
    id: Option<string>, header: string, name: string, sequenceId: string,
    sequence: string, probability: real, prediction: string, confidence: string)

  function LabelText(l: BacPredict.Label): string
  {
    match l
    case Bacteriocin => "Bacteriocin"
    case NonBacteriocin => "Non-bacteriocin"
  }

  function ConfidenceText(c: BacPredict.Confidence): string
  {
    match c
    case High => "High"
    case Medium => "Medium"
    case Low => "Low"
  }

  /** The JSON object the `/predict` response carries for one named result. */
  function FromNamed(n: App.Named): Prediction
  {
    Prediction(None, n.result.header, n.name, n.sequenceId, n.result.sequence,
      n.result.probability, LabelText(n.result.prediction), ConfidenceText(n.result.confidence))
  }

  /** A named result as `predict` builds it: the label from the probability, the id and name from the header. */
  predicate FromServer(n: App.Named)
  {
    n.result.prediction == BacPredict.LabelOf(n.result.probability) &&
    n.sequenceId == App.HeaderParts(n.result.header).0 &&
    n.name == App.HeaderParts(n.result.header).1
  }

  // ---------------------------------------------------------------------
  // Filters
  // ---------------------------------------------------------------------

  /** The probability tests of the filters. */
  datatype Test = Above(t: real) | AtMost(t: real) | AtLeast(t: real)

  predicate Passes(p: Prediction, test: Test)
  {
    match test
    case Above(t) => p.probability > t
    case AtMost(t) => p.probability <= t
    case AtLeast(t) => p.probability >= t
  }

  /** `preds.filter(...)` with one of the tests: the passing predictions, in order. */
  function Filtered(s: seq<Prediction>, test: Test): (r: seq<Prediction>)
    ensures |r| <= |s|
    ensures forall p :: p in r <==> p in s && Passes(p, test)
  {
    if |s| == 0 then []
    else
      assert s == [s[0]] + s[1..];
      (if Passes(s[0], test) then [s[0]] else []) + Filtered(s[1..], test)
  }

  /** The type filter's test: 'bacteriocin' wants probability > 0.5, 'non-bacteriocin' <= 0.5, anything else nothing. */
  predicate TypePasses(p: Prediction, filterType: string)
  {
    if filterType == "bacteriocin" then p.probability > 0.5
    else if filterType == "non-bacteriocin" then p.probability <= 0.5
    else true
  }

  /** The type filter applied to a list, order kept. */
  function TypeFiltered(s: seq<Prediction>, filterType: string): (r: seq<Prediction>)
    ensures forall p :: p in r <==> p in s && TypePasses(p, filterType)
  {
    if filterType == "bacteriocin" then Filtered(s, Above(0.5))
    else if filterType == "non-bacteriocin" then Filtered(s, AtMost(0.5))
    else s
  }

  /** The slider: at most 0.5 keeps probabilities up to it, above 0.5 keeps probabilities from it. */
  function ThresholdTest(threshold: real): Test
  {
    if threshold <= 0.5 then AtMost(threshold) else AtLeast(threshold)
  }

  /** The two type filters split the predictions: each one lands in exactly one of them. */
  lemma TypeFiltersPartition(s: seq<Prediction>)
    ensures multiset(TypeFiltered(s, "bacteriocin")) + multiset(TypeFiltered(s, "non-bacteriocin")) == multiset(s)
  {
    ComplementsPartition(s, 0.5);
  }

  /** Putting the head into one of two parts of the tail gives two parts of the whole. */
  lemma PartitionStep(s: seq<Prediction>, a: seq<Prediction>, b: seq<Prediction>,
                      a': seq<Prediction>, b': seq<Prediction>)
    requires |s| > 0 && multiset(a) + multiset(b) == multiset(s[1..])
    requires (a' == [s[0]] + a && b' == b) || (a' == a && b' == [s[0]] + b)
    ensures multiset(a') + multiset(b') == multiset(s)
  {
    assert s == [s[0]] + s[1..];
  }

  /** The filter of a non-empty list: the head when it passes, then the filter of the tail. */
  lemma FilteredCons(s: seq<Prediction>, test: Test)
    requires |s| > 0
    ensures Filtered(s, test) == (if Passes(s[0], test) then [s[0]] else []) + Filtered(s[1..], test)
  {
  }

  lemma {:induction false} ComplementsPartition(s: seq<Prediction>, t: real)
    ensures multiset(Filtered(s, Above(t))) + multiset(Filtered(s, AtMost(t))) == multiset(s)
  {
    if |s| > 0 {
      var rest := s[1..];
      ComplementsPartition(rest, t);
      FilteredCons(s, Above(t));
      FilteredCons(s, AtMost(t));
      PartitionStep(s, Filtered(rest, Above(t)), Filtered(rest, AtMost(t)),
        Filtered(s, Above(t)), Filtered(s, AtMost(t)));
    }
  }

  /** A filter whose test implies the first one's makes the first redundant. */
  lemma {:induction false} FilteredNarrower(s: seq<Prediction>, wide: Test, narrow: Test)
    requires forall p :: Passes(p, narrow) ==> Passes(p, wide)
    ensures Filtered(Filtered(s, wide), narrow) == Filtered(s, narrow)
  {
    if |s| > 0 {
      FilteredNarrower(s[1..], wide, narrow);
      var f := Filtered(s, wide);
      assert Filtered(s, narrow) ==
        (if Passes(s[0], narrow) then [s[0]] else []) + Filtered(s[1..], narrow);
      if Passes(s[0], wide) {
        assert f == [s[0]] + Filtered(s[1..], wide);
        assert f[0] == s[0] && f[1..] == Filtered(s[1..], wide);
        assert Filtered(f, narrow) ==
          (if Passes(f[0], narrow) then [f[0]] else []) + Filtered(f[1..], narrow);
      } else {
        assert f == Filtered(s[1..], wide);
      }
    }
  }

  /** Two tests no prediction passes together leave nothing when applied in turn. */
  lemma {:induction false} FilteredDisjoint(s: seq<Prediction>, first: Test, second: Test)
    requires forall p :: Passes(p, first) ==> !Passes(p, second)
    ensures Filtered(Filtered(s, first), second) == []
  {
    if |s| > 0 {
      FilteredDisjoint(s[1..], first, second);
      var f := Filtered(s, first);
      if Passes(s[0], first) {
        assert f == [s[0]] + Filtered(s[1..], first);
        assert f[0] == s[0] && f[1..] == Filtered(s[1..], first);
        assert Filtered(f, second) == Filtered(f[1..], second);
      } else {
        assert f == Filtered(s[1..], first);
      }
    }
  }

  /**
   * The type and the threshold can exclude each other: 'bacteriocin' with a
   * threshold at most 0.5, and 'non-bacteriocin' with a threshold above it,
   * leave nothing; with a threshold above 0.5, 'bacteriocin' adds nothing to it.
   */
  lemma ThresholdAgainstType(s: seq<Prediction>, threshold: real)
    ensures threshold <= 0.5 ==> Filtered(TypeFiltered(s, "bacteriocin"), ThresholdTest(threshold)) == []
    ensures threshold > 0.5 ==> Filtered(TypeFiltered(s, "non-bacteriocin"), ThresholdTest(threshold)) == []
    ensures threshold > 0.5 ==>
      Filtered(TypeFiltered(s, "bacteriocin"), ThresholdTest(threshold)) == Filtered(s, ThresholdTest(threshold))
  {
    if threshold > 0.5 {
      FilteredNarrower(s, Above(0.5), AtLeast(threshold));
      FilteredDisjoint(s, AtMost(0.5), AtLeast(threshold));
    } else {
      FilteredDisjoint(s, Above(0.5), AtMost(threshold));
    }
  }

  // ---------------------------------------------------------------------
  // Sorting by probability
  // ---------------------------------------------------------------------

  datatype Order = Descending | Ascending

  /** `a` may stay before `b`: the comparator does not put `b` first. */
  predicate InOrder(a: Prediction, b: Prediction, order: Order)
  {
    if order == Descending then a.probability >= b.probability else a.probability <= b.probability
  }

  /** Insert `p` before the first prediction it may precede, so it stays before its equals. */
  function Insert(p: Prediction, s: seq<Prediction>, order: Order): (r: seq<Prediction>)
    ensures |r| == |s| + 1
  {
    if |s| == 0 || InOrder(p, s[0], order) then [p] + s
    else [s[0]] + Insert(p, s[1..], order)
  }

  /**
   * `copy.sort((a, b) => b.probability - a.probability)` (or `a - b`): the
   * engine's sort is stable, which this insertion sort is too.
   */
  function SortBy(s: seq<Prediction>, order: Order): seq<Prediction>
  {
    if |s| == 0 then [] else Insert(s[0], SortBy(s[1..], order), order)
  }

  predicate Ordered(s: seq<Prediction>, order: Order)
  {
    forall i, j :: 0 <= i < j < |s| ==> InOrder(s[i], s[j], order)
  }

  /** The predictions of `s` with probability `v`, in order. */
  function WithProbability(s: seq<Prediction>, v: real): seq<Prediction>
  {
    if |s| == 0 then []
    else (if s[0].probability == v then [s[0]] else []) + WithProbability(s[1..], v)
  }

  lemma {:induction false} InsertPerm(p: Prediction, s: seq<Prediction>, order: Order)
    ensures multiset(Insert(p, s, order)) == multiset(s) + multiset{p}
  {
    if |s| > 0 && !InOrder(p, s[0], order) {
      InsertPerm(p, s[1..], order);
      assert s == [s[0]] + s[1..];
    }
  }

  lemma {:induction false} InsertOrdered(p: Prediction, s: seq<Prediction>, order: Order)
    requires Ordered(s, order)
    ensures Ordered(Insert(p, s, order), order)
  {
    if |s| > 0 && !InOrder(p, s[0], order) {
      InsertOrdered(p, s[1..], order);
      InsertPerm(p, s[1..], order);
      var r := Insert(p, s[1..], order);
      assert Insert(p, s, order) == [s[0]] + r;
      forall j | 0 <= j < |r| ensures InOrder(s[0], r[j], order)
      {
        assert r[j] in multiset(s[1..]) + multiset{p};
        if r[j] != p {
          assert r[j] in s[1..];
        }
      }
    }
  }

  lemma {:induction false} InsertWithProbability(p: Prediction, s: seq<Prediction>, order: Order, v: real)
    ensures WithProbability(Insert(p, s, order), v) ==
      (if p.probability == v then [p] else []) + WithProbability(s, v)
  {
    var head := if p.probability == v then [p] else [];
    if |s| == 0 || InOrder(p, s[0], order) {
      var r := [p] + s;
      assert r[0] == p && r[1..] == s;
    } else {
      var rest := Insert(p, s[1..], order);
      var r := [s[0]] + rest;
      var h0 := if s[0].probability == v then [s[0]] else [];
      InsertWithProbability(p, s[1..], order, v);
      assert r[0] == s[0] && r[1..] == rest;
      assert WithProbability(r, v) == h0 + WithProbability(rest, v);
      assert WithProbability(s, v) == h0 + WithProbability(s[1..], v);
      assert head == [] || h0 == [];
    }
  }

  /**
   * The sort orders by probability in the chosen direction, loses and adds
   * no prediction, and keeps the original order among equal probabilities.
   */
  lemma {:induction false} SortByCorrect(s: seq<Prediction>, order: Order)
    ensures Ordered(SortBy(s, order), order)
    ensures multiset(SortBy(s, order)) == multiset(s)
    ensures forall v :: WithProbability(SortBy(s, order), v) == WithProbability(s, v)
  {
    if |s| > 0 {
      SortByCorrect(s[1..], order);
      InsertOrdered(s[0], SortBy(s[1..], order), order);
      InsertPerm(s[0], SortBy(s[1..], order), order);
      assert s == [s[0]] + s[1..];
      forall v ensures WithProbability(SortBy(s, order), v) == WithProbability(s, v)
      {
        InsertWithProbability(s[0], SortBy(s[1..], order), order, v);
      }
    }
  }

  // ---------------------------------------------------------------------
  // What the page renders
  // ---------------------------------------------------------------------

  /** `Unchanged`: the handler returned before rendering; otherwise the cards in render order. */
  datatype View = Unchanged | Rendered(cards: seq<Prediction>)

  /**
   * The sort named 'probability-desc' or 'probability-asc' (the active sort
   * button's id without "sort-"); any other name leaves the order alone.
   */
  function SortedByName(s: seq<Prediction>, sortBy: string): seq<Prediction>
  {
    if sortBy == "probability-desc" then SortBy(s, Descending)
    else if sortBy == "probability-asc" then SortBy(s, Ascending)
    else s
  }

  /** `sortPredictions(sortBy)`: a sorted copy of the current predictions. */
  function SortPredictions(current: seq<Prediction>, sortBy: string): View
  {
    if |current| == 0 then Unchanged else Rendered(SortedByName(current, sortBy))
  }

  /** `filterPredictions(filterType)`: the type filter, then the active sort. */
  function FilterPredictions(current: seq<Prediction>, filterType: string, sortBy: string): View
  {
    if |current| == 0 then Unchanged else Rendered(SortedByName(TypeFiltered(current, filterType), sortBy))
  }

  /**
   * `filterByThreshold(threshold)`: the active type filter (its button id
   * without "filter-", or 'all' when no filter button is active), then the
   * threshold, then the active sort.
   */
  function FilterByThreshold(current: seq<Prediction>, threshold: real, activeFilter: Option<string>, sortBy: string): View
  {
    if |current| == 0 then Unchanged
    else
      var filterType := if activeFilter.Some? then activeFilter.value else "all";
      Rendered(SortedByName(Filtered(TypeFiltered(current, filterType), ThresholdTest(threshold)), sortBy))
  }

  lemma SortedByNameCorrect(s: seq<Prediction>, sortBy: string)
    ensures multiset(SortedByName(s, sortBy)) == multiset(s)
    ensures sortBy == "probability-desc" ==> Ordered(SortedByName(s, sortBy), Descending)
    ensures sortBy == "probability-asc" ==> Ordered(SortedByName(s, sortBy), Ascending)
    ensures forall v :: WithProbability(SortedByName(s, sortBy), v) == WithProbability(s, v)
  {
    SortByCorrect(s, Descending);
    SortByCorrect(s, Ascending);
  }

  /**
   * Sorting renders every current prediction once, in the chosen direction,
   * equal probabilities in their original order; the current list itself is
   * a value and stays as it was.
   */
  lemma SortPredictionsCorrect(current: seq<Prediction>, sortBy: string)
    ensures SortPredictions(current, sortBy).Rendered? <==> |current| > 0
    ensures SortPredictions(current, sortBy).Rendered? ==>
      var cards := SortPredictions(current, sortBy).cards;
      multiset(cards) == multiset(current) &&
      (sortBy == "probability-desc" ==> Ordered(cards, Descending)) &&
      (sortBy == "probability-asc" ==> Ordered(cards, Ascending)) &&
      forall v :: WithProbability(cards, v) == WithProbability(current, v)
  {
    SortedByNameCorrect(current, sortBy);
  }

  /**
   * A card is rendered after a threshold change exactly when its prediction
   * passes both the active type filter and the threshold, once for each time
   * it is current.
   */
  lemma FilterByThresholdCorrect(current: seq<Prediction>, threshold: real, activeFilter: Option<string>, sortBy: string)
    ensures FilterByThreshold(current, threshold, activeFilter, sortBy).Rendered? <==> |current| > 0
    ensures FilterByThreshold(current, threshold, activeFilter, sortBy).Rendered? ==>
      var filterType := if activeFilter.Some? then activeFilter.value else "all";
      var cards := FilterByThreshold(current, threshold, activeFilter, sortBy).cards;
      multiset(cards) == multiset(Filtered(TypeFiltered(current, filterType), ThresholdTest(threshold))) &&
      (forall p :: p in cards <==>
        p in current && TypePasses(p, filterType) &&
        (if threshold <= 0.5 then p.probability <= threshold else p.probability >= threshold)) &&
      (sortBy == "probability-desc" ==> Ordered(cards, Descending)) &&
      (sortBy == "probability-asc" ==> Ordered(cards, Ascending))
  {
    if |current| > 0 {
      var filterType := if activeFilter.Some? then activeFilter.value else "all";
      var f := Filtered(TypeFiltered(current, filterType), ThresholdTest(threshold));
      SortedByNameCorrect(f, sortBy);
      var cards := SortedByName(f, sortBy);
      forall p ensures p in cards <==> p in f {
        assert p in cards <==> p in multiset(cards);
        assert p in f <==> p in multiset(f);
      }
    }
  }

  // ---------------------------------------------------------------------
  // Cards
  // ---------------------------------------------------------------------

  /** A card is treated as a bacteriocin, and offers "Add to Collection", when labelled so or above 0.5. */
  predicate HasAddButton(p: Prediction)
  {
    p.prediction == "Bacteriocin" || p.probability > 0.5
  }

  /** "Add All" sends the rendered predictions above 0.5. */
  function AddAllTargets(cards: seq<Prediction>): seq<Prediction>
  {
    Filtered(cards, Above(0.5))
  }

  /**
   * For a server result, a card offers the Add button exactly from 0.5 up,
   * where the server's label turns to 'Bacteriocin'; "Add All" takes only the
   * cards strictly above 0.5, so a card at exactly 0.5 has a button but is
   * skipped by "Add All".
   */
  lemma AddButtonOfServerResult(n: App.Named, cards: seq<Prediction>)
    requires FromServer(n)
    ensures HasAddButton(FromNamed(n)) <==> n.result.probability >= 0.5
    ensures FromNamed(n) in AddAllTargets(cards) <==> FromNamed(n) in cards && n.result.probability > 0.5
    ensures forall p :: p in AddAllTargets(cards) ==> HasAddButton(p)
  {
  }

  /** `s.substring(k)`: empty when `k` is past the end. */
  function Drop(s: string, k: nat): (r: string)
    ensures k <= |s| ==> s == s[..k] + r
    ensures k > |s| ==> r == []
  {
    if k <= |s| then s[k..] else []
  }

  /** `pred.name || ''`, else the header without the id prefix, trimmed, when header and id are set. */
  function Described(p: Prediction): string
  {
    if p.name != "" then p.name
    else if p.header != "" && p.id.Some? && p.id.value != "" then Strip(Drop(p.header, |p.id.value|))
    else ""
  }

  /** How a possibly missing property renders inside a template or a join. */
  function Shown(v: Option<string>): string
  {
    match v
    case None => "undefined"
    case Some(s) => s
  }

  /** The card title: the description, else the id. */
  function Title(p: Prediction): string
  {
    if Described(p) != "" then Described(p) else Shown(p.id)
  }

  /** The sequence preview on a card: the first 50 residues and "..." when longer. */
  function Preview(s: string): (r: string)
    ensures |s| <= 50 ==> r == s
    ensures |s| > 50 ==> |r| == 53 && r == s[..50] + "..."
  {
    if |s| > 50 then s[..50] + "..." else s
  }

  /** The preview never runs past 53 characters and always starts the sequence. */
  lemma PreviewBounds(s: string)
    ensures |Preview(s)| <= 53
    ensures |Preview(s)| <= 50 ==> Preview(s) == s
    ensures StartsWith(Preview(s), s[..if |s| < 50 then |s| else 50])
  {
  }

  /**
   * For a server result the title is the name the server split off the
   * header; with no name it is "undefined", since the result has no `id`.
   */
  lemma TitleOfServerResult(n: App.Named)
    ensures Title(FromNamed(n)) == if n.name != "" then n.name else "undefined"
  {
  }

  /** `header.split(' ')[0]`. */
  function FirstWord(header: string): string
  {
    Split(header, ' ')[0]
  }

  /** The first piece of a split ends at the first separator. */
  lemma FirstWordIsHeaderId(header: string)
    ensures FirstWord(header) == App.HeaderParts(header).0
  {
    match SplitOnce(header, ' ')
    case None =>
    case Some((before, after)) =>
      assert Split(header, ' ') == [before] + Split(after, ' ');
  }

  /** The body "Add All" posts to `/add_to_collection` for one prediction. */
  datatype Payload = Payload(sequenceId: string, name: string, sequence: string, probability: real)

  function PayloadOf(p: Prediction): Payload
  {
    var sequenceId :=
      if p.sequenceId != "" then p.sequenceId
      else if p.id.Some? && p.id.value != "" then p.id.value
      else FirstWord(p.header);
    var description := Described(p);
    var name :=
      if description != "" then description
      else if p.header != "" then p.header
      else if p.id.Some? && p.id.value != "" then p.id.value
      else p.sequenceId;
    Payload(sequenceId, name, p.sequence, p.probability)
  }

  /**
   * For a server result the posted id is the first word of the header and the
   * posted name is the rest of it, or the whole header when nothing follows.
   */
  lemma PayloadOfServerResult(n: App.Named)
    requires FromServer(n)
    ensures PayloadOf(FromNamed(n)).sequenceId == App.HeaderParts(n.result.header).0
    ensures PayloadOf(FromNamed(n)).name ==
      if n.name != "" then n.name else n.result.header
    ensures PayloadOf(FromNamed(n)).sequence == n.result.sequence
  {
    FirstWordIsHeaderId(n.result.header);
    if n.name == "" && n.result.header == "" {
      assert App.HeaderParts("").0 == "";
    }
  }

  // ---------------------------------------------------------------------
  // "Add All": one request per target, counted as the responses arrive
  // ---------------------------------------------------------------------

  function Successes(outcomes: seq<bool>): (r: nat)
    ensures r <= |outcomes|
  {
    if |outcomes| == 0 then 0
    else Successes(outcomes[..|outcomes| - 1]) + (if outcomes[|outcomes| - 1] then 1 else 0)
  }

  /** The count reaches the number of requests exactly when every one succeeded. */
  lemma {:induction false} AllSucceeded(outcomes: seq<bool>)
    ensures Successes(outcomes) == |outcomes| <==> forall k :: 0 <= k < |outcomes| ==> outcomes[k]
  {
    if |outcomes| > 0 {
      var init := outcomes[..|outcomes| - 1];
      AllSucceeded(init);
      if !outcomes[|outcomes| - 1] {
        assert Successes(outcomes) < |outcomes|;
      } else if Successes(outcomes) == |outcomes| {
        forall k | 0 <= k < |outcomes| ensures outcomes[k] {
          if k < |init| {
            assert init[k] == outcomes[k];
          }
        }
      } else {
        assert !(forall k :: 0 <= k < |init| ==> init[k]);
        var k :| 0 <= k < |init| && !init[k];
        assert !outcomes[k];
      }
    }
  }

  /** The bodies posted for `targets`, one each, in order. */
  function Payloads(targets: seq<Prediction>): (r: seq<Payload>)
    ensures |r| == |targets|
    ensures forall k :: 0 <= k < |targets| ==> r[k] == PayloadOf(targets[k])
  {
    if |targets| == 0 then []
    else Payloads(targets[..|targets| - 1]) + [PayloadOf(targets[|targets| - 1])]
  }

  /** The sequence ids whose "Add to Collection" buttons get disabled. */
  function AddedIds(targets: seq<Prediction>, outcomes: seq<bool>): set<string>
    requires |outcomes| == |targets|
  {
    set k | 0 <= k < |targets| && outcomes[k] :: PayloadOf(targets[k]).sequenceId
  }

  lemma AddedIdsStep(targets: seq<Prediction>, outcomes: seq<bool>, i: nat)
    requires |outcomes| == |targets| && i < |targets|
    ensures AddedIds(targets[..i + 1], outcomes[..i + 1]) ==
      AddedIds(targets[..i], outcomes[..i]) + (if outcomes[i] then {PayloadOf(targets[i]).sequenceId} else {})
  {
    var before := targets[..i];
    var after := targets[..i + 1];
    assert forall k :: 0 <= k < i ==> after[k] == before[k] && outcomes[..i + 1][k] == outcomes[..i][k];
    assert after[i] == targets[i] && outcomes[..i + 1][i] == outcomes[i];
  }

  /** One more request: one more body, and one more success when it succeeded. */
  lemma AddAllStep(targets: seq<Prediction>, outcomes: seq<bool>, i: nat)
    requires |outcomes| == |targets| && i < |targets|
    ensures Payloads(targets[..i + 1]) == Payloads(targets[..i]) + [PayloadOf(targets[i])]
    ensures Successes(outcomes[..i + 1]) == Successes(outcomes[..i]) + (if outcomes[i] then 1 else 0)
    ensures AddedIds(targets[..i + 1], outcomes[..i + 1]) ==
      AddedIds(targets[..i], outcomes[..i]) + (if outcomes[i] then {PayloadOf(targets[i]).sequenceId} else {})
  {
    assert outcomes[..i + 1][..i] == outcomes[..i];
    assert targets[..i + 1][..i] == targets[..i];
    AddedIdsStep(targets, outcomes, i);
  }

  /**
   * The "Add All" click handler, with the network replaced by the outcome of
   * each request in turn: `sent` are the posted bodies, `added` is
   * `addedCount`, `disabled` the ids whose buttons are disabled, and
   * `notified` whether the completion notice is shown.
   */
  method AddAll(cards: seq<Prediction>, outcomes: seq<bool>)
    returns (sent: seq<Payload>, added: nat, disabled: set<string>, notified: bool)
    requires |outcomes| == |AddAllTargets(cards)|
    ensures sent == Payloads(AddAllTargets(cards))
    ensures added == Successes(outcomes)
    ensures disabled == AddedIds(AddAllTargets(cards), outcomes)
    ensures notified <==> |sent| > 0 && forall k :: 0 <= k < |outcomes| ==> outcomes[k]
  {
    sent, added, disabled, notified := PostAll(AddAllTargets(cards), outcomes);
  }

  /** The loop of `AddAll` over the cards it takes, one request after another. */
  method PostAll(targets: seq<Prediction>, outcomes: seq<bool>)
    returns (sent: seq<Payload>, added: nat, disabled: set<string>, notified: bool)
    requires |outcomes| == |targets|
    ensures sent == Payloads(targets)
    ensures added == Successes(outcomes)
    ensures disabled == AddedIds(targets, outcomes)
    ensures notified <==> |sent| > 0 && forall k :: 0 <= k < |outcomes| ==> outcomes[k]
  {
    sent, added, disabled, notified := [], 0, {}, false;
    if |targets| == 0 {
      return;
    }
    var total := |targets|;
    for i := 0 to total
      invariant sent == Payloads(targets[..i])
      invariant added == Successes(outcomes[..i])
      invariant disabled == AddedIds(targets[..i], outcomes[..i])
      invariant notified <==> i == total && added == total
    {
      AddAllStep(targets, outcomes, i);
      var payload := PayloadOf(targets[i]);
      sent := sent + [payload];
      if outcomes[i] {
        added := added + 1;
        disabled := disabled + {payload.sequenceId};
        if added == total {
          notified := true;
        }
      }
    }
    assert outcomes[..total] == outcomes;
    assert targets[..total] == targets;
    AllSucceeded(outcomes);
  }

  // ---------------------------------------------------------------------
  // CSV export
  // ---------------------------------------------------------------------

  /** The fixed first line of the export: the five column names joined by commas. */
  const HeaderLine := "Sequence ID" + "," + "Prediction" + "," + "Probability" + "," + "Confidence" + "," + "Sequence"

  function Quoted(s: string): string
  {
    "\"" + s + "\""
  }

  /**
   * One row as written: `pred.id` quoted (the server never sends an `id`),
   * prediction, probability as `show` renders the number, confidence and
   * sequence; only the probability is unquoted.
   */
  function RowAsWritten(p: Prediction, show: real -> string): seq<string>
  {
    [Quoted(Shown(p.id)), Quoted(p.prediction), show(p.probability), Quoted(p.confidence), Quoted(p.sequence)]
  }

  /** The row with the id column taken from `sequence_id`, then `id`. */
  function Row(p: Prediction, show: real -> string): seq<string>
  {
    var id := if p.sequenceId != "" then Some(p.sequenceId) else p.id;
    [Quoted(Shown(id)), Quoted(p.prediction), show(p.probability), Quoted(p.confidence), Quoted(p.sequence)]
  }

  /** Every row of the export as written names its prediction "undefined". */
  lemma RowAsWrittenLosesId(n: App.Named, show: real -> string)
    ensures RowAsWritten(FromNamed(n), show)[0] == "\"undefined\""
  {
  }

  /** With `Row`, a server result's row starts with the id the server split off its header. */
  lemma RowKeepsId(n: App.Named, show: real -> string)
    requires FromServer(n)
    requires n.sequenceId != ""
    ensures Row(FromNamed(n), show)[0] == Quoted(App.HeaderParts(n.result.header).0)
  {
  }

  /** The row as written, or the corrected one. */
  function RowOf(p: Prediction, show: real -> string, asWritten: bool): seq<string>
  {
    if asWritten then RowAsWritten(p, show) else Row(p, show)
  }

  /** The rows of `preds` joined by ',' and each ended by a newline. */
  function Rows(preds: seq<Prediction>, show: real -> string, asWritten: bool): string
  {
    if |preds| == 0 then []
    else Rows(preds[..|preds| - 1], show, asWritten) + (Join(RowOf(preds[|preds| - 1], show, asWritten), ",") + "\n")
  }

  /** The export: the header line, then one line per prediction. */
  function Csv(header: string, preds: seq<Prediction>, show: real -> string, asWritten: bool): string
  {
    header + "\n" + Rows(preds, show, asWritten)
  }

  /**
   * `downloadPredictions`: nothing without predictions; otherwise the header
   * line, then one line per prediction, built up one row at a time, each
   * row as written (its id column from `pred.id`).
   */
  method DownloadPredictions(preds: seq<Prediction>, show: real -> string) returns (csv: Option<string>)
    ensures csv.None? <==> |preds| == 0
    ensures csv.Some? ==> csv.value == Csv(HeaderLine, preds, show, true)
  {
    if |preds| == 0 {
      return None;
    }
    var content := BuildCsv(HeaderLine, preds, show, true);
    return Some(content);
  }

  /** `downloadPredictions` with the corrected id column of `Row`. */
  method DownloadPredictionsCorrected(preds: seq<Prediction>, show: real -> string) returns (csv: Option<string>)
    ensures csv.None? <==> |preds| == 0
    ensures csv.Some? ==> csv.value == Csv(HeaderLine, preds, show, false)
  {
    if |preds| == 0 {
      return None;
    }
    var content := BuildCsv(HeaderLine, preds, show, false);
    return Some(content);
  }

  /** The file content, appended to one row at a time. */
  method BuildCsv(header: string, preds: seq<Prediction>, show: real -> string, asWritten: bool) returns (content: string)
    ensures content == Csv(header, preds, show, asWritten)
  {
    content := header + "\n";
    for i := 0 to |preds|
      invariant content == header + "\n" + Rows(preds[..i], show, asWritten)
    {
      var line := Join(RowOf(preds[i], show, asWritten), ",") + "\n";
      RowsStep(header + "\n", preds, i, show, asWritten, line);
      content := content + line;
    }
    assert preds[..|preds|] == preds;
  }

  /** Appending one more row to the content. */
  lemma RowsStep(prefix: string, preds: seq<Prediction>, i: nat, show: real -> string, asWritten: bool, line: string)
    requires i < |preds| && line == Join(RowOf(preds[i], show, asWritten), ",") + "\n"
    ensures prefix + Rows(preds[..i + 1], show, asWritten) == prefix + Rows(preds[..i], show, asWritten) + line
  {
    assert preds[..i + 1][..i] == preds[..i];
  }

  // ---------------------------------------------------------------------
  // Reading the export back
  // ---------------------------------------------------------------------

  lemma {:induction false} SplitJoin(parts: seq<string>, sep: char)
    requires |parts| >= 1
    requires forall k :: 0 <= k < |parts| ==> sep !in parts[k]
    ensures Split(Join(parts, [sep]), sep) == parts
  {
    if |parts| > 1 {
      SplitJoin(parts[1..], sep);
      SplitAt(parts[0], Join(parts[1..], [sep]), sep);
      assert parts == [parts[0]] + parts[1..];
    }
  }

  lemma {:induction false} JoinSnoc(parts: seq<string>, last: string, sep: string)
    requires |parts| >= 1
    ensures Join(parts + [last], sep) == Join(parts, sep) + sep + last
  {
    if |parts| == 1 {
      assert (parts + [last])[1..] == [last];
    } else {
      JoinSnoc(parts[1..], last, sep);
      assert (parts + [last])[1..] == parts[1..] + [last];
    }
  }

  lemma {:induction false} NoSepInJoin(parts: seq<string>, sep: char, c: char)
    requires c != sep
    requires forall k :: 0 <= k < |parts| ==> c !in parts[k]
    ensures c !in Join(parts, [sep])
  {
    if |parts| > 1 {
      NoSepInJoin(parts[1..], sep, c);
    }
  }

  /** The lines of an export: the header, then one line per prediction. */
  function Lines(header: string, preds: seq<Prediction>, show: real -> string, asWritten: bool): (r: seq<string>)
    ensures |r| == |preds| + 1
  {
    if |preds| == 0 then [header]
    else Lines(header, preds[..|preds| - 1], show, asWritten) + [Join(RowOf(preds[|preds| - 1], show, asWritten), ",")]
  }

  lemma {:induction false} LinesShape(header: string, preds: seq<Prediction>, show: real -> string, asWritten: bool)
    ensures Lines(header, preds, show, asWritten)[0] == header
    ensures forall k :: 0 <= k < |preds| ==> Lines(header, preds, show, asWritten)[k + 1] == Join(RowOf(preds[k], show, asWritten), ",")
  {
    if |preds| > 0 {
      var init := preds[..|preds| - 1];
      LinesShape(header, init, show, asWritten);
      forall k | 0 <= k < |init| ensures init[k] == preds[k] {
      }
    }
  }

  /** The export is its lines joined by newlines, with the empty text after the last newline. */
  lemma {:induction false} CsvIsLines(header: string, preds: seq<Prediction>, show: real -> string, asWritten: bool)
    ensures Csv(header, preds, show, asWritten) == Join(Lines(header, preds, show, asWritten) + [""], "\n")
  {
    if |preds| == 0 {
      assert ([header] + [""])[1..] == [""];
    } else {
      var init := preds[..|preds| - 1];
      var row := Join(RowOf(preds[|preds| - 1], show, asWritten), ",");
      var lines := Lines(header, init, show, asWritten);
      CsvIsLines(header, init, show, asWritten);
      JoinSnoc(lines, "", "\n");
      JoinSnoc(lines, row, "\n");
      JoinSnoc(lines + [row], "", "\n");
      assert Lines(header, preds, show, asWritten) == lines + [row];
      assert Rows(preds, show, asWritten) == Rows(init, show, asWritten) + (row + "\n");
      var j := Join(lines, "\n");
      assert j + "\n" + "" == j + "\n";
      assert Join(lines + [row] + [""], "\n") == (j + "\n" + row) + "\n";
      AppendLine(header + "\n", Rows(init, show, asWritten), row, "\n", j);
    }
  }

  lemma AppendLine(prefix: string, rows: string, row: string, nl: string, j: string)
    requires prefix + rows == j + nl
    ensures prefix + (rows + (row + nl)) == (j + nl + row) + nl
  {
    calc {
      prefix + (rows + (row + nl));
      (prefix + rows) + row + nl;
    }
  }

  /**
   * An export reads back: split at newlines it gives the header, then one
   * line per prediction, then nothing; each prediction line split at commas
   * gives its five columns, when no column holds a comma or a newline.
   */
  lemma LinesReadBack(header: string, preds: seq<Prediction>, show: real -> string, asWritten: bool)
    requires '\n' !in header
    requires forall k :: 0 <= k < |preds| ==> forall c :: 0 <= c < 5 ==>
      ',' !in RowOf(preds[k], show, asWritten)[c] && '\n' !in RowOf(preds[k], show, asWritten)[c]
    ensures Split(Csv(header, preds, show, asWritten), '\n') == Lines(header, preds, show, asWritten) + [""]
    ensures forall k :: 0 <= k < |preds| ==> Split(Lines(header, preds, show, asWritten)[k + 1], ',') == RowOf(preds[k], show, asWritten)
  {
    LinesShape(header, preds, show, asWritten);
    CsvIsLines(header, preds, show, asWritten);
    var lines := Lines(header, preds, show, asWritten) + [""];
    forall k | 0 <= k < |lines| ensures '\n' !in lines[k] {
      if 0 < k < |preds| + 1 {
        NoSepInJoin(RowOf(preds[k - 1], show, asWritten), ',', '\n');
      }
    }
    SplitJoin(lines, '\n');
    forall k | 0 <= k < |preds| ensures Split(Lines(header, preds, show, asWritten)[k + 1], ',') == RowOf(preds[k], show, asWritten) {
      SplitJoin(RowOf(preds[k], show, asWritten), ',');
    }
  }

  /** The header line is a single line. */
  lemma HeaderOneLine()
    ensures '\n' !in HeaderLine
  {
    assert '\n' !in "Sequence ID";
    assert '\n' !in "Prediction";
    assert '\n' !in "Probability";
    assert '\n' !in "Confidence";
    assert '\n' !in "Sequence";
  }

  /** The downloaded file reads back into its header and one line per prediction. */
  lemma CsvReadsBack(preds: seq<Prediction>, show: real -> string, asWritten: bool)
    requires forall k :: 0 <= k < |preds| ==> forall c :: 0 <= c < 5 ==>
      ',' !in RowOf(preds[k], show, asWritten)[c] && '\n' !in RowOf(preds[k], show, asWritten)[c]
    ensures Split(Csv(HeaderLine, preds, show, asWritten), '\n') == Lines(HeaderLine, preds, show, asWritten) + [""]
  {
    HeaderOneLine();
    LinesReadBack(HeaderLine, preds, show, asWritten);
  }
}
