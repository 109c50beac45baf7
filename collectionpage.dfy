/**
 * The collection page script (static/js/collection.js): how each saved
 * bacteriocin is typed and rendered, the tab and range filters that show or
 * hide the rendered items, the bulk "add all" buttons and their sequential
 * request loop, and the single-sequence FASTA download. The DOM is reduced to
 * the rendered items and whether each one is shown; the server's answers
 * enter as parameters.
 */
module CollectionPage {
  import opened Text
  import App

  // ---------------------------------------------------------------------
  // Rendering
  // ---------------------------------------------------------------------

  /** A saved bacteriocin as the collection endpoint returns it; `id` is the row id as `data-id` shows it. */
  datatype Item = Item(id: string, name: string, sequenceId: string, sequence: string, probability: real)

  /** Above 0.9 an item is a reference bacteriocin, otherwise a candidate. */
  function TypeOf(item: Item): string
  {
    if item.probability > 0.9 then "reference" else "candidate"
  }

  /** The `data-tab` of an item: "all " followed by its type. */
  function Tab(itemType: string): string
  {
    "all " + itemType
  }

  /** The `.sequence-preview` text: the first 30 characters, and "..." when the sequence is longer. */
  function Preview(s: string): (r: string)
    ensures |s| <= 30 ==> r == s
    ensures |s| > 30 ==> r == s[..30] + "..."
  {
    if |s| > 30 then s[..30] + "..." else s
  }

  /** The preview of a long sequence is 33 characters whatever its length. */
  lemma PreviewLength(s: string)
    ensures |Preview(s)| == if |s| > 30 then 33 else |s|
    ensures |Preview(s)| <= 33
  {
  }

  /**
   * What the filters read back from a rendered item: its id, tab, preview
   * text, the probability parsed back from its percentage text, and the
   * full length carried by its same-length button.
   */
  datatype Element = Element(id: string, tab: string, preview: string, probability: real, length: nat)

  /**
   * `renderCollection` for one item. `rounded` is the probability after the
   * trip through `(p * 100).toFixed(2)` and `parseFloat(...) / 100`.
   */
  function ElementOf(item: Item, rounded: real -> real): (e: Element)
    ensures e.id == item.id && e.length == |item.sequence|
    ensures e.tab == Tab(TypeOf(item))
  {
    Element(item.id, Tab(TypeOf(item)), Preview(item.sequence), rounded(item.probability), |item.sequence|)
  }

  // ---------------------------------------------------------------------
  // Tabs
  // ---------------------------------------------------------------------

  /** `filterCollectionByType(type)`: an item is shown when its tab contains the type as a substring. */
  predicate TabShows(tab: string, tabType: string)
  {
    Contains(tab, tabType)
  }

  lemma {:induction false} SuffixContained(pre: string, sub: string)
    ensures Contains(pre + sub, sub)
    decreases |pre|
  {
    if |pre| == 0 {
      assert pre + sub == sub;
      assert StartsWith(sub, sub);
    } else {
      SuffixContained(pre[1..], sub);
      assert (pre + sub)[1..] == pre[1..] + sub;
    }
  }

  /** A text lacking a character of `sub` cannot contain `sub`. */
  lemma {:induction false} MissingCharNotContained(s: string, sub: string, c: char)
    requires c in sub && c !in s
    ensures !Contains(s, sub)
    decreases |s|
  {
    if |sub| <= |s| {
      var k :| 0 <= k < |sub| && sub[k] == c;
      assert s[k] in s;
      assert s[..|sub|][k] != sub[k];
    }
    if |s| > 0 {
      assert forall x :: x in s[1..] ==> x in s;
      MissingCharNotContained(s[1..], sub, c);
    }
  }

  /** Every tab contains "all" and its own type. */
  lemma TabContainsAllAndType(itemType: string)
    ensures TabShows(Tab(itemType), "all")
    ensures TabShows(Tab(itemType), itemType)
  {
    assert Tab(itemType)[..3] == "all";
    SuffixContained("all ", itemType);
  }

  /** The reference tab does not contain "candidate": it has no 'd'. */
  lemma ReferenceTabNotCandidate()
    ensures !TabShows(Tab("reference"), "candidate")
  {
    assert "candidate"[3] == 'd';
    assert 'd' !in Tab("reference") by {
      assert 'd' !in "all " && 'd' !in "reference";
    }
    MissingCharNotContained(Tab("reference"), "candidate", 'd');
  }

  /** The candidate tab does not contain "reference": it has no 'f'. */
  lemma CandidateTabNotReference()
    ensures !TabShows(Tab("candidate"), "reference")
  {
    assert "reference"[2] == 'f';
    assert 'f' !in Tab("candidate") by {
      assert 'f' !in "all " && 'f' !in "candidate";
    }
    MissingCharNotContained(Tab("candidate"), "reference", 'f');
  }

  /**
   * The three tabs: 'all' shows every item, 'reference' exactly the items
   * above 0.9 and 'candidate' exactly the others.
   */
  lemma TabsShow(item: Item, rounded: real -> real)
    ensures TabShows(ElementOf(item, rounded).tab, "all")
    ensures TabShows(ElementOf(item, rounded).tab, "reference") <==> item.probability > 0.9
    ensures TabShows(ElementOf(item, rounded).tab, "candidate") <==> item.probability <= 0.9
  {
    TabContainsAllAndType(TypeOf(item));
    if item.probability > 0.9 {
      ReferenceTabNotCandidate();
    } else {
      CandidateTabNotReference();
    }
  }

  /** `updateBulkActionVisibility`: which bulk buttons a tab shows, vault first. */
  function BulkButtons(tabType: string): (bool, bool)
  {
    (tabType == "all" || tabType == "reference", tabType == "all" || tabType == "candidate")
  }

  /**
   * On each of the three tabs the "add all to vault" button is shown exactly
   * when the tab shows reference items, and "add all to bag" exactly when it
   * shows candidates.
   */
  lemma BulkButtonsMatchTab(tabType: string, rounded: real -> real)
    requires tabType in {"all", "reference", "candidate"}
    ensures BulkButtons(tabType).0 <==>
      exists item: Item :: item.probability > 0.9 && TabShows(ElementOf(item, rounded).tab, tabType)
    ensures BulkButtons(tabType).1 <==>
      exists item: Item :: item.probability <= 0.9 && TabShows(ElementOf(item, rounded).tab, tabType)
  {
    var reference := Item("", "", "", "", 1.0);
    var candidate := Item("", "", "", "", 0.0);
    TabsShow(reference, rounded);
    TabsShow(candidate, rounded);
    forall item: Item ensures TabShows(ElementOf(item, rounded).tab, tabType) ==>
      (tabType == "all" || (tabType == "reference") == (item.probability > 0.9))
    {
      TabsShow(item, rounded);
    }
  }

  // ---------------------------------------------------------------------
  // Range filters
  // ---------------------------------------------------------------------

  /** The filter inputs; an empty input is `None`. */
  datatype Filters = Filters(
    minLength: Option<int>, maxLength: Option<int>, sameLength: Option<int>,
    minProb: Option<real>, maxProb: Option<real>)

  /** Every set bound holds for an item of length `len` and probability `p`. */
  predicate Within(len: nat, p: real, f: Filters)
  {
    (f.minLength.None? || len >= f.minLength.value) &&
    (f.maxLength.None? || len <= f.maxLength.value) &&
    (f.sameLength.None? || len == f.sameLength.value) &&
    (f.minProb.None? || p >= f.minProb.value) &&
    (f.maxProb.None? || p <= f.maxProb.value)
  }

  /** `applyFilters` as written: the length is the length of the preview text. */
  predicate VisibleAsWritten(e: Element, f: Filters)
  {
    Within(|e.preview|, e.probability, f)
  }

  /** The length filters applied to the sequence's own length. */
  predicate Visible(e: Element, f: Filters)
  {
    Within(e.length, e.probability, f)
  }

  /**
   * The same-length button of an item longer than 33 residues sets the
   * minimum and the maximum length to the item's length; that hides the very
   * item under the filter as written, while the corrected filter keeps it.
   */
  lemma SameLengthHidesItself(item: Item, rounded: real -> real)
    requires |item.sequence| > 33
    ensures var len := ElementOf(item, rounded).length;
      len == |item.sequence| &&
      !VisibleAsWritten(ElementOf(item, rounded), Filters(Some(len), Some(len), None, None, None)) &&
      Visible(ElementOf(item, rounded), Filters(Some(len), Some(len), None, None, None))
  {
    PreviewLength(item.sequence);
  }

  /** With every input empty nothing is hidden. */
  lemma NoFiltersShowAll(e: Element)
    ensures Visible(e, Filters(None, None, None, None, None))
  {
  }

  /** The number of `true` entries. */
  function TrueCount(b: seq<bool>): nat
  {
    if |b| == 0 then 0 else TrueCount(b[..|b| - 1]) + (if b[|b| - 1] then 1 else 0)
  }

  lemma TrueIndicesStep(b: seq<bool>, init: seq<bool>)
    requires |b| > 0 && init == b[..|b| - 1]
    ensures (set k | 0 <= k < |b| && b[k]) ==
      (set k | 0 <= k < |init| && init[k]) + (if b[|b| - 1] then {|b| - 1} else {})
  {
  }

  /** `TrueCount` is the number of positions holding `true`. */
  lemma {:induction false} TrueCountIsSize(b: seq<bool>)
    ensures TrueCount(b) == |set k | 0 <= k < |b| && b[k]|
  {
    if |b| > 0 {
      var n := |b| - 1;
      TrueCountIsSize(b[..n]);
      var init := b[..n];
      TrueIndicesStep(b, init);
      var before := set k | 0 <= k < n && init[k];
      assert n !in before;
    }
  }

  /** The ids `getVisibleItems` collects: shown elements with a non-empty id, in document order. */
  function VisibleIds(elements: seq<Element>, shown: seq<bool>): (r: seq<string>)
    requires |shown| == |elements|
    ensures |r| <= |elements|
    ensures forall id :: id in r ==> id != "" && exists k :: 0 <= k < |elements| && shown[k] && elements[k].id == id
  {
    if |elements| == 0 then []
    else
      var n := |elements| - 1;
      var r := VisibleIds(elements[..n], shown[..n]) + (if shown[n] && elements[n].id != "" then [elements[n].id] else []);
      assert forall id :: id in VisibleIds(elements[..n], shown[..n]) ==>
        exists k :: 0 <= k < |elements| && shown[k] && elements[k].id == id by {
        forall id | id in VisibleIds(elements[..n], shown[..n])
          ensures exists k :: 0 <= k < |elements| && shown[k] && elements[k].id == id
        {
          var k :| 0 <= k < n && shown[..n][k] && elements[..n][k].id == id;
          assert shown[k] && elements[k].id == id;
        }
      }
      r
  }

  /** Every shown element with an id contributes it. */
  lemma {:induction false} VisibleIdsComplete(elements: seq<Element>, shown: seq<bool>, k: nat)
    requires |shown| == |elements| && k < |elements|
    requires shown[k] && elements[k].id != ""
    ensures elements[k].id in VisibleIds(elements, shown)
  {
    var n := |elements| - 1;
    if k < n {
      VisibleIdsComplete(elements[..n], shown[..n], k);
    }
  }

  /** Whether the tab of each element contains the type, in order. */
  function TabMatches(elements: seq<Element>, tabType: string): (r: seq<bool>)
    ensures |r| == |elements|
    ensures forall k :: 0 <= k < |r| ==> r[k] == TabShows(elements[k].tab, tabType)
  {
    seq(|elements|, k requires 0 <= k < |elements| => TabShows(elements[k].tab, tabType))
  }

  /**
   * The rendered collection: the elements in document order and whether each
   * is displayed. An element no filter has touched yet is displayed.
   * `noResults` says whether the list holds the "No bacteriocins found" block.
   */
  class CollectionView {
    var elements: seq<Element>
    var shown: seq<bool>
    var noResults: bool

    ghost predicate Valid()
      reads this
    {
      |shown| == |elements|
    }

    /** `renderCollection`: one element per item, all displayed, or the empty-state block for no items. */
    constructor(items: seq<Item>, rounded: real -> real)
      ensures |elements| == |items|
      ensures forall k :: 0 <= k < |items| ==> elements[k] == ElementOf(items[k], rounded)
      ensures shown == seq(|items|, k => true)
      ensures noResults <==> |items| == 0
      ensures Valid()
    {
      elements := seq(|items|, k requires 0 <= k < |items| => ElementOf(items[k], rounded));
      shown := seq(|items|, k => true);
      noResults := |items| == 0;
    }

    /**
     * `filterCollectionByType(type)`: display exactly the elements whose tab
     * contains the type; when that is none of them and the empty-state block
     * is not there yet, the block replaces the whole list, elements included.
     */
    method FilterByType(tabType: string)
      requires Valid()
      modifies this
      ensures Valid()
      ensures var matching := TabMatches(old(elements), tabType);
        if true !in matching && !old(noResults) then elements == [] && shown == [] && noResults
        else elements == old(elements) && shown == matching && noResults == old(noResults)
    {
      var k := 0;
      while k < |elements|
        invariant 0 <= k <= |elements| && |shown| == |elements|
        invariant elements == old(elements) && noResults == old(noResults)
        invariant forall j :: 0 <= j < k ==> shown[j] == TabShows(elements[j].tab, tabType)
      {
        shown := shown[k := TabShows(elements[k].tab, tabType)];
        k := k + 1;
      }
      assert shown == TabMatches(elements, tabType);
      if true !in shown && !noResults {
        elements, shown, noResults := [], [], true;
      }
    }

    /**
     * `applyFilters` as written: display exactly the elements within every
     * set bound, the length being that of the preview text, counting them as
     * it goes.
     */
    method ApplyFilters(f: Filters) returns (visibleCount: nat)
      requires Valid()
      modifies this`shown
      ensures Valid()
      ensures forall k :: 0 <= k < |elements| ==> shown[k] == VisibleAsWritten(elements[k], f)
      ensures visibleCount == TrueCount(shown)
    {
      visibleCount := Display(f, false);
    }

    /** `applyFilters` with the length filters on the sequence's own length. */
    method ApplyFiltersCorrected(f: Filters) returns (visibleCount: nat)
      requires Valid()
      modifies this`shown
      ensures Valid()
      ensures forall k :: 0 <= k < |elements| ==> shown[k] == Visible(elements[k], f)
      ensures visibleCount == TrueCount(shown)
    {
      visibleCount := Display(f, true);
    }

    /** The loop of `applyFilters`, measuring the full length or the preview's. */
    method Display(f: Filters, fullLength: bool) returns (visibleCount: nat)
      requires Valid()
      modifies this`shown
      ensures Valid()
      ensures forall k :: 0 <= k < |elements| ==>
        shown[k] == if fullLength then Visible(elements[k], f) else VisibleAsWritten(elements[k], f)
      ensures visibleCount == TrueCount(shown)
    {
      visibleCount := 0;
      var k := 0;
      while k < |elements|
        invariant 0 <= k <= |elements| && |shown| == |elements|
        invariant forall j :: 0 <= j < k ==>
          shown[j] == if fullLength then Visible(elements[j], f) else VisibleAsWritten(elements[j], f)
        invariant visibleCount == TrueCount(shown[..k])
      {
        var isVisible := if fullLength then Visible(elements[k], f) else VisibleAsWritten(elements[k], f);
        shown := shown[k := isVisible];
        assert shown[..k + 1][..k] == shown[..k];
        if isVisible {
          visibleCount := visibleCount + 1;
        }
        k := k + 1;
      }
      assert shown[..k] == shown;
    }

    /** `resetFilters`: every element displayed again. */
    method ResetFilters()
      requires Valid()
      modifies this`shown
      ensures Valid()
      ensures forall k :: 0 <= k < |elements| ==> shown[k]
    {
      shown := seq(|elements|, k => true);
    }

    /** `getVisibleItems`: the ids of the displayed elements, in document order. */
    method GetVisibleItems() returns (ids: seq<string>)
      requires Valid()
      ensures ids == VisibleIds(elements, shown)
    {
      ids := [];
      var k := 0;
      while k < |elements|
        invariant 0 <= k <= |elements|
        invariant ids == VisibleIds(elements[..k], shown[..k])
      {
        assert elements[..k + 1][..k] == elements[..k] && shown[..k + 1][..k] == shown[..k];
        if shown[k] && elements[k].id != "" {
          ids := ids + [elements[k].id];
        }
        k := k + 1;
      }
      assert elements[..k] == elements && shown[..k] == shown;
    }
  }

  /**
   * A collection of candidates only, then the 'reference' tab, then 'all':
   * the reference tab left the empty-state block in place of the list, so
   * the 'all' tab and "add all" find no item any more.
   */
  method ReferenceTabThenAll(items: seq<Item>, rounded: real -> real) returns (ids: seq<string>, remaining: nat)
    requires |items| > 0 && forall k :: 0 <= k < |items| ==> items[k].probability <= 0.9
    ensures ids == [] && remaining == 0
  {
    var view := new CollectionView(items, rounded);
    forall k | 0 <= k < |items| ensures !TabShows(view.elements[k].tab, "reference") {
      TabsShow(items[k], rounded);
    }
    view.FilterByType("reference");
    view.FilterByType("all");
    ids := view.GetVisibleItems();
    remaining := |view.elements|;
  }

  // ---------------------------------------------------------------------
  // Adding items to a vault or bag, one request after the other
  // ---------------------------------------------------------------------

  /** The JSON body posted to `/api/add_to_container` for one item. */
  function Body(containerType: string, containerId: App.Value, itemId: string): map<string, App.Value>
  {
    map["container_type" := App.Str(containerType), "container_id" := containerId, "item_id" := App.Str(itemId)]
  }

  lemma BodyFields(containerType: string, containerId: App.Value, itemId: string)
    ensures App.Field(Body(containerType, containerId, itemId), "container_type") == App.Str(containerType)
    ensures App.Field(Body(containerType, containerId, itemId), "container_id") == containerId
    ensures App.Field(Body(containerType, containerId, itemId), "item_id") == App.Str(itemId)
    ensures |Body(containerType, containerId, itemId)| > 0
  {
    var body := Body(containerType, containerId, itemId);
    assert "container_id" != "item_id" by {
      assert |"container_id"| != |"item_id"|;
    }
    assert "container_type" != "item_id" by {
      assert |"container_type"| != |"item_id"|;
    }
    assert "container_type" != "container_id" by {
      assert |"container_type"| != |"container_id"|;
    }
    assert "container_type" in body.Keys;
  }

  /**
   * Whether a request counts as a success: the server dispatches it to the
   * vault or bag, and `added` (the database's and network's answer for that
   * item) is true. A rejected request answers `success: false`.
   */
  predicate Succeeds(containerType: string, containerId: App.Value, itemId: string, added: bool)
  {
    App.ContainerRequestOf(Some(Body(containerType, containerId, itemId))).AddTo? && added
  }

  /** The `success` field of the server's reply to each request, in order. */
  function Answers(containerType: string, containerId: App.Value, itemIds: seq<string>, added: seq<bool>): (r: seq<bool>)
    requires |added| == |itemIds|
    ensures |r| == |itemIds|
    ensures forall k :: 0 <= k < |r| ==> r[k] == Succeeds(containerType, containerId, itemIds[k], added[k])
  {
    seq(|itemIds|, k requires 0 <= k < |itemIds| => Succeeds(containerType, containerId, itemIds[k], added[k]))
  }

  /** How many of the requests the server answers with success. */
  function SuccessCount(containerType: string, containerId: App.Value, itemIds: seq<string>, added: seq<bool>): (r: nat)
    requires |added| == |itemIds|
  {
    TrueCount(Answers(containerType, containerId, itemIds, added))
  }

  /**
   * `showAddToContainerModal`, with the network replaced by `answers`, the
   * `success` field of each reply in turn: nothing is sent for an empty
   * list; otherwise one request per item, in order, each counted as exactly
   * one success or one failure.
   */
  method AddToContainer(containerType: string, containerId: App.Value, itemIds: seq<string>, answers: seq<bool>)
    returns (sent: seq<map<string, App.Value>>, successCount: nat, errorCount: nat)
    requires |answers| == |itemIds|
    ensures |sent| == |itemIds|
    ensures forall k :: 0 <= k < |sent| ==> sent[k] == Body(containerType, containerId, itemIds[k])
    ensures successCount == TrueCount(answers)
    ensures successCount + errorCount == |itemIds|
  {
    sent, successCount, errorCount := [], 0, 0;
    if |itemIds| == 0 {
      return;
    }
    var index := 0;
    while index < |itemIds|
      invariant 0 <= index <= |itemIds|
      invariant |sent| == index
      invariant forall k :: 0 <= k < index ==> sent[k] == Body(containerType, containerId, itemIds[k])
      invariant successCount == TrueCount(answers[..index])
      invariant successCount + errorCount == index
    {
      sent := sent + [Body(containerType, containerId, itemIds[index])];
      assert answers[..index + 1][..index] == answers[..index];
      if answers[index] {
        successCount := successCount + 1;
      } else {
        errorCount := errorCount + 1;
      }
      index := index + 1;
    }
    assert answers[..index] == answers;
  }

  /** A list holding no `true` counts none. */
  lemma {:induction false} NoneTrue(b: seq<bool>)
    requires forall k :: 0 <= k < |b| ==> !b[k]
    ensures TrueCount(b) == 0
  {
    if |b| > 0 {
      NoneTrue(b[..|b| - 1]);
    }
  }

  /** The server refuses a request whose container id is null. */
  lemma NullContainerFails(containerType: string, itemId: string, added: bool)
    ensures !Succeeds(containerType, App.Null, itemId, added)
  {
    BodyFields(containerType, App.Null, itemId);
  }

  /** A request for a vault or bag with a positive id and a non-empty item id is accepted by the server. */
  lemma ChosenContainerSucceeds(containerType: string, containerId: nat, itemId: string, added: bool)
    requires containerType == "vault" || containerType == "bag"
    requires containerId > 0 && itemId != ""
    ensures Succeeds(containerType, App.Num(containerId), itemId, added) == added
  {
    BodyFields(containerType, App.Num(containerId), itemId);
    assert App.Str(containerType) in {App.Str("vault"), App.Str("bag")};
  }

  /** Every request of a list counted against a container id the server refuses fails. */
  lemma RefusedNeverSucceeds(containerType: string, itemIds: seq<string>, added: seq<bool>)
    requires |added| == |itemIds|
    ensures SuccessCount(containerType, App.Null, itemIds, added) == 0
  {
    var answers := Answers(containerType, App.Null, itemIds, added);
    forall k | 0 <= k < |answers|
      ensures !answers[k]
    {
      NullContainerFails(containerType, itemIds[k], added[k]);
    }
    NoneTrue(answers);
  }

  /** When the server accepts every request, the successes are the items the database adds. */
  lemma AcceptedCount(containerType: string, containerId: App.Value, itemIds: seq<string>, added: seq<bool>)
    requires |added| == |itemIds|
    requires forall k :: 0 <= k < |itemIds| ==> Succeeds(containerType, containerId, itemIds[k], added[k]) == added[k]
    ensures SuccessCount(containerType, containerId, itemIds, added) == TrueCount(added)
  {
    assert Answers(containerType, containerId, itemIds, added) == added;
  }

  /** With a real container id every request succeeds exactly when the database adds its item. */
  lemma ChosenContainerCounts(containerType: string, containerId: nat, itemIds: seq<string>, added: seq<bool>)
    requires containerType == "vault" || containerType == "bag"
    requires containerId > 0
    requires |added| == |itemIds|
    requires forall k :: 0 <= k < |itemIds| ==> itemIds[k] != ""
    ensures SuccessCount(containerType, App.Num(containerId), itemIds, added) ==
      |set k | 0 <= k < |added| && added[k]|
  {
    forall k | 0 <= k < |itemIds|
      ensures Succeeds(containerType, App.Num(containerId), itemIds[k], added[k]) == added[k]
    {
      ChosenContainerSucceeds(containerType, containerId, itemIds[k], added[k]);
    }
    AcceptedCount(containerType, App.Num(containerId), itemIds, added);
    TrueCountIsSize(added);
  }

  /**
   * "Add all to vault/bag" as written: the visible ids are sent with a null
   * container id, so every request is refused and all of them count as failures.
   */
  method AddAllAsWritten(containerType: string, visible: seq<string>, added: seq<bool>)
    returns (sent: seq<map<string, App.Value>>, successCount: nat, errorCount: nat)
    requires |added| == |visible|
    ensures |sent| == |visible|
    ensures successCount == 0 && errorCount == |visible|
  {
    if |visible| == 0 {
      return [], 0, 0;
    }
    sent, successCount, errorCount := AddToContainer(containerType, App.Null, visible, Answers(containerType, App.Null, visible, added));
    RefusedNeverSucceeds(containerType, visible, added);
  }

  /**
   * "Add all" into a chosen vault or bag: each visible item is added exactly
   * when the database accepts it.
   */
  method AddAll(containerType: string, containerId: nat, visible: seq<string>, added: seq<bool>)
    returns (sent: seq<map<string, App.Value>>, successCount: nat, errorCount: nat)
    requires containerType == "vault" || containerType == "bag"
    requires containerId > 0
    requires |added| == |visible|
    requires forall k :: 0 <= k < |visible| ==> visible[k] != ""
    ensures |sent| == |visible|
    ensures successCount == |set k | 0 <= k < |added| && added[k]|
    ensures successCount + errorCount == |visible|
  {
    if |visible| == 0 {
      return [], 0, 0;
    }
    var answers := Answers(containerType, App.Num(containerId), visible, added);
    sent, successCount, errorCount := AddToContainer(containerType, App.Num(containerId), visible, answers);
    ChosenContainerCounts(containerType, containerId, visible, added);
  }

  // ---------------------------------------------------------------------
  // FASTA download of one item
  // ---------------------------------------------------------------------

  /** `getAttribute` of an attribute the button may lack, as it renders in a template: "null" when absent. */
  function AttributeText(v: Option<string>): string
  {
    if v.Some? then v.value else "null"
  }

  /** The attributes of a rendered download button. */
  function DownloadButton(item: Item): map<string, string>
  {
    map["data-id" := item.id, "data-name" := item.name, "data-sequence" := item.sequence]
  }

  function Attribute(attrs: map<string, string>, key: string): Option<string>
  {
    if key in attrs then Some(attrs[key]) else None
  }

  /** `downloadFasta(sequenceId, name, sequence)`: the file name and its content. */
  function Fasta(sequenceId: string, name: string, sequence: string): (string, string)
  {
    (sequenceId + ".fasta", ">" + sequenceId + " " + name + "\n" + sequence)
  }

  /** The download click as written: the id comes from `data-sequence-id`, which the button lacks. */
  function DownloadAsWritten(attrs: map<string, string>): (string, string)
  {
    Fasta(AttributeText(Attribute(attrs, "data-sequence-id")),
      AttributeText(Attribute(attrs, "data-name")), AttributeText(Attribute(attrs, "data-sequence")))
  }

  /** The download of an item with the item's own sequence id. */
  function Download(item: Item): (string, string)
  {
    Fasta(item.sequenceId, item.name, item.sequence)
  }

  /** As written, every item downloads as "null.fasta" with "null" as the FASTA id. */
  lemma DownloadLosesId(item: Item)
    ensures DownloadAsWritten(DownloadButton(item)) == Fasta("null", item.name, item.sequence)
  {
    var attrs := DownloadButton(item);
    assert "data-sequence-id" !in attrs.Keys by {
      assert |"data-sequence-id"| != |"data-id"| && |"data-sequence-id"| != |"data-name"|;
      assert |"data-sequence-id"| != |"data-sequence"|;
    }
    assert "data-name" != "data-sequence" && "data-name" != "data-id" by {
      assert |"data-name"| != |"data-sequence"| && |"data-name"| != |"data-id"|;
    }
    assert "data-sequence" != "data-id" by {
      assert |"data-sequence"| != |"data-id"|;
    }
  }

  /**
   * The downloaded file reads back: a header line and a sequence line, and
   * the header without '>' splits at its first space into the item's
   * sequence id and name (ids hold no space, no text a newline).
   */
  lemma DownloadReadsBack(item: Item)
    requires ' ' !in item.sequenceId
    requires '\n' !in item.sequenceId && '\n' !in item.name && '\n' !in item.sequence
    ensures Split(Download(item).1, '\n') == [">" + item.sequenceId + " " + item.name, item.sequence]
    ensures App.HeaderParts(item.sequenceId + " " + item.name) == (item.sequenceId, item.name)
    ensures Download(item).0 == item.sequenceId + ".fasta"
  {
    var header := ">" + item.sequenceId + " " + item.name;
    assert '\n' !in header;
    assert Download(item).1 == header + ['\n'] + item.sequence;
    SplitAt(header, item.sequence, '\n');
    var line := item.sequenceId + " " + item.name;
    assert line == item.sequenceId + [' '] + item.name;
    var parts := SplitOnce(line, ' ').value;
    assert line[|item.sequenceId|] == ' ';
    assert parts.0 == line[..|item.sequenceId|] == item.sequenceId;
    assert parts.1 == line[|item.sequenceId| + 1..] == item.name;
  }
}
