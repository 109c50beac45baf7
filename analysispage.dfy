/**
 * The analysis page script (static/js/analysis.js): the vault and bag
 * checkboxes and the lists they maintain, the tool buttons that follow the
 * selection, the guard and request body of an analysis run, the follow-up
 * tools offered with a result, and the UMAP metadata kept from it. The
 * DOM, `fetch`, Plotly and `localStorage` are not modelled.
 */
module AnalysisPage {
  import opened Text
  import App
  import Database

  /** The three analysis tools and the name each is requested by. */
  datatype Tool = Umap | Msa | Phylogeny

  function ToolName(tool: Tool): string
  {
    match tool
    case Umap => "umap"
    case Msa => "msa"
    case Phylogeny => "phylogeny"
  }

  /** The route `api_analyze` takes for each tool. */
  function RouteOf(tool: Tool): App.Route
  {
    match tool
    case Umap => App.RunUmap
    case Msa => App.RunMsa
    case Phylogeny => App.RunPhylogeny
  }

  /** With a selection, each tool button reaches the server's code for that very tool. */
  lemma ToolReachesItsRoute(tool: Tool, vaults: seq<int>, bags: seq<int>)
    requires |vaults| > 0 || |bags| > 0
    ensures App.AnalyzeRoute(true, vaults, bags, ToolName(tool)) == RouteOf(tool)
  {
    assert |"msa"| != |"umap"| && |"phylogeny"| != |"umap"| && |"phylogeny"| != |"msa"|;
  }

  // ---------------------------------------------------------------------
  // The request
  // ---------------------------------------------------------------------

  /** A value of the JSON request body. */
  datatype Json = Text(text: string) | Strings(items: seq<string>) | Number(n: int)

  /**
   * `{vaults, bags, tool, ...additionalData}`: the three fields, then the
   * additional keys, which win over a field of the same name.
   */
  function RequestBody(vaults: seq<string>, bags: seq<string>, toolType: string, additional: map<string, Json>): (r: map<string, Json>)
    ensures r.Keys == {"vaults", "bags", "tool"} + additional.Keys
    ensures forall key :: key in additional ==> r[key] == additional[key]
  {
    map["vaults" := Strings(vaults), "bags" := Strings(bags), "tool" := Text(toolType)] + additional
  }

  /** Without additional data the body carries exactly the two lists and the tool name. */
  lemma PlainRequestBody(vaults: seq<string>, bags: seq<string>, toolType: string)
    ensures RequestBody(vaults, bags, toolType, map[]).Keys == {"vaults", "bags", "tool"}
    ensures RequestBody(vaults, bags, toolType, map[])["vaults"] == Strings(vaults)
    ensures RequestBody(vaults, bags, toolType, map[])["bags"] == Strings(bags)
    ensures RequestBody(vaults, bags, toolType, map[])["tool"] == Text(toolType)
  {
    assert |"vaults"| != |"tool"| && "bags"[0] != "tool"[0];
    assert "vaults"[0] != "bags"[0];
  }

  // ---------------------------------------------------------------------
  // Follow-up tools
  // ---------------------------------------------------------------------

  /** The follow-up buttons under a result, in page order: alignment, tree, UMAP, less the tool just run. */
  function FollowUps(toolType: string): (r: seq<Tool>)
  {
    (if toolType != "msa" then [Msa] else []) +
    (if toolType != "phylogeny" then [Phylogeny] else []) +
    (if toolType != "umap" then [Umap] else [])
  }

  /** After any tool, the other two are offered, each once, and never the tool itself. */
  lemma FollowUpsAreTheOthers(tool: Tool)
    ensures |FollowUps(ToolName(tool))| == 2
    ensures tool !in FollowUps(ToolName(tool))
    ensures forall other :: other != tool ==> other in FollowUps(ToolName(tool))
  {
    assert |"msa"| != |"umap"| && |"phylogeny"| != |"umap"| && |"phylogeny"| != |"msa"|;
  }

  // ---------------------------------------------------------------------
  // UMAP metadata
  // ---------------------------------------------------------------------

  /** The metadata kept after a UMAP result. */
  datatype Metadata = Metadata(points: App.Value, referenceCount: App.Value, candidateCount: App.Value)

  /** `value || 0`. */
  function OrZero(v: App.Value): App.Value
  {
    if App.Truthy(v) then v else App.Num(0)
  }

  /**
   * The metadata stored from a UMAP reply: each count the reply carries as
   * a number is kept as it is, 0 included, and a missing or null count
   * becomes 0.
   */
  function MetadataOf(results: map<string, App.Value>): (m: Metadata)
    ensures forall n: nat :: App.Field(results, "points") == App.Num(n) ==> m.points == App.Num(n)
    ensures forall n: nat :: App.Field(results, "reference_count") == App.Num(n) ==> m.referenceCount == App.Num(n)
    ensures forall n: nat :: App.Field(results, "candidate_count") == App.Num(n) ==> m.candidateCount == App.Num(n)
    ensures App.Field(results, "points") == App.Null ==> m.points == App.Num(0)
    ensures App.Field(results, "reference_count") == App.Null ==> m.referenceCount == App.Num(0)
    ensures App.Field(results, "candidate_count") == App.Null ==> m.candidateCount == App.Num(0)
  {
    Metadata(
      OrZero(App.Field(results, "points")),
      OrZero(App.Field(results, "reference_count")),
      OrZero(App.Field(results, "candidate_count")))
  }

  // ---------------------------------------------------------------------
  // The page state
  // ---------------------------------------------------------------------

  /** Whether anything is selected: the condition every tool depends on. */
  predicate HasSelections(vaults: seq<string>, bags: seq<string>)
  {
    |vaults| > 0 || |bags| > 0
  }

  /** The checked vaults and bags, the tool last requested, and the state of the controls. */
  class AnalysisState {
    var selectedVaults: seq<string>
    var selectedBags: seq<string>
    var activeTab: Option<string>
    var toolsDisabled: bool
    var noticeShown: bool

    /** The tool buttons and the selection notice agree with the lists. */
    ghost predicate Valid()
      reads this
    {
      toolsDisabled == noticeShown == !HasSelections(selectedVaults, selectedBags)
    }

    /** The page as loaded: nothing selected, no tool run, the controls as the template renders them. */
    constructor(toolsDisabled: bool, noticeShown: bool)
      ensures selectedVaults == [] && selectedBags == [] && activeTab == None
      ensures this.toolsDisabled == toolsDisabled && this.noticeShown == noticeShown
    {
      selectedVaults := [];
      selectedBags := [];
      activeTab := None;
      this.toolsDisabled := toolsDisabled;
      this.noticeShown := noticeShown;
    }

    /** `updateAnalysisState`: the three tool buttons are disabled, and the notice shown, exactly when nothing is selected. */
    method UpdateAnalysisState()
      modifies this
      ensures selectedVaults == old(selectedVaults) && selectedBags == old(selectedBags) && activeTab == old(activeTab)
      ensures toolsDisabled == !HasSelections(selectedVaults, selectedBags)
      ensures noticeShown == !HasSelections(selectedVaults, selectedBags)
      ensures Valid()
    {
      var hasSelections := |selectedVaults| > 0 || |selectedBags| > 0;
      toolsDisabled := !hasSelections;
      noticeShown := !hasSelections;
    }

    /**
     * A change event of a vault or bag checkbox: a check appends its value to
     * the matching list, an uncheck removes every equal entry; the other list
     * is untouched, and the controls follow.
     */
    method ChangeCheckbox(kind: Database.Kind, value: string, checked: bool)
      modifies this
      ensures kind == Database.Vault ==>
        selectedVaults == (if checked then old(selectedVaults) + [value] else Without(old(selectedVaults), value)) &&
        selectedBags == old(selectedBags)
      ensures kind == Database.Bag ==>
        selectedBags == (if checked then old(selectedBags) + [value] else Without(old(selectedBags), value)) &&
        selectedVaults == old(selectedVaults)
      ensures activeTab == old(activeTab)
      ensures Valid()
    {
      if kind == Database.Vault {
        if checked {
          selectedVaults := selectedVaults + [value];
        } else {
          selectedVaults := Without(selectedVaults, value);
        }
      } else {
        if checked {
          selectedBags := selectedBags + [value];
        } else {
          selectedBags := Without(selectedBags, value);
        }
      }
      UpdateAnalysisState();
    }

    /**
     * `performAnalysis(toolType, additionalData)`: with nothing selected no
     * request is made and nothing changes; otherwise the body is built from
     * the two lists and the tool becomes the active tab.
     */
    method PerformAnalysis(toolType: string, additional: map<string, Json>) returns (request: Option<map<string, Json>>)
      modifies this
      ensures request.None? <==> !HasSelections(old(selectedVaults), old(selectedBags))
      ensures request.Some? ==>
        request.value == RequestBody(selectedVaults, selectedBags, toolType, additional) &&
        activeTab == Some(toolType)
      ensures request.None? ==> activeTab == old(activeTab)
      ensures selectedVaults == old(selectedVaults) && selectedBags == old(selectedBags)
      ensures toolsDisabled == old(toolsDisabled) && noticeShown == old(noticeShown)
    {
      if |selectedVaults| == 0 && |selectedBags| == 0 {
        return None;
      }
      request := Some(RequestBody(selectedVaults, selectedBags, toolType, additional));
      activeTab := Some(toolType);
    }
  }

  /**
   * Checking a box and unchecking it again gives back the list it started
   * from when the value was not listed; an uncheck leaves no copy behind.
   */
  lemma CheckThenUncheck(selected: seq<string>, value: string)
    ensures value !in Without(selected + [value], value)
    ensures value !in selected ==> Without(selected + [value], value) == selected
  {
    WithoutAppend(selected, value);
    if value !in selected {
      WithoutAbsent(selected, value);
    }
  }

  /**
   * An enabled tool button always leads to a request, and a request always
   * carries a selection, so the server never answers it with its
   * nothing-selected error.
   */
  lemma EnabledToolRequests(vaults: seq<string>, bags: seq<string>, toolsDisabled: bool, ids: seq<int>, bagIds: seq<int>, tool: Tool)
    requires toolsDisabled == !HasSelections(vaults, bags)
    requires !toolsDisabled
    requires |ids| == |vaults| && |bagIds| == |bags|
    ensures App.AnalyzeRoute(true, ids, bagIds, ToolName(tool)) == RouteOf(tool)
  {
    ToolReachesItsRoute(tool, ids, bagIds);
  }
}
