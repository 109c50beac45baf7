/**
 * The second copy of the annotator, biofasta/static/js/motif-highlighter.js:
 * the same scan, overlap resolution and reverse splice, over a catalog that
 * holds only the FNLD leader motif, and a container is also skipped when it
 * sits inside a multiple-sequence-alignment view (`isInMsaContainer`).
 */
module MsaExclusion {
  import opened Text
  import opened Motifs
  import opened Annotator

  /** The catalog of this copy: the leader-peptide FNLD motif alone. */
  const FnldCatalog: seq<Motif> := [Entry(LeaderFnld)]

  lemma FnldCatalogWellFormed()
    ensures WellFormedCatalog(FnldCatalog)
  {
    assert FnldCatalog[0] == Entry(LeaderFnld);
    assert MinLen(Entry(LeaderFnld).regex) == 4;
  }

  // ---------------------------------------------------------------------
  // isInMsaContainer
  // ---------------------------------------------------------------------

  /** The class names that mark an alignment view. */
  const MsaClasses: seq<string> :=
    ["msa-container", "msa-visualization-container", "plotly-msa-visualization", "js-plotly-plot"]

  /** `classList.contains(...)` for one of the four alignment classes. */
  predicate HasMsaClass(classes: seq<string>)
  {
    exists k :: 0 <= k < |MsaClasses| && MsaClasses[k] in classes
  }

  /** `element.id.includes('msa') || element.id.includes('plotly')`. */
  predicate IdMentionsMsa(id: string)
  {
    Contains(id, "msa") || Contains(id, "plotly")
  }

  /**
   * `chain` lists the ancestors of `e`, nearest first, as `parentElement`
   * visits them, up to the element whose parent is null.
   */
  predicate ParentChain(e: DomElement, chain: seq<DomElement>)
    reads e`parent, chain`parent
  {
    (if |chain| == 0 then e.parent == null else e.parent == chain[0] && chain[|chain| - 1].parent == null) &&
    forall j :: 0 <= j < |chain| - 1 ==> chain[j].parent == chain[j + 1]
  }

  /** The class lists of the ancestors; their ids play no part. */
  function AncestorClasses(chain: seq<DomElement>): (r: seq<seq<string>>)
    reads chain`classes
    ensures |r| == |chain| && forall j :: 0 <= j < |chain| ==> r[j] == chain[j].classes
  {
    if |chain| == 0 then [] else [chain[0].classes] + AncestorClasses(chain[1..])
  }

  /**
   * When an element counts as inside an alignment view: it has one of the
   * classes, or an ancestor has, or its own id mentions "msa" or "plotly".
   */
  predicate Excluded(classes: seq<string>, id: string, ancestors: seq<seq<string>>)
  {
    HasMsaClass(classes) || (exists j :: 0 <= j < |ancestors| && HasMsaClass(ancestors[j])) || IdMentionsMsa(id)
  }

  /**
   * `isInMsaContainer(element)`: the element's own classes, then each
   * ancestor's classes going up with `parent = parent.parentElement`, then
   * the element's own id.  It only reads.
   */
  method IsInMsaContainer(element: DomElement, ghost chain: seq<DomElement>) returns (r: bool)
    requires ParentChain(element, chain)
    ensures r <==> Excluded(element.classes, element.id, AncestorClasses(chain))
  {
    if HasMsaClass(element.classes) {
      return true;
    }
    var parent := element.parent;
    ghost var k := 0;
    while parent != null
      invariant 0 <= k <= |chain|
      invariant parent == if k < |chain| then chain[k] else null
      invariant forall j :: 0 <= j < k ==> !HasMsaClass(chain[j].classes)
      decreases |chain| - k
    {
      if HasMsaClass(parent.classes) {
        return true;
      }
      parent := parent.parent;
      k := k + 1;
    }
    if IdMentionsMsa(element.id) {
      return true;
    }
    return false;
  }

  /**
   * Classes are inherited down the tree: when an element is excluded by its
   * own or an ancestor's classes, so is every element below it, whatever
   * the classes and id of the elements in between.
   */
  lemma ClassExclusionInherited(classes: seq<string>, ancestors: seq<seq<string>>,
                                below: seq<string>, id: string, between: seq<seq<string>>)
    requires HasMsaClass(classes) || exists j :: 0 <= j < |ancestors| && HasMsaClass(ancestors[j])
    ensures Excluded(below, id, between + [classes] + ancestors)
  {
    var all := between + [classes] + ancestors;
    if HasMsaClass(classes) {
      assert all[|between|] == classes;
    } else {
      var j :| 0 <= j < |ancestors| && HasMsaClass(ancestors[j]);
      assert all[|between| + 1 + j] == ancestors[j];
    }
  }

  /**
   * Ids are not inherited: an element whose id says "msa" excludes itself,
   * but a child of it with a plain id and no alignment class is not
   * excluded on that account.
   */
  lemma IdExclusionNotInherited()
    ensures Excluded([], "msa-sequences", [])
    ensures !Excluded([], "", [[]])
  {
    assert StartsWith("msa-sequences", "msa");
    assert !HasMsaClass([]);
    assert !Contains("", "msa") && !Contains("", "plotly");
  }

  // ---------------------------------------------------------------------
  // highlightMotifs with the exclusion
  // ---------------------------------------------------------------------

  /** One container under this copy: skipped when excluded, otherwise as in the main copy. */
  function HighlightUnlessExcluded(cat: seq<Motif>, c: ContainerState, excluded: bool): ContainerState
    requires WellFormedCatalog(cat)
  {
    if excluded then c else Highlight(cat, c)
  }

  /**
   * An excluded container never receives spans or the marker; any other
   * container is highlighted exactly as the main copy would, with the FNLD
   * catalog.
   */
  lemma ExclusionEffect(cat: seq<Motif>, c: ContainerState, excluded: bool)
    requires WellFormedCatalog(cat)
    ensures excluded ==> HighlightUnlessExcluded(cat, c, excluded) == c
    ensures !excluded ==> HighlightUnlessExcluded(cat, c, excluded) == Highlight(cat, c)
    ensures HighlightUnlessExcluded(cat, c, excluded).processed ==>
      c.processed || (!excluded && |MotifSpans(cat, c.text)| > 0)
  {
    HighlightEffect(cat, c);
  }

  /**
   * A container the annotator can work on, with its ancestors `chain` and
   * what `isInMsaContainer` answers for it.
   */
  predicate Placed(c: DomElement, chain: seq<DomElement>, excluded: bool)
    reads c`text, c`classes, c`id, c`parent, chain`classes, chain`parent
  {
    NoMarkup(c.text) && ParentChain(c, chain) && excluded == Excluded(c.classes, c.id, AncestorClasses(chain))
  }

  /** The skip test and the highlighting of one container. */
  method HighlightContainerUnlessExcluded(c: DomElement, cat: seq<Motif>, ghost chain: seq<DomElement>,
                                          ghost excluded: bool)
    requires WellFormedCatalog(cat) && Placed(c, chain, excluded)
    modifies c`html, c`processed
    ensures c.State() == HighlightUnlessExcluded(cat, old(c.State()), excluded)
  {
    if c.processed {
      return;
    }
    var skip := IsInMsaContainer(c, chain);
    if skip {
      return;
    }
    HighlightContainer(c, cat);
  }

  /**
   * `sequenceContainers.forEach(...)` of this copy; `excluded[k]` is what
   * `isInMsaContainer` answers for container `k`, which highlighting cannot
   * change since it writes only content and marker.
   */
  method HighlightAllUnlessExcluded(containers: seq<DomElement>, cat: seq<Motif>,
                                    ghost chains: seq<seq<DomElement>>, ghost excluded: seq<bool>)
    requires WellFormedCatalog(cat)
    requires |chains| == |containers| == |excluded|
    requires forall k :: 0 <= k < |containers| ==> Placed(containers[k], chains[k], excluded[k])
    requires forall j, k :: 0 <= j < k < |containers| ==> containers[j] != containers[k]
    modifies containers`html, containers`processed
    ensures forall k :: 0 <= k < |containers| ==>
      containers[k].State() == HighlightUnlessExcluded(cat, old(containers[k].State()), excluded[k])
  {
    var i := 0;
    while i < |containers|
      invariant 0 <= i <= |containers|
      invariant forall k :: 0 <= k < i ==> containers[k].State() == HighlightUnlessExcluded(cat, old(containers[k].State()), excluded[k])
      invariant forall k :: i <= k < |containers| ==> containers[k].State() == old(containers[k].State())
    {
      label before:
      HighlightContainerUnlessExcluded(containers[i], cat, chains[i], excluded[i]);
      forall k | 0 <= k < |containers| && k != i
        ensures containers[k].State() == old@before(containers[k].State())
      {
        assert containers[k] != containers[i];
      }
      i := i + 1;
    }
  }

  // ---------------------------------------------------------------------
  // What the FNLD catalog finds
  // ---------------------------------------------------------------------

  /** The regex of a literal word: one literal position per letter. */
  function Literal(w: string): (p: Pattern)
    ensures |p| == |w| && forall j :: 0 <= j < |w| ==> p[j] == L(w[j])
  {
    if |w| == 0 then [] else [L(w[0])] + Literal(w[1..])
  }

  /** A literal regex matches at `i` exactly when the word is written there. */
  lemma {:induction false} LiteralMatch(w: string, t: string, i: nat)
    requires i <= |t|
    ensures Backtrack(Literal(w), t, i) ==
      if i + |w| <= |t| && t[i..i + |w|] == w then Some(i + |w|) else None
    decreases |w|
  {
    if |w| > 0 {
      var p := Literal(w);
      assert p[1..] == Literal(w[1..]);
      if i < |t| && t[i] == w[0] {
        LiteralMatch(w[1..], t, i + 1);
        if i + |w| <= |t| {
          assert t[i..i + |w|] == [t[i]] + t[i + 1..i + |w|];
          assert w == [w[0]] + w[1..];
        }
      } else if i + |w| <= |t| {
        assert t[i..i + |w|][0] == t[i];
      }
    }
  }

  lemma FnldIsLiteral()
    ensures Entry(LeaderFnld).regex == Literal("FNLD")
  {
    assert Literal("") == [];
    assert "D"[1..] == "" && "LD"[1..] == "D" && "NLD"[1..] == "LD" && "FNLD"[1..] == "NLD";
  }

  /** With the FNLD catalog every wrapper encloses exactly the letters "FNLD". */
  lemma FnldSpansWrapFnld(t: string)
    ensures (FnldCatalogWellFormed();
      forall s :: s in MotifSpans(FnldCatalog, t) ==>
        s.motif == Entry(LeaderFnld) && s.end == s.start + 4 && s.end <= |t| && t[s.start..s.end] == "FNLD")
  {
    FnldCatalogWellFormed();
    AnnotationGenuine(FnldCatalog, t);
    FnldIsLiteral();
    forall s | s in MotifSpans(FnldCatalog, t)
      ensures s.motif == Entry(LeaderFnld) && s.end == s.start + 4 && s.end <= |t| && t[s.start..s.end] == "FNLD"
    {
      LiteralMatch("FNLD", t, s.start);
    }
  }

  /**
   * Candidates that start after every kept span and do not overlap one
   * another are all kept, in order.
   */
  lemma {:induction false} AcceptAllAfter(cands: seq<Span>, kept: seq<Span>, b: nat)
    requires forall k :: 0 <= k < |kept| ==> kept[k].start < kept[k].end <= b
    requires |cands| > 0 ==> b <= cands[0].start
    requires forall k :: 0 <= k < |cands| ==> cands[k].start < cands[k].end
    requires forall k :: 0 <= k < |cands| - 1 ==> cands[k].end <= cands[k + 1].start
    ensures AcceptAll(cands, kept) == kept + cands
    decreases |cands|
  {
    if |cands| > 0 {
      var c := cands[0];
      assert !Clashes(c, kept);
      assert Keep(c, kept) == kept + [c];
      AcceptAllAfter(cands[1..], kept + [c], c.end);
      assert kept + [c] + cands[1..] == kept + cands;
    }
  }

  /** A single-motif catalog keeps every match the scan finds. */
  lemma SingleMotifKeepsAll(m: Motif, t: string)
    requires WellFormed(m)
    ensures WellFormedCatalog([m]) && KeptSpans([m], t) == Scan(m, t, 0)
  {
    assert SortByPatternLength([m]) == [m] by {
      assert [m][1..] == [];
      assert SortByPatternLength([m][1..]) == [];
    }
    var cands := Scan(m, t, 0);
    AcceptAllAfter(cands, [], 0);
    assert [m][1..] == [];
    assert Resolve([m], t, []) == AcceptAll(cands, []);
  }

  /** Where "FNLD" is written, the scan finds it there and resumes right after it. */
  lemma FnldScanAt(t: string, i: nat)
    requires i + 4 <= |t| && t[i..i + 4] == "FNLD"
    ensures (FnldCatalogWellFormed();
      Scan(Entry(LeaderFnld), t, i) == [Span(i, i + 4, Entry(LeaderFnld))] + Scan(Entry(LeaderFnld), t, i + 4))
  {
    var m := Entry(LeaderFnld);
    FnldCatalogWellFormed();
    FnldIsLiteral();
    LiteralMatch("FNLD", t, i);
    assert ExecFrom(m.regex, t, i) == Some((i, i + 4));
  }

  /** At the end of the text the scan finds nothing. */
  lemma FnldScanAtEnd(t: string)
    ensures (FnldCatalogWellFormed(); Scan(Entry(LeaderFnld), t, |t|) == [])
  {
    var m := Entry(LeaderFnld);
    FnldCatalogWellFormed();
    FnldIsLiteral();
    LiteralMatch("FNLD", t, |t|);
    assert ExecFrom(m.regex, t, |t|) == None;
  }

  /** "FNLDFNLD" holds two adjacent FNLD spans, [0, 4) and [4, 8); adjacency is no overlap. */
  lemma FnldTwice()
    ensures (FnldCatalogWellFormed();
      KeptSpans(FnldCatalog, "FNLDFNLD") == [Span(0, 4, Entry(LeaderFnld)), Span(4, 8, Entry(LeaderFnld))])
  {
    FnldCatalogWellFormed();
    FnldTwiceScan();
    SingleMotifKeepsAll(Entry(LeaderFnld), "FNLDFNLD");
  }

  /** The scan of "FNLDFNLD" finds FNLD at 0 and again at 4. */
  lemma FnldTwiceScan()
    ensures (FnldCatalogWellFormed();
      Scan(Entry(LeaderFnld), "FNLDFNLD", 0) == [Span(0, 4, Entry(LeaderFnld)), Span(4, 8, Entry(LeaderFnld))])
  {
    var t := "FNLDFNLD";
    FnldCatalogWellFormed();
    assert t[0..4] == "FNLD" && t[4..8] == "FNLD";
    FnldScanAt(t, 0);
    FnldScanAt(t, 4);
    FnldScanAtEnd(t);
  }
}
