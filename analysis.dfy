/**
 * The bookkeeping of analysis.py around its numerical tools: which
 * sequences of the selected vaults and bags are analysed and with which
 * source label, which of them reach UMAP and the counts reported with it,
 * the minimum sizes for alignment and phylogeny, the row layout of the
 * tree figure (`calc_row`) and the label and figure-size formulas of the
 * alignment figure. UMAP, SHAP, Clustal Omega and Plotly themselves are not
 * part of this model.
 */
module Analysis {
  import opened Text

  // ---------------------------------------------------------------------
  // Sequences of the selected vaults and bags
  // ---------------------------------------------------------------------

  /** Vault items are reference sequences, bag items candidate ones. */
  datatype Source = Reference | Candidate

  /**
   * An item of `get_vault_items` or `get_bag_items`; a key the dictionary
   * lacks is `None`.
   */
  datatype Item = Item(sequenceId: Option<string>, sequence: Option<string>, name: Option<string>)

  /**
   * The result dictionary of fetching one container's items: a missing
   * `success` reads as false, a missing `data` as the empty list.
   */
  datatype Fetch = Fetch(success: bool, data: seq<Item>)

  /** A value of the `sequences` dictionary together with its key. */
  datatype Entry = Entry(id: string, sequence: string, name: string, source: Source)

  /** `dict.get(key, default)` on one of the item's keys. */
  function GetOr(o: Option<string>, default: string): string
  {
    if o.Some? then o.value else default
  }

  function IdOf(item: Item): string
  {
    GetOr(item.sequenceId, "")
  }

  /** The entry an item becomes; the name defaults to the sequence id. */
  function EntryOf(item: Item, source: Source): (e: Entry)
    ensures e.id == IdOf(item) && e.source == source
    ensures item.name.None? ==> e.name == e.id
  {
    Entry(IdOf(item), GetOr(item.sequence, ""), GetOr(item.name, IdOf(item)), source)
  }

  /** The keys of the dictionary. */
  function Keys(entries: seq<Entry>): set<string>
  {
    set k | 0 <= k < |entries| :: entries[k].id
  }

  /** The items of one fetch, each with the source of its container. */
  function Tag(items: seq<Item>, source: Source): (r: seq<(Item, Source)>)
    ensures |r| == |items|
    ensures forall k :: 0 <= k < |r| ==> r[k] == (items[k], source)
  {
    seq(|items|, k requires 0 <= k < |items| => (items[k], source))
  }

  /** The items the loops visit, in order: only fetches that succeeded contribute. */
  function Tagged(results: seq<Fetch>, source: Source): seq<(Item, Source)>
  {
    if |results| == 0 then []
    else
      var last := results[|results| - 1];
      Tagged(results[..|results| - 1], source) + if last.success then Tag(last.data, source) else []
  }

  /** One item of the loops: a non-empty id not yet in the dictionary is added. */
  function Admit(entries: seq<Entry>, visited: (Item, Source)): seq<Entry>
  {
    var id := IdOf(visited.0);
    if id != "" && id !in Keys(entries) then entries + [EntryOf(visited.0, visited.1)] else entries
  }

  /** The dictionary after visiting `visited`, starting from `start`. */
  function Admitted(start: seq<Entry>, visited: seq<(Item, Source)>): seq<Entry>
  {
    if |visited| == 0 then start
    else Admit(Admitted(start, visited[..|visited| - 1]), visited[|visited| - 1])
  }

  /** What `get_sequences_from_vaults_and_bags` returns: vaults are visited before bags. */
  function Merged(vaults: seq<Fetch>, bags: seq<Fetch>): seq<Entry>
  {
    Admitted([], Tagged(vaults, Reference) + Tagged(bags, Candidate))
  }

  /** The entry for `id`: the earliest with that key. */
  function Lookup(entries: seq<Entry>, id: string): Option<Entry>
  {
    if |entries| == 0 then None
    else
      var earlier := Lookup(entries[..|entries| - 1], id);
      if earlier.Some? then earlier
      else if entries[|entries| - 1].id == id then Some(entries[|entries| - 1])
      else None
  }

  /** The entry made from the first visited item whose id is `id`. */
  function FirstWith(visited: seq<(Item, Source)>, id: string): Option<Entry>
  {
    if |visited| == 0 then None
    else
      var earlier := FirstWith(visited[..|visited| - 1], id);
      var last := visited[|visited| - 1];
      if earlier.Some? then earlier
      else if IdOf(last.0) == id then Some(EntryOf(last.0, last.1))
      else None
  }

  /** No key appears twice in the dictionary. */
  predicate DistinctKeys(entries: seq<Entry>)
  {
    forall a, b :: 0 <= a < b < |entries| ==> entries[a].id != entries[b].id
  }

  lemma LookupFindsKeys(entries: seq<Entry>, id: string)
    ensures Lookup(entries, id).Some? <==> id in Keys(entries)
    ensures Lookup(entries, id).Some? ==> Lookup(entries, id).value.id == id
  {
    if |entries| > 0 {
      var init := entries[..|entries| - 1];
      LookupFindsKeys(init, id);
      assert Keys(entries) == Keys(init) + {entries[|entries| - 1].id};
    }
  }

  lemma KeysAppend(entries: seq<Entry>, e: Entry)
    ensures Keys(entries + [e]) == Keys(entries) + {e.id}
  {
    var all := entries + [e];
    assert all[|entries|] == e;
    forall id | id in Keys(entries)
      ensures id in Keys(all)
    {
      var k :| 0 <= k < |entries| && entries[k].id == id;
      assert all[k] == entries[k];
    }
  }

  lemma AdmittedAppend(start: seq<Entry>, a: seq<(Item, Source)>, b: seq<(Item, Source)>)
    ensures Admitted(start, a + b) == Admitted(Admitted(start, a), b)
    decreases |b|
  {
    if |b| == 0 {
      assert a + b == a;
    } else {
      var n := |b| - 1;
      assert (a + b)[..|a + b| - 1] == a + b[..n];
      AdmittedAppend(start, a, b[..n]);
    }
  }

  lemma FirstWithAppend(a: seq<(Item, Source)>, b: seq<(Item, Source)>, id: string)
    ensures FirstWith(a + b, id) == if FirstWith(a, id).Some? then FirstWith(a, id) else FirstWith(b, id)
    decreases |b|
  {
    if |b| == 0 {
      assert a + b == a;
    } else {
      var n := |b| - 1;
      assert (a + b)[..|a + b| - 1] == a + b[..n];
      FirstWithAppend(a, b[..n], id);
    }
  }

  /**
   * First occurrence wins: the dictionary holds a non-empty id exactly when
   * a visited item carries it, and its entry is made from the first such
   * item; keys are never repeated.
   */
  lemma {:induction false} AdmittedFirstWins(visited: seq<(Item, Source)>, id: string)
    requires id != ""
    ensures Lookup(Admitted([], visited), id) == FirstWith(visited, id)
    ensures DistinctKeys(Admitted([], visited))
    decreases |visited|
  {
    if |visited| > 0 {
      var init := visited[..|visited| - 1];
      AdmittedFirstWins(init, id);
      AdmitStep(Admitted([], init), visited[|visited| - 1], id);
    }
  }

  /** One admitted item keeps the keys distinct and finds `id` in the earlier entries first. */
  lemma AdmitStep(before: seq<Entry>, v: (Item, Source), id: string)
    requires id != "" && DistinctKeys(before)
    ensures DistinctKeys(Admit(before, v))
    ensures Lookup(Admit(before, v), id) ==
      if Lookup(before, id).Some? then Lookup(before, id)
      else if IdOf(v.0) == id then Some(EntryOf(v.0, v.1)) else None
  {
    LookupFindsKeys(before, id);
    LookupFindsKeys(before, IdOf(v.0));
    var after := Admit(before, v);
    if after != before {
      assert after[..|after| - 1] == before;
    }
  }

  /** Every entry made from a fetch's items carries that fetch's source. */
  lemma {:induction false} FirstWithTagged(results: seq<Fetch>, source: Source, id: string)
    ensures FirstWith(Tagged(results, source), id).Some? ==> FirstWith(Tagged(results, source), id).value.source == source
    decreases |results|
  {
    if |results| > 0 {
      var init := results[..|results| - 1];
      var last := results[|results| - 1];
      FirstWithTagged(init, source, id);
      var items := if last.success then Tag(last.data, source) else [];
      FirstWithAppend(Tagged(init, source), items, id);
      FirstWithOfTag(items, source, id);
    }
  }

  lemma {:induction false} FirstWithOfTag(items: seq<(Item, Source)>, source: Source, id: string)
    requires forall k :: 0 <= k < |items| ==> items[k].1 == source
    ensures FirstWith(items, id).Some? ==> FirstWith(items, id).value.source == source
    decreases |items|
  {
    if |items| > 0 {
      FirstWithOfTag(items[..|items| - 1], source, id);
    }
  }

  /**
   * Vaults are read first: an id found in a selected vault is labelled a
   * reference sequence even when a selected bag holds it too, and an id is
   * labelled a candidate only when no selected vault holds it.
   */
  lemma MergedSource(vaults: seq<Fetch>, bags: seq<Fetch>, id: string)
    requires id != ""
    ensures Lookup(Merged(vaults, bags), id) == FirstWith(Tagged(vaults, Reference) + Tagged(bags, Candidate), id)
    ensures FirstWith(Tagged(vaults, Reference), id).Some? ==>
      Lookup(Merged(vaults, bags), id) == FirstWith(Tagged(vaults, Reference), id) &&
      Lookup(Merged(vaults, bags), id).value.source == Reference
    ensures Lookup(Merged(vaults, bags), id).Some? && Lookup(Merged(vaults, bags), id).value.source == Candidate ==>
      FirstWith(Tagged(vaults, Reference), id).None?
  {
    var visited := Tagged(vaults, Reference) + Tagged(bags, Candidate);
    AdmittedFirstWins(visited, id);
    FirstWithAppend(Tagged(vaults, Reference), Tagged(bags, Candidate), id);
    FirstWithTagged(vaults, Reference, id);
    FirstWithTagged(bags, Candidate, id);
  }

  /** The empty id never becomes a key. */
  lemma {:induction false} AdmittedSkipsEmpty(start: seq<Entry>, visited: seq<(Item, Source)>)
    requires "" !in Keys(start)
    ensures "" !in Keys(Admitted(start, visited))
    decreases |visited|
  {
    if |visited| > 0 {
      var before := Admitted(start, visited[..|visited| - 1]);
      AdmittedSkipsEmpty(start, visited[..|visited| - 1]);
      var after := Admitted(start, visited);
      if after != before {
        var last := visited[|visited| - 1];
        assert after == before + [EntryOf(last.0, last.1)];
        KeysAppend(before, EntryOf(last.0, last.1));
      }
    }
  }

  /** The inner loop over one fetch's items. */
  method AddItems(sequences: seq<Entry>, items: seq<Item>, source: Source) returns (after: seq<Entry>)
    ensures after == Admitted(sequences, Tag(items, source))
  {
    after := sequences;
    for j := 0 to |items|
      invariant after == Admitted(sequences, Tag(items, source)[..j])
    {
      assert Tag(items, source)[..j + 1][..j] == Tag(items, source)[..j];
      var item := items[j];
      var seqId := GetOr(item.sequenceId, "");
      if seqId != "" && seqId !in Keys(after) {
        after := after + [Entry(seqId, GetOr(item.sequence, ""), GetOr(item.name, seqId), source)];
      }
    }
    assert Tag(items, source)[..|items|] == Tag(items, source);
  }

  /** The loop over the selected containers of one kind. */
  method AddFetched(sequences: seq<Entry>, results: seq<Fetch>, source: Source) returns (after: seq<Entry>)
    ensures after == Admitted(sequences, Tagged(results, source))
  {
    after := sequences;
    for i := 0 to |results|
      invariant after == Admitted(sequences, Tagged(results[..i], source))
    {
      assert results[..i + 1][..i] == results[..i];
      var result := results[i];
      AdmittedAppend(sequences, Tagged(results[..i], source), if result.success then Tag(result.data, source) else []);
      if result.success {
        after := AddItems(after, result.data, source);
      } else {
        assert Tagged(results[..i + 1], source) == Tagged(results[..i], source) + [];
      }
    }
    assert results[..|results|] == results;
  }

  /**
   * `get_sequences_from_vaults_and_bags` given what fetching each selected
   * vault and bag returned, in selection order.
   */
  method CollectSequences(vaults: seq<Fetch>, bags: seq<Fetch>) returns (sequences: seq<Entry>)
    ensures sequences == Merged(vaults, bags)
    ensures DistinctKeys(sequences) && "" !in Keys(sequences)
  {
    sequences := AddFetched([], vaults, Reference);
    sequences := AddFetched(sequences, bags, Candidate);
    AdmittedAppend([], Tagged(vaults, Reference), Tagged(bags, Candidate));
    AdmittedFirstWins(Tagged(vaults, Reference) + Tagged(bags, Candidate), "x");
    AdmittedSkipsEmpty([], Tagged(vaults, Reference) + Tagged(bags, Candidate));
  }

  // ---------------------------------------------------------------------
  // UMAP input
  // ---------------------------------------------------------------------

  /**
   * A sequence reaches UMAP when it has at least five residues and feature
   * extraction succeeds on it; `extracts` says whether it does.
   */
  predicate Usable(e: Entry, extracts: string -> bool)
  {
    |e.sequence| >= 5 && extracts(e.sequence)
  }

  /** The usable entries, in dictionary order. */
  function UsableOf(entries: seq<Entry>, extracts: string -> bool): (r: seq<Entry>)
    ensures |r| <= |entries|
    ensures forall k :: 0 <= k < |r| ==> r[k] in entries && Usable(r[k], extracts)
    ensures forall k :: 0 <= k < |entries| && Usable(entries[k], extracts) ==> entries[k] in r
  {
    if |entries| == 0 then []
    else
      var last := entries[|entries| - 1];
      UsableOf(entries[..|entries| - 1], extracts) + if Usable(last, extracts) then [last] else []
  }

  /** `labels.count(source)`. */
  function CountOf(entries: seq<Entry>, source: Source): nat
  {
    if |entries| == 0 then 0
    else CountOf(entries[..|entries| - 1], source) + if entries[|entries| - 1].source == source then 1 else 0
  }

  function Min(a: int, b: int): int
  {
    if a <= b then a else b
  }

  function Max(a: int, b: int): int
  {
    if a >= b then a else b
  }

  /**
   * How `generate_umap_visualization` ends before the numerical work: a
   * failure with its message, or the kept sequences with the neighbourhood
   * size passed to UMAP and the counts reported with the figure.
   */
  datatype Umap =
    | UmapFailed(message: string)
    | UmapInput(kept: seq<Entry>, neighbours: int, points: nat, referenceCount: nat, candidateCount: nat)

  /** The loop over the dictionary that collects the usable sequences. */
  method KeepUsable(sequences: seq<Entry>, extracts: string -> bool) returns (kept: seq<Entry>)
    ensures kept == UsableOf(sequences, extracts)
  {
    kept := [];
    for i := 0 to |sequences|
      invariant kept == UsableOf(sequences[..i], extracts)
    {
      assert sequences[..i + 1][..i] == sequences[..i];
      var sequence := sequences[i].sequence;
      if |sequence| < 5 {
        continue;
      }
      if extracts(sequence) {
        kept := kept + [sequences[i]];
      }
    }
    assert sequences[..|sequences|] == sequences;
  }

  /** `generate_umap_visualization` up to the call of UMAP. */
  method PrepareUmap(sequences: seq<Entry>, extracts: string -> bool) returns (r: Umap)
    ensures |sequences| == 0 ==> r == UmapFailed("No sequences found in the selected vaults and bags")
    ensures |sequences| > 0 && |UsableOf(sequences, extracts)| == 0 ==> r == UmapFailed("Failed to extract features from sequences")
    ensures |UsableOf(sequences, extracts)| > 0 ==> r.UmapInput? && r.kept == UsableOf(sequences, extracts)
    ensures r.UmapInput? ==>
      r.neighbours == Min(15, |r.kept| - 1) && r.points == |sequences| &&
      r.referenceCount == CountOf(r.kept, Reference) && r.candidateCount == CountOf(r.kept, Candidate)
  {
    if |sequences| == 0 {
      return UmapFailed("No sequences found in the selected vaults and bags");
    }
    var kept := KeepUsable(sequences, extracts);
    if |kept| == 0 {
      return UmapFailed("Failed to extract features from sequences");
    }
    var neighbours := Min(15, |kept| - 1);
    r := UmapInput(kept, neighbours, |sequences|, CountOf(kept, Reference), CountOf(kept, Candidate));
  }

  /** The two labels partition the kept sequences. */
  lemma {:induction false} CountsPartition(entries: seq<Entry>)
    ensures CountOf(entries, Reference) + CountOf(entries, Candidate) == |entries|
    decreases |entries|
  {
    if |entries| > 0 {
      CountsPartition(entries[..|entries| - 1]);
    }
  }

  /**
   * The reported counts: the reference and candidate counts add up to the
   * number of kept sequences, which is at most `points`, since `points`
   * counts the skipped sequences too; the neighbourhood size is below the
   * number of kept sequences and at most 15.
   */
  lemma UmapCounts(sequences: seq<Entry>, extracts: string -> bool, r: Umap)
    requires r.UmapInput? && r.kept == UsableOf(sequences, extracts) && r.points == |sequences|
    requires r.referenceCount == CountOf(r.kept, Reference) && r.candidateCount == CountOf(r.kept, Candidate)
    requires r.neighbours == Min(15, |r.kept| - 1)
    ensures r.referenceCount + r.candidateCount == |r.kept| <= r.points
    ensures r.neighbours < |r.kept| && r.neighbours <= 15
    ensures r.neighbours == 15 <==> |r.kept| >= 16
  {
    CountsPartition(r.kept);
  }

  // ---------------------------------------------------------------------
  // Alignment and phylogeny guards
  // ---------------------------------------------------------------------

  /** A tool either refuses with a message or goes on with the sequences it got. */
  datatype Guarded = Refused(message: string) | Proceeds(data: seq<Entry>)

  /** The guard of `generate_multiple_sequence_alignment`. */
  function AlignmentGuard(data: seq<Entry>): (r: Guarded)
    ensures r.Refused? <==> |data| < 2
    ensures r.Proceeds? ==> r.data == data
  {
    if |data| < 2 then Refused("Multiple sequence alignment requires at least 2 sequences")
    else Proceeds(data)
  }

  /** The guard of `generate_phylogenetic_tree`. */
  function PhylogenyGuard(data: seq<Entry>): (r: Guarded)
    ensures r.Refused? <==> |data| < 3
    ensures r.Proceeds? ==> r.data == data
  {
    if |data| < 3 then Refused("Phylogenetic tree requires at least 3 sequences")
    else Proceeds(data)
  }

  /**
   * Whatever the phylogeny accepts, the alignment accepts too; exactly two
   * sequences can be aligned but not placed in a tree.
   */
  lemma GuardsNested(data: seq<Entry>)
    ensures PhylogenyGuard(data).Proceeds? ==> AlignmentGuard(data).Proceeds?
    ensures |data| == 2 ==> AlignmentGuard(data).Proceeds? && PhylogenyGuard(data).Refused?
  {
  }

  // ---------------------------------------------------------------------
  // Alignment figure
  // ---------------------------------------------------------------------

  /** The label of an aligned sequence: ids longer than 25 characters are cut. */
  function ShortLabel(id: string): (r: string)
    ensures |id| <= 25 ==> r == id
    ensures |id| > 25 ==> |r| == 28 && r[..25] == id[..25] && r[25..] == "..."
  {
    if |id| > 25 then id[..25] + "..." else id
  }

  /** Cutting a label a second time changes nothing, and no label exceeds 28 characters. */
  lemma ShortLabelSettles(id: string)
    ensures ShortLabel(ShortLabel(id)) == ShortLabel(id)
    ensures |ShortLabel(id)| <= 28
  {
    if |id| > 25 {
      var r := ShortLabel(id);
      assert r[..25] == id[..25];
      assert ShortLabel(r) == r[..25] + "...";
    }
  }

  /** The figure height for `n` aligned sequences. */
  function FigureHeight(n: nat): (h: int)
    ensures h >= 400 && h >= 30 * n + 100
    ensures h == 400 || h == 30 * n + 100
  {
    Max(400, 30 * n + 100)
  }

  /** The figure width for an alignment of `length` columns. */
  function FigureWidth(length: nat): (w: int)
    ensures w <= 1200 && w <= 10 * length + 150
    ensures w == 1200 || w == 10 * length + 150
  {
    Min(1200, 10 * length + 150)
  }

  /** From ten sequences on the height grows by 30 per sequence; from 105 columns on the width is capped. */
  lemma FigureSizeRegimes(n: nat, length: nat)
    ensures FigureHeight(n) == 30 * n + 100 <==> n >= 10
    ensures FigureWidth(length) == 1200 <==> length >= 105
    ensures FigureHeight(n + 1) >= FigureHeight(n) && FigureWidth(length + 1) >= FigureWidth(length)
  {
  }

  // ---------------------------------------------------------------------
  // Tree layout
  // ---------------------------------------------------------------------

  /** A clade of the inferred tree; it is terminal when it has no children. */
  datatype Clade = Clade(name: string, children: seq<Clade>)

  /**
   * A clade is addressed by the child indices leading to it from the root;
   * `coords` maps it to its depth and its row.
   */
  type Path = seq<nat>

  /** The number of leaves of a clade. */
  function Leaves(c: Clade): nat
    decreases c, 1, 0
  {
    if |c.children| == 0 then 1 else LeavesBefore(c, |c.children|)
  }

  /** The number of leaves of the first `k` children. */
  function LeavesBefore(c: Clade, k: nat): nat
    requires k <= |c.children|
    decreases c, 0, k
  {
    if k == 0 then 0 else LeavesBefore(c, k - 1) + Leaves(c.children[k - 1])
  }

  /** The number of edges from a clade to its deepest leaf. */
  function Height(c: Clade): nat
    decreases c, 1, 0
  {
    if |c.children| == 0 then 0 else HeightBefore(c, |c.children|)
  }

  /** The height of a clade cut down to its first `k` children. */
  function HeightBefore(c: Clade, k: nat): nat
    requires k <= |c.children|
    decreases c, 0, k
  {
    if k == 0 then 0 else Max(HeightBefore(c, k - 1), 1 + Height(c.children[k - 1]))
  }

  /**
   * What `calc_row(c, row, depth)` writes into `coords` for the clade at
   * `path`: a leaf sits on its row, an internal clade at `row` plus half
   * its leaf count, after its children.
   */
  ghost function Layout(c: Clade, path: Path, row: nat, depth: nat): map<Path, (nat, real)>
    decreases c, 1, 0
  {
    if |c.children| == 0 then map[path := (depth, row as real)]
    else LayoutBefore(c, path, row, depth, |c.children|)[path := (depth, row as real + Leaves(c) as real / 2.0)]
  }

  /** What the calls for the first `k` children write. */
  ghost function LayoutBefore(c: Clade, path: Path, row: nat, depth: nat, k: nat): map<Path, (nat, real)>
    requires k <= |c.children|
    decreases c, 0, k
  {
    if k == 0 then map[]
    else LayoutBefore(c, path, row, depth, k - 1) + Layout(c.children[k - 1], path + [k - 1], row + LeavesBefore(c, k - 1), depth + 1)
  }

  /** The relative paths of the leaves of a clade, left to right. */
  function LeafPaths(c: Clade): seq<Path>
    decreases c, 1, 0
  {
    if |c.children| == 0 then [[]] else LeafPathsBefore(c, |c.children|)
  }

  function LeafPathsBefore(c: Clade, k: nat): seq<Path>
    requires k <= |c.children|
    decreases c, 0, k
  {
    if k == 0 then []
    else LeafPathsBefore(c, k - 1) + Prefixed(k - 1, LeafPaths(c.children[k - 1]))
  }

  /** The paths below child `j`, seen from its parent. */
  function Prefixed(j: nat, paths: seq<Path>): (r: seq<Path>)
    ensures |r| == |paths|
    ensures forall k :: 0 <= k < |r| ==> r[k] == [j] + paths[k]
  {
    seq(|paths|, k requires 0 <= k < |paths| => [j] + paths[k])
  }

  /** Every clade has at least one leaf. */
  lemma {:induction false} LeavesPositive(c: Clade)
    ensures Leaves(c) >= 1
    decreases c, 1, 0
  {
    if |c.children| > 0 {
      LeavesBeforePositive(c, |c.children|);
    }
  }

  lemma {:induction false} LeavesBeforePositive(c: Clade, k: nat)
    requires 1 <= k <= |c.children|
    ensures LeavesBefore(c, k) >= 1
    decreases c, 0, k
  {
    LeavesPositive(c.children[k - 1]);
  }

  /** Every clade in `m` lies below `prefix`. */
  ghost predicate Below(m: map<Path, (nat, real)>, prefix: Path)
  {
    forall key :: key in m ==> |prefix| <= |key| && key[..|prefix|] == prefix
  }

  /** The leaves at `paths` below `path` sit on consecutive rows from `row`, each at its own depth. */
  ghost predicate Rows(m: map<Path, (nat, real)>, path: Path, paths: seq<Path>, row: nat, depth: nat)
  {
    forall k :: 0 <= k < |paths| ==>
      path + paths[k] in m && m[path + paths[k]] == (depth + |paths[k]|, (row + k) as real)
  }

  /** The leaves at `paths` hang below one of the first `bound` children. */
  ghost predicate Under(paths: seq<Path>, bound: nat)
  {
    forall k :: 0 <= k < |paths| ==> |paths[k]| >= 1 && paths[k][0] < bound
  }

  /** The layout of a clade only holds clades below it. */
  lemma {:induction false} LayoutKeys(c: Clade, path: Path, row: nat, depth: nat)
    ensures Below(Layout(c, path, row, depth), path)
    decreases c, 1, 0
  {
    if |c.children| > 0 {
      LayoutBeforeKeys(c, path, row, depth, |c.children|);
    }
  }

  /** The layout of the first `k` children only holds clades below them. */
  lemma {:induction false} LayoutBeforeKeys(c: Clade, path: Path, row: nat, depth: nat, k: nat)
    requires k <= |c.children|
    ensures Below(LayoutBefore(c, path, row, depth, k), path)
    decreases c, 0, k
  {
    if k > 0 {
      LayoutBeforeKeys(c, path, row, depth, k - 1);
      var below := path + [k - 1];
      LayoutKeys(c.children[k - 1], below, row + LeavesBefore(c, k - 1), depth + 1);
      BelowUnion(LayoutBefore(c, path, row, depth, k - 1), Layout(c.children[k - 1], below, row + LeavesBefore(c, k - 1), depth + 1), path, below);
    }
  }

  lemma BelowUnion(a: map<Path, (nat, real)>, b: map<Path, (nat, real)>, path: Path, below: Path)
    requires Below(a, path) && Below(b, below) && |path| <= |below| && below[..|path|] == path
    ensures Below(a + b, path)
  {
    forall key | key in b
      ensures |path| <= |key| && key[..|path|] == path
    {
      assert key[..|path|] == key[..|below|][..|path|];
    }
  }

  /** A clade has as many leaf paths as leaves. */
  lemma {:induction false} LeafCount(c: Clade)
    ensures |LeafPaths(c)| == Leaves(c)
    decreases c, 1, 0
  {
    if |c.children| > 0 {
      LeafCountBefore(c, |c.children|);
    }
  }

  lemma {:induction false} LeafCountBefore(c: Clade, j: nat)
    requires j <= |c.children|
    ensures |LeafPathsBefore(c, j)| == LeavesBefore(c, j)
    decreases c, 0, j
  {
    if j > 0 {
      LeafCountBefore(c, j - 1);
      LeafCount(c.children[j - 1]);
    }
  }

  /**
   * `calc_row` gives the leaves of a clade consecutive rows from `row`, left
   * to right, each at its own depth.
   */
  lemma {:induction false} LeafRows(c: Clade, path: Path, row: nat, depth: nat)
    ensures Rows(Layout(c, path, row, depth), path, LeafPaths(c), row, depth)
    decreases c, 1, 0
  {
    if |c.children| == 0 {
      assert LeafPaths(c)[0] == [];
      assert path + [] == path;
    } else {
      var n := |c.children|;
      LeafRowsBefore(c, path, row, depth, n);
      RowsUpdate(LayoutBefore(c, path, row, depth, n), path, LeafPaths(c), row, depth, n, (depth, row as real + Leaves(c) as real / 2.0));
    }
  }

  /** Placing the parent afterwards does not move its leaves. */
  lemma RowsUpdate(m: map<Path, (nat, real)>, path: Path, paths: seq<Path>, row: nat, depth: nat, bound: nat, v: (nat, real))
    requires Rows(m, path, paths, row, depth) && Under(paths, bound)
    ensures Rows(m[path := v], path, paths, row, depth)
  {
    forall k | 0 <= k < |paths|
      ensures path + paths[k] != path
    {
      assert |path + paths[k]| > |path|;
    }
  }

  /**
   * An internal clade sits at `row` plus half its leaf count, strictly
   * between the row of its first leaf and the row past its last.
   */
  lemma InternalRow(c: Clade, path: Path, row: nat, depth: nat)
    requires |c.children| > 0
    ensures path in Layout(c, path, row, depth)
    ensures Layout(c, path, row, depth)[path] == (depth, row as real + Leaves(c) as real / 2.0)
    ensures row as real < Layout(c, path, row, depth)[path].1 < (row + Leaves(c)) as real
  {
    LeavesPositive(c);
  }

  lemma {:induction false} LeafRowsBefore(c: Clade, path: Path, row: nat, depth: nat, j: nat)
    requires j <= |c.children|
    ensures Rows(LayoutBefore(c, path, row, depth, j), path, LeafPathsBefore(c, j), row, depth)
    ensures Under(LeafPathsBefore(c, j), j)
    decreases c, 0, j
  {
    if j > 0 {
      var i := j - 1;
      var child := c.children[i];
      var below := path + [i];
      var start := row + LeavesBefore(c, i);
      var sub := Layout(child, below, start, depth + 1);
      LayoutBeforeStep(c, path, row, depth, j);
      LeafRowsBefore(c, path, row, depth, i);
      LeafCountBefore(c, i);
      LeafRows(child, below, start, depth + 1);
      LayoutKeys(child, below, start, depth + 1);
      PlacedAppend(LayoutBefore(c, path, row, depth, i), sub, path, i, LeafPathsBefore(c, i), LeafPaths(child), row, start, depth);
    }
  }

  lemma LayoutBeforeStep(c: Clade, path: Path, row: nat, depth: nat, j: nat)
    requires 0 < j <= |c.children|
    ensures LayoutBefore(c, path, row, depth, j) ==
      LayoutBefore(c, path, row, depth, j - 1) + Layout(c.children[j - 1], path + [j - 1], row + LeavesBefore(c, j - 1), depth + 1)
    ensures LeafPathsBefore(c, j) == LeafPathsBefore(c, j - 1) + Prefixed(j - 1, LeafPaths(c.children[j - 1]))
  {
  }

  /** The leaves of child `i` follow those of the earlier children. */
  lemma PlacedAppend(a: map<Path, (nat, real)>, b: map<Path, (nat, real)>, path: Path, i: nat,
                     earlier: seq<Path>, below: seq<Path>, row: nat, start: nat, depth: nat)
    requires start == row + |earlier|
    requires Rows(a, path, earlier, row, depth) && Under(earlier, i)
    requires Below(b, path + [i])
    requires Rows(b, path + [i], below, start, depth + 1)
    ensures Rows(a + b, path, earlier + Prefixed(i, below), row, depth)
    ensures Under(earlier + Prefixed(i, below), i + 1)
  {
    var all := earlier + Prefixed(i, below);
    forall k | 0 <= k < |all|
      ensures |all[k]| >= 1 && all[k][0] < i + 1 && path + all[k] in a + b
      ensures (a + b)[path + all[k]] == (depth + |all[k]|, (row + k) as real)
    {
      if k < |earlier| {
        var key := path + earlier[k];
        assert key[|path|] == earlier[k][0] < i;
        assert key !in b;
      } else {
        var q := below[k - |earlier|];
        assert all[k] == [i] + q;
        assert path + all[k] == (path + [i]) + q;
      }
    }
  }

  lemma UnionLeft<K, V>(a: map<K, V>, b: map<K, V>, key: K)
    requires key in a && key !in b
    ensures key in a + b && (a + b)[key] == a[key]
  {
  }

  lemma UnionRight<K, V>(a: map<K, V>, b: map<K, V>, key: K)
    requires key in b
    ensures key in a + b && (a + b)[key] == b[key]
  {
  }

  lemma UnionAssociates<K, V>(a: map<K, V>, b: map<K, V>, c: map<K, V>)
    ensures (a + b) + c == a + (b + c)
  {
  }

  lemma UnionUpdate<K, V>(a: map<K, V>, b: map<K, V>, k: K, v: V)
    ensures (a + b)[k := v] == a + b[k := v]
  {
  }

  /** The object whose `coords` and `max_depth` `calc_row` updates. */
  class TreeLayout {
    var coords: map<Path, (nat, real)>
    var maxDepth: nat

    constructor ()
      ensures coords == map[] && maxDepth == 0
    {
      coords := map[];
      maxDepth := 0;
    }

    /**
     * `calc_row`: returns the leaf count of the clade, adds its layout to
     * `coords` and raises `maxDepth` to the depth of its deepest clade.
     */
    method CalcRow(c: Clade, path: Path, row: nat, depth: nat) returns (rowsNeeded: nat)
      modifies this
      ensures rowsNeeded == Leaves(c)
      ensures coords == old(coords) + Layout(c, path, row, depth)
      ensures maxDepth == Max(old(maxDepth), depth + Height(c))
      decreases c
    {
      if depth > maxDepth {
        maxDepth := depth;
      }
      if |c.children| == 0 {
        coords := coords[path := (depth, row as real)];
        return 1;
      }
      rowsNeeded := 0;
      for k := 0 to |c.children|
        invariant rowsNeeded == LeavesBefore(c, k)
        invariant coords == old(coords) + LayoutBefore(c, path, row, depth, k)
        invariant maxDepth == Max(old(maxDepth), depth + HeightBefore(c, k))
      {
        var sub := CalcRow(c.children[k], path + [k], row + rowsNeeded, depth + 1);
        UnionAssociates(old(coords), LayoutBefore(c, path, row, depth, k), Layout(c.children[k], path + [k], row + rowsNeeded, depth + 1));
        rowsNeeded := rowsNeeded + sub;
      }
      UnionUpdate(old(coords), LayoutBefore(c, path, row, depth, |c.children|), path, (depth, row as real + rowsNeeded as real / 2.0));
      coords := coords[path := (depth, row as real + rowsNeeded as real / 2.0)];
    }
  }

  /** The call `calc_row(tree.root, 0, 0)` of `generate_tree_visualization`, on fresh state. */
  method LayOutTree(root: Clade) returns (layout: TreeLayout)
    ensures fresh(layout)
    ensures layout.coords == Layout(root, [], 0, 0) && layout.maxDepth == Height(root)
  {
    layout := new TreeLayout();
    var rows := layout.CalcRow(root, [], 0, 0);
  }
}
