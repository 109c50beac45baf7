# bacpredrender, modelled in Dafny

bacpredrender is a Flask web application for bacteriocins, the antimicrobial peptides some bacteria make. Users search NCBI, or upload sequences, and a trained classifier predicts whether each protein sequence is a bacteriocin. Predictions can be kept in a PostgreSQL collection and grouped into vaults (reference bacteriocins) and bags (candidates). A selection of vaults and bags can then be analysed with UMAP, a multiple sequence alignment or a phylogenetic tree. The pages' scripts highlight known bacteriocin motifs inside the sequences shown.

This project models the logic at the core of the application and proves properties of it. Each module follows one source file.

- `Motifs` is the regex catalog of `static/js/motif-highlighter.js`, with the regex matching its loop relies on.
- `Annotator` is that file's `highlightMotifs`:
  - the pattern-length sort;
  - the `exec` scan and the overlap resolution;
  - the start-order sort;
  - the reverse splice into markup;
  - the processed marker.
- `MsaExclusion` is the copy in `biofasta/static/js/motif-highlighter.js`, with its MSA-container exclusion.
- `BacPred` is the 433-value feature vector of `BacteriocinPredictor.extract_features` in `bacpred.py`.
- `BacPredict` is `predict`: input unpacking, the 420-column width fit, labels and confidence bands.
- `Database` is the tables of `database.py` and the functions that change them, including the reference FASTA loader and the name repair.
- `Analysis` is the parts of `analysis.py` the tools rely on:
  - the sequence merge;
  - the UMAP input;
  - the alignment and tree guards;
  - labels and figure sizes;
  - the tree layout `calc_row`.
- `App` is the request handling of `app.py`:
  - upload names;
  - the search filters;
  - prediction formatting and naming;
  - collection validation;
  - the container endpoint;
  - the analysis routing.
- `MainPage`, `CollectionPage` and `AnalysisPage` are the client rules of `static/js/main.js`, `static/js/collection.js` and `static/js/analysis.js`.
- `Text` holds the string and sequence helpers the modules share, such as Python's `split` and `strip` and JavaScript's `filter`.

State the source changes in place is modelled as classes:
- `Annotator.DomElement` is a container's content and processed marker.
- `Database.Store` is the tables.
- `Analysis.TreeLayout` is the `coords` and `max_depth` of `calc_row`.
- `MainPage.SequenceList`, `CollectionPage.CollectionView` and `AnalysisPage.AnalysisState` are page state.

Loops become methods proved against specification functions. Servers, files, the network, the classifier and the DOM enter as parameters or are left out.

## Model

| member | source | states |
|---|---|---|
| Motifs.BacktrackBounds | static/js/motif-highlighter.js:166-168 | a regex match found by `exec` is at least as long as the pattern's shortest form and ends inside the text |
| Motifs.ShorterRunsFail | static/js/motif-highlighter.js:85 | on `[LIVF]{8,15}A`, giving back characters of the run can never let the following `A` match, since `A` is outside the run's class |
| Motifs.GreedyIsBacktrack | static/js/motif-highlighter.js:85 | for a pattern whose every counted run is followed by a class disjoint from it, JavaScript's backtracking match and a greedy match without backtracking give the same result |
| Motifs.RunFreeWellFormed | static/js/motif-highlighter.js:9-121 | a non-empty regex without counted runs is separated and never matches the empty string |
| Motifs.SignalPeptideWellFormed | static/js/motif-highlighter.js:84-85 | the signal-peptide regex is separated: its `{8,15}` run is followed by `A`, outside `[LIVF]` |
| Motifs.CatalogWellFormed | static/js/motif-highlighter.js:4-127 | every one of the twelve catalog regexes is separated and never matches the empty string, so the scan always advances |
| Annotator.InsertByLengthPerm | static/js/motif-highlighter.js:151-153 | inserting a motif into the sorted list loses and adds nothing |
| Annotator.SortByPatternLengthCorrect | static/js/motif-highlighter.js:151-153 | `sort((a, b) => b.pattern.length - a.pattern.length)` puts longer display patterns first, is a permutation of the catalog, and keeps catalog order among equal lengths |
| Annotator.ExecFrom | static/js/motif-highlighter.js:166-168 | `exec` with `lastIndex` at `from` finds the leftmost match starting at or after `from`, and nothing when there is none |
| Annotator.Scan | static/js/motif-highlighter.js:159-183 | the `while (exec)` loop visits non-empty, ordered, non-overlapping matches, each search resuming where the previous match ended |
| Annotator.OverlapsIsIntersection | static/js/motif-highlighter.js:171-175 | for non-empty intervals the three-clause overlap test holds exactly when the half-open intervals intersect |
| Annotator.AdjacentDoNotOverlap | static/js/motif-highlighter.js:171-175 | spans that only touch, such as [0,4) and [4,8), are not overlapping |
| Annotator.AcceptAllCorrect | static/js/motif-highlighter.js:166-183 | accepting one motif's matches keeps the kept spans non-empty, inside the text and pairwise disjoint |
| Annotator.AcceptAllMaximal | static/js/motif-highlighter.js:166-183 | every match of the motif is kept, or overlaps a span kept earlier or one of its own earlier matches |
| Annotator.AcceptAllPrefix | static/js/motif-highlighter.js:178-182 | `motifPositions` is only appended to, and only with candidates |
| Annotator.ResolveCorrect | static/js/motif-highlighter.js:147-185 | over all motifs, the kept spans are pairwise-disjoint genuine matches of catalog motifs, and an earlier span is never displaced |
| Annotator.ResolvePrefix | static/js/motif-highlighter.js:147-185 | resolution only appends |
| Annotator.ResolveMaximal | static/js/motif-highlighter.js:147-185 | every match a motif's scan visits is kept, or overlaps a span kept before it or by a motif tried no later |
| Annotator.SortByStartPerm | static/js/motif-highlighter.js:188 | the sort by start adds and drops no span |
| Annotator.SortByStartChained | static/js/motif-highlighter.js:188 | sorted by start, disjoint non-empty spans line up each ending no later than the next starts |
| Annotator.LayoutFaithful | static/js/motif-highlighter.js:190-208 | removing the wrappers from the layout leaves the text exactly, and the k-th wrapper encloses exactly the text of the k-th span, for that span's motif |
| Annotator.LayoutShift | static/js/motif-highlighter.js:190-208 | starting the layout later only moves plain text out of it |
| Annotator.LayoutLength | static/js/motif-highlighter.js:199-205 | every wrapper adds at least its closing tag to the length |
| Annotator.RenderChangesIffKept | static/js/motif-highlighter.js:190-214 | the new HTML differs from the original text exactly when some span was kept, which is when the container is rewritten |
| Annotator.TagIsTag | static/js/motif-highlighter.js:199-205 | with attribute values free of `>`, the opening `<span ...>` template is one single tag |
| Annotator.StripWrapper | static/js/motif-highlighter.js:199-205 | deleting the tags of a wrapper around plain text leaves only that text |
| Annotator.StripSerialize | static/js/motif-highlighter.js:190-208 | deleting the tags of the pieces leaves their content |
| Annotator.LayoutPieces | static/js/motif-highlighter.js:190-208 | every piece of the layout is a stretch of the text, and every wrapper belongs to a kept span's motif |
| Annotator.RenderPreservesText | static/js/motif-highlighter.js:190-208 | deleting the inserted tags from `newHTML` gives back the original text, for texts without markup characters and catalog fields without angle brackets |
| Annotator.MotifSpans | static/js/motif-highlighter.js:147-188 | the spans the splice walks are pairwise disjoint, inside the text and in start order |
| Annotator.SameSpans | static/js/motif-highlighter.js:188 | the start-order list holds the same spans as the resolved list |
| Annotator.AnnotationGenuine | static/js/motif-highlighter.js:147-188 | every highlighted span is a match of its catalog motif's regex at exactly that interval |
| Annotator.AnnotationApart | static/js/motif-highlighter.js:147-188 | no two highlighted spans share a position |
| Annotator.AnnotationPrecedence | static/js/motif-highlighter.js:147-188 | a match that is not highlighted overlaps a highlighted span whose motif's display pattern is at least as long |
| Annotator.ChainedApart | static/js/motif-highlighter.js:188 | chained non-empty spans share no position |
| Annotator.DomElement.constructor | static/js/motif-highlighter.js:134-141 | a fresh container holds its text as content, without the processed marker |
| Annotator.HighlightEffect | static/js/motif-highlighter.js:134-214 | the text is never changed and a marked container is skipped; an unmarked one is rewritten and marked exactly when some span was kept |
| Annotator.HighlightIdempotent | static/js/motif-highlighter.js:134-137 | highlighting twice is highlighting once, because the marker makes the second pass skip the container |
| Annotator.ScanMotif | static/js/motif-highlighter.js:163-184 | the `exec` loop of one motif keeps, in match order, each match that overlaps no position kept before it |
| Annotator.CollectSpans | static/js/motif-highlighter.js:147-185 | the scan-and-resolve loops produce the resolution of the length-sorted catalog over the text |
| Annotator.Splice | static/js/motif-highlighter.js:190-208 | the reverse splice loop produces the layout of the start-sorted spans |
| Annotator.SpliceStep | static/js/motif-highlighter.js:192-207 | one splice step wraps span `i` inside the plain text ahead of the later wrappers |
| Annotator.HighlightContainer | static/js/motif-highlighter.js:134-214 | `highlightMotifs` on one container: the content becomes the rendered markup and the marker is set exactly when a span was kept; marked containers are untouched |
| Annotator.HighlightAll | static/js/motif-highlighter.js:130-216 | every listed container is highlighted as `HighlightContainer` says, and nothing else changes |
| AnnotatorExamples.CatalogLengths | static/js/motif-highlighter.js:8-120 | the display patterns of the catalog have lengths 4, 5, 3, 5, 4, 10, 5, 18, 3, 4, 8, 8 |
| AnnotatorExamples.UniqueLongestFirst | static/js/motif-highlighter.js:151-153 | a motif whose pattern is strictly longer than every other is tried first |
| AnnotatorExamples.SignalPeptideFirst | static/js/motif-highlighter.js:84-85 | the signal peptide, with the only 18-character pattern, is tried first |
| AnnotatorExamples.HxxHScan | static/js/motif-highlighter.js:102-103 | on "HAHH" the HxxH regex matches only [0,4) |
| AnnotatorExamples.HxHScan | static/js/motif-highlighter.js:93-94 | on "HAHH" the HxH regex matches [0,3), and the scan resuming at 3 finds nothing more |
| AnnotatorExamples.HxxHBeatsHxH | static/js/motif-highlighter.js:147-185 | on "HAHH" HxxH is tried before HxH and keeps [0,4); HxH's match [0,3) overlaps it and is dropped |
| MsaExclusion.FnldCatalogWellFormed | biofasta/static/js/motif-highlighter.js:6-18 | the one-motif FNLD catalog of this copy is well formed |
| MsaExclusion.AncestorClasses | biofasta/static/js/motif-highlighter.js:154-164 | the class lists walked going up `parentElement` are those of the element's ancestors, nearest first |
| MsaExclusion.IsInMsaContainer | biofasta/static/js/motif-highlighter.js:143-175 | an element is excluded exactly when it or an ancestor carries one of the four MSA/Plotly classes, or its own id contains "msa" or "plotly" |
| MsaExclusion.ClassExclusionInherited | biofasta/static/js/motif-highlighter.js:145-165 | an element excluded by its own or an ancestor's classes makes every element below it excluded |
| MsaExclusion.IdExclusionNotInherited | biofasta/static/js/motif-highlighter.js:167-172 | an "msa" id excludes only its own element, not a plain child |
| MsaExclusion.ExclusionEffect | biofasta/static/js/motif-highlighter.js:53-60 | an excluded container gets no spans and no marker; any other is highlighted as the main copy would, with the FNLD catalog |
| MsaExclusion.HighlightContainerUnlessExcluded | biofasta/static/js/motif-highlighter.js:53-137 | the skip test followed by the highlighting of one container |
| MsaExclusion.HighlightAllUnlessExcluded | biofasta/static/js/motif-highlighter.js:46-139 | every container is skipped when excluded and highlighted otherwise, in document order |
| MsaExclusion.LiteralMatch | biofasta/static/js/motif-highlighter.js:11 | a literal regex such as `/FNLD/` matches at `i` exactly when the word is written there |
| MsaExclusion.FnldSpansWrapFnld | biofasta/static/js/motif-highlighter.js:112-131 | with the FNLD catalog every wrapper encloses exactly the letters "FNLD" |
| MsaExclusion.AcceptAllAfter | biofasta/static/js/motif-highlighter.js:88-106 | candidates after every kept span that do not overlap one another are all kept, in order |
| MsaExclusion.SingleMotifKeepsAll | biofasta/static/js/motif-highlighter.js:78-107 | a one-motif catalog keeps every match its scan finds |
| MsaExclusion.FnldTwice | biofasta/static/js/motif-highlighter.js:88-106 | "FNLDFNLD" gets two adjacent FNLD spans, [0,4) and [4,8): touching is not overlapping |
| BacPred.ResiduesAscending | bacpred.py:82 | the twenty residues "ACDEFGHIKLMNPQRSTVWY" are in ascending order, hence without repeats |
| BacPred.DipeptideKeyAt | bacpred.py:92-94 | key `20a + b` of the nested loops is residue `a` followed by residue `b` |
| BacPred.DipeptideKeysSorted | bacpred.py:99 | the nested-loop order equals `sorted(dipeptide_counts.keys())`: every two-residue word once, ascending |
| BacPred.KeyOrder | bacpred.py:99 | two keys compare as strings exactly as their loop positions compare |
| BacPred.ResidueFeaturesMatchNames | bacpred.py:87 | the first 20 features are the shares of the residues named at the same positions by `get_feature_names` |
| BacPred.DipeptideFeaturesMatchNames | bacpred.py:99 | the next 400 are the shares among the `L-1` windows of the dipeptides named at the same positions |
| BacPred.PseudofeatureNamesLast | bacpred.py:216-234 | the last 13 names are the pseudofeatures, in emission order |
| BacPred.EmptySequenceFeatures | bacpred.py:87-198 | the empty sequence gives 0 everywhere except the size factor, 0.5 |
| BacPred.OtherLettersUncounted | bacpred.py:84-87 | a letter outside the twenty residues lengthens the sequence but adds to no residue count |
| BacPred.PrefixOccurrences | bacpred.py:95-98 | windows ending inside `s` count the same in `s + t` |
| BacPred.CxcCountsOverlaps | bacpred.py:150-152 | CXC counts overlapping pairs: "CCCC" scores two |
| BacPred.LsxxSkipsTheEnd | bacpred.py:178-180 | LSXX looks at positions up to `L-4` only: "AALS" scores 0 |
| BacPred.CountResidues | bacpred.py:83-86 | the residue count loop yields, for every residue, its number of occurrences |
| BacPred.ZeroDipeptideCounts | bacpred.py:91-94 | the nested loops put all 400 dipeptides in the map with count 0 |
| BacPred.CountDipeptides | bacpred.py:95-98 | after the window loop every dipeptide maps to its number of occurrences among the windows |
| BacPred.CountWindows | bacpred.py:95-98 | the window loop, from all-zero counts of two-letter words, ends with each word's number of occurrences among the windows and no other key |
| BacPred.WindowCountsCount | bacpred.py:95-98 | after `n` windows every count is the word's number of occurrences among those `n` windows |
| BacPred.CountTransitions | bacpred.py:131-137 | the amphipathicity loop counts the changes between hydrophobic and not |
| BacPred.CountCysteinePairs | bacpred.py:148-160 | the CXC and CXXC loops count the cysteines with another `gap` further on |
| BacPred.CountWord | bacpred.py:161-180 | the 2- and 3-letter motif loops and the LSXX loop count the positions where the word starts, over their ranges |
| BacPred.MotifScores | bacpred.py:145-181 | the motif loop yields the five scores CXC, CXXC, GG, PGP, LSXX, each divided by its window count or 0 |
| BacPred.PseudofeaturesFromCounts | bacpred.py:104-196 | the thirteen pseudofeatures read off the residue and dipeptide count maps are those of the sequence |
| BacPred.ExtractFeatures | bacpred.py:70-199 | `extract_features` returns exactly the 433-value vector `Features`: 20 residue shares, 400 dipeptide shares, 13 pseudofeatures |
| BacPred.Shares | bacpred.py:87 | each share is the count over the divisor, or 0 when the divisor is 0 |
| BacPred.ResidueBlock | bacpred.py:87 | the residue block is the residue composition |
| BacPred.DipeptideValues | bacpred.py:99 | the dipeptide block is the dipeptide composition in sorted-key order |
| BacPred.PseudofeatureValues | bacpred.py:104-196 | the thirteen pseudofeatures from the two count maps and the remaining loops |
| BacPred.ChargedCounted | bacpred.py:105-124 | `aa_counts.get(aa, 0)` for C and the charged residues reads the counted value |
| BacPred.PairCounted | bacpred.py:107 | `dipeptide_counts.get('CC', 0)` reads the counted value |
| BacPredict.PlainStringIsOneEntry | bacpred.py:319-326 | a string without '>' becomes one entry named "Sequence" |
| BacPredict.StringListNumbered | bacpred.py:327-330 | a list of strings becomes `Sequence_1`, `Sequence_2`, ... in order, and always unpacks |
| BacPredict.PairListKept | bacpred.py:331-333 | a list of pairs is used as it is |
| BacPredict.OnlyOtherInputRaises | bacpred.py:319-335 | only input that is neither a string nor a list raises `ValueError` |
| BacPredict.FitRowShape | bacpred.py:358-370 | the fitted row has exactly 420 columns, keeps the leading ones and pads with zeros |
| BacPredict.AdjustWidth | bacpred.py:355-372 | the width decision is taken once, on the column count of the whole matrix, and every row is fitted to 420 |
| BacPredict.WidthDropsPseudofeatures | bacpred.py:358-364 | with 433-wide vectors the fit keeps the residue and dipeptide shares and drops all 13 pseudofeatures |
| BacPredict.PseudofeaturesIgnored | bacpred.py:358-378 | two sequences with the same residue and dipeptide shares get the same probability |
| BacPredict.LabelMonotone | bacpred.py:388 | the label flips once, at 0.5: a higher probability never turns "Bacteriocin" into "Non-bacteriocin" |
| BacPredict.ConfidenceBands | bacpred.py:389 | High above distance 0.3 from 0.5, Medium above 0.15, Low otherwise, written as probability intervals |
| BacPredict.ConfidenceSymmetric | bacpred.py:389 | the confidence of `p` and of `1 - p` agree |
| BacPredict.ResultsFollowInput | bacpred.py:381-390 | result `i` carries the header and sequence of entry `i`, and its label and confidence agree with its probability |
| BacPredict.Predict | bacpred.py:300-392 | `predict` on a trained model: one result per unpacked entry, in order, from the width-fitted features |
| BacPredict.PredictEntries | bacpred.py:338-392 | past unpacking: features, width fit, probabilities and labels entry by entry |
| BacPredict.UnpackEach | bacpred.py:338-346 | the `for seq_id, seq in seq_list` loop unpacks every entry or stops at the first failure |
| BacPredict.FeatureRows | bacpred.py:338-346 | the feature loop gives one 433-value row per entry, in entry order |
| BacPredict.LabelRows | bacpred.py:381-390 | the result loop gives one labelled result per entry, in entry order |
| BacPredict.UnpackFailsAt | bacpred.py:339 | unpacking fails exactly when some entry fails, with the first failure |
| Database.UpsertedUnique | database.py:164-175 | the upsert never creates a second row with the same `sequence_id` |
| Database.UpsertedHoldsRow | database.py:164-175 | after the upsert exactly one row holds the sequence id, with the new values |
| Database.UpsertedKeepsOthers | database.py:164-175 | the upsert removes no row and changes no row of another sequence id; it adds a row exactly when the id was new |
| Database.UpsertedTwice | database.py:164-175 | adding the same bacteriocin twice leaves the table as adding it once |
| Database.DerivedNameBar | database.py:958-961 | with a '\|', the new name is the second '\|'-field when non-empty, otherwise the id |
| Database.DerivedNameUnderscore | database.py:962-965 | without '\|' but with '_', the new name is the text after the first '_', later '_' turned into spaces |
| Database.DerivedNameSpace | database.py:966-969 | without '\|' or '_' but with a space, the new name is the text after the first space |
| Database.JoinSplitReplaces | database.py:965 | `' '.join(s.split('_'))` replaces every '_' with a space |
| Database.CountInIsSize | database.py:947-981 | over distinct row ids, the update count is the number of rows renamed |
| Database.RenameRows | database.py:947-985 | the repair loop renames exactly the rows with an empty name or their id as name whose derived name differs, and counts them |
| Database.RenamedAllSettles | database.py:931-1006 | the repair keeps ids and sequence ids, hence uniqueness, and a second run renames nothing |
| Database.HeaderThenLines | database.py:852-868 | a header followed by sequence lines gives the entry keyed by the text before the first space, named by the whole header, holding the stripped lines joined |
| Database.LeadingLinesDropped | database.py:865-868 | lines before the first header are dropped |
| Database.ReadFasta | database.py:847-868 | the reader loop builds the same dictionary as the specification reader |
| Database.LoadEntry | database.py:882-907 | one loader entry: skipped when id or sequence is empty; an existing id gets probability 1.0 and the header as name; a new id is added with probability 1.0 |
| Database.LoadedCount | database.py:874-915 | the count is the number of entries that are not skipped |
| Database.LoadedKeepsRowsOf | database.py:882-907 | rows whose id is not among the file's keys are untouched |
| Database.LoadedRows | database.py:882-907 | after loading, each non-skipped entry is the one row holding its id, with probability 1.0 and the header as name |
| Database.Store.constructor | database.py:66-140 | `create_tables` on an empty database: no bacteriocins, one default vault and one default bag |
| Database.Store.AddBacteriocin | database.py:151-195 | `add_bacteriocin` upserts by sequence id, and the id sequence advances on every attempt |
| Database.Store.RemoveBacteriocin | database.py:356-400 | the row goes, and with it its vault and bag items (ON DELETE CASCADE) |
| Database.Store.CreateContainer | database.py:469-548 | a new vault or bag under the next id of its kind |
| Database.Store.AddTo | database.py:549-642 | the pair is inserted unless present, a repeat still succeeds, and an unknown container or row fails |
| Database.Store.RemoveFrom | database.py:643-734 | the pair is removed; removing an absent pair is reported as not found |
| Database.Store.DeleteContainer | database.py:1008-1081 | the container's items are deleted first, then the container |
| Database.RepairName | database.py:950-981 | one row's repair: the derived name exactly when the name is empty or the id, and the derived name differs |
| Database.RenameTable | database.py:947-985 | the repaired table keeps its row ids and unique sequence ids, and the count is the number of rows that needed a new name |
| Database.Store.UpdateNames | database.py:931-1006 | every row is visited once and renamed as `RenameRows` says, with the count returned |
| Database.Store.LoadEntryInto | database.py:882-907 | one loop step of the loader on the tables |
| Database.Store.LoadReference | database.py:833-929 | the loader reads the file, takes the existing ids first, then loads every entry in dictionary order, returning the count |
| Analysis.EntryOf | analysis.py:131-137 | an item's name defaults to its sequence id |
| Analysis.AdmittedFirstWins | analysis.py:126-151 | a non-empty id becomes a key exactly when a visited item carries it, from the first such item, never twice |
| Analysis.FirstWithTagged | analysis.py:126-151 | every entry made from a fetch carries that fetch's source |
| Analysis.MergedSource | analysis.py:123-153 | vaults are read first: an id in a selected vault is a reference sequence even when a bag holds it, and a candidate only when no selected vault holds it |
| Analysis.AdmittedSkipsEmpty | analysis.py:132 | the empty id never becomes a key |
| Analysis.AddItems | analysis.py:130-137 | the loop over one fetch's items admits them as the specification says |
| Analysis.AddFetched | analysis.py:127-137 | the loop over the selected containers of one kind skips failed fetches and admits the rest in order |
| Analysis.CollectSequences | analysis.py:112-153 | `get_sequences_from_vaults_and_bags` gives the merged dictionary of the vault fetches, then the bag fetches |
| Analysis.UsableOf | analysis.py:377-398 | the kept entries are those at least 5 long whose features extract, in dictionary order |
| Analysis.KeepUsable | analysis.py:377-400 | the loop keeps exactly the usable entries |
| Analysis.PrepareUmap | analysis.py:358-424 | UMAP fails with its two messages on no sequences or no usable ones; otherwise it gets the kept entries, `min(15, n-1)` neighbours and the counts |
| Analysis.CountsPartition | analysis.py:390 | the reference and candidate labels partition the kept sequences |
| Analysis.UmapCounts | analysis.py:858-860 | the reported counts add up to the kept sequences, at most `points`; the neighbourhood size is below the kept count and at most 15 (see also analysis.py:424) |
| Analysis.AlignmentGuard | analysis.py:899 | the alignment refuses fewer than 2 sequences |
| Analysis.PhylogenyGuard | analysis.py:1301 | the tree refuses fewer than 3 sequences |
| Analysis.GuardsNested | analysis.py:1301 | whatever the tree accepts the alignment accepts; exactly two sequences align but make no tree (see also analysis.py:899) |
| Analysis.ShortLabelSettles | analysis.py:1137 | cutting a label twice changes nothing, and no label exceeds 28 characters |
| Analysis.FigureSizeRegimes | analysis.py:1177-1178 | from ten sequences the height grows by 30 each; from 105 columns the width is capped at 1200 |
| Analysis.LeavesPositive | analysis.py:1428-1442 | every clade has at least one leaf |
| Analysis.LayoutKeys | analysis.py:1428-1442 | the layout of a clade only places clades below it |
| Analysis.LeafCount | analysis.py:1428-1442 | `calc_row` returns the number of leaves of the clade |
| Analysis.LeafRows | analysis.py:1434-1436 | the leaves of a clade get consecutive rows from `row`, left to right, at their own depth |
| Analysis.InternalRow | analysis.py:1437-1441 | an internal clade sits at `row` plus half its leaf count, strictly between its first leaf and the row past its last |
| Analysis.PlacedAppend | analysis.py:1439-1440 | the leaves of child `i` follow those of the earlier children |
| Analysis.TreeLayout.CalcRow | analysis.py:1428-1442 | `calc_row` returns the leaf count, adds the clade's layout to `coords` and raises `max_depth` to its deepest clade |
| Analysis.LayOutTree | analysis.py:1420-1444 | `calc_row(tree.root, 0, 0)` on fresh state lays out the whole tree, leaves in rows 0 to n-1 |
| App.AllowedFile | app.py:939-940 | an upload name is accepted exactly when it has a dot and its last extension, lower-cased, is "faa" or "fasta" |
| App.AllowedFileByExtension | app.py:939-940 | a name with an extension is accepted exactly when that extension is "faa" or "fasta" in any case |
| App.NoDotRefused | app.py:939-940 | a name without a dot is refused |
| App.EntrezQueryKeepsQuery | app.py:272-277 | the query comes first, with `[Organism]` or `[Keyword]` for those search types and untouched for any other |
| App.LengthClassesPartition | app.py:299-305 | short, medium and long split the records, each into exactly one class; any other length value keeps everything |
| App.Kept | app.py:293-312 | the kept records are those the length filter admits, in reply order |
| App.Search | app.py:261-317 | an empty query is refused; otherwise the records of the Entrez reply for the built term that pass the length filter |
| App.FormatOne | app.py:371-390 | element `i` gives its header and sequence, `Sequence_{i+1}` for a string, or nothing when the sequence is empty |
| App.FormattedTexts | app.py:374-376 | requests of non-empty strings are numbered `Sequence_1`, `Sequence_2`, ... in order |
| App.FormatSequences | app.py:370-392 | the formatting loop produces the specification's tuples |
| App.HeaderParts | app.py:403-405 | a header is split at its first space into id and name, and a header without space is both |
| App.NameResults | app.py:400-405 | every result gets `sequence_id` and `name` from its header |
| App.TuplesPredict | app.py:396 | a list of tuples never makes `predict` raise, and gives one result per tuple |
| App.PredictRequest | app.py:347-408 | refused when the model is not ready or nothing is sent; otherwise one named result per formatted sequence, in order |
| App.FirstMissing | app.py:503-506 | the validation loop reports the first required field the request lacks |
| App.MissingMessage | app.py:506 | the 400 message names the missing field |
| App.ContainerRequestOf | app.py:916-935 | a request goes to a vault or bag exactly when it has a truthy container id and item id and the type is "vault" or "bag"; otherwise the matching refusal message |
| App.NullContainerRefused | app.py:919-927 | a null container id is always refused, with "No data provided" or "Missing required parameters" |
| App.AnalyzeRoute | app.py:795-896 | no JSON and no selection are refused; otherwise the tool name picks UMAP, alignment, tree or the placeholder |
| App.RoutesNeedSelection | app.py:811-896 | a tool only runs with a selection, and an unknown tool gets the placeholder |
| App.SequenceData | app.py:849-878 | alignment and tree use the sequences sent, or else the `sequence_data` of a UMAP run |
| App.FallbackNeedsUsable | app.py:849-881 | without sent sequences a tree needs three usable sequences in the selection, and an alignment two |
| MainPage.ToggleTwice | static/js/main.js:317-334 | toggling twice restores the members, and selecting then deselecting an unselected index restores the exact list |
| MainPage.ToggleKeepsValid | static/js/main.js:317-334 | a click keeps the list free of repeats and equal to the set of marked buttons |
| MainPage.Download | static/js/main.js:348-359 | nothing without sequences; otherwise the selected sequences in selection order, or all when none is selected |
| MainPage.ValidDownload | static/js/main.js:354-359 | with a consistent selection the download holds one real sequence per marked button and no `undefined` |
| MainPage.SequenceList.Toggle | static/js/main.js:317-334 | deselecting removes every copy of the index and unmarks the button; selecting appends it and marks it; consistency is kept |
| MainPage.SequenceList.DisplaySequences | static/js/main.js:265-300 | new results and unmarked buttons, the old selection kept |
| MainPage.SequenceList.DisplaySequencesReset | static/js/main.js:265-300 | new results with the selection cleared, which keeps the page consistent |
| MainPage.SequenceList.StorePredictions | static/js/main.js:464-471 | `window.currentPredictions` becomes the displayed predictions, and stays as it was when there are none |
| MainPage.SequenceList.ClearResults | static/js/main.js:887-895 | the results, `window.currentPredictions` and the selection are all emptied, and the page stays consistent |
| MainPage.StaleSelection | static/js/main.js:265-300 | after a search of three results with the third selected and a search of one result, the page is inconsistent and the download holds an `undefined` entry |
| MainPage.Filtered | static/js/main.js:558-564 | a prediction is kept exactly when it is in the list and passes the test, order kept |
| MainPage.TypeFiltered | static/js/main.js:558-564 | 'bacteriocin' keeps probability above 0.5, 'non-bacteriocin' at most 0.5, anything else all |
| MainPage.TypeFiltersPartition | static/js/main.js:558-564 | the two type filters split the predictions, each into exactly one of them |
| MainPage.FilteredNarrower | static/js/main.js:597-614 | a second filter whose test implies the first makes the first redundant |
| MainPage.FilteredDisjoint | static/js/main.js:597-614 | two tests no prediction passes together leave nothing |
| MainPage.ThresholdAgainstType | static/js/main.js:597-614 | 'bacteriocin' with threshold at most 0.5, or 'non-bacteriocin' with one above, shows nothing; 'bacteriocin' above 0.5 is the threshold filter alone |
| MainPage.SortByCorrect | static/js/main.js:541-547 | the sort orders by probability in the chosen direction, is a permutation, and keeps the original order among equals |
| MainPage.SortedByNameCorrect | static/js/main.js:570-577 | the active sort button picks the same order as `sortPredictions` |
| MainPage.SortPredictionsCorrect | static/js/main.js:535-550 | nothing is rendered without predictions; otherwise every current prediction once, in the chosen order, the current list unchanged |
| MainPage.FilterByThresholdCorrect | static/js/main.js:583-627 | after a threshold change a card is rendered exactly when its prediction passes the active type filter and the threshold |
| MainPage.AddButtonOfServerResult | static/js/main.js:717 | for a server result the Add button shows from 0.5 up, where the label turns to 'Bacteriocin', while "Add All" takes only probabilities above 0.5 (see also static/js/main.js:651) |
| MainPage.PreviewBounds | static/js/main.js:721-723 | the card preview starts the sequence and never exceeds 53 characters |
| MainPage.TitleOfServerResult | static/js/main.js:726-736 | for a server result the title is the name split off the header, or "undefined" when the name is empty |
| MainPage.FirstWordIsHeaderId | static/js/main.js:671 | `header.split(' ')[0]` is the text before the first space |
| MainPage.PayloadOfServerResult | static/js/main.js:664-675 | the posted id is the header's first word and the posted name the rest, or the whole header |
| MainPage.AllSucceeded | static/js/main.js:686-703 | `addedCount` reaches the number of requests exactly when every request succeeded |
| MainPage.Payloads | static/js/main.js:662-675 | one body per target, in order |
| MainPage.PostAll | static/js/main.js:662-703 | the request loop posts one body per target, counts the successes, disables exactly the added cards, and notifies only when all succeeded |
| MainPage.AddAll | static/js/main.js:650-710 | "Add All" posts one body per prediction above 0.5, counts the successes, disables exactly the added cards, and notifies only when all succeeded |
| MainPage.RowAsWrittenLosesId | static/js/main.js:860-866 | every CSV row as written starts with "undefined", since predictions carry no `id` |
| MainPage.RowKeepsId | static/js/main.js:860-866 | the corrected row starts with the sequence id the server split off the header |
| MainPage.DownloadPredictions | static/js/main.js:851-873 | as written: nothing without predictions; otherwise the header line and one as-written row per prediction, whose id column is `pred.id` (so "undefined") |
| MainPage.DownloadPredictionsCorrected | static/js/main.js:851-873 | the corrected export: the same file with each row's id column taken from `sequence_id` |
| MainPage.BuildCsv | static/js/main.js:858-869 | the loop appends one row (as written or corrected) and a newline per prediction to the header line |
| MainPage.CsvIsLines | static/js/main.js:858-869 | for either row variant, the export is its lines joined by newlines, ending with a newline |
| MainPage.LinesReadBack | static/js/main.js:858-869 | for either row variant, split at newlines the export gives the header, one line per prediction and an empty tail; each line split at commas gives its five columns, for fields free of commas and newlines |
| MainPage.CsvReadsBack | static/js/main.js:858-869 | as written or corrected, the downloaded file reads back into its header and one line per prediction |
| CollectionPage.Preview | static/js/collection.js:287 | the preview is the sequence up to 30 characters, or its first 30 and "..." |
| CollectionPage.PreviewLength | static/js/collection.js:287 | the preview of a sequence longer than 30 is 33 characters whatever its length |
| CollectionPage.ElementOf | static/js/collection.js:253-293 | a rendered item keeps its id and full length and carries the tab "all " plus its type |
| CollectionPage.TabsShow | static/js/collection.js:335-353 | 'all' shows every item, 'reference' exactly those above 0.9 and 'candidate' exactly the others (see also static/js/collection.js:253-258) |
| CollectionPage.BulkButtonsMatchTab | static/js/collection.js:1013-1023 | "add all to vault" shows exactly on tabs that show reference items, and "add all to bag" on those that show candidates |
| CollectionPage.SameLengthHidesItself | static/js/collection.js:951-975 | the same-length button of an item longer than 33 sets the minimum and maximum length to the item's full length; the filter as written then hides that item, and keeps it when the full length is used (see also static/js/collection.js:293 and 417-426) |
| CollectionPage.NoFiltersShowAll | static/js/collection.js:960-984 | with every filter input empty nothing is hidden |
| CollectionPage.TrueCountIsSize | static/js/collection.js:986-991 | the visible count is the number of items displayed |
| CollectionPage.VisibleIds | static/js/collection.js:1048-1062 | every collected id is non-empty and belongs to a displayed item |
| CollectionPage.VisibleIdsComplete | static/js/collection.js:1048-1062 | every displayed item with an id contributes it |
| CollectionPage.CollectionView.constructor | static/js/collection.js:233-293 | one element per item, in order, all displayed |
| CollectionPage.CollectionView.FilterByType | static/js/collection.js:335-368 | exactly the elements whose tab contains the type are displayed; when none is and the empty-state block is absent, the block replaces the list and every element is gone |
| CollectionPage.ReferenceTabThenAll | static/js/collection.js:335-368 | a collection of candidates only, filtered to 'reference' and then to 'all', has no element left and no visible id |
| CollectionPage.CollectionView.ApplyFilters | static/js/collection.js:939-995 | as written: exactly the elements within every set bound are displayed, the length being that of the preview text, and the count is the number displayed |
| CollectionPage.CollectionView.ApplyFiltersCorrected | static/js/collection.js:939-995 | the corrected filter: the same with the length bounds on the full sequence length |
| CollectionPage.CollectionView.Display | static/js/collection.js:946-992 | the loop displays exactly the elements within every bound, by the measure chosen, and counts them |
| CollectionPage.CollectionView.ResetFilters | static/js/collection.js:998-1011 | every element is displayed again |
| CollectionPage.CollectionView.GetVisibleItems | static/js/collection.js:1048-1062 | the loop collects the ids of the displayed elements with a non-empty id, in document order |
| CollectionPage.AddToContainer | static/js/collection.js:1064-1136 | one request body per item, in order; each reply counts as exactly one success or failure, the successes being the replies whose `success` is true |
| CollectionPage.Answers | static/js/collection.js:1103-1121 | one reply per request, in order, each a success exactly when the server dispatches the request and the database adds the item |
| CollectionPage.NullContainerFails | static/js/collection.js:1034-1045 | a request with a null container id never succeeds |
| CollectionPage.ChosenContainerSucceeds | static/js/collection.js:1103-1121 | with a vault or bag, a positive id and a non-empty item id, a request succeeds exactly when the database adds the item |
| CollectionPage.RefusedNeverSucceeds | static/js/collection.js:1026-1045 | with a null container id no request of the list succeeds |
| CollectionPage.AcceptedCount | static/js/collection.js:1074-1132 | when the server dispatches every request, the successes are the items the database adds |
| CollectionPage.NoneTrue | static/js/collection.js:1116-1132 | replies none of which succeeded count no success |
| CollectionPage.ChosenContainerCounts | static/js/collection.js:1074-1132 | with a chosen container the success count is the number of items the database adds |
| CollectionPage.AddAllAsWritten | static/js/collection.js:1026-1045 | "add all" as written sends every visible id and counts every one as failed |
| CollectionPage.AddAll | static/js/collection.js:1026-1045 | "add all" into a chosen container counts as successes exactly the items the database adds |
| CollectionPage.DownloadLosesId | static/js/collection.js:529-539 | as written every download is "null.fasta" with "null" as its FASTA id (see also static/js/collection.js:316 and 392) |
| CollectionPage.DownloadReadsBack | static/js/collection.js:529-539 | the corrected file is "<id>.fasta", and reads back as a header and a sequence line whose header splits into the item's id and name |
| AnalysisPage.ToolReachesItsRoute | static/js/analysis.js:75-90 | with a selection each tool button reaches the server code for that same tool |
| AnalysisPage.RequestBody | static/js/analysis.js:159-164 | the body holds vaults, bags and tool plus the additional keys, and the additional keys win |
| AnalysisPage.PlainRequestBody | static/js/analysis.js:159-164 | without additional data the body holds exactly the two lists and the tool name |
| AnalysisPage.FollowUpsAreTheOthers | static/js/analysis.js:474-481 | after a tool the other two are offered, once each, and never the tool itself |
| AnalysisPage.MetadataOf | static/js/analysis.js:359-364 | a count the reply carries as a number is kept, 0 included; a missing or null count becomes 0 |
| AnalysisPage.AnalysisState.UpdateAnalysisState | static/js/analysis.js:92-115 | the three tool buttons are disabled, and the notice shown, exactly when both lists are empty |
| AnalysisPage.AnalysisState.ChangeCheckbox | static/js/analysis.js:27-47 | a check appends the value to its list, an uncheck removes every equal entry, the other list is untouched, and the controls follow |
| AnalysisPage.AnalysisState.PerformAnalysis | static/js/analysis.js:144-168 | with both lists empty no request is made; otherwise the request body is built from the lists and the tool becomes the active tab |
| AnalysisPage.CheckThenUncheck | static/js/analysis.js:27-47 | an uncheck leaves no copy; check then uncheck of an unlisted value restores the list |
| AnalysisPage.EnabledToolRequests | static/js/analysis.js:97-148 | an enabled tool button always sends a selection, so the server never answers it with its nothing-selected error |

## Left out

- DOM rendering, CSS, modals, notifications, progress bars, tooltips, event wiring and MutationObservers are not modelled. Page state is reduced to the values the rules read.
- `fetch` and every server call made from the pages enter as parameters: each request's outcome is given in order. The concurrent promise ordering of main.js "Add All" (requests started together, counted as they settle) is modelled as one outcome per request in request order.
- Plotly, `localStorage`, the `eval` of plot data and script injection are not modelled.
- NCBI Entrez, Biopython's `SeqIO`, the scikit-learn classifier and scaler, UMAP, SHAP and the alignment and tree builders are not modelled. Where their results matter they are function parameters: `fetch`, the classifier `seq<real> -> real`, `extracts`, the given alignment and tree.
- Training the classifier (`train`) and the model files are not modelled.
- UMAP's numerical output (coordinates, SHAP values, plots) is not modelled. Only its inputs, guards and reported counts are.
- The PostgreSQL connection pool, transactions, timestamps and `RETURNING` columns are not modelled. `probability` is a real rather than NUMERIC(5,4). The ids are a SERIAL counter that advances on every insert attempt, as PostgreSQL's does, including an upsert that updates.
- The collection listing with search and sort (`get_bacteriocin_collection`), and the read-only vault and bag listings, are not modelled; they only read.
- Strings are sequences of characters: `upper()`/`lower()` are modelled for ASCII letters only.
- Text.Strip: strips ASCII whitespace only, where Python's `str.strip()` (the FASTA reader, database.py:851-868) and JavaScript's `trim()` also strip other Unicode whitespace.
- The per-entry `try`/`except` skips of app.py:389-391 and bacpred.py:340-347 are not modelled. Request values are typed strings, so a null or non-string `header` or `sequence` cannot occur, and `extract_features` is total in the model, so no entry is skipped for raising.
- CollectionPage.CollectionView: `noResults` tracks only the collection list's own empty-state block; the `.no-results` blocks of the vault and bag item lists (static/js/collection.js:1338 and 1435), which `document.querySelector` would also find, are not modelled.
- `sorted(dipeptide_counts.keys())` is modelled by the proved-ascending nested-loop order, not by a sort.
- JSON values are modelled as null, booleans, integers and strings. Requests whose body is not a JSON object are not modelled.
- The toFixed/parseFloat round trip of collection probabilities is a parameter `rounded`. The number formatting of CSV probabilities is a parameter `show`.
- Annotator.RenderPreservesText: holds for texts without `<`, `&`, CR or NUL, and for catalog fields without angle brackets. That the twelve catalog entries' long tooltip strings are free of angle brackets is assumed as a precondition, not proved.
- Annotator.HighlightAll: requires the listed containers to be distinct objects, as `querySelectorAll` lists them.
- MainPage.FilterByThresholdCorrect: models `filterPredictions` as written, which reads the threshold (static/js/main.js:566-567) but never applies it. Only `filterByThreshold` combines the type filter with the threshold.
- CollectionPage.CollectionView.ResetFilters: clearing the five filter inputs is not modelled, because the filters are parameters of `ApplyFilters`, not state.
- AnalysisPage.AnalysisState.constructor: the template's initial state of the tool buttons and notice is not among the source files, so it is a parameter.
- The analysis page's tabs (static/js/analysis.js:50-71) run `performAnalysis` like the tool buttons. Their tab switching and tool descriptions are not modelled.
- The `timestamp` of the stored UMAP metadata is not modelled, since it comes from the clock.
- The placeholder text "Ready to analyze ..." and the showing of the results panel in `updateAnalysisState`, and the error texts of `performAnalysis`, are not modelled.

## Findings

| source | as written | input that shows it | evidently intended | confidence | as-written member | corrected member |
|---|---|---|---|---|---|---|
| static/js/collection.js:1026-1045 | "Add all to vault/bag" posts every visible item with `container_id` null, which `add_to_container` (app.py:926-927) refuses | any non-empty visible list: every request fails, 0 added | post the id of a vault or bag the user picks | high, not executed | CollectionPage.AddAllAsWritten | CollectionPage.AddAll |
| static/js/collection.js:950-975 | the length filters measure the preview text (at most 33 characters) while the same-length button carries the full length | an item of 45 residues whose same-length button (417-426) sets min-length and max-length to 45 is hidden by that button | measure the full sequence length | high, not executed | CollectionPage.VisibleAsWritten | CollectionPage.Visible |
| static/js/collection.js:529-539 | the download handler (wired at line 392) reads `data-sequence-id`, which the button (316) does not carry | any item: the file is "null.fasta" with header ">null name" | use the item's sequence id | high, not executed | CollectionPage.DownloadAsWritten | CollectionPage.Download |
| static/js/main.js:860-866 | the CSV id column is `pred.id`, which the server's results (app.py:403-405) never set | any prediction: its row starts with "undefined" | use `sequence_id` | high, not executed | MainPage.RowAsWritten | MainPage.Row |
| static/js/main.js:265-300 | a new search keeps `selectedSequences` from the previous one, unlike `clearResults` (895) | select result 3 of 3, then search with 1 result: download asks for an absent index | clear the selection with the new results | medium, not executed | MainPage.SequenceList.DisplaySequences | MainPage.SequenceList.DisplaySequencesReset |
