/**
 * The request rules of the Flask application in app.py: which uploads are
 * accepted, how a search query and its length filter are built, how the
 * sequences of a prediction request are formatted and the results named,
 * and how `add_to_collection`, `api_analyze` and `add_to_container`
 * validate and route their requests. Routing, NCBI Entrez, file storage
 * and the database calls are not part of this model; what they return
 * enters as parameters.
 */
module App {
  import opened Text
  import BacPredict
  import Database
  import Analysis

  // ---------------------------------------------------------------------
  // Uploads
  // ---------------------------------------------------------------------

  /** `allowed_file`: the extension after the last dot, lower-cased, is "faa" or "fasta". */
  function AllowedFile(filename: string): (r: bool)
    ensures r ==> '.' in filename
  {
    match LastIndexOf(filename, '.')
    case None => false
    case Some(k) => Lower(filename[k + 1..]) in {"faa", "fasta"}
  }

  /** A name with an extension is accepted exactly when that extension is "faa" or "fasta" in any case. */
  lemma AllowedFileByExtension(stem: string, ext: string)
    requires '.' !in ext
    ensures AllowedFile(stem + "." + ext) <==> Lower(ext) == "faa" || Lower(ext) == "fasta"
  {
    var name := stem + "." + ext;
    var k := LastIndexOf(name, '.').value;
    assert name[|stem|] == '.';
    assert name[|stem| + 1..] == ext;
  }

  /** A name without a dot is refused. */
  lemma NoDotRefused(filename: string)
    requires '.' !in filename
    ensures !AllowedFile(filename)
  {
  }

  // ---------------------------------------------------------------------
  // Search
  // ---------------------------------------------------------------------

  /** The Entrez term for a query: a field tag for species and keyword searches. */
  function EntrezQuery(query: string, searchType: string): (r: string)
    ensures searchType == "species" ==> r == query + "[Organism]"
    ensures searchType == "keywords" ==> r == query + "[Keyword]"
  {
    if searchType == "species" then query + "[Organism]"
    else if searchType == "keywords" then query + "[Keyword]"
    else query
  }

  /** The query always comes first, and it is sent untouched for every other search type. */
  lemma EntrezQueryKeepsQuery(query: string, searchType: string)
    ensures EntrezQuery(query, searchType)[..|query|] == query
    ensures EntrezQuery(query, searchType) == query <==> searchType != "species" && searchType != "keywords"
  {
    var r := EntrezQuery(query, searchType);
    assert |r| > |query| ==> r != query;
  }

  /** The `include` flag of the length filter for a record of `length` residues. */
  function Included(seqLength: string, length: nat): bool
  {
    if seqLength == "short" then length < 100
    else if seqLength == "medium" then 100 <= length <= 300
    else if seqLength == "long" then length > 300
    else true
  }

  /**
   * The three named lengths split the records: each record is short,
   * medium or long and only one of them; any other value keeps everything.
   */
  lemma LengthClassesPartition(length: nat, other: string)
    requires other != "short" && other != "medium" && other != "long"
    ensures Included("short", length) || Included("medium", length) || Included("long", length)
    ensures !(Included("short", length) && Included("medium", length))
    ensures !(Included("medium", length) && Included("long", length))
    ensures !(Included("short", length) && Included("long", length))
    ensures Included(other, length)
  {
  }

  /** A parsed record of the Entrez reply: `record.id`, `record.description` and the residues. */
  datatype Record = Record(id: string, description: string, sequence: string)

  /** The records a search returns, in reply order. */
  function Kept(records: seq<Record>, seqLength: string): (r: seq<Record>)
    ensures |r| <= |records|
    ensures forall k :: 0 <= k < |r| ==> r[k] in records && Included(seqLength, |r[k].sequence|)
    ensures forall k :: 0 <= k < |records| && Included(seqLength, |records[k].sequence|) ==> records[k] in r
  {
    if |records| == 0 then []
    else
      var last := records[|records| - 1];
      Kept(records[..|records| - 1], seqLength) + if Included(seqLength, |last.sequence|) then [last] else []
  }

  datatype SearchResponse = QueryRequired | Sequences(records: seq<Record>)

  /**
   * `search_sequences`, given `fetch`, what Entrez returns for a term (an
   * empty id list gives no records).
   */
  method Search(query: string, searchType: string, seqLength: string, fetch: string -> seq<Record>)
    returns (r: SearchResponse)
    ensures query == "" <==> r == QueryRequired
    ensures query != "" ==> r == Sequences(Kept(fetch(EntrezQuery(query, searchType)), seqLength))
  {
    if query == "" {
      return QueryRequired;
    }
    var records := fetch(EntrezQuery(query, searchType));
    var sequences: seq<Record> := [];
    for i := 0 to |records|
      invariant sequences == Kept(records[..i], seqLength)
    {
      assert records[..i + 1][..i] == records[..i];
      var seqLen := |records[i].sequence|;
      var included := true;
      if seqLength == "short" && seqLen >= 100 {
        included := false;
      } else if seqLength == "medium" && (seqLen < 100 || seqLen > 300) {
        included := false;
      } else if seqLength == "long" && seqLen <= 300 {
        included := false;
      }
      if included {
        sequences := sequences + [records[i]];
      }
    }
    assert records[..|records|] == records;
    r := Sequences(sequences);
  }

  // ---------------------------------------------------------------------
  // Prediction requests
  // ---------------------------------------------------------------------

  /** An element of the request's `sequences`: a bare string or an object with string fields. */
  datatype Submitted = Text(s: string) | Fields(fields: map<string, string>)

  /** The (header, sequence) pair for element `i`, or nothing when its sequence is empty. */
  function FormatOne(i: nat, item: Submitted): (r: Option<(string, string)>)
    ensures r.Some? ==> r.value.1 != ""
    ensures item.Text? ==> r == if item.s == "" then None else Some((BacPredict.SequenceName(i), item.s))
  {
    match item
    case Text(s) => if s == "" then None else Some((BacPredict.SequenceName(i), s))
    case Fields(m) =>
      var header := if "header" in m then m["header"] else if "description" in m then m["description"] else BacPredict.SequenceName(i);
      var given := if "sequence" in m then m["sequence"] else "";
      var sequence := if given == "" && "content" in m then m["content"] else given;
      if sequence == "" then None else Some((header, sequence))
  }

  /** `seq_tuples` for the first elements of the request. */
  function Formatted(items: seq<Submitted>): (r: seq<(string, string)>)
    ensures |r| <= |items|
    ensures forall k :: 0 <= k < |r| ==> r[k].1 != ""
  {
    if |items| == 0 then []
    else
      var n := |items| - 1;
      Formatted(items[..n]) + match FormatOne(n, items[n]) case Some(t) => [t] case None => []
  }

  /** Requests of non-empty strings are numbered `Sequence_1`, `Sequence_2`, ... in request order. */
  lemma {:induction false} FormattedTexts(items: seq<Submitted>)
    requires forall k :: 0 <= k < |items| ==> items[k].Text? && items[k].s != ""
    ensures |Formatted(items)| == |items|
    ensures forall k :: 0 <= k < |items| ==> Formatted(items)[k] == (BacPredict.SequenceName(k), items[k].s)
    decreases |items|
  {
    if |items| > 0 {
      var n := |items| - 1;
      FormattedTexts(items[..n]);
      assert Formatted(items) == Formatted(items[..n]) + [(BacPredict.SequenceName(n), items[n].s)];
    }
  }

  /** The formatting loop of `predict_bacteriocin`. */
  method FormatSequences(items: seq<Submitted>) returns (tuples: seq<(string, string)>)
    ensures tuples == Formatted(items)
  {
    tuples := [];
    for i := 0 to |items|
      invariant tuples == Formatted(items[..i])
    {
      assert items[..i + 1][..i] == items[..i];
      var header: string;
      var sequence: string;
      match items[i] {
        case Text(s) =>
          header := BacPredict.SequenceName(i);
          sequence := s;
        case Fields(m) =>
          header := if "header" in m then m["header"] else if "description" in m then m["description"] else BacPredict.SequenceName(i);
          sequence := if "sequence" in m then m["sequence"] else "";
          if sequence == "" && "content" in m {
            sequence := m["content"];
          }
      }
      if sequence != "" {
        tuples := tuples + [(header, sequence)];
      }
    }
    assert items[..|items|] == items;
  }

  /**
   * The id and name a result header is split into at its first space; a
   * header without a space is both.
   */
  function HeaderParts(header: string): (r: (string, string))
    ensures ' ' !in header ==> r == (header, header)
    ensures ' ' in header ==> header == r.0 + " " + r.1 && ' ' !in r.0
  {
    match SplitOnce(header, ' ')
    case None => (header, header)
    case Some(parts) => parts
  }

  /** A prediction result with the `sequence_id` and `name` keys added. */
  datatype Named = Named(result: BacPredict.PredictionResult, sequenceId: string, name: string)

  /** The loop that adds the two keys to every result. */
  method NameResults(results: seq<BacPredict.PredictionResult>) returns (named: seq<Named>)
    ensures |named| == |results|
    ensures forall k :: 0 <= k < |results| ==>
      named[k] == Named(results[k], HeaderParts(results[k].header).0, HeaderParts(results[k].header).1)
  {
    named := [];
    for i := 0 to |results|
      invariant |named| == i
      invariant forall k :: 0 <= k < i ==>
        named[k] == Named(results[k], HeaderParts(results[k].header).0, HeaderParts(results[k].header).1)
    {
      var parts := HeaderParts(results[i].header);
      named := named + [Named(results[i], parts.0, parts.1)];
    }
  }

  /** The (header, sequence) tuples as the list handed to `predict`. */
  function Pairs(tuples: seq<(string, string)>): (r: seq<BacPredict.Item>)
    ensures |r| == |tuples| && forall k :: 0 <= k < |r| ==> r[k] == BacPredict.Pair(tuples[k].0, tuples[k].1)
  {
    seq(|tuples|, k requires 0 <= k < |tuples| => BacPredict.Pair(tuples[k].0, tuples[k].1))
  }

  /** A list of tuples never makes `predict` raise, and gives one result per tuple. */
  lemma TuplesPredict(tuples: seq<(string, string)>, parseFasta: string -> seq<(string, string)>, model: seq<real> -> real)
    ensures BacPredict.PredictOutcome(BacPredict.ListInput(Pairs(tuples)), parseFasta, model) ==
      BacPredict.Ok(BacPredict.Results(tuples, model))
  {
    var items := Pairs(tuples);
    if |tuples| == 0 {
      assert BacPredict.AllStrings(items);
    } else {
      BacPredict.PairListKept(items, parseFasta);
      var unpacked := BacPredict.UnpackAll(BacPredict.Normalise(BacPredict.ListInput(items), parseFasta).value);
      assert unpacked.value == tuples;
    }
  }

  datatype PredictResponse = NotReady | NoSequences | Predictions(named: seq<Named>) | PredictError

  /**
   * `predict_bacteriocin`: refused while the model is not ready or when no
   * sequences are sent; otherwise one named result per formatted sequence,
   * in request order.
   */
  method PredictRequest(ready: bool, sequences: seq<Submitted>, parseFasta: string -> seq<(string, string)>,
                        model: seq<real> -> real) returns (r: PredictResponse)
    ensures !ready ==> r == NotReady
    ensures ready && |sequences| == 0 ==> r == NoSequences
    ensures ready && |sequences| > 0 ==> r.Predictions? && |r.named| == |Formatted(sequences)|
    ensures r.Predictions? ==> forall k :: 0 <= k < |r.named| ==>
      var t := Formatted(sequences)[k];
      r.named[k] == Named(BacPredict.ResultFor(t.0, t.1, model), HeaderParts(t.0).0, HeaderParts(t.0).1)
  {
    if !ready {
      return NotReady;
    }
    if |sequences| == 0 {
      return NoSequences;
    }
    var tuples := FormatSequences(sequences);
    var outcome := BacPredict.Predict(BacPredict.ListInput(Pairs(tuples)), parseFasta, model);
    TuplesPredict(tuples, parseFasta, model);
    var named := NameResults(outcome.value);
    r := Predictions(named);
  }

  // ---------------------------------------------------------------------
  // Collection and container requests
  // ---------------------------------------------------------------------

  /** The fields `add_to_collection` requires, in the order it checks them. */
  const RequiredFields: seq<string> := ["sequence_id", "name", "sequence", "probability"]

  /** The validation loop of `add_to_collection`: the first required key the request lacks. */
  method FirstMissing(keys: set<string>) returns (missing: Option<string>)
    ensures missing.None? <==> forall k :: 0 <= k < |RequiredFields| ==> RequiredFields[k] in keys
    ensures missing.Some? ==> exists k :: (0 <= k < |RequiredFields| && missing.value == RequiredFields[k] &&
      missing.value !in keys && forall j :: 0 <= j < k ==> RequiredFields[j] in keys)
  {
    for i := 0 to |RequiredFields|
      invariant forall j :: 0 <= j < i ==> RequiredFields[j] in keys
    {
      if RequiredFields[i] !in keys {
        return Some(RequiredFields[i]);
      }
    }
    return None;
  }

  /** The message of the 400 reply for a missing field. */
  function MissingMessage(field: string): (r: string)
    ensures StartsWith(r, "Missing required field: ") && r[24..] == field
  {
    "Missing required field: " + field
  }

  /** A JSON value of a request. */
  datatype Value = Null | Bool(b: bool) | Num(n: int) | Str(s: string)

  /** Python's truth value of a decoded JSON scalar. */
  predicate Truthy(v: Value)
  {
    match v
    case Null => false
    case Bool(b) => b
    case Num(n) => n != 0
    case Str(s) => s != ""
  }

  /** `str()` of a decoded JSON scalar, as the f-string shows it. */
  function Show(v: Value): string
  {
    match v
    case Null => "None"
    case Bool(b) => if b then "True" else "False"
    case Num(n) => if n < 0 then "-" + NatToString(-n) else NatToString(n)
    case Str(s) => s
  }

  /** `data.get(key)`. */
  function Field(data: map<string, Value>, key: string): Value
  {
    if key in data then data[key] else Null
  }

  datatype ContainerRequest = Rejected(message: string) | AddTo(kind: Database.Kind, containerId: Value, itemId: Value)

  /** `add_to_container`: the validation and the dispatch to `add_to_vault` or `add_to_bag`. */
  function ContainerRequestOf(data: Option<map<string, Value>>): (r: ContainerRequest)
    ensures r.AddTo? <==>
      data.Some? && Truthy(Field(data.value, "container_id")) && Truthy(Field(data.value, "item_id")) &&
      Field(data.value, "container_type") in {Str("vault"), Str("bag")}
    ensures r.AddTo? ==>
      r.containerId == Field(data.value, "container_id") && r.itemId == Field(data.value, "item_id") &&
      (r.kind == Database.Vault <==> Field(data.value, "container_type") == Str("vault"))
    ensures (r.Rejected? && data.Some? && |data.value| > 0 &&
      Truthy(Field(data.value, "container_type")) && Truthy(Field(data.value, "container_id")) && Truthy(Field(data.value, "item_id"))) ==>
      r.message == "Unknown container type: " + Show(Field(data.value, "container_type"))
  {
    if data.None? || |data.value| == 0 then Rejected("No data provided")
    else
      var containerType := Field(data.value, "container_type");
      var containerId := Field(data.value, "container_id");
      var itemId := Field(data.value, "item_id");
      if !Truthy(containerType) || !Truthy(containerId) || !Truthy(itemId) then Rejected("Missing required parameters")
      else if containerType == Str("vault") then AddTo(Database.Vault, containerId, itemId)
      else if containerType == Str("bag") then AddTo(Database.Bag, containerId, itemId)
      else Rejected("Unknown container type: " + Show(containerType))
  }

  /** A request whose container id is null is refused whatever else it holds. */
  lemma NullContainerRefused(data: map<string, Value>)
    requires Field(data, "container_id") == Null
    ensures ContainerRequestOf(Some(data)) == Rejected(if |data| == 0 then "No data provided" else "Missing required parameters")
  {
  }

  // ---------------------------------------------------------------------
  // Analysis requests
  // ---------------------------------------------------------------------

  datatype Route = NoJson | NothingSelected | RunUmap | RunMsa | RunPhylogeny | Placeholder

  /** How `api_analyze` routes a request. */
  function AnalyzeRoute(hasJson: bool, vaults: seq<int>, bags: seq<int>, tool: string): (r: Route)
    ensures r == NoJson <==> !hasJson
    ensures r == NothingSelected <==> hasJson && |vaults| == 0 && |bags| == 0
  {
    if !hasJson then NoJson
    else if |vaults| == 0 && |bags| == 0 then NothingSelected
    else if tool == "umap" then RunUmap
    else if tool == "msa" then RunMsa
    else if tool == "phylogeny" then RunPhylogeny
    else Placeholder
  }

  /** A tool only runs with a selection, and a tool it does not know gets the placeholder reply. */
  lemma RoutesNeedSelection(vaults: seq<int>, bags: seq<int>, tool: string)
    ensures AnalyzeRoute(true, vaults, bags, tool) in {RunUmap, RunMsa, RunPhylogeny, Placeholder} <==> |vaults| > 0 || |bags| > 0
    ensures |vaults| + |bags| > 0 && tool !in {"umap", "msa", "phylogeny"} ==> AnalyzeRoute(true, vaults, bags, tool) == Placeholder
  {
  }

  /**
   * The sequences handed to alignment or phylogeny: those sent with the
   * request, or else the `sequence_data` of a UMAP run over the selection
   * (`merged`), which is empty when UMAP fails; `umapRuns` says whether
   * the numerical part of that run completes.
   */
  method SequenceData(requestData: seq<Analysis.Entry>, merged: seq<Analysis.Entry>, extracts: string -> bool, umapRuns: bool)
    returns (data: seq<Analysis.Entry>)
    ensures data == if |requestData| > 0 then requestData
                    else if umapRuns then Analysis.UsableOf(merged, extracts) else []
  {
    data := requestData;
    if |data| == 0 {
      var prepared := Analysis.PrepareUmap(merged, extracts);
      if prepared.UmapInput? && umapRuns {
        data := prepared.kept;
      } else {
        data := [];
      }
    }
  }

  /**
   * Without sequences in the request, a tree is only built when at least
   * three sequences of the selection are usable by UMAP, and an alignment
   * when at least two are.
   */
  lemma FallbackNeedsUsable(merged: seq<Analysis.Entry>, extracts: string -> bool, umapRuns: bool, data: seq<Analysis.Entry>)
    requires data == if umapRuns then Analysis.UsableOf(merged, extracts) else []
    ensures Analysis.PhylogenyGuard(data).Proceeds? ==> |Analysis.UsableOf(merged, extracts)| >= 3
    ensures Analysis.AlignmentGuard(data).Proceeds? ==> |Analysis.UsableOf(merged, extracts)| >= 2
  {
  }
}
