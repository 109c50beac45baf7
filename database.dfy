/**
 * The collection tables of database.py and what the functions that change
 * them do: the upsert of `add_bacteriocin`, vault and bag membership, the
 * deletions with their cascades, the reference FASTA loader and the name
 * repair of `update_bacteriocin_names`. The PostgreSQL tables are maps and
 * sets held by a `Store` object; connections, timestamps and searching are
 * not part of this model.
 */
module Database {
  import opened Text

  // ---------------------------------------------------------------------
  // Rows
  // ---------------------------------------------------------------------

  /** A row of `bacteriocin_collection`, without its id and timestamp. */
  datatype Bacteriocin = Bacteriocin(sequenceId: string, name: string, sequence: string, probability: real)

  /** The two kinds of container, each with its own table and its own item table. */
  datatype Kind = Vault | Bag

  /** A row of `vaults` or `bags`, without its id and timestamp. */
  datatype Container = Container(name: string, description: string)

  /**
   * The result dictionaries: `success` True with a message, `success` False
   * with a message, or the "Database error: ..." failure whose detail is
   * the server's own text.
   */
  datatype Response = Succeeded(message: string) | Failed(message: string) | DatabaseError

  /** The word the messages use for a kind, and its capitalised form. */
  function KindWord(kind: Kind): string
  {
    match kind
    case Vault => "vault"
    case Bag => "bag"
  }

  function KindTitle(kind: Kind): string
  {
    match kind
    case Vault => "Vault"
    case Bag => "Bag"
  }

  /** The `UNIQUE(sequence_id)` constraint. */
  ghost predicate Unique(m: map<nat, Bacteriocin>)
  {
    forall i, j :: i in m && j in m && m[i].sequenceId == m[j].sequenceId ==> i == j
  }

  ghost predicate HasSequenceId(m: map<nat, Bacteriocin>, sequenceId: string)
  {
    exists i :: i in m && m[i].sequenceId == sequenceId
  }

  /** The ids of the rows holding `sequenceId`. */
  ghost function IdsOf(m: map<nat, Bacteriocin>, sequenceId: string): set<nat>
  {
    set i | i in m && m[i].sequenceId == sequenceId
  }

  /** The row id holding `sequenceId`, which the constraint makes unique. */
  ghost function IdOf(m: map<nat, Bacteriocin>, sequenceId: string): (i: nat)
    requires Unique(m) && HasSequenceId(m, sequenceId)
    ensures i in m && m[i].sequenceId == sequenceId
    ensures forall j :: j in m && m[j].sequenceId == sequenceId ==> j == i
  {
    var i :| i in m && m[i].sequenceId == sequenceId; i
  }

  /**
   * `INSERT ... ON CONFLICT (sequence_id) DO UPDATE`: the row holding the
   * same sequence id is overwritten, otherwise a row is added under the
   * next serial id.
   */
  ghost function Upserted(m: map<nat, Bacteriocin>, serial: nat, b: Bacteriocin): map<nat, Bacteriocin>
    requires Unique(m)
  {
    if HasSequenceId(m, b.sequenceId) then m[IdOf(m, b.sequenceId) := b] else m[serial := b]
  }

  /** An upsert keeps the sequence ids unique: it never creates a duplicate. */
  lemma UpsertedUnique(m: map<nat, Bacteriocin>, serial: nat, b: Bacteriocin)
    requires Unique(m) && forall i :: i in m ==> i < serial
    ensures Unique(Upserted(m, serial, b))
  {
    var r := Upserted(m, serial, b);
    forall i, j | i in r && j in r && r[i].sequenceId == r[j].sequenceId
      ensures i == j
    {
      if HasSequenceId(m, b.sequenceId) {
        var k := IdOf(m, b.sequenceId);
        assert i == k || r[i] == m[i];
        assert j == k || r[j] == m[j];
      } else {
        assert i == serial || r[i] == m[i];
        assert j == serial || r[j] == m[j];
      }
    }
  }

  /** After an upsert exactly one row holds the sequence id, with the new values. */
  lemma UpsertedHoldsRow(m: map<nat, Bacteriocin>, serial: nat, b: Bacteriocin)
    requires Unique(m) && forall i :: i in m ==> i < serial
    ensures exists i :: IdsOf(Upserted(m, serial, b), b.sequenceId) == {i} && Upserted(m, serial, b)[i] == b
  {
    var r := Upserted(m, serial, b);
    var i := if HasSequenceId(m, b.sequenceId) then IdOf(m, b.sequenceId) else serial;
    UpsertedUnique(m, serial, b);
    assert IdsOf(r, b.sequenceId) == {i};
  }

  /**
   * An upsert removes no row and changes no row holding another sequence
   * id; it adds a row exactly when the sequence id was new.
   */
  lemma UpsertedKeepsOthers(m: map<nat, Bacteriocin>, serial: nat, b: Bacteriocin)
    requires Unique(m) && forall i :: i in m ==> i < serial
    ensures m.Keys <= Upserted(m, serial, b).Keys
    ensures forall i :: i in m && m[i].sequenceId != b.sequenceId ==> Upserted(m, serial, b)[i] == m[i]
    ensures |Upserted(m, serial, b)| == |m| + (if HasSequenceId(m, b.sequenceId) then 0 else 1)
  {
    if HasSequenceId(m, b.sequenceId) {
      var k := IdOf(m, b.sequenceId);
      assert Upserted(m, serial, b) == m[k := b];
    } else {
      assert Upserted(m, serial, b) == m[serial := b];
    }
  }

  lemma UpsertedAt(m: map<nat, Bacteriocin>, serial: nat, b: Bacteriocin, id: nat)
    requires Unique(m) && forall i :: i in m ==> i < serial
    requires id == if HasSequenceId(m, b.sequenceId) then IdOf(m, b.sequenceId) else serial
    ensures Upserted(m, serial, b) == m[id := b] && Unique(m[id := b])
  {
    UpsertedUnique(m, serial, b);
  }

  /** Adding the same row twice leaves the table as adding it once. */
  lemma UpsertedTwice(m: map<nat, Bacteriocin>, serial: nat, b: Bacteriocin)
    requires Unique(m) && forall i :: i in m ==> i < serial
    ensures Unique(Upserted(m, serial, b))
    ensures Upserted(Upserted(m, serial, b), serial + 1, b) == Upserted(m, serial, b)
  {
    UpsertedUnique(m, serial, b);
    var r := Upserted(m, serial, b);
    assert HasSequenceId(r, b.sequenceId) by {
      if HasSequenceId(m, b.sequenceId) {
        assert r[IdOf(m, b.sequenceId)] == b;
      } else {
        assert r[serial] == b;
      }
    }
  }

  // ---------------------------------------------------------------------
  // Name repair (`update_bacteriocin_names`)
  // ---------------------------------------------------------------------

  /** The name derived from a sequence id. */
  function DerivedName(sequenceId: string): string
  {
    if '|' in sequenceId then
      var parts := Split(sequenceId, '|');
      if |parts| > 1 && parts[1] != "" then parts[1] else sequenceId
    else if '_' in sequenceId then
      var parts := Split(sequenceId, '_');
      if |parts| > 1 then Join(parts[1..], " ") else sequenceId
    else if ' ' in sequenceId then
      match SplitOnce(sequenceId, ' ')
      case Some((_, rest)) => rest
      case None => sequenceId
    else sequenceId
  }

  /** With a '|', the name is the second '|'-field when that is non-empty, otherwise the id. */
  lemma DerivedNameBar(before: string, field: string, tail: string)
    requires '|' !in before && '|' !in field
    requires tail == [] || tail[0] == '|'
    ensures DerivedName(before + "|" + field + tail) == if field != "" then field else before + "|" + field + tail
  {
    var id := before + ['|'] + (field + tail);
    assert before + "|" + field + tail == id;
    assert id[|before|] == '|';
    SecondField(before, field, tail, '|');
  }

  /** The second piece of a split is the text between the first separator and the next one (or the end). */
  lemma SecondField(before: string, field: string, tail: string, sep: char)
    requires sep !in before && sep !in field
    requires tail == [] || tail[0] == sep
    ensures |Split(before + [sep] + (field + tail), sep)| > 1
    ensures Split(before + [sep] + (field + tail), sep)[1] == field
  {
    SplitOnceAt(before, sep, field + tail);
    assert Split(before + [sep] + (field + tail), sep) == [before] + Split(field + tail, sep);
    if tail == [] {
      assert field + tail == field;
    } else {
      SeparatorFirst(field, tail, sep);
      SplitOnceAt(field, sep, tail[1..]);
    }
  }

  lemma SeparatorFirst(field: string, tail: string, sep: char)
    requires |tail| > 0 && tail[0] == sep
    ensures field + tail == field + [sep] + tail[1..]
  {
    assert tail == [sep] + tail[1..];
  }

  /**
   * Without '|' but with '_', the name is everything after the first '_',
   * with the later '_' turned into spaces.
   */
  lemma DerivedNameUnderscore(before: string, rest: string)
    requires '|' !in before && '|' !in rest && '_' !in before
    ensures DerivedName(before + "_" + rest) == ReplaceChar(rest, '_', ' ')
  {
    var id := before + "_" + rest;
    assert id[|before|] == '_';
    assert '|' !in id by {
      assert id == before + "_" + rest;
    }
    SplitOnceAt(before, '_', rest);
    JoinSplitReplaces(rest);
  }

  /** Without '|' or '_' but with a space, the name is everything after the first space. */
  lemma DerivedNameSpace(before: string, rest: string)
    requires '|' !in before + rest && '_' !in before + rest && ' ' !in before
    ensures DerivedName(before + " " + rest) == rest
  {
    var id := before + " " + rest;
    assert id[|before|] == ' ';
    assert '|' !in id && '_' !in id by {
      assert id == before + [' '] + rest;
    }
    SplitOnceAt(before, ' ', rest);
  }

  /** Splitting at the first separator of `before + [sep] + after`. */
  lemma SplitOnceAt(before: string, sep: char, after: string)
    requires sep !in before
    ensures SplitOnce(before + [sep] + after, sep) == Some((before, after))
  {
    var s := before + [sep] + after;
    assert s[|before|] == sep;
    assert s[..|before|] == before;
    var k := IndexOf(s, sep).value;
    assert k == |before|;
    assert s[k + 1..] == after;
  }

  /** `' '.join(s.split('_'))` turns every '_' of `s` into a space. */
  lemma {:induction false} JoinSplitReplaces(s: string)
    ensures Join(Split(s, '_'), " ") == ReplaceChar(s, '_', ' ')
    decreases |s|
  {
    match SplitOnce(s, '_')
    case None =>
      assert Split(s, '_') == [s];
      SameElements(s, ReplaceChar(s, '_', ' '));
    case Some((before, after)) =>
      JoinSplitReplaces(after);
      var parts := Split(s, '_');
      assert parts == [before] + Split(after, '_');
      var joined := before + " " + Join(Split(after, '_'), " ");
      assert Join(parts, " ") == joined;
      SameElements(joined, ReplaceChar(s, '_', ' '));
  }

  lemma SameElements(a: string, b: string)
    requires |a| == |b| && forall k :: 0 <= k < |a| ==> a[k] == b[k]
    ensures a == b
  {
  }

  /** A row is renamed when its name is empty or the id itself, and the derived name differs. */
  predicate NeedsRename(b: Bacteriocin)
  {
    (b.name == "" || b.name == b.sequenceId) && DerivedName(b.sequenceId) != b.name
  }

  function Renamed(b: Bacteriocin): (r: Bacteriocin)
    ensures r.sequenceId == b.sequenceId && r.sequence == b.sequence && r.probability == b.probability
    ensures b.name != "" && b.name != b.sequenceId ==> r == b
    ensures !NeedsRename(r)
  {
    if NeedsRename(b) then b.(name := DerivedName(b.sequenceId)) else b
  }

  ghost function RenamedAll(m: map<nat, Bacteriocin>): map<nat, Bacteriocin>
  {
    map i | i in m :: Renamed(m[i])
  }

  ghost function RenamedIds(m: map<nat, Bacteriocin>): set<nat>
  {
    set i | i in m && NeedsRename(m[i])
  }

  /** How many of `ids` lie in `marked`. */
  function CountIn(ids: seq<nat>, marked: set<nat>): nat
  {
    if |ids| == 0 then 0
    else CountIn(ids[..|ids| - 1], marked) + if ids[|ids| - 1] in marked then 1 else 0
  }

  /** The members of `ids` that lie in `marked`. */
  function MarkedIn(ids: seq<nat>, marked: set<nat>): set<nat>
  {
    set i | i in ids && i in marked
  }

  /** Over distinct ids, the count is the size of the marked part of `ids`. */
  lemma {:induction false} CountInIsSize(ids: seq<nat>, marked: set<nat>)
    requires forall a, b :: 0 <= a < b < |ids| ==> ids[a] != ids[b]
    ensures CountIn(ids, marked) == |MarkedIn(ids, marked)|
    decreases |ids|
  {
    if |ids| > 0 {
      var n := |ids| - 1;
      var last := ids[n];
      var init := ids[..n];
      CountInIsSize(init, marked);
      assert CountIn(ids, marked) == CountIn(init, marked) + if last in marked then 1 else 0;
      assert ids == init + [last];
      assert last !in init;
      if last in marked {
        assert MarkedIn(ids, marked) == MarkedIn(init, marked) + {last};
      } else {
        assert MarkedIn(ids, marked) == MarkedIn(init, marked);
      }
    }
  }

  /** One row of the repair loop: the prefix of handled rows grows by one. */
  lemma RenameStep(rows: map<nat, Bacteriocin>, ids: seq<nat>, n: nat, prev: map<nat, Bacteriocin>, next: map<nat, Bacteriocin>)
    requires n < |ids| && ids[n] in rows && ids[n] !in ids[..n] && prev.Keys == rows.Keys
    requires forall i :: i in rows ==> prev[i] == if i in ids[..n] then Renamed(rows[i]) else rows[i]
    requires next == prev[ids[n] := Renamed(rows[ids[n]])]
    ensures next.Keys == rows.Keys
    ensures forall i :: i in rows ==> next[i] == if i in ids[..n + 1] then Renamed(rows[i]) else rows[i]
  {
    assert ids[..n + 1] == ids[..n] + [ids[n]];
  }

  /** One element more on the counted prefix. */
  lemma CountInStep(ids: seq<nat>, n: nat, marked: set<nat>)
    requires n < |ids|
    ensures CountIn(ids[..n + 1], marked) == CountIn(ids[..n], marked) + if ids[n] in marked then 1 else 0
  {
    assert ids[..n + 1][..n] == ids[..n];
  }

  /** The repair of one row: the row as it is to be stored, and whether its name changes. */
  method RepairName(row: Bacteriocin) returns (fixed: Bacteriocin, changed: bool)
    ensures fixed == Renamed(row) && changed == NeedsRename(row)
  {
    fixed, changed := row, false;
    if row.name == "" || row.name == row.sequenceId {
      var newName := DerivedName(row.sequenceId);
      if newName != row.name {
        fixed, changed := row.(name := newName), true;
      }
    }
  }

  /**
   * The loop of `update_bacteriocin_names` over the fetched rows, in the
   * order fetched; the updates are committed together after it.
   */
  method RenameRows(rows: map<nat, Bacteriocin>, ids: seq<nat>) returns (renamed: map<nat, Bacteriocin>, count: nat)
    requires forall k :: 0 <= k < |ids| ==> ids[k] in rows
    requires forall a, b :: 0 <= a < b < |ids| ==> ids[a] != ids[b]
    ensures renamed.Keys == rows.Keys
    ensures forall i :: i in rows ==> renamed[i] == if i in ids then Renamed(rows[i]) else rows[i]
    ensures count == CountIn(ids, RenamedIds(rows))
  {
    renamed := rows;
    count := 0;
    var n := 0;
    while n < |ids|
      invariant 0 <= n <= |ids| && renamed.Keys == rows.Keys
      invariant forall i :: i in rows ==> renamed[i] == if i in ids[..n] then Renamed(rows[i]) else rows[i]
      invariant count == CountIn(ids[..n], RenamedIds(rows))
    {
      var id := ids[n];
      var row := rows[id];
      ghost var prev := renamed;
      assert id in RenamedIds(rows) <==> NeedsRename(row);
      var fixed, changed := RepairName(row);
      if changed {
        renamed := renamed[id := fixed];
        count := count + 1;
      }
      RenameStep(rows, ids, n, prev, renamed);
      CountInStep(ids, n, RenamedIds(rows));
      n := n + 1;
    }
    assert ids[..n] == ids;
  }

  /** The whole table renamed, with the number of rows that changed. */
  method RenameTable(m: map<nat, Bacteriocin>) returns (rows: map<nat, Bacteriocin>, count: nat)
    requires Unique(m)
    ensures rows == RenamedAll(m) && count == |RenamedIds(m)|
    ensures rows.Keys == m.Keys && Unique(rows)
  {
    var ids := KeysOf(m);
    rows, count := RenameRows(m, ids);
    CountInIsSize(ids, RenamedIds(m));
    assert rows == RenamedAll(m);
    assert MarkedIn(ids, RenamedIds(m)) == RenamedIds(m);
    RenamedAllSettles(m);
  }

  /** The row ids of a table, each once, in some order. */
  method KeysOf(m: map<nat, Bacteriocin>) returns (ids: seq<nat>)
    ensures forall k :: 0 <= k < |ids| ==> ids[k] in m
    ensures forall a, b :: 0 <= a < b < |ids| ==> ids[a] != ids[b]
    ensures forall i :: i in m ==> i in ids
  {
    ids := [];
    var pending := m.Keys;
    while pending != {}
      invariant pending <= m.Keys
      invariant forall k :: 0 <= k < |ids| ==> ids[k] in m && ids[k] !in pending
      invariant forall a, b :: 0 <= a < b < |ids| ==> ids[a] != ids[b]
      invariant forall i :: i in m ==> i in pending || i in ids
      decreases pending
    {
      var id :| id in pending;
      ids := ids + [id];
      pending := pending - {id};
    }
  }

  /**
   * The repair keeps the ids, the sequence ids and so their uniqueness, and
   * running it a second time renames nothing.
   */
  lemma RenamedAllSettles(m: map<nat, Bacteriocin>)
    requires Unique(m)
    ensures RenamedAll(m).Keys == m.Keys && Unique(RenamedAll(m))
    ensures RenamedIds(RenamedAll(m)) == {}
    ensures RenamedAll(RenamedAll(m)) == RenamedAll(m)
  {
    var r := RenamedAll(m);
    forall i, j | i in r && j in r && r[i].sequenceId == r[j].sequenceId
      ensures i == j
    {
      assert m[i].sequenceId == r[i].sequenceId && m[j].sequenceId == r[j].sequenceId;
    }
    assert RenamedIds(r) == {} by {
      forall i | i in r
        ensures !NeedsRename(r[i])
      {
      }
    }
  }

  // ---------------------------------------------------------------------
  // The reference FASTA reader of `load_reference_bacteriocins`
  // ---------------------------------------------------------------------

  /** A parsed entry: the whole header as the name, and the sequence so far. */
  datatype FastaEntry = FastaEntry(name: string, sequence: string)

  /** The reader's state: dictionary keys in insertion order, the dictionary, and the current id. */
  datatype Reader = Reader(order: seq<string>, entries: map<string, FastaEntry>, current: Option<string>)

  const Start := Reader([], map[], None)

  /** A stripped line: a header (without its '>') or a line of sequence. */
  datatype Line = HeaderLine(header: string) | SequenceLine(text: string)

  function Classify(raw: string): Line
  {
    var line := Strip(raw);
    if StartsWith(line, ">") then HeaderLine(line[1..]) else SequenceLine(line)
  }

  /** The id of a header: the text before its first space. */
  function HeaderId(header: string): string
  {
    match SplitOnce(header, ' ')
    case Some((id, _)) => id
    case None => header
  }

  /** One line of the file. */
  function ReadLine(s: Reader, line: Line): Reader
  {
    match line
    case HeaderLine(header) =>
      var id := HeaderId(header);
      Reader(if id in s.entries then s.order else s.order + [id], s.entries[id := FastaEntry(header, "")], Some(id))
    case SequenceLine(text) =>
      if s.current.Some? && s.current.value in s.entries then
        var id := s.current.value;
        s.(entries := s.entries[id := s.entries[id].(sequence := s.entries[id].sequence + text)])
      else s
  }

  /** The reader after the given lines, line by line from the front. */
  function ReadLines(s: Reader, lines: seq<Line>): Reader
    decreases |lines|
  {
    if |lines| == 0 then s else ReadLines(ReadLine(s, lines[0]), lines[1..])
  }

  /** The lines of a file, stripped and classified. */
  function Classified(raw: seq<string>): (r: seq<Line>)
    ensures |r| == |raw| && forall k :: 0 <= k < |raw| ==> r[k] == Classify(raw[k])
  {
    seq(|raw|, k requires 0 <= k < |raw| => Classify(raw[k]))
  }

  /** The reader at the end of a file. */
  function Read(raw: seq<string>): (r: Reader)
    ensures WellFormed(r)
  {
    ReadLinesWellFormed(Start, Classified(raw));
    ReadLines(Start, Classified(raw))
  }

  lemma {:induction false} ReadLinesAppend(s: Reader, a: seq<Line>, b: seq<Line>)
    ensures ReadLines(s, a + b) == ReadLines(ReadLines(s, a), b)
    decreases |a|
  {
    if |a| > 0 {
      assert (a + b)[1..] == a[1..] + b;
      ReadLinesAppend(ReadLine(s, a[0]), a[1..], b);
    } else {
      assert a + b == b;
    }
  }

  /**
   * The dictionary keys are listed once each, in first-insertion order, and
   * the current id is always a key.
   */
  ghost predicate WellFormed(s: Reader)
  {
    (forall i, j :: 0 <= i < j < |s.order| ==> s.order[i] != s.order[j]) &&
    (forall id :: id in s.entries <==> id in s.order) &&
    (s.current.Some? ==> s.current.value in s.entries)
  }

  lemma ReadLineWellFormed(s: Reader, line: Line)
    requires WellFormed(s)
    ensures WellFormed(ReadLine(s, line))
  {
  }

  lemma {:induction false} ReadLinesWellFormed(s: Reader, lines: seq<Line>)
    requires WellFormed(s)
    ensures WellFormed(ReadLines(s, lines))
    decreases |lines|
  {
    if |lines| > 0 {
      ReadLineWellFormed(s, lines[0]);
      ReadLinesWellFormed(ReadLine(s, lines[0]), lines[1..]);
    }
  }

  /** The texts of sequence lines, concatenated. */
  function Texts(lines: seq<Line>): string
  {
    if |lines| == 0 || lines[0].HeaderLine? then "" else lines[0].text + Texts(lines[1..])
  }

  /**
   * A header followed by sequence lines gives the entry keyed by the text
   * before the header's first space, named by the whole header, holding the
   * stripped lines joined; whatever the id held before is discarded.
   */
  lemma HeaderThenLines(s: Reader, header: string, body: seq<Line>)
    requires forall k :: 0 <= k < |body| ==> body[k].SequenceLine?
    ensures var r := ReadLines(s, [HeaderLine(header)] + body);
      HeaderId(header) in r.entries && r.entries[HeaderId(header)] == FastaEntry(header, Texts(body))
  {
    assert ([HeaderLine(header)] + body)[1..] == body;
    SequenceLines(ReadLine(s, HeaderLine(header)), HeaderId(header), header, "", body);
  }

  lemma {:induction false} SequenceLines(s: Reader, id: string, name: string, sofar: string, body: seq<Line>)
    requires s.current == Some(id) && id in s.entries && s.entries[id] == FastaEntry(name, sofar)
    requires forall k :: 0 <= k < |body| ==> body[k].SequenceLine?
    ensures var r := ReadLines(s, body); id in r.entries && r.entries[id] == FastaEntry(name, sofar + Texts(body))
    decreases |body|
  {
    if |body| > 0 {
      var t := ReadLine(s, body[0]);
      SequenceLines(t, id, name, sofar + body[0].text, body[1..]);
      assert sofar + body[0].text + Texts(body[1..]) == sofar + Texts(body);
    }
  }

  /** Lines before the first header are dropped. */
  lemma {:induction false} LeadingLinesDropped(pre: seq<Line>)
    requires forall k :: 0 <= k < |pre| ==> pre[k].SequenceLine?
    ensures ReadLines(Start, pre) == Start
    decreases |pre|
  {
    if |pre| > 0 {
      LeadingLinesDropped(pre[1..]);
    }
  }

  /** The reader loop: the `sequences` dictionary and the current id, line by line. */
  method ReadFasta(lines: seq<string>) returns (order: seq<string>, entries: map<string, FastaEntry>)
    ensures Reader(order, entries, Read(lines).current) == Read(lines)
  {
    order := [];
    entries := map[];
    var current: Option<string> := None;
    var i := 0;
    while i < |lines|
      invariant 0 <= i <= |lines|
      invariant Reader(order, entries, current) == ReadLines(Start, Classified(lines[..i]))
    {
      ReadLinesAppend(Start, Classified(lines[..i]), [Classify(lines[i])]);
      assert Classified(lines[..i + 1]) == Classified(lines[..i]) + [Classify(lines[i])];
      var line := Strip(lines[i]);
      if StartsWith(line, ">") {
        var header := line[1..];
        var id := HeaderId(header);
        if id !in entries {
          order := order + [id];
        }
        entries := entries[id := FastaEntry(header, "")];
        current := Some(id);
      } else if current.Some? && current.value in entries {
        var id := current.value;
        entries := entries[id := entries[id].(sequence := entries[id].sequence + line)];
      }
      i := i + 1;
    }
    assert lines[..i] == lines;
  }

  // ---------------------------------------------------------------------
  // Loading the reference entries into the collection
  // ---------------------------------------------------------------------

  /** The collection part of the store while the loader runs, with its counter. */
  datatype LoadState = LoadState(records: map<nat, Bacteriocin>, serial: nat, count: nat)

  ghost predicate Loadable(st: LoadState)
  {
    Unique(st.records) && forall i :: i in st.records ==> i < st.serial
  }

  ghost function SequenceIds(m: map<nat, Bacteriocin>): set<string>
  {
    set i | i in m :: m[i].sequenceId
  }

  /**
   * One entry of the loader: skipped when its id or its sequence is empty;
   * for an id already in the collection, the row gets probability 1.0 and
   * the header as its name (and is counted when the update found it);
   * any other id is added with probability 1.0 and counted.
   */
  ghost function LoadEntry(st: LoadState, existing: set<string>, id: string, e: FastaEntry): (r: LoadState)
    requires Loadable(st)
    ensures Loadable(r) && st.records.Keys <= r.records.Keys
    ensures forall k :: k in st.records && st.records[k].sequenceId != id ==> r.records[k] == st.records[k]
  {
    if id == "" || e.sequence == "" then st
    else if id in existing then
      if HasSequenceId(st.records, id) then
        var k := IdOf(st.records, id);
        var r := LoadState(st.records[k := st.records[k].(probability := 1.0, name := e.name)], st.serial, st.count + 1);
        assert Unique(r.records) by {
          forall i, j | i in r.records && j in r.records && r.records[i].sequenceId == r.records[j].sequenceId
            ensures i == j
          {
            assert st.records[i].sequenceId == r.records[i].sequenceId;
            assert st.records[j].sequenceId == r.records[j].sequenceId;
          }
        }
        r
      else st
    else
      var b := Bacteriocin(id, e.name, e.sequence, 1.0);
      UpsertedUnique(st.records, st.serial, b);
      UpsertedKeepsOthers(st.records, st.serial, b);
      LoadState(Upserted(st.records, st.serial, b), st.serial + 1, st.count + 1)
  }

  /** The loader after the given dictionary keys, in order. */
  ghost function Loaded(st: LoadState, existing: set<string>, order: seq<string>, entries: map<string, FastaEntry>): (r: LoadState)
    requires Loadable(st) && forall k :: 0 <= k < |order| ==> order[k] in entries
    ensures Loadable(r) && st.records.Keys <= r.records.Keys
    decreases |order|
  {
    if |order| == 0 then st
    else
      var last := order[|order| - 1];
      LoadEntry(Loaded(st, existing, order[..|order| - 1], entries), existing, last, entries[last])
  }

  lemma LoadedStep(st: LoadState, existing: set<string>, order: seq<string>, entries: map<string, FastaEntry>, i: nat)
    requires Loadable(st) && forall k :: 0 <= k < |order| ==> order[k] in entries
    requires i < |order|
    ensures Loaded(st, existing, order[..i + 1], entries) ==
      LoadEntry(Loaded(st, existing, order[..i], entries), existing, order[i], entries[order[i]])
  {
    assert order[..i + 1][..i] == order[..i];
  }

  /** The entries the loader does not skip. */
  function LoadableCount(order: seq<string>, entries: map<string, FastaEntry>): nat
    requires forall k :: 0 <= k < |order| ==> order[k] in entries
  {
    if |order| == 0 then 0
    else
      var last := order[|order| - 1];
      LoadableCount(order[..|order| - 1], entries) + if last == "" || entries[last].sequence == "" then 0 else 1
  }

  /** The row a loaded entry ends up as. */
  ghost function LoadedRow(st: LoadState, existing: set<string>, id: string, e: FastaEntry): Bacteriocin
    requires Loadable(st)
  {
    if id in existing && HasSequenceId(st.records, id) then
      st.records[IdOf(st.records, id)].(probability := 1.0, name := e.name)
    else Bacteriocin(id, e.name, e.sequence, 1.0)
  }

  /**
   * With the existing ids read from the collection first, every entry that
   * is not skipped is counted once, so the count is the number of such entries.
   */
  lemma {:induction false} LoadedCount(st: LoadState, order: seq<string>, entries: map<string, FastaEntry>)
    requires Loadable(st) && forall k :: 0 <= k < |order| ==> order[k] in entries
    requires forall a, b :: 0 <= a < b < |order| ==> order[a] != order[b]
    ensures Loaded(st, SequenceIds(st.records), order, entries).count == st.count + LoadableCount(order, entries)
    decreases |order|
  {
    if |order| > 0 {
      var n := |order| - 1;
      var last := order[n];
      LoadedCount(st, order[..n], entries);
      var prev := Loaded(st, SequenceIds(st.records), order[..n], entries);
      if last != "" && entries[last].sequence != "" && last in SequenceIds(st.records) {
        var k :| k in st.records && st.records[k].sequenceId == last;
        assert HasSequenceId(prev.records, last) by {
          LoadedKeepsRowsOf(st, SequenceIds(st.records), order[..n], entries, last);
          assert k in prev.records && prev.records[k].sequenceId == last;
        }
      }
    }
  }

  /** Rows holding an id that is not among the keys are left as they were. */
  lemma {:induction false} LoadedKeepsRowsOf(st: LoadState, existing: set<string>, order: seq<string>,
                                              entries: map<string, FastaEntry>, id: string)
    requires Loadable(st) && forall k :: 0 <= k < |order| ==> order[k] in entries
    requires forall k :: 0 <= k < |order| ==> order[k] != id
    ensures forall i :: i in st.records && st.records[i].sequenceId == id ==>
      Loaded(st, existing, order, entries).records[i] == st.records[i]
    decreases |order|
  {
    if |order| > 0 {
      LoadedKeepsRowsOf(st, existing, order[..|order| - 1], entries, id);
    }
  }

  /**
   * After loading, every entry that is not skipped is the one row holding
   * its id: an id already in the collection keeps its row and sequence but
   * gets probability 1.0 and the header as its name; a new id is a new row
   * with the entry's name and sequence and probability 1.0.
   */
  lemma {:induction false} LoadedRows(st: LoadState, order: seq<string>, entries: map<string, FastaEntry>, j: nat)
    requires Loadable(st) && forall k :: 0 <= k < |order| ==> order[k] in entries
    requires forall a, b :: 0 <= a < b < |order| ==> order[a] != order[b]
    requires j < |order| && order[j] != "" && entries[order[j]].sequence != ""
    ensures var r := Loaded(st, SequenceIds(st.records), order, entries);
      HasSequenceId(r.records, order[j]) &&
      r.records[IdOf(r.records, order[j])] == LoadedRow(st, SequenceIds(st.records), order[j], entries[order[j]])
    decreases |order|
  {
    var existing := SequenceIds(st.records);
    var n := |order| - 1;
    var id := order[j];
    var prefix := order[..n];
    var prev := Loaded(st, existing, prefix, entries);
    var r := Loaded(st, existing, order, entries);
    assert r == LoadEntry(prev, existing, order[n], entries[order[n]]);
    if j < n {
      LoadedRows(st, prefix, entries, j);
      var k := IdOf(prev.records, id);
      assert r.records[k] == prev.records[k];
      assert HasSequenceId(r.records, id);
    } else {
      LoadedKeepsRowsOf(st, existing, prefix, entries, id);
      if id in existing {
        var k :| k in st.records && st.records[k].sequenceId == id;
        assert prev.records[k] == st.records[k];
        assert HasSequenceId(prev.records, id);
        assert IdOf(prev.records, id) == k == IdOf(st.records, id);
        assert r.records[k] == LoadedRow(st, existing, id, entries[id]);
      } else {
        var b := Bacteriocin(id, entries[id].name, entries[id].sequence, 1.0);
        UpsertedHoldsRow(prev.records, prev.serial, b);
      }
    }
  }

  /** Rows that stay (or are only added) keep the items' references and the serial bound. */
  lemma RowsKept(m: map<nat, Bacteriocin>, m2: map<nat, Bacteriocin>, serial: nat, items: set<(Kind, nat, nat)>)
    requires m.Keys <= m2.Keys && forall t :: t in items ==> t.2 in m
    requires forall i :: i in m2 ==> i in m || i < serial
    requires forall i :: i in m ==> i < serial
    ensures forall t :: t in items ==> t.2 in m2
    ensures forall i :: i in m2 ==> i < serial
  {
  }

  // ---------------------------------------------------------------------
  // The tables
  // ---------------------------------------------------------------------

  /**
   * The tables: `bacteriocin_collection` by row id with its id sequence,
   * `vaults` and `bags` by (kind, id) with their id sequences, and
   * `vault_items`/`bag_items` as (kind, container id, row id) triples.
   */
  class Store {
    var records: map<nat, Bacteriocin>
    var recordSerial: nat
    var containers: map<(Kind, nat), Container>
    var vaultSerial: nat
    var bagSerial: nat
    var items: set<(Kind, nat, nat)>

    /** The next id of a kind's container sequence. */
    function Serial(kind: Kind): nat
      reads this`vaultSerial, this`bagSerial
    {
      match kind
      case Vault => vaultSerial
      case Bag => bagSerial
    }

    /** The table constraints: unique sequence ids, fresh serials, item references. */
    ghost predicate Valid()
      reads this
    {
      Unique(records) &&
      (forall i :: i in records ==> i < recordSerial) &&
      (forall c :: c in containers ==> c.1 < Serial(c.0)) &&
      (forall t :: t in items ==> (t.0, t.1) in containers && t.2 in records)
    }

    /** `create_tables`: empty tables, then the default vault and the default bag. */
    constructor ()
      ensures Valid()
      ensures records == map[] && items == {}
      ensures containers == map[(Vault, 1) := Container("Reference Bacteriocins", "Default vault for reference bacteriocins"),
                                 (Bag, 1) := Container("Candidate Bacteriocins", "Default bag for predicted bacteriocins")]
    {
      records := map[];
      recordSerial := 1;
      containers := map[(Vault, 1) := Container("Reference Bacteriocins", "Default vault for reference bacteriocins"),
                        (Bag, 1) := Container("Candidate Bacteriocins", "Default bag for predicted bacteriocins")];
      vaultSerial := 2;
      bagSerial := 2;
      items := {};
    }

    /**
     * `add_bacteriocin`: an upsert on the sequence id. The id sequence
     * advances on every insert attempt, conflicting or not.
     */
    method AddBacteriocin(sequenceId: string, name: string, sequence: string, probability: real) returns (r: Response, id: nat)
      requires Valid()
      modifies this`records, this`recordSerial
      ensures Valid()
      ensures r == Succeeded("Bacteriocin added to collection successfully")
      ensures records == Upserted(old(records), old(recordSerial), Bacteriocin(sequenceId, name, sequence, probability))
      ensures recordSerial == old(recordSerial) + 1
      ensures id in records && records[id] == Bacteriocin(sequenceId, name, sequence, probability)
    {
      id := RowFor(sequenceId);
      var b := Bacteriocin(sequenceId, name, sequence, probability);
      UpsertedAt(records, recordSerial, b, id);
      records := records[id := b];
      recordSerial := recordSerial + 1;
      r := Succeeded("Bacteriocin added to collection successfully");
    }

    /** The row the upsert of `sequenceId` writes: the conflicting row, or the next id. */
    method RowFor(sequenceId: string) returns (id: nat)
      requires Valid()
      ensures id == if HasSequenceId(records, sequenceId) then IdOf(records, sequenceId) else recordSerial
    {
      if exists i :: i in records && records[i].sequenceId == sequenceId {
        id :| id in records && records[id].sequenceId == sequenceId;
      } else {
        id := recordSerial;
      }
    }

    /** `remove_bacteriocin`: the row goes, and its vault and bag items with it. */
    method RemoveBacteriocin(id: nat) returns (r: Response)
      requires Valid()
      modifies this`records, this`items
      ensures Valid()
      ensures records == old(records) - {id}
      ensures items == set t | t in old(items) && t.2 != id
      ensures r == if id in old(records) then Succeeded("Bacteriocin removed from collection")
                   else Failed("Bacteriocin not found in collection")
    {
      r := if id in records then Succeeded("Bacteriocin removed from collection") else Failed("Bacteriocin not found in collection");
      records := records - {id};
      items := set t | t in items && t.2 != id;
    }

    /** `create_vault`, `create_bag`: a new container under the next id of its kind. */
    method CreateContainer(kind: Kind, name: string, description: string) returns (id: nat)
      requires Valid()
      modifies this`containers, this`vaultSerial, this`bagSerial
      ensures Valid()
      ensures id == old(Serial(kind)) && (kind, id) !in old(containers)
      ensures containers == old(containers)[(kind, id) := Container(name, description)]
      ensures forall k :: Serial(k) == old(Serial(k)) + (if k == kind then 1 else 0)
    {
      id := Serial(kind);
      containers := containers[(kind, id) := Container(name, description)];
      if kind == Vault {
        vaultSerial := vaultSerial + 1;
      } else {
        bagSerial := bagSerial + 1;
      }
    }

    /**
     * `add_to_vault`, `add_to_bag`: the pair is inserted unless present
     * (ON CONFLICT DO NOTHING), and a repeat still succeeds. A container or
     * row that does not exist breaks the item table's references.
     */
    method AddTo(kind: Kind, containerId: nat, bacteriocinId: nat) returns (r: Response)
      requires Valid()
      modifies this`items
      ensures Valid()
      ensures (kind, containerId) !in containers || bacteriocinId !in records ==> r == DatabaseError && items == old(items)
      ensures (kind, containerId) in containers && bacteriocinId in records ==>
        items == old(items) + {(kind, containerId, bacteriocinId)} &&
        r == Succeeded(if (kind, containerId, bacteriocinId) in old(items) then "Item already in " + KindWord(kind)
                       else "Added to " + KindWord(kind) + " successfully")
    {
      if (kind, containerId) !in containers || bacteriocinId !in records {
        return DatabaseError;
      }
      var t := (kind, containerId, bacteriocinId);
      if t in items {
        r := Succeeded("Item already in " + KindWord(kind));
      } else {
        items := items + {t};
        r := Succeeded("Added to " + KindWord(kind) + " successfully");
      }
    }

    /** `remove_from_vault`, `remove_from_bag` (and `remove_item_from_bag`). */
    method RemoveFrom(kind: Kind, containerId: nat, bacteriocinId: nat) returns (r: Response)
      requires Valid()
      modifies this`items
      ensures Valid()
      ensures items == old(items) - {(kind, containerId, bacteriocinId)}
      ensures r == if (kind, containerId, bacteriocinId) in old(items) then Succeeded("Removed from " + KindWord(kind) + " successfully")
                   else Failed("Item not found in " + KindWord(kind))
    {
      var t := (kind, containerId, bacteriocinId);
      r := if t in items then Succeeded("Removed from " + KindWord(kind) + " successfully")
           else Failed("Item not found in " + KindWord(kind));
      items := items - {t};
    }

    /** `delete_vault`, `delete_bag`: the container's items first, then the container. */
    method DeleteContainer(kind: Kind, containerId: nat) returns (r: Response)
      requires Valid()
      modifies this`items, this`containers
      ensures Valid()
      ensures items == set t | t in old(items) && (t.0, t.1) != (kind, containerId)
      ensures containers == old(containers) - {(kind, containerId)}
      ensures r == if (kind, containerId) in old(containers) then Succeeded(KindTitle(kind) + " deleted successfully")
                   else Failed(KindTitle(kind) + " not found")
    {
      items := set t | t in items && (t.0, t.1) != (kind, containerId);
      r := if (kind, containerId) in containers then Succeeded(KindTitle(kind) + " deleted successfully")
           else Failed(KindTitle(kind) + " not found");
      containers := containers - {(kind, containerId)};
    }

    /**
     * `update_bacteriocin_names`: every row is visited once; a row with an
     * empty name or its id as name gets the derived name when that differs,
     * and each such update is counted.
     */
    method UpdateNames() returns (r: Response, count: nat)
      requires Valid()
      modifies this`records
      ensures Valid()
      ensures records == RenamedAll(old(records))
      ensures count == |RenamedIds(old(records))|
      ensures r == Succeeded("Updated " + NatToString(count) + " bacteriocin names")
    {
      var rows;
      rows, count := RenameTable(records);
      RowsKept(records, rows, recordSerial, items);
      records := rows;
      r := Succeeded("Updated " + NatToString(count) + " bacteriocin names");
    }

    /** The body of the loader's loop for one dictionary entry, on top of the count so far. */
    method LoadEntryInto(existing: set<string>, id: string, e: FastaEntry, before: nat) returns (after: nat)
      requires Valid()
      modifies this`records, this`recordSerial
      ensures Valid()
      ensures LoadState(records, recordSerial, after) == LoadEntry(LoadState(old(records), old(recordSerial), before), existing, id, e)
    {
      after := before;
      ghost var st := LoadState(records, recordSerial, before);
      ghost var target := LoadEntry(st, existing, id, e);
      if id == "" || e.sequence == "" {
        return;
      }
      if id in existing {
        if exists k :: k in records && records[k].sequenceId == id {
          var k :| k in records && records[k].sequenceId == id;
          assert k == IdOf(st.records, id);
          records := records[k := records[k].(probability := 1.0, name := e.name)];
          after := before + 1;
        }
      } else {
        var _, _ := AddBacteriocin(id, e.name, e.sequence, 1.0);
        after := before + 1;
      }
      assert LoadState(records, recordSerial, after) == target;
      RowsKept(st.records, records, recordSerial, items);
    }

    /**
     * `load_reference_bacteriocins` on the lines of the file: read the
     * entries, take the ids already in the collection, then load each entry
     * in dictionary order.
     */
    method LoadReference(lines: seq<string>) returns (count: nat)
      requires Valid()
      modifies this`records, this`recordSerial
      ensures Valid()
      ensures var st := LoadState(old(records), old(recordSerial), 0);
        LoadState(records, recordSerial, count) == Loaded(st, SequenceIds(old(records)), Read(lines).order, Read(lines).entries)
    {
      var order, entries := ReadFasta(lines);
      ghost var st := LoadState(records, recordSerial, 0);
      var existing := set i | i in records :: records[i].sequenceId;
      count := 0;
      var i := 0;
      while i < |order|
        invariant 0 <= i <= |order|
        invariant Valid()
        invariant LoadState(records, recordSerial, count) == Loaded(st, existing, order[..i], entries)
      {
        LoadedStep(st, existing, order, entries, i);
        count := LoadEntryInto(existing, order[i], entries[order[i]], count);
        i := i + 1;
      }
      assert order[..i] == order;
    }
  }
}
