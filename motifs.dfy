/**
 * The bacteriocin motif catalog of static/js/motif-highlighter.js and the
 * tiny pattern language its regular expressions are written in.
 *
 * Every regex of the catalog is a sequence of character-class positions
 * (`F`, `[A-Z]`, `[KR]`) with at most one bounded run (`[LIVF]{8,15}`).
 * `Backtrack` is the leftmost, greedy-first, backtracking semantics that a
 * JavaScript `RegExp` gives such a pattern; `Greedy` never backtracks.  The
 * two agree whenever a run is last or is followed by a class that shares no
 * character with it (lemma `GreedyIsBacktrack`), which is the case for the
 * one run in the catalog.
 */
module Motifs {
  import opened Text

  /** One character position of a pattern. */
  datatype CharClass =
    | Lit(c: char)            // a literal letter such as `F`
    | AnyUpper                // `[A-Z]`
    | OneOf(chars: string)    // a set such as `[KR]` or `[LIVF]`

  predicate Accepts(k: CharClass, c: char)
  {
    match k
    case Lit(x) => c == x
    case AnyUpper => 'A' <= c <= 'Z'
    case OneOf(cs) => c in cs
  }

  /** A single position, or a run of `lo..hi` positions of one class (`{lo,hi}`). */
  datatype Element = One(k: CharClass) | Run(k: CharClass, lo: nat, hi: nat)

  type Pattern = seq<Element>

  /** A literal position `c` and an `[A-Z]` position, the two most common elements. */
  function L(c: char): Element { One(Lit(c)) }
  const U: Element := One(AnyUpper)

  /** Length of the run of `k`-characters starting at `i`, capped at `cap`. */
  function RunLen(k: CharClass, t: string, i: nat, cap: nat): (n: nat)
    requires i <= |t|
    ensures n <= cap && i + n <= |t|
    ensures forall j :: i <= j < i + n ==> Accepts(k, t[j])
    ensures n < cap && i + n < |t| ==> !Accepts(k, t[i + n])
    decreases cap
  {
    if cap == 0 || i == |t| || !Accepts(k, t[i]) then 0
    else 1 + RunLen(k, t, i + 1, cap - 1)
  }

  /**
   * Where a match of `p` that starts at `i` ends, if there is one, trying the
   * longest run first and falling back to shorter ones: what `RegExp.exec`
   * computes for a match attempt at position `i`.
   */
  function Backtrack(p: Pattern, t: string, i: nat): Option<nat>
    requires i <= |t|
    decreases |p|, |t| + 1
  {
    if |p| == 0 then Some(i)
    else match p[0]
      case One(k) =>
        if i < |t| && Accepts(k, t[i]) then Backtrack(p[1..], t, i + 1) else None
      case Run(k, lo, hi) =>
        TryRun(k, lo, p[1..], t, i, RunLen(k, t, i, hi))
  }

  /** The run takes `n` characters, then `n - 1`, ..., down to `lo`. */
  function TryRun(k: CharClass, lo: nat, rest: Pattern, t: string, i: nat, n: nat): Option<nat>
    requires i + n <= |t|
    decreases |rest| + 1, n
  {
    if n < lo then None
    else match Backtrack(rest, t, i + n)
      case Some(e) => Some(e)
      case None => if n == 0 then None else TryRun(k, lo, rest, t, i, n - 1)
  }

  /** The same pattern matched without backtracking: every run takes all it can. */
  function Greedy(p: Pattern, t: string, i: nat): Option<nat>
    requires i <= |t|
    decreases |p|
  {
    if |p| == 0 then Some(i)
    else match p[0]
      case One(k) =>
        if i < |t| && Accepts(k, t[i]) then Greedy(p[1..], t, i + 1) else None
      case Run(k, lo, hi) =>
        var n := RunLen(k, t, i, hi);
        if n < lo then None else Greedy(p[1..], t, i + n)
  }

  /** No character is accepted by both classes. */
  predicate Disjoint(a: CharClass, b: CharClass)
  {
    forall c :: !(Accepts(a, c) && Accepts(b, c))
  }

  /** Every run is the last element or is followed by a single position disjoint from it. */
  predicate Separated(p: Pattern)
  {
    forall j :: 0 <= j < |p| && p[j].Run? ==>
      j == |p| - 1 || (p[j + 1].One? && Disjoint(p[j].k, p[j + 1].k))
  }

  /** Fewest characters any match of `p` consumes. */
  function MinLen(p: Pattern): nat
  {
    if |p| == 0 then 0
    else (match p[0] case One(_) => 1 case Run(_, lo, _) => lo) + MinLen(p[1..])
  }

  /** Every match of `p` is at least `MinLen(p)` long and stays inside the text. */
  lemma {:induction false} BacktrackBounds(p: Pattern, t: string, i: nat)
    requires i <= |t|
    ensures Backtrack(p, t, i).Some? ==> i + MinLen(p) <= Backtrack(p, t, i).value <= |t|
    decreases |p|, |t| + 1
  {
    if |p| > 0 {
      match p[0]
      case One(k) =>
        if i < |t| && Accepts(k, t[i]) { BacktrackBounds(p[1..], t, i + 1); }
      case Run(k, lo, hi) =>
        TryRunBounds(k, lo, p[1..], t, i, RunLen(k, t, i, hi));
    }
  }

  lemma {:induction false} TryRunBounds(k: CharClass, lo: nat, rest: Pattern, t: string, i: nat, n: nat)
    requires i + n <= |t|
    ensures TryRun(k, lo, rest, t, i, n).Some? ==>
      i + lo + MinLen(rest) <= TryRun(k, lo, rest, t, i, n).value <= |t|
    decreases |rest| + 1, n
  {
    if n >= lo {
      BacktrackBounds(rest, t, i + n);
      if Backtrack(rest, t, i + n).None? && n > 0 {
        TryRunBounds(k, lo, rest, t, i, n - 1);
      }
    }
  }

  /** A shorter run leaves a run character under the disjoint next class, so the rest fails. */
  lemma {:induction false} ShorterRunsFail(k: CharClass, lo: nat, rest: Pattern, t: string, i: nat, n: nat, full: nat)
    requires i + full <= |t| && n < full
    requires forall j :: i <= j < i + full ==> Accepts(k, t[j])
    requires |rest| > 0 && rest[0].One? && Disjoint(k, rest[0].k)
    ensures TryRun(k, lo, rest, t, i, n).None?
    decreases n
  {
    assert Accepts(k, t[i + n]);
    assert !Accepts(rest[0].k, t[i + n]);
    assert Backtrack(rest, t, i + n).None?;
    if n > 0 && n >= lo {
      ShorterRunsFail(k, lo, rest, t, i, n - 1, full);
    }
  }

  /** On a separated pattern, backtracking never changes the outcome of the greedy match. */
  lemma {:induction false} GreedyIsBacktrack(p: Pattern, t: string, i: nat)
    requires i <= |t|
    requires Separated(p)
    ensures Backtrack(p, t, i) == Greedy(p, t, i)
    decreases |p|
  {
    if |p| > 0 {
      assert Separated(p[1..]) by {
        forall j | 0 <= j < |p[1..]| && p[1..][j].Run?
          ensures j == |p[1..]| - 1 || (p[1..][j + 1].One? && Disjoint(p[1..][j].k, p[1..][j + 1].k))
        {
          assert p[j + 1] == p[1..][j];
        }
      }
      match p[0]
      case One(k) =>
        if i < |t| && Accepts(k, t[i]) { GreedyIsBacktrack(p[1..], t, i + 1); }
      case Run(k, lo, hi) =>
        var n := RunLen(k, t, i, hi);
        GreedyIsBacktrack(p[1..], t, i + n);
        if n >= lo && n > 0 && |p| > 1 && Backtrack(p[1..], t, i + n).None? {
          ShorterRunsFail(k, lo, p[1..], t, i, n - 1, n);
        }
    }
  }

  /** The twelve motifs of `bacteriocinMotifs`. */
  datatype MotifKey =
    | LeaderFnld | Lanthionine | Hinge
    | PediocinBox | DisulfideBridge | HydrophobicTail
    | GlycineZipper
    | SignalPeptide | CatalyticHxH | CatalyticHxxH | LysM | Sh3b

  /**
   * One entry of the catalog: the display form `pattern` (only its length is
   * used), the matcher, and the styling data of the wrapper, looked up by key.
   */
  datatype Motif = Motif(key: MotifKey, pattern: string, regex: Pattern)
  {
    function Name(): string
    {
      match key
      case LeaderFnld => "Leader Peptide FNLD Motif"
      case Lanthionine => "Lanthionine Ring Formation Motif"
      case Hinge => "Hinge Region"
      case PediocinBox => "Pediocin Box \U{2013} YGNGV Motif"
      case DisulfideBridge => "Disulfide-Bridge Motif"
      case HydrophobicTail => "C-Terminal Hydrophobic Helix/Tail"
      case GlycineZipper => "GxxxG Helix\U{2013}Helix Interaction Motif"
      case SignalPeptide => "Signal Peptide Motif (Sec-Dependent)"
      case CatalyticHxH => "Catalytic HxH Motif"
      case CatalyticHxxH => "Catalytic HxxH Motif"
      case LysM => "LysM Motif"
      case Sh3b => "SH3b Motif"
    }

    /** The motif's `class`: its bacteriocin class. */
    function Class(): string
    {
      match key
      case LeaderFnld | Lanthionine | Hinge => "motif-class-i"
      case PediocinBox | DisulfideBridge | HydrophobicTail => "motif-class-iia"
      case GlycineZipper => "motif-class-iib"
      case SignalPeptide | CatalyticHxH | CatalyticHxxH | LysM | Sh3b => "motif-class-iii"
    }

    function Subclass(): string
    {
      match key
      case LeaderFnld => "motif-leader-peptide"
      case Lanthionine => "motif-lanthionine"
      case Hinge => "motif-hinge"
      case PediocinBox => "motif-pediocin"
      case DisulfideBridge => "motif-disulfide"
      case HydrophobicTail => "motif-hydrophobic"
      case GlycineZipper => "motif-helix-interaction"
      case SignalPeptide => "motif-signal-peptide"
      case CatalyticHxH | CatalyticHxxH => "motif-catalytic"
      case LysM => "motif-lysm"
      case Sh3b => "motif-sh3b"
    }

    function Color(): string
    {
      match key
      case LeaderFnld => "#e63946"
      case Lanthionine => "#457b9d"
      case Hinge => "#f1c453"
      case PediocinBox => "#2a9d8f"
      case DisulfideBridge => "#e9c46a"
      case HydrophobicTail => "#f4a261"
      case GlycineZipper => "#264653"
      case SignalPeptide => "#023e8a"
      case CatalyticHxH | CatalyticHxxH => "#0077b6"
      case LysM => "#00b4d8"
      case Sh3b => "#90e0ef"
    }

    function Tooltip(): string
    {
      match key
      case LeaderFnld =>
        "A conserved segment at the C-terminus of the leader peptide that directs post\U{2010}translational modifications (via LanB/LanC enzymes) and proper cleavage before the mature peptide forms. (Bierbaum & Sahl, 2009)"
      case Lanthionine =>
        "Represents a dehydrated serine (S) and a downstream cysteine (C) separated by ~3 variable residues; these pair to form a thioether (lanthionine) bridge that rigidifies the mature peptide and supports lipid II binding (e.g., nisin's ring A). (Bierbaum & Sahl, 2009)"
      case Hinge =>
        "A short (~3-residue) flexible linker (commonly 'NMK') connecting the lipid II-binding domain to the membrane-active segment, allowing the peptide to bend during pore formation. (Drider et al., 2006)"
      case PediocinBox =>
        "A highly conserved N-terminal sequence critical for binding the mannose-phosphotransferase (Man-PTS) receptor on target cells; it defines the pediocin-like family. (Drider et al., 2006)"
      case DisulfideBridge =>
        "Two cysteines (C) separated by ~2 variable residues form a disulfide bond that stabilizes the N-terminal \U{3B2}-sheet structure needed for correct receptor binding. (Drider et al., 2006)"
      case HydrophobicTail =>
        "An amphipathic stretch rich in hydrophobic residues (e.g., A, L, V) that folds into a helix, facilitating membrane insertion after receptor binding. (Drider et al., 2006; Ekblad et al., 2016)"
      case GlycineZipper =>
        "Two glycine (G) residues separated by any three amino acids; this 'glycine zipper' promotes close helix\U{2013}helix packing between complementary peptides that act together to form a membrane pore. (Ekblad et al., 2016)"
      case SignalPeptide =>
        "A typical N-terminal signal peptide that includes a basic region (M followed by K/R), a hydrophobic core of 8\U{2013}15 residues (composed of L/I/V), and a C-terminal cleavage motif (AxA); it targets the protein for secretion via the Sec pathway. (Yuan et al., 2004)"
      case CatalyticHxH | CatalyticHxxH =>
        "A motif featuring two histidine residues (with 0\U{2013}2 intervening residues) that coordinate a Zn\U{B2}\U{207A} ion in metallopeptidase bacteriolysins, essential for cell wall degradation. (Yuan et al., 2004; Bierbaum & Sahl, 2009)"
      case LysM =>
        "A short sequence fragment from the LysM domain, where conserved glycine (G) and aspartate (D) residues contribute to peptidoglycan binding. (Cleveland et al., 2001)"
      case Sh3b =>
        "A representative segment from the SH3b domain, with conserved tyrosine (Y) and proline (P) that help stabilize the beta-barrel fold for specific binding to cell wall components. (Cleveland et al., 2001)"
    }
  }

  /** Neither angle bracket occurs in `s`, so `s` can sit inside an attribute value. */
  predicate NoAngle(s: string) { '<' !in s && '>' !in s }

  /** The text fields that end up inside the wrapper's attributes hold no tag bracket. */
  predicate PlainFields(m: Motif)
  {
    NoAngle(m.Name()) && NoAngle(m.Class()) && NoAngle(m.Subclass()) &&
    NoAngle(m.Tooltip()) && NoAngle(m.Color())
  }

  /** What the scan relies on: a match is never empty and needs no backtracking. */
  predicate WellFormed(m: Motif)
  {
    MinLen(m.regex) > 0 && Separated(m.regex)
  }

  predicate WellFormedCatalog(cat: seq<Motif>)
  {
    forall i :: 0 <= i < |cat| ==> WellFormed(cat[i])
  }

  /** The display pattern and the regex of each motif. */
  function Entry(k: MotifKey): Motif
  {
    match k
    case LeaderFnld => Motif(k, "FNLD", [L('F'), L('N'), L('L'), L('D')])
    case Lanthionine => Motif(k, "SxxxC", [L('S'), U, U, U, L('C')])
    case Hinge => Motif(k, "NMK", [L('N'), L('M'), L('K')])
    case PediocinBox => Motif(k, "YGNGV", [L('Y'), L('G'), L('N'), L('G'), L('V')])
    case DisulfideBridge => Motif(k, "CxxC", [L('C'), U, U, L('C')])
    case HydrophobicTail => Motif(k, "xxALxxVLxx", [U, U, L('A'), L('L'), U, U, L('V'), L('L'), U, U])
    case GlycineZipper => Motif(k, "GxxxG", [L('G'), U, U, U, L('G')])
    // M[KR][A-Z]{2}[LIVF]{8,15}A[A-Z]A: the catalog's one bounded run, always followed by A
    case SignalPeptide =>
      Motif(k, "MKxxLLLLLLLLLLLAxA", [L('M'), One(OneOf("KR")), U, U, Run(OneOf("LIVF"), 8, 15), L('A'), U, L('A')])
    case CatalyticHxH => Motif(k, "HxH", [L('H'), U, L('H')])
    case CatalyticHxxH => Motif(k, "HxxH", [L('H'), U, U, L('H')])
    case LysM => Motif(k, "xxGxxDxx", [U, U, L('G'), U, U, L('D'), U, U])
    case Sh3b => Motif(k, "xxYxxPxx", [U, U, L('Y'), U, U, L('P'), U, U])
  }

  /** `bacteriocinMotifs`, in catalog order. */
  const Catalog: seq<Motif> := [
    Entry(LeaderFnld), Entry(Lanthionine), Entry(Hinge),
    Entry(PediocinBox), Entry(DisulfideBridge), Entry(HydrophobicTail),
    Entry(GlycineZipper),
    Entry(SignalPeptide), Entry(CatalyticHxH), Entry(CatalyticHxxH), Entry(LysM), Entry(Sh3b)]

  /** A non-empty pattern without runs is separated and never matches the empty string. */
  lemma RunFreeWellFormed(m: Motif)
    requires |m.regex| > 0 && forall j :: 0 <= j < |m.regex| ==> m.regex[j].One?
    ensures WellFormed(m)
  {
    assert m.regex[0].One?;
  }

  /** The signal-peptide regex: its run `[LIVF]{8,15}` is followed by `A`, which is not in the run's set. */
  lemma SignalPeptideWellFormed()
    ensures WellFormed(Entry(SignalPeptide))
  {
    var p := Entry(SignalPeptide).regex;
    assert Disjoint(OneOf("LIVF"), Lit('A'));
    assert Separated(p) by {
      forall j | 0 <= j < |p| && p[j].Run?
        ensures j == |p| - 1 || (p[j + 1].One? && Disjoint(p[j].k, p[j + 1].k))
      {
        assert j == 4;
      }
    }
  }

  /** Every catalog regex is separated and never matches the empty string. */
  lemma CatalogWellFormed()
    ensures WellFormedCatalog(Catalog)
  {
    forall i | 0 <= i < |Catalog| ensures WellFormed(Catalog[i])
    {
      var k := Catalog[i].key;
      assert Catalog[i] == Entry(k);
      if k == SignalPeptide {
        SignalPeptideWellFormed();
      } else {
        RunFreeWellFormed(Entry(k));
      }
    }
  }
}
