/**
 * `highlightMotifs` of static/js/motif-highlighter.js: the motif annotator.
 *
 * For one sequence container it
 *   1. orders the catalog by the length of each motif's display pattern,
 *      longest first, ties in catalog order (`SortByPatternLength`);
 *   2. scans each motif's regex over the whole text, left to right, for
 *      non-overlapping matches (`Scan`);
 *   3. keeps a match only when it clashes with no span kept before it
 *      (`AcceptAll`, `Resolve`);
 *   4. sorts the kept spans by start (`SortByStart`) and splices the wrapper
 *      markup in from the last span to the first (`Render`);
 *   5. replaces the container's content and sets the
 *      `data-motifs-processed` marker only when the markup differs from the
 *      text (`Highlight`).
 *
 * The text is the container's `textContent`; the scan runs over the same
 * text re-parsed as HTML, and the two agree only when the text holds no
 * markup character (`NoMarkup`), which is a precondition here.
 */
module Annotator {
  import opened Text
  import opened Motifs

  /** One kept match: `text[start..end]` matched `motif`'s regex. */
  datatype Span = Span(start: nat, end: nat, motif: Motif)

  // ---------------------------------------------------------------------
  // Step 1: the order in which motifs are tried
  // ---------------------------------------------------------------------

  function PatternLength(m: Motif): nat { |m.pattern| }

  /**
   * Insert `m` in front of the first motif whose pattern is not longer than
   * its own: placed before its equals, so earlier motifs stay earlier.
   */
  function InsertByLength(m: Motif, s: seq<Motif>): (r: seq<Motif>)
    ensures |r| == |s| + 1
  {
    if |s| == 0 || PatternLength(m) >= PatternLength(s[0]) then [m] + s
    else [s[0]] + InsertByLength(m, s[1..])
  }

  lemma {:induction false} InsertByLengthPerm(m: Motif, s: seq<Motif>)
    ensures multiset(InsertByLength(m, s)) == multiset(s) + multiset{m}
  {
    if |s| > 0 && PatternLength(m) < PatternLength(s[0]) {
      InsertByLengthPerm(m, s[1..]);
      assert s == [s[0]] + s[1..];
    }
  }

  /**
   * `[...bacteriocinMotifs].sort((a, b) => b.pattern.length - a.pattern.length)`:
   * JavaScript's `Array.prototype.sort` is stable, which this insertion sort is too.
   */
  function SortByPatternLength(cat: seq<Motif>): seq<Motif>
  {
    if |cat| == 0 then [] else InsertByLength(cat[0], SortByPatternLength(cat[1..]))
  }

  predicate LongestFirst(s: seq<Motif>)
  {
    forall i, j :: 0 <= i < j < |s| ==> PatternLength(s[i]) >= PatternLength(s[j])
  }

  /** The motifs of `s` whose display pattern has length `n`, in order. */
  function WithLength(s: seq<Motif>, n: nat): seq<Motif>
  {
    if |s| == 0 then []
    else (if PatternLength(s[0]) == n then [s[0]] else []) + WithLength(s[1..], n)
  }

  lemma {:induction false} InsertLongestFirst(m: Motif, s: seq<Motif>)
    requires LongestFirst(s)
    ensures LongestFirst(InsertByLength(m, s))
  {
    if |s| > 0 && PatternLength(m) < PatternLength(s[0]) {
      InsertLongestFirst(m, s[1..]);
      InsertByLengthPerm(m, s[1..]);
      var r := InsertByLength(m, s[1..]);
      assert InsertByLength(m, s) == [s[0]] + r;
      forall j | 0 <= j < |r| ensures PatternLength(s[0]) >= PatternLength(r[j])
      {
        assert r[j] in multiset(s[1..]) + multiset{m};
        if r[j] != m {
          assert r[j] in s[1..];
        }
      }
    }
  }

  lemma {:induction false} InsertWithLength(m: Motif, s: seq<Motif>, n: nat)
    ensures WithLength(InsertByLength(m, s), n) ==
      (if PatternLength(m) == n then [m] else []) + WithLength(s, n)
  {
    var head := if PatternLength(m) == n then [m] else [];
    if |s| == 0 || PatternLength(m) >= PatternLength(s[0]) {
      var r := [m] + s;
      assert r[0] == m && r[1..] == s;
      assert WithLength(r, n) == head + WithLength(s, n);
    } else {
      var rest := InsertByLength(m, s[1..]);
      var r := [s[0]] + rest;
      var h0 := if PatternLength(s[0]) == n then [s[0]] else [];
      InsertWithLength(m, s[1..], n);
      assert r[0] == s[0] && r[1..] == rest;
      assert WithLength(r, n) == h0 + WithLength(rest, n);
      assert WithLength(s, n) == h0 + WithLength(s[1..], n);
      assert head == [] || h0 == [];
    }
  }

  /**
   * The sort puts longer display patterns first, loses and adds no motif, and
   * keeps the catalog order among motifs whose patterns are equally long.
   */
  lemma {:induction false} SortByPatternLengthCorrect(cat: seq<Motif>)
    ensures LongestFirst(SortByPatternLength(cat))
    ensures multiset(SortByPatternLength(cat)) == multiset(cat)
    ensures forall n: nat :: WithLength(SortByPatternLength(cat), n) == WithLength(cat, n)
  {
    if |cat| > 0 {
      SortByPatternLengthCorrect(cat[1..]);
      InsertLongestFirst(cat[0], SortByPatternLength(cat[1..]));
      InsertByLengthPerm(cat[0], SortByPatternLength(cat[1..]));
      assert cat == [cat[0]] + cat[1..];
      forall n: nat ensures WithLength(SortByPatternLength(cat), n) == WithLength(cat, n)
      {
        InsertWithLength(cat[0], SortByPatternLength(cat[1..]), n);
      }
    }
  }

  // ---------------------------------------------------------------------
  // Step 2: the global regex scan of one motif
  // ---------------------------------------------------------------------

  /** The match `p` is at `text[start..end]`. */
  predicate IsMatch(p: Pattern, t: string, start: nat, end: nat)
  {
    start <= |t| && Backtrack(p, t, start) == Some(end)
  }

  /**
   * `regex.exec(text)` with `lastIndex == from`: the leftmost position at or
   * after `from` where a match starts, and where that match ends.
   */
  function ExecFrom(p: Pattern, t: string, from: nat): (r: Option<(nat, nat)>)
    requires from <= |t|
    ensures r.Some? ==> from <= r.value.0 && IsMatch(p, t, r.value.0, r.value.1)
    ensures forall s :: from <= s <= |t| && (r.None? || s < r.value.0) ==> Backtrack(p, t, s).None?
    decreases |t| - from
  {
    match Backtrack(p, t, from)
    case Some(e) => Some((from, e))
    case None => if from == |t| then None else ExecFrom(p, t, from + 1)
  }

  /**
   * The matches `while ((match = regex.exec(text)) !== null)` visits when it
   * starts from `lastIndex == from`: each search resumes where the last match
   * ended.  Matches are never empty, so the scan moves forward.
   */
  function Scan(m: Motif, t: string, from: nat): (r: seq<Span>)
    requires from <= |t| && WellFormed(m)
    ensures forall k :: 0 <= k < |r| ==>
      r[k].motif == m && from <= r[k].start < r[k].end <= |t| && IsMatch(m.regex, t, r[k].start, r[k].end)
    ensures forall k :: 0 <= k < |r| - 1 ==> r[k].end <= r[k + 1].start
    decreases |t| - from
  {
    match ExecFrom(m.regex, t, from)
    case None => []
    case Some((s, e)) =>
      BacktrackBounds(m.regex, t, s);
      [Span(s, e, m)] + Scan(m, t, e)
  }

  // ---------------------------------------------------------------------
  // Step 3: overlap resolution
  // ---------------------------------------------------------------------

  /** The three-clause overlap test of the source, for a candidate `[s, e)` against kept `p`. */
  predicate Overlaps(s: nat, e: nat, p: Span)
  {
    (s >= p.start && s < p.end) || (e > p.start && e <= p.end) || (s <= p.start && e >= p.end)
  }

  /** `motifPositions.some(...)`: the candidate overlaps some kept span. */
  predicate Clashes(c: Span, kept: seq<Span>)
  {
    exists k :: 0 <= k < |kept| && Overlaps(c.start, c.end, kept[k])
  }

  /** Two half-open intervals share no position. */
  predicate Apart(a: Span, b: Span)
  {
    a.end <= b.start || b.end <= a.start
  }

  /** For non-empty intervals the three-clause test is exactly half-open intersection. */
  lemma OverlapsIsIntersection(c: Span, p: Span)
    requires c.start < c.end && p.start < p.end
    ensures Overlaps(c.start, c.end, p) <==> !Apart(c, p)
  {
  }

  /** Adjacent spans such as `[0, 4)` and `[4, 8)` do not overlap. */
  lemma AdjacentDoNotOverlap(m: Motif, n: Motif, a: nat, b: nat, c: nat)
    requires a < b < c
    ensures !Overlaps(b, c, Span(a, b, m)) && !Overlaps(a, b, Span(b, c, n))
  {
  }

  /** The candidate is pushed onto `motifPositions` unless it clashes. */
  function Keep(c: Span, kept: seq<Span>): seq<Span>
  {
    if Clashes(c, kept) then kept else kept + [c]
  }

  /** The candidates of one motif, tried in scan order against the growing kept list. */
  function AcceptAll(cands: seq<Span>, kept: seq<Span>): seq<Span>
  {
    if |cands| == 0 then kept else AcceptAll(cands[1..], Keep(cands[0], kept))
  }

  /** `sortedMotifs.forEach(...)`: each motif in order, scanned from position 0. */
  function Resolve(order: seq<Motif>, t: string, kept: seq<Span>): seq<Span>
    requires WellFormedCatalog(order)
  {
    if |order| == 0 then kept
    else Resolve(order[1..], t, AcceptAll(Scan(order[0], t, 0), kept))
  }

  /** `motifPositions` after every motif has been scanned. */
  function KeptSpans(cat: seq<Motif>, t: string): seq<Span>
    requires WellFormedCatalog(cat)
  {
    SortedCatalogWellFormed(cat);
    Resolve(SortByPatternLength(cat), t, [])
  }

  // ---------------------------------------------------------------------
  // What the resolution guarantees
  // ---------------------------------------------------------------------

  /** Every span is non-empty and lies inside a text of length `n`. */
  predicate Within(s: seq<Span>, n: nat)
  {
    forall k :: 0 <= k < |s| ==> s[k].start < s[k].end <= n
  }

  /** No two spans share a position. */
  predicate AllApart(s: seq<Span>)
  {
    forall i, j :: 0 <= i < j < |s| ==> Apart(s[i], s[j])
  }

  /** `kept` is an initial part of `r`: nothing kept is ever dropped or moved. */
  predicate Extends(r: seq<Span>, kept: seq<Span>)
  {
    |kept| <= |r| && r[..|kept|] == kept
  }

  /** The candidate `c` overlaps the span at index `k` of `kept`. */
  predicate BlockedBy(c: Span, kept: seq<Span>, k: int)
  {
    0 <= k < |kept| && Overlaps(c.start, c.end, kept[k])
  }

  /**
   * Accepting one motif's candidates keeps the kept spans non-empty, inside
   * the text and pairwise apart.
   */
  lemma {:induction false} AcceptAllCorrect(cands: seq<Span>, kept: seq<Span>, n: nat)
    requires Within(kept, n) && AllApart(kept) && Within(cands, n)
    ensures Within(AcceptAll(cands, kept), n) && AllApart(AcceptAll(cands, kept))
  {
    if |cands| > 0 {
      var c := cands[0];
      var next := Keep(c, kept);
      if !Clashes(c, kept) {
        forall i | 0 <= i < |kept| ensures Apart(kept[i], c)
        {
          OverlapsIsIntersection(c, kept[i]);
        }
      }
      assert Extends(next, kept) && Within(next, n) && AllApart(next);
      assert Within(cands[1..], n);
      AcceptAllCorrect(cands[1..], next, n);
    }
  }

  /**
   * Every candidate ends up kept, or overlapping a span that was kept before
   * this motif's scan or that is one of its own earlier candidates.
   */
  lemma {:induction false} AcceptAllMaximal(cands: seq<Span>, kept: seq<Span>)
    ensures forall c :: c in cands && c !in AcceptAll(cands, kept) ==>
      exists k :: BlockedBy(c, AcceptAll(cands, kept), k) && (k < |kept| || AcceptAll(cands, kept)[k] in cands)
  {
    if |cands| > 0 {
      var c := cands[0];
      var next := Keep(c, kept);
      AcceptAllPrefix(cands[1..], next);
      AcceptAllMaximal(cands[1..], next);
      var r := AcceptAll(cands, kept);
      assert r == AcceptAll(cands[1..], next);
      assert next == r[..|next|];
      forall d | d in cands && d !in r
        ensures exists k :: BlockedBy(d, r, k) && (k < |kept| || r[k] in cands)
      {
        if d == c {
          assert c !in next;
          var k :| 0 <= k < |kept| && Overlaps(c.start, c.end, kept[k]);
          assert r[k] == next[k] == kept[k];
          assert BlockedBy(d, r, k);
        } else {
          assert d in cands[1..];
          var k :| BlockedBy(d, r, k) && (k < |next| || r[k] in cands[1..]);
          if |kept| <= k < |next| {
            assert r[k] == next[k] == c;
          }
        }
      }
    }
  }

  /** Accepting only ever appends, and only candidates. */
  lemma {:induction false} AcceptAllPrefix(cands: seq<Span>, kept: seq<Span>)
    ensures Extends(AcceptAll(cands, kept), kept)
    ensures forall k :: |kept| <= k < |AcceptAll(cands, kept)| ==> AcceptAll(cands, kept)[k] in cands
  {
    if |cands| > 0 {
      var c := cands[0];
      var next := Keep(c, kept);
      AcceptAllPrefix(cands[1..], next);
      var r := AcceptAll(cands, kept);
      assert r == AcceptAll(cands[1..], next);
      assert r[..|kept|] == r[..|next|][..|kept|];
      forall k | |kept| <= k < |r| ensures r[k] in cands
      {
        if k >= |next| {
          assert r[k] in cands[1..];
        } else {
          assert r[k] == next[k] == c;
        }
      }
    }
  }

  /** Every catalog candidate of the motif at `order[i]`, scanned over `t`. */
  predicate IsCandidate(c: Span, order: seq<Motif>, t: string)
    requires WellFormedCatalog(order)
  {
    exists i :: 0 <= i < |order| && c in Scan(order[i], t, 0)
  }

  /**
   * The whole resolution: kept spans are pairwise apart genuine matches of
   * motifs of `order`, and spans kept earlier are never displaced.
   */
  lemma {:induction false} ResolveCorrect(order: seq<Motif>, t: string, kept: seq<Span>)
    requires WellFormedCatalog(order)
    requires Within(kept, |t|) && AllApart(kept)
    ensures Extends(Resolve(order, t, kept), kept)
    ensures Within(Resolve(order, t, kept), |t|) && AllApart(Resolve(order, t, kept))
    ensures forall k :: |kept| <= k < |Resolve(order, t, kept)| ==>
      IsCandidate(Resolve(order, t, kept)[k], order, t)
  {
    if |order| > 0 {
      var cands := Scan(order[0], t, 0);
      var next := AcceptAll(cands, kept);
      AcceptAllCorrect(cands, kept, |t|);
      AcceptAllPrefix(cands, kept);
      var rest := order[1..];
      RestWellFormed(order);
      ResolveCorrect(rest, t, next);
      var r := Resolve(order, t, kept);
      assert r == Resolve(rest, t, next);
      assert r[..|kept|] == r[..|next|][..|kept|];
      forall k | |kept| <= k < |r| ensures IsCandidate(r[k], order, t)
      {
        if k >= |next| {
          var i :| 0 <= i < |rest| && r[k] in Scan(rest[i], t, 0);
          assert rest[i] == order[i + 1];
        } else {
          assert r[k] == next[k] && r[k] in cands;
        }
      }
    }
  }

  lemma RestWellFormed(order: seq<Motif>)
    requires WellFormedCatalog(order) && |order| > 0
    ensures WellFormedCatalog(order[1..])
  {
    forall i | 0 <= i < |order| - 1 ensures WellFormed(order[1..][i]) { assert order[1..][i] == order[i + 1]; }
  }

  /** Resolution only ever appends. */
  lemma {:induction false} ResolvePrefix(order: seq<Motif>, t: string, kept: seq<Span>)
    requires WellFormedCatalog(order)
    ensures Extends(Resolve(order, t, kept), kept)
  {
    if |order| > 0 {
      var next := AcceptAll(Scan(order[0], t, 0), kept);
      AcceptAllPrefix(Scan(order[0], t, 0), kept);
      RestWellFormed(order);
      ResolvePrefix(order[1..], t, next);
      assert Resolve(order, t, kept)[..|kept|] == Resolve(order, t, kept)[..|next|][..|kept|];
    }
  }

  /**
   * Precedence: every match a motif's scan visited is kept, or overlaps a
   * span that was kept before it or that a motif tried no later kept.
   */
  lemma {:induction false} ResolveMaximal(order: seq<Motif>, t: string, kept: seq<Span>)
    requires WellFormedCatalog(order)
    ensures forall i, c :: 0 <= i < |order| && c in Scan(order[i], t, 0) && c !in Resolve(order, t, kept) ==>
      exists k :: BlockedBy(c, Resolve(order, t, kept), k) &&
        (k < |kept| || Resolve(order, t, kept)[k].motif in order[..i + 1])
  {
    if |order| > 0 {
      var cands := Scan(order[0], t, 0);
      var next := AcceptAll(cands, kept);
      var rest := order[1..];
      RestWellFormed(order);
      AcceptAllMaximal(cands, kept);
      AcceptAllPrefix(cands, kept);
      ResolvePrefix(rest, t, next);
      ResolveMaximal(rest, t, next);
      var r := Resolve(order, t, kept);
      assert r == Resolve(rest, t, next);
      forall i, c | 0 <= i < |order| && c in Scan(order[i], t, 0) && c !in r
        ensures exists k :: BlockedBy(c, r, k) && (k < |kept| || r[k].motif in order[..i + 1])
      {
        if i == 0 {
          BlockedInFirst(c, r, next, kept, cands, order);
        } else {
          assert order[i] == rest[i - 1];
          BlockedInRest(c, r, next, kept, cands, order, i);
        }
      }
    }
  }

  /** The first motif's own rejected candidates, seen in the final list. */
  lemma BlockedInFirst(c: Span, r: seq<Span>, next: seq<Span>, kept: seq<Span>, cands: seq<Span>, order: seq<Motif>)
    requires |order| > 0
    requires Extends(r, next) && c in cands && c !in r
    requires forall x :: x in cands && x !in next ==>
      exists k :: BlockedBy(x, next, k) && (k < |kept| || next[k] in cands)
    requires forall k :: 0 <= k < |cands| ==> cands[k].motif == order[0]
    ensures exists k :: BlockedBy(c, r, k) && (k < |kept| || r[k].motif in order[..1])
  {
    assert next == r[..|next|];
    assert c !in next;
    var k :| BlockedBy(c, next, k) && (k < |kept| || next[k] in cands);
    assert r[k] == next[k];
    assert BlockedBy(c, r, k);
    assert k >= |kept| ==> r[k].motif == order[0] == order[..1][0];
  }

  /** A later motif's rejected candidates, seen from one motif earlier. */
  lemma BlockedInRest(c: Span, r: seq<Span>, next: seq<Span>, kept: seq<Span>, cands: seq<Span>, order: seq<Motif>, i: nat)
    requires 0 < i < |order|
    requires Extends(r, next) && Extends(next, kept)
    requires forall k :: 0 <= k < |cands| ==> cands[k].motif == order[0]
    requires forall k :: |kept| <= k < |next| ==> next[k] in cands
    requires exists k :: BlockedBy(c, r, k) && (k < |next| || r[k].motif in order[1..][..i])
    ensures exists k :: BlockedBy(c, r, k) && (k < |kept| || r[k].motif in order[..i + 1])
  {
    var k :| BlockedBy(c, r, k) && (k < |next| || r[k].motif in order[1..][..i]);
    if k >= |next| {
      var j :| 0 <= j < i && order[1..][..i][j] == r[k].motif;
      assert order[..i + 1][j + 1] == r[k].motif;
    } else if k >= |kept| {
      assert r[k] == next[k] && next[k] in cands;
      assert order[..i + 1][0] == r[k].motif;
    }
  }

  // ---------------------------------------------------------------------
  // Step 4: ordering the kept spans and splicing the wrappers in
  // ---------------------------------------------------------------------

  function InsertByStart(x: Span, s: seq<Span>): (r: seq<Span>)
    ensures |r| == |s| + 1
    ensures r[0] == x || (|s| > 0 && r[0] == s[0])
  {
    if |s| == 0 || x.start <= s[0].start then [x] + s
    else [s[0]] + InsertByStart(x, s[1..])
  }

  /** `motifPositions.sort((a, b) => a.start - b.start)`, stable like JavaScript's sort. */
  function SortByStart(s: seq<Span>): seq<Span>
  {
    if |s| == 0 then [] else InsertByStart(s[0], SortByStart(s[1..]))
  }

  lemma {:induction false} InsertByStartPerm(x: Span, s: seq<Span>)
    ensures multiset(InsertByStart(x, s)) == multiset(s) + multiset{x}
  {
    if |s| > 0 && x.start > s[0].start {
      InsertByStartPerm(x, s[1..]);
      assert s == [s[0]] + s[1..];
    }
  }

  /** The sort by start neither adds nor drops a span. */
  lemma {:induction false} SortByStartPerm(s: seq<Span>)
    ensures multiset(SortByStart(s)) == multiset(s)
  {
    if |s| > 0 {
      SortByStartPerm(s[1..]);
      InsertByStartPerm(s[0], SortByStart(s[1..]));
      assert s == [s[0]] + s[1..];
    }
  }

  /** Each span ends before the next one starts: sorted by start and pairwise apart. */
  predicate Chained(s: seq<Span>)
  {
    forall k :: 0 <= k < |s| - 1 ==> s[k].end <= s[k + 1].start
  }

  lemma {:induction false} InsertByStartChained(x: Span, s: seq<Span>)
    requires Chained(s) && x.start < x.end
    requires forall k :: 0 <= k < |s| ==> s[k].start < s[k].end && Apart(x, s[k])
    ensures Chained(InsertByStart(x, s))
  {
    if |s| > 0 && x.start > s[0].start {
      InsertByStartChained(x, s[1..]);
      var r := InsertByStart(x, s[1..]);
      assert r[0] == x || r[0] == s[1];
      assert InsertByStart(x, s) == [s[0]] + r;
    }
  }

  /** Sorting non-empty, pairwise-apart spans by start lines them up end to start. */
  lemma {:induction false} SortByStartChained(s: seq<Span>, n: nat)
    requires Within(s, n) && AllApart(s)
    ensures Chained(SortByStart(s)) && Within(SortByStart(s), n)
  {
    if |s| > 0 {
      var tail := s[1..];
      SortByStartChained(tail, n);
      SortByStartPerm(tail);
      SortByStartPerm(s);
      var sorted := SortByStart(tail);
      forall k | 0 <= k < |sorted| ensures sorted[k].start < sorted[k].end && Apart(s[0], sorted[k])
      {
        assert sorted[k] in multiset(tail);
        var j :| 0 <= j < |tail| && tail[j] == sorted[k];
        assert tail[j] == s[j + 1];
      }
      InsertByStartChained(s[0], sorted);
      var r := SortByStart(s);
      forall k | 0 <= k < |r| ensures r[k].start < r[k].end <= n
      {
        assert r[k] in multiset(s);
      }
    }
  }

  /**
   * The literal stretches of the wrapper template, continuation-line
   * indentation (27 and 34 spaces) and line breaks included.
   */
  const Indent27: string := "                           "
  const Indent34: string := "                                  "
  const ClassOpen: string := "span class=\"bacteriocin-motif "
  const StyleOpen: string := "\" \n" + Indent27 + "style=\"background-color: "
  const BorderOpen: string := "30; \n" + Indent34 + "border-bottom: 2px solid "
  const ColorInherit: string := "; \n" + Indent34 + "color: inherit;\" \n" + Indent27 + "data-motif=\""
  const TooltipOpen: string := "\"\n" + Indent27 + "data-tooltip=\""
  const TitleOpen: string := "\"\n" + Indent27 + "title=\""
  const Quote: string := "\""

  /**
   * What sits between `<` and `>` of the opening tag for `m`, in template
   * order: the classes `bacteriocin-motif <class> <subclass>`, the colour
   * with `30` appended as background and as a 2px bottom border, then
   * `data-motif`, `data-tooltip` and `title="<name>: <tooltip>"`.
   */
  function TagBodyParts(cls: string, subclass: string, color: string, name: string, tooltip: string): seq<string>
  {
    [ClassOpen, cls, " ", subclass, StyleOpen, color, BorderOpen, color,
     ColorInherit, name, TooltipOpen, tooltip, TitleOpen, name, ": ", tooltip, Quote]
  }

  function Concat(parts: seq<string>): string
  {
    if |parts| == 0 then [] else parts[0] + Concat(parts[1..])
  }

  /** The opening `<span ...>` of the wrapper for `m`, character for character. */
  function OpenTag(m: Motif): string
  {
    "<" + Concat(TagBodyParts(m.Class(), m.Subclass(), m.Color(), m.Name(), m.Tooltip())) + ">"
  }

  const CloseTag: string := "</span>"

  /** A stretch of the rendered markup: plain text, or text inside a wrapper for a motif. */
  datatype Piece = Plain(text: string) | Wrapped(motif: Motif, text: string)

  /**
   * The markup of `t[pos..]` with the chained `spans` wrapped: the text
   * before each span, the span inside its wrapper, and the text after the
   * last one.
   */
  function Layout(t: string, spans: seq<Span>, pos: nat): seq<Piece>
    requires Chained(spans) && Within(spans, |t|) && pos <= |t|
    requires |spans| > 0 ==> pos <= spans[0].start
    decreases |spans|, 1
  {
    if |spans| == 0 then [Plain(t[pos..])]
    else [Plain(t[pos..spans[0].start])] + LayoutAfter(t, spans)
  }

  /** The layout from the first span's start on: its wrapper, then the rest. */
  function LayoutAfter(t: string, spans: seq<Span>): seq<Piece>
    requires Chained(spans) && Within(spans, |t|) && |spans| > 0
    decreases |spans|, 0
  {
    [Wrapped(spans[0].motif, t[spans[0].start..spans[0].end])] + Layout(t, spans[1..], spans[0].end)
  }

  /** The characters one piece becomes, `tag` giving each motif's opening tag. */
  function Markup(p: Piece, tag: Motif -> string): string
  {
    match p
    case Plain(s) => s
    case Wrapped(m, s) => tag(m) + s + CloseTag
  }

  /** The characters a piece sequence becomes. */
  function Serialize(ps: seq<Piece>, tag: Motif -> string): string
  {
    if |ps| == 0 then [] else Markup(ps[0], tag) + Serialize(ps[1..], tag)
  }

  /** The text a reader sees: the pieces without their wrappers. */
  function Content(ps: seq<Piece>): string
  {
    if |ps| == 0 then [] else ps[0].text + Content(ps[1..])
  }

  /** The wrapped pieces, in order. */
  function Wrappers(ps: seq<Piece>): seq<Piece>
  {
    if |ps| == 0 then [] else (if ps[0].Wrapped? then [ps[0]] else []) + Wrappers(ps[1..])
  }

  /** `newHTML` after the reverse splice over the chained spans. */
  function Render(t: string, spans: seq<Span>): string
    requires Chained(spans) && Within(spans, |t|)
  {
    Serialize(Layout(t, spans, 0), OpenTag)
  }

  lemma {:induction false} SerializeAppend(a: seq<Piece>, b: seq<Piece>, tag: Motif -> string)
    ensures Serialize(a + b, tag) == Serialize(a, tag) + Serialize(b, tag)
  {
    if |a| == 0 {
      assert a + b == b;
    } else {
      var ab := a + b;
      assert ab[0] == a[0] && ab[1..] == a[1..] + b;
      SerializeAppend(a[1..], b, tag);
    }
  }

  lemma SerializeCons(x: Piece, rest: seq<Piece>, tag: Motif -> string)
    ensures Serialize([x] + rest, tag) == Markup(x, tag) + Serialize(rest, tag)
  {
    assert ([x] + rest)[0] == x && ([x] + rest)[1..] == rest;
  }

  /**
   * The layout preserves the text: taking the wrappers away leaves exactly
   * `t[pos..]`, and the k-th wrapper encloses exactly `t[start..end)` of the
   * k-th span, for that span's motif.
   */
  lemma {:induction false} LayoutFaithful(t: string, spans: seq<Span>, pos: nat)
    requires Chained(spans) && Within(spans, |t|) && pos <= |t|
    requires |spans| > 0 ==> pos <= spans[0].start
    ensures Content(Layout(t, spans, pos)) == t[pos..]
    ensures |Wrappers(Layout(t, spans, pos))| == |spans|
    ensures forall k :: 0 <= k < |spans| ==>
      Wrappers(Layout(t, spans, pos))[k] == Wrapped(spans[k].motif, t[spans[k].start..spans[k].end])
    decreases |spans|
  {
    if |spans| > 0 {
      var sp := spans[0];
      var w := Wrapped(sp.motif, t[sp.start..sp.end]);
      var rest := Layout(t, spans[1..], sp.end);
      LayoutFaithful(t, spans[1..], sp.end);
      var l := Layout(t, spans, pos);
      assert l == [Plain(t[pos..sp.start])] + ([w] + rest);
      assert l[1..] == [w] + rest && ([w] + rest)[1..] == rest;
      assert Content(l) == t[pos..sp.start] + (t[sp.start..sp.end] + Content(rest));
      assert t[pos..] == t[pos..sp.start] + (t[sp.start..sp.end] + t[sp.end..]);
      assert Wrappers(l) == [w] + Wrappers(rest);
    }
  }

  /** Where the plain text before the first wrapper stops. */
  function NextStart(t: string, spans: seq<Span>): nat
    requires Within(spans, |t|)
  {
    if |spans| == 0 then |t| else spans[0].start
  }

  /** The pieces after the leading plain text. */
  function AfterGap(t: string, spans: seq<Span>): seq<Piece>
    requires Chained(spans) && Within(spans, |t|)
  {
    if |spans| == 0 then [] else LayoutAfter(t, spans)
  }

  lemma LayoutGap(t: string, spans: seq<Span>, pos: nat)
    requires Chained(spans) && Within(spans, |t|) && pos <= NextStart(t, spans)
    ensures Layout(t, spans, pos) == [Plain(t[pos..NextStart(t, spans)])] + AfterGap(t, spans)
  {
    if |spans| == 0 {
      assert t[pos..|t|] == t[pos..];
      assert [Plain(t[pos..])] + [] == [Plain(t[pos..])];
    }
  }

  /** Starting the layout later moves plain text out of it and changes nothing else. */
  lemma LayoutShift(t: string, spans: seq<Span>, p: nat, q: nat, tag: Motif -> string)
    requires Chained(spans) && Within(spans, |t|) && p <= q <= NextStart(t, spans)
    ensures Serialize(Layout(t, spans, p), tag) == t[p..q] + Serialize(Layout(t, spans, q), tag)
  {
    var e := NextStart(t, spans);
    var rest := AfterGap(t, spans);
    LayoutGap(t, spans, p);
    LayoutGap(t, spans, q);
    SerializeCons(Plain(t[p..e]), rest, tag);
    SerializeCons(Plain(t[q..e]), rest, tag);
    SliceJoin(t, p, q, e, Serialize(rest, tag));
  }

  /** Text from `p` to `e`, then `r`, is the text up to `q`, then the rest. */
  lemma SliceJoin(t: string, p: nat, q: nat, e: nat, r: string)
    requires p <= q <= e <= |t|
    ensures t[p..e] + r == t[p..q] + (t[q..e] + r)
  {
    assert t[p..e] == t[p..q] + t[q..e];
  }

  /** Each wrapper adds at least its closing tag. */
  lemma {:induction false} LayoutLength(t: string, spans: seq<Span>, pos: nat, tag: Motif -> string)
    requires Chained(spans) && Within(spans, |t|) && pos <= |t|
    requires |spans| > 0 ==> pos <= spans[0].start
    ensures |Serialize(Layout(t, spans, pos), tag)| >= |t| - pos + |spans| * |CloseTag|
    ensures |spans| == 0 ==> Serialize(Layout(t, spans, pos), tag) == t[pos..]
    decreases |spans|
  {
    if |spans| > 0 {
      var sp := spans[0];
      var w := Wrapped(sp.motif, t[sp.start..sp.end]);
      var rest := Layout(t, spans[1..], sp.end);
      LayoutLength(t, spans[1..], sp.end, tag);
      assert Layout(t, spans, pos) == [Plain(t[pos..sp.start])] + ([w] + rest);
      SerializeCons(Plain(t[pos..sp.start]), [w] + rest, tag);
      SerializeCons(w, rest, tag);
      assert |Markup(w, tag)| >= sp.end - sp.start + |CloseTag|;
    }
  }

  /** The markup differs from the text exactly when some span was kept. */
  lemma RenderChangesIffKept(t: string, spans: seq<Span>)
    requires Chained(spans) && Within(spans, |t|)
    ensures Render(t, spans) == t <==> |spans| == 0
  {
    var out := Serialize(Layout(t, spans, 0), OpenTag);
    LayoutLength(t, spans, 0, OpenTag);
    if |spans| == 0 {
      assert out == t[0..] == t;
    } else {
      assert |out| >= |t| + |CloseTag| > |t|;
    }
  }

  // ---------------------------------------------------------------------
  // The text survives the splice
  // ---------------------------------------------------------------------

  /**
   * The text a browser shows for markup made of `<...>` tags and plain
   * characters: every tag, from `<` to the next `>`, is dropped.
   */
  function StripTags(s: string): string
    decreases |s|
  {
    if |s| == 0 then []
    else if s[0] != '<' then [s[0]] + StripTags(s[1..])
    else match IndexOf(s, '>')
      case None => []
      case Some(k) => StripTags(s[k + 1..])
  }

  /** A single tag: `<`, then no `>`, then `>`. */
  predicate IsTag(s: string)
  {
    |s| >= 2 && s[0] == '<' && s[|s| - 1] == '>' && '>' !in s[1..|s| - 1]
  }

  lemma {:induction false} StripPlain(x: string, rest: string)
    requires '<' !in x
    ensures StripTags(x + rest) == x + StripTags(rest)
  {
    if |x| > 0 {
      assert (x + rest)[0] == x[0] && (x + rest)[1..] == x[1..] + rest;
      StripPlain(x[1..], rest);
      assert x == [x[0]] + x[1..];
    } else {
      assert x + rest == rest;
    }
  }

  lemma StripTag(tag: string, rest: string)
    requires IsTag(tag)
    ensures StripTags(tag + rest) == StripTags(rest)
  {
    var s := tag + rest;
    var k := |tag| - 1;
    assert s[0] == '<' && s[k] == '>';
    assert s[..k] == tag[..k] == ['<'] + tag[1..k];
    assert IndexOf(s, '>') == Some(k);
    assert s[k + 1..] == rest;
  }

  lemma {:induction false} ConcatAvoids(parts: seq<string>, c: char)
    requires forall i :: 0 <= i < |parts| ==> c !in parts[i]
    ensures c !in Concat(parts)
  {
    if |parts| > 0 {
      ConcatAvoids(parts[1..], c);
    }
  }

  lemma TemplateHasNoTagEnd()
    ensures '>' !in ClassOpen && '>' !in StyleOpen && '>' !in BorderOpen
    ensures '>' !in ColorInherit && '>' !in TooltipOpen && '>' !in TitleOpen
  {
    assert '>' !in Indent27 && '>' !in Indent34;
  }

  /** With attribute values free of `>`, the opening tag is a single `<...>` tag. */
  lemma TagIsTag(cls: string, subclass: string, color: string, name: string, tooltip: string)
    requires NoAngle(cls) && NoAngle(subclass) && NoAngle(color) && NoAngle(name) && NoAngle(tooltip)
    ensures IsTag("<" + Concat(TagBodyParts(cls, subclass, color, name, tooltip)) + ">")
  {
    TemplateHasNoTagEnd();
    var parts := TagBodyParts(cls, subclass, color, name, tooltip);
    ConcatAvoids(parts, '>');
    var s := "<" + Concat(parts) + ">";
    assert s[1..|s| - 1] == Concat(parts);
  }

  lemma OpenTagIsTag(m: Motif)
    requires PlainFields(m)
    ensures IsTag(OpenTag(m))
  {
    TagIsTag(m.Class(), m.Subclass(), m.Color(), m.Name(), m.Tooltip());
  }

  /** A wrapper around plain text leaves only the text behind. */
  lemma StripWrapper(open: string, x: string, rest: string)
    requires IsTag(open) && '<' !in x
    ensures StripTags(open + x + CloseTag + rest) == x + StripTags(rest)
  {
    assert IsTag(CloseTag);
    calc {
      StripTags(open + x + CloseTag + rest);
      { assert open + x + CloseTag + rest == open + (x + (CloseTag + rest)); }
      StripTags(open + (x + (CloseTag + rest)));
      { StripTag(open, x + (CloseTag + rest)); }
      StripTags(x + (CloseTag + rest));
      { StripPlain(x, CloseTag + rest); }
      x + StripTags(CloseTag + rest);
      { StripTag(CloseTag, rest); }
      x + StripTags(rest);
    }
  }

  /** Dropping the tags from a piece sequence leaves its content. */
  lemma {:induction false} StripSerialize(ps: seq<Piece>, tag: Motif -> string)
    requires forall i :: 0 <= i < |ps| ==> '<' !in ps[i].text
    requires forall i :: 0 <= i < |ps| && ps[i].Wrapped? ==> IsTag(tag(ps[i].motif))
    ensures StripTags(Serialize(ps, tag)) == Content(ps)
  {
    if |ps| > 0 {
      var tail := ps[1..];
      StripSerialize(tail, tag);
      var rest := Serialize(tail, tag);
      assert Serialize(ps, tag) == Markup(ps[0], tag) + rest;
      assert Content(ps) == ps[0].text + Content(tail);
      match ps[0]
      case Plain(x) =>
        StripPlain(x, rest);
      case Wrapped(m, x) =>
        StripWrapper(tag(m), x, rest);
    }
  }

  /** Every piece of the layout is a stretch of the text, and every wrapper is for a span's motif. */
  lemma {:induction false} LayoutPieces(t: string, spans: seq<Span>, pos: nat)
    requires Chained(spans) && Within(spans, |t|) && pos <= |t|
    requires |spans| > 0 ==> pos <= spans[0].start
    ensures forall i :: 0 <= i < |Layout(t, spans, pos)| ==>
      (forall c :: c in Layout(t, spans, pos)[i].text ==> c in t)
    ensures forall i :: 0 <= i < |Layout(t, spans, pos)| && Layout(t, spans, pos)[i].Wrapped? ==>
      exists k :: 0 <= k < |spans| && Layout(t, spans, pos)[i].motif == spans[k].motif
    decreases |spans|
  {
    if |spans| > 0 {
      var sp := spans[0];
      LayoutPieces(t, spans[1..], sp.end);
      var l := Layout(t, spans, pos);
      var rest := Layout(t, spans[1..], sp.end);
      assert l == [Plain(t[pos..sp.start]), Wrapped(sp.motif, t[sp.start..sp.end])] + rest;
      forall i | 0 <= i < |l| && l[i].Wrapped?
        ensures exists k :: 0 <= k < |spans| && l[i].motif == spans[k].motif
      {
        if i >= 2 {
          assert l[i] == rest[i - 2];
          var k :| 0 <= k < |spans[1..]| && rest[i - 2].motif == spans[1..][k].motif;
          assert spans[1..][k] == spans[k + 1];
        } else {
          assert l[i].motif == spans[0].motif;
        }
      }
      forall i, c | 0 <= i < |l| && c in l[i].text ensures c in t
      {
        if i >= 2 {
          assert l[i] == rest[i - 2];
        }
      }
    }
  }

  /** Text without markup characters: what the re-parse in the source leaves unchanged. */
  predicate NoMarkup(t: string)
  {
    '<' !in t && '&' !in t && '\r' !in t && '\0' !in t
  }

  /**
   * Deleting the inserted wrappers from `newHTML` gives back the original
   * text, provided the motifs' attribute values hold no angle bracket.
   */
  lemma RenderPreservesText(t: string, spans: seq<Span>)
    requires NoMarkup(t) && Chained(spans) && Within(spans, |t|)
    requires forall k :: 0 <= k < |spans| ==> PlainFields(spans[k].motif)
    ensures StripTags(Render(t, spans)) == t
  {
    var ps := Layout(t, spans, 0);
    LayoutFaithful(t, spans, 0);
    LayoutPieces(t, spans, 0);
    forall i | 0 <= i < |ps| && ps[i].Wrapped? ensures IsTag(OpenTag(ps[i].motif))
    {
      var k :| 0 <= k < |spans| && ps[i].motif == spans[k].motif;
      OpenTagIsTag(spans[k].motif);
    }
    StripSerialize(ps, OpenTag);
  }

  // ---------------------------------------------------------------------
  // The whole annotation of one text
  // ---------------------------------------------------------------------

  lemma SortedCatalogWellFormed(cat: seq<Motif>)
    requires WellFormedCatalog(cat)
    ensures WellFormedCatalog(SortByPatternLength(cat))
    ensures multiset(SortByPatternLength(cat)) == multiset(cat) && LongestFirst(SortByPatternLength(cat))
  {
    SortByPatternLengthCorrect(cat);
    forall i | 0 <= i < |SortByPatternLength(cat)| ensures WellFormed(SortByPatternLength(cat)[i])
    {
      assert SortByPatternLength(cat)[i] in multiset(cat);
    }
  }

  /** The kept spans in start order, as the splice walks them (backwards). */
  function MotifSpans(cat: seq<Motif>, t: string): (r: seq<Span>)
    requires WellFormedCatalog(cat)
    ensures Chained(r) && Within(r, |t|)
  {
    SortedCatalogWellFormed(cat);
    ResolveCorrect(SortByPatternLength(cat), t, []);
    SortByStartChained(KeptSpans(cat, t), |t|);
    SortByStart(KeptSpans(cat, t))
  }

  /** The start-order sort neither adds nor drops a span. */
  lemma SameSpans(cat: seq<Motif>, t: string)
    requires WellFormedCatalog(cat)
    ensures forall s :: s in MotifSpans(cat, t) <==> s in KeptSpans(cat, t)
  {
    var r := MotifSpans(cat, t);
    SortByStartPerm(KeptSpans(cat, t));
    forall s ensures s in r <==> s in KeptSpans(cat, t)
    {
      assert s in r <==> s in multiset(r);
    }
  }

  /** Every span is a match of a catalog motif's regex at exactly its interval. */
  lemma AnnotationGenuine(cat: seq<Motif>, t: string)
    requires WellFormedCatalog(cat)
    ensures forall s :: s in MotifSpans(cat, t) ==>
      s.motif in cat && IsMatch(s.motif.regex, t, s.start, s.end)
  {
    var order := SortByPatternLength(cat);
    SortedCatalogWellFormed(cat);
    var kept := Resolve(order, t, []);
    ResolveCorrect(order, t, []);
    SameSpans(cat, t);
    forall s | s in MotifSpans(cat, t) ensures s.motif in cat && IsMatch(s.motif.regex, t, s.start, s.end)
    {
      var k :| 0 <= k < |kept| && kept[k] == s;
      assert IsCandidate(kept[k], order, t);
      var i :| 0 <= i < |order| && s in Scan(order[i], t, 0);
      assert order[i] in multiset(cat);
    }
  }

  /** Kept spans share no position. */
  lemma AnnotationApart(cat: seq<Motif>, t: string)
    requires WellFormedCatalog(cat)
    ensures AllApart(MotifSpans(cat, t))
  {
    ChainedApart(MotifSpans(cat, t));
  }

  /**
   * Precedence by pattern length: a match that was not kept overlaps a kept
   * span whose motif's display pattern is at least as long.
   */
  lemma AnnotationPrecedence(cat: seq<Motif>, t: string)
    requires WellFormedCatalog(cat)
    ensures forall i, c :: 0 <= i < |cat| && c in Scan(cat[i], t, 0) && c !in MotifSpans(cat, t) ==>
      exists s :: s in MotifSpans(cat, t) && Overlaps(c.start, c.end, s) && PatternLength(s.motif) >= PatternLength(cat[i])
  {
    var order := SortByPatternLength(cat);
    SortedCatalogWellFormed(cat);
    ResolveMaximal(order, t, []);
    SameSpans(cat, t);
    PrecedenceTransfer(cat, order, Resolve(order, t, []), MotifSpans(cat, t), t);
  }

  lemma PrecedenceTransfer(cat: seq<Motif>, order: seq<Motif>, kept: seq<Span>, r: seq<Span>, t: string)
    requires WellFormedCatalog(cat) && WellFormedCatalog(order)
    requires multiset(order) == multiset(cat) && LongestFirst(order)
    requires forall s :: s in r <==> s in kept
    requires forall j, c :: 0 <= j < |order| && c in Scan(order[j], t, 0) && c !in kept ==>
      exists k :: BlockedBy(c, kept, k) && (k < 0 || kept[k].motif in order[..j + 1])
    ensures forall i, c :: 0 <= i < |cat| && c in Scan(cat[i], t, 0) && c !in r ==>
      exists s :: s in r && Overlaps(c.start, c.end, s) && PatternLength(s.motif) >= PatternLength(cat[i])
  {
    forall i, c | 0 <= i < |cat| && c in Scan(cat[i], t, 0) && c !in r
      ensures exists s :: s in r && Overlaps(c.start, c.end, s) && PatternLength(s.motif) >= PatternLength(cat[i])
    {
      assert cat[i] in multiset(order);
      var j :| 0 <= j < |order| && order[j] == cat[i];
      assert c in Scan(order[j], t, 0) && c !in kept;
      BlockedByLonger(order, kept, r, c, j);
    }
  }

  lemma BlockedByLonger(order: seq<Motif>, kept: seq<Span>, r: seq<Span>, c: Span, i: nat)
    requires i < |order| && LongestFirst(order)
    requires exists k :: BlockedBy(c, kept, k) && kept[k].motif in order[..i + 1]
    requires forall s :: s in r <==> s in kept
    ensures exists s :: s in r && Overlaps(c.start, c.end, s) && PatternLength(s.motif) >= PatternLength(order[i])
  {
    var k :| BlockedBy(c, kept, k) && kept[k].motif in order[..i + 1];
    var j :| 0 <= j <= i && order[..i + 1][j] == kept[k].motif;
    assert order[j] == kept[k].motif;
    assert kept[k] in r;
  }

  /** Chained non-empty spans share no position. */
  lemma ChainedApart(s: seq<Span>)
    requires Chained(s) && forall k :: 0 <= k < |s| ==> s[k].start < s[k].end
    ensures AllApart(s)
  {
    forall i, j | 0 <= i < j < |s| ensures Apart(s[i], s[j])
    {
      ChainedOrdered(s, i, j);
    }
  }

  lemma {:induction false} ChainedOrdered(s: seq<Span>, i: nat, j: nat)
    requires Chained(s) && (forall k :: 0 <= k < |s| ==> s[k].start < s[k].end) && i < j < |s|
    ensures s[i].end <= s[j].start
    decreases j - i
  {
    if i + 1 < j {
      ChainedOrdered(s, i + 1, j);
    }
  }

  // ---------------------------------------------------------------------
  // Step 5: the container
  // ---------------------------------------------------------------------

  /**
   * A sequence container on the page: its `textContent`, its `innerHTML`,
   * whether it carries `data-motifs-processed="true"`, and what the MSA
   * exclusion test reads (its classes, its id and its parent element).
   */
  class DomElement {
    var text: string
    var html: string
    var processed: bool
    var classes: seq<string>
    var id: string
    var parent: DomElement?

    /** A fresh element holding only text, with no marker. */
    constructor (text: string, classes: seq<string>, id: string, parent: DomElement?)
      ensures this.text == text && html == text && !processed
      ensures this.classes == classes && this.id == id && this.parent == parent
    {
      this.text := text;
      html := text;
      processed := false;
      this.classes := classes;
      this.id := id;
      this.parent := parent;
    }

    /** The part of the element the annotator reads and writes. */
    function State(): ContainerState
      reads this
    {
      ContainerState(text, html, processed)
    }
  }

  datatype ContainerState = ContainerState(text: string, html: string, processed: bool)

  /**
   * What `highlightMotifs` does to one container: a marked container is
   * left alone; otherwise the markup is computed and, only when it differs
   * from the text, stored together with the marker.
   */
  function Highlight(cat: seq<Motif>, c: ContainerState): ContainerState
    requires WellFormedCatalog(cat)
  {
    if c.processed then c
    else
      var markup := Render(c.text, MotifSpans(cat, c.text));
      if markup != c.text then ContainerState(c.text, markup, true) else c
  }

  /**
   * The text is never touched; a marked container is left as it is; an
   * unmarked one is rewritten and marked exactly when some motif span was
   * kept, and otherwise stays unmarked and unchanged.
   */
  lemma HighlightEffect(cat: seq<Motif>, c: ContainerState)
    requires WellFormedCatalog(cat)
    ensures Highlight(cat, c).text == c.text
    ensures c.processed ==> Highlight(cat, c) == c
    ensures !c.processed ==>
      (Highlight(cat, c).processed <==> |MotifSpans(cat, c.text)| > 0) &&
      (Highlight(cat, c).processed ==> Highlight(cat, c).html == Render(c.text, MotifSpans(cat, c.text))) &&
      (!Highlight(cat, c).processed ==> Highlight(cat, c) == c)
  {
    RenderChangesIffKept(c.text, MotifSpans(cat, c.text));
  }

  /** Highlighting twice is highlighting once: the marker makes the second call a no-op. */
  lemma HighlightIdempotent(cat: seq<Motif>, c: ContainerState)
    requires WellFormedCatalog(cat)
    ensures Highlight(cat, Highlight(cat, c)) == Highlight(cat, c)
  {
  }

  /**
   * The scan-and-resolve loops of `highlightMotifs`: the motifs in
   * pattern-length order, each regex run with `exec` from `lastIndex = 0`,
   * every match pushed onto `motifPositions` unless it overlaps a span
   * already there.
   */
  method CollectSpans(cat: seq<Motif>, text: string) returns (positions: seq<Span>)
    requires WellFormedCatalog(cat)
    ensures positions == KeptSpans(cat, text)
  {
    var sorted := SortByPatternLength(cat);
    SortedCatalogWellFormed(cat);
    positions := [];
    var j := 0;
    while j < |sorted|
      invariant 0 <= j <= |sorted|
      invariant WellFormedCatalog(sorted[j..])
      invariant Resolve(sorted[j..], text, positions) == Resolve(sorted, text, [])
    {
      positions := ScanMotif(sorted[j], text, positions);
      assert sorted[j..][1..] == sorted[j + 1..];
      j := j + 1;
    }
  }

  /**
   * The `exec` loop of one motif, from `lastIndex` 0: each match is kept
   * unless it overlaps a position already kept.
   */
  method ScanMotif(motif: Motif, text: string, kept: seq<Span>) returns (positions: seq<Span>)
    requires WellFormed(motif)
    ensures positions == AcceptAll(Scan(motif, text, 0), kept)
  {
    positions := kept;
    var lastIndex := 0;
    var found := ExecFrom(motif.regex, text, lastIndex);
    while found.Some?
      invariant lastIndex <= |text|
      invariant found == ExecFrom(motif.regex, text, lastIndex)
      invariant AcceptAll(Scan(motif, text, lastIndex), positions) == AcceptAll(Scan(motif, text, 0), kept)
      decreases |text| - lastIndex
    {
      var (startPos, endPos) := found.value;
      BacktrackBounds(motif.regex, text, startPos);
      var isOverlapping := exists k :: 0 <= k < |positions| && Overlaps(startPos, endPos, positions[k]);
      if !isOverlapping {
        positions := positions + [Span(startPos, endPos, motif)];
      }
      lastIndex := endPos;
      found := ExecFrom(motif.regex, text, lastIndex);
    }
  }

  /**
   * The reverse splice: from the last span to the first, the text before
   * the span, the opening tag, the matched text, `</span>`, and everything
   * after it, which already holds the wrappers of the later spans.
   */
  method Splice(text: string, positions: seq<Span>) returns (newHtml: string)
    requires Chained(positions) && Within(positions, |text|)
    ensures newHtml == Render(text, positions)
  {
    newHtml := text;
    var i := |positions|;
    LayoutLength(text, [], 0, OpenTag);
    while i > 0
      invariant 0 <= i <= |positions|
      invariant newHtml == Serialize(Layout(text, positions[i..], 0), OpenTag)
    {
      i := i - 1;
      var pos := positions[i];
      SpliceStep(text, positions, i, OpenTag);
      var beforeMatch := newHtml[..pos.start];
      var matchText := newHtml[pos.start..pos.end];
      var afterMatch := newHtml[pos.end..];
      newHtml := beforeMatch + OpenTag(pos.motif) + matchText + CloseTag + afterMatch;
    }
  }

  /**
   * One splice step: span `i` lies in the plain text ahead of the later
   * wrappers, so cutting the markup at its interval and wrapping the middle
   * gives the layout that also wraps span `i`.
   */
  lemma SpliceStep(text: string, positions: seq<Span>, i: nat, tag: Motif -> string)
    requires Chained(positions) && Within(positions, |text|) && i < |positions|
    ensures var h := Serialize(Layout(text, positions[i + 1..], 0), tag);
      positions[i].end <= |h| &&
      h[..positions[i].start] + tag(positions[i].motif) + h[positions[i].start..positions[i].end] + CloseTag +
      h[positions[i].end..] == Serialize(Layout(text, positions[i..], 0), tag)
  {
    var sp := positions[i];
    var later := Serialize(Layout(text, positions[i + 1..], sp.end), tag);
    var h := Serialize(Layout(text, positions[i + 1..], 0), tag);
    assert h == text[..sp.end] + later by {
      assert positions[i + 1..] == [] || positions[i + 1..][0] == positions[i + 1];
      LayoutShift(text, positions[i + 1..], 0, sp.end, tag);
      assert text[0..sp.end] == text[..sp.end];
    }
    SpliceCuts(text, sp.end, later, sp.start, sp.end);
    var o, x := tag(sp.motif), text[sp.start..sp.end];
    assert Serialize(Layout(text, positions[i..], 0), tag) == text[..sp.start] + (o + x + CloseTag + later) by {
      LayoutFrom(text, positions, i, 0, tag);
      assert text[0..sp.start] == text[..sp.start];
    }
    Regroup(text[..sp.start], o, x, later);
  }

  /** Cutting markup that starts with an untouched stretch of the text. */
  lemma SpliceCuts(text: string, b: nat, later: string, s: nat, e: nat)
    requires s <= e <= b <= |text|
    ensures (text[..b] + later)[..s] == text[..s]
    ensures (text[..b] + later)[s..e] == text[s..e]
    ensures e == b ==> (text[..b] + later)[e..] == later
  {
  }

  /** The layout of the spans from `i` on, from a position before span `i`. */
  lemma LayoutFrom(text: string, positions: seq<Span>, i: nat, a: nat, tag: Motif -> string)
    requires Chained(positions) && Within(positions, |text|) && i < |positions| && a <= positions[i].start
    ensures Serialize(Layout(text, positions[i..], a), tag) ==
      text[a..positions[i].start] +
      (tag(positions[i].motif) + text[positions[i].start..positions[i].end] + CloseTag +
       Serialize(Layout(text, positions[i + 1..], positions[i].end), tag))
  {
    var sp := positions[i];
    var rest := positions[i..];
    var tail := Layout(text, positions[i + 1..], sp.end);
    assert rest[0] == sp && rest[1..] == positions[i + 1..];
    var w := Wrapped(sp.motif, text[sp.start..sp.end]);
    assert Layout(text, rest, a) == [Plain(text[a..sp.start])] + ([w] + tail);
    SerializeCons(Plain(text[a..sp.start]), [w] + tail, tag);
    SerializeCons(w, tail, tag);
  }

  lemma Regroup(pre: string, o: string, x: string, later: string)
    ensures pre + (o + x + CloseTag + later) == pre + o + x + CloseTag + later
  {
    Associative(pre, o + x + CloseTag, later);
    Associative(pre, o + x, CloseTag);
    Associative(pre, o, x);
  }

  lemma Associative(a: string, b: string, c: string)
    ensures a + (b + c) == a + b + c
  {
  }

  /** `highlightMotifs` on one container. */
  method HighlightContainer(c: DomElement, cat: seq<Motif>)
    requires WellFormedCatalog(cat) && NoMarkup(c.text)
    modifies c`html, c`processed
    ensures c.State() == Highlight(cat, old(c.State()))
  {
    if c.processed {
      return;
    }
    var originalText := c.text;
    var positions := CollectSpans(cat, originalText);
    positions := SortByStart(positions);
    assert positions == MotifSpans(cat, originalText);
    var newHtml := Splice(originalText, positions);
    if newHtml != originalText {
      c.html := newHtml;
      c.processed := true;
    }
  }

  /**
   * `document.querySelectorAll(...).forEach(...)`: every container, each
   * listed once, in document order.
   */
  method HighlightAll(containers: seq<DomElement>, cat: seq<Motif>)
    requires WellFormedCatalog(cat)
    requires forall k :: 0 <= k < |containers| ==> NoMarkup(containers[k].text)
    requires forall j, k :: 0 <= j < k < |containers| ==> containers[j] != containers[k]
    modifies containers`html, containers`processed
    ensures forall k :: 0 <= k < |containers| ==>
      containers[k].State() == Highlight(cat, old(containers[k].State()))
  {
    var i := 0;
    while i < |containers|
      invariant 0 <= i <= |containers|
      invariant forall k :: 0 <= k < i ==> containers[k].State() == Highlight(cat, old(containers[k].State()))
      invariant forall k :: i <= k < |containers| ==> containers[k].State() == old(containers[k].State())
    {
      label before:
      HighlightContainer(containers[i], cat);
      forall k | 0 <= k < |containers| && k != i
        ensures containers[k].State() == old@before(containers[k].State())
      {
        assert containers[k] != containers[i];
      }
      i := i + 1;
    }
  }
}
