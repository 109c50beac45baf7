/**
 * Worked instances of the annotator on concrete catalogs and texts.
 */
module AnnotatorExamples {
  import opened Text
  import opened Motifs
  import opened Annotator

  /** The pattern lengths of the catalog, in catalog order. */
  lemma CatalogLengths()
    ensures |Catalog| == 12
    ensures forall i :: 0 <= i < |Catalog| ==>
      PatternLength(Catalog[i]) == [4, 5, 3, 5, 4, 10, 5, 18, 3, 4, 8, 8][i]
  {
  }

  /** A motif whose pattern is strictly longer than every other one is tried first. */
  lemma UniqueLongestFirst(cat: seq<Motif>, i: nat)
    requires i < |cat|
    requires forall j :: 0 <= j < |cat| && j != i ==> PatternLength(cat[j]) < PatternLength(cat[i])
    ensures |SortByPatternLength(cat)| == |cat| && SortByPatternLength(cat)[0] == cat[i]
  {
    var sorted := SortByPatternLength(cat);
    SortByPatternLengthCorrect(cat);
    assert |sorted| == |multiset(sorted)| == |cat|;
    assert cat[i] in multiset(sorted);
    var j :| 0 <= j < |sorted| && sorted[j] == cat[i];
    assert PatternLength(sorted[0]) >= PatternLength(cat[i]);
    assert sorted[0] in multiset(cat);
    var k :| 0 <= k < |cat| && cat[k] == sorted[0];
    assert k == i;
  }

  /** The signal peptide, whose 18-character pattern is the longest, is tried first. */
  lemma SignalPeptideFirst()
    ensures SortByPatternLength(Catalog)[0] == Entry(SignalPeptide)
  {
    CatalogLengths();
    assert Catalog[7] == Entry(SignalPeptide);
    UniqueLongestFirst(Catalog, 7);
  }

  const Hahh: string := "HAHH"

  /** HxxH's only match in "HAHH" is the whole text. */
  lemma HxxHScan()
    ensures Scan(Entry(CatalyticHxxH), Hahh, 0) == [Span(0, 4, Entry(CatalyticHxxH))]
  {
    var m := Entry(CatalyticHxxH);
    var p := m.regex;
    assert p == [L('H'), U, U, L('H')];
    assert p[1..] == [U, U, L('H')] && p[1..][1..] == [U, L('H')] && p[1..][1..][1..] == [L('H')];
    assert Backtrack(p[1..][1..][1..], Hahh, 3) == Some(4);
    assert Backtrack(p[1..][1..], Hahh, 2) == Some(4);
    assert Backtrack(p[1..], Hahh, 1) == Some(4);
    assert Backtrack(p, Hahh, 0) == Some(4);
    assert ExecFrom(p, Hahh, 0) == Some((0, 4));
    assert ExecFrom(p, Hahh, 4) == None;
    assert Scan(m, Hahh, 4) == [];
  }

  /** HxH matches "HAHH" at [0, 3); the scan resumes at 3, where no match starts. */
  lemma HxHScan()
    ensures Scan(Entry(CatalyticHxH), Hahh, 0) == [Span(0, 3, Entry(CatalyticHxH))]
  {
    var m := Entry(CatalyticHxH);
    var p := m.regex;
    assert p == [L('H'), U, L('H')];
    assert p[1..] == [U, L('H')] && p[1..][1..] == [L('H')];
    assert Backtrack(p[1..][1..], Hahh, 2) == Some(3);
    assert Backtrack(p, Hahh, 0) == Some(3);
    assert ExecFrom(p, Hahh, 0) == Some((0, 3));
    assert Backtrack(p[1..], Hahh, 4) == None;
    assert Backtrack(p, Hahh, 3) == None;
    assert Backtrack(p, Hahh, 4) == None;
    assert ExecFrom(p, Hahh, 4) == None;
    assert ExecFrom(p, Hahh, 3) == None;
    assert Scan(m, Hahh, 3) == [];
  }

  /**
   * On "HAHH", HxxH (pattern length 4) is tried before HxH (length 3) and
   * keeps [0, 4); HxH's match [0, 3) overlaps it and is dropped.
   */
  lemma HxxHBeatsHxH()
    ensures KeptSpans([Entry(CatalyticHxH), Entry(CatalyticHxxH)], Hahh) == [Span(0, 4, Entry(CatalyticHxxH))]
  {
    var hxh, hxxh := Entry(CatalyticHxH), Entry(CatalyticHxxH);
    var cat := [hxh, hxxh];
    assert PatternLength(hxh) == 3 && PatternLength(hxxh) == 4;
    assert SortByPatternLength(cat[1..]) == [hxxh];
    assert InsertByLength(hxh, [hxxh]) == [hxxh] + InsertByLength(hxh, []);
    assert SortByPatternLength(cat) == [hxxh, hxh];
    HxxHScan();
    HxHScan();
    var a, b := Span(0, 4, hxxh), Span(0, 3, hxh);
    assert !Clashes(a, []) && Keep(a, []) == [a];
    assert [a][1..] == [] && [b][1..] == [];
    assert AcceptAll([a], []) == [a];
    assert Overlaps(b.start, b.end, a) && Clashes(b, [a]);
    assert AcceptAll([b], [a]) == [a];
    var order := [hxxh, hxh];
    assert order[1..] == [hxh] && order[1..][1..] == [];
    assert Resolve(order[1..], Hahh, [a]) == [a];
    assert Resolve(order, Hahh, []) == [a];
  }
}
