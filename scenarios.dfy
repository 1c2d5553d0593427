/**
 * Worked scenarios of the merge: a two-source end-to-end example, the effect
 * of source order, the precedence of the DOI pass within a source, and the
 * treatment of blank rows.
 */
module Scenarios {
  import opened Wrappers
  import opened Normalizer
  import opened Sources
  import opened Ledger
  import opened Resolver
  import opened Aggregator

  /** A cell with no surrounding whitespace is keyed by its lower-casing. */
  lemma KeyOfTrimmed(s: string)
    requires s != [] && !IsSpace(s[0]) && !IsSpace(s[|s| - 1])
    ensures Normalize(Some(s)) == Lower(s)
  {
    StripTrimmed(s);
  }

  /** The keys of the cells used in the example. */
  lemma ExampleKeys()
    ensures Normalize(Some("10.1/X")) == "10.1/x"
    ensures Normalize(Some("Foo")) == "foo"
    ensures Normalize(Some("Bar")) == "bar"
    ensures Normalize(Some("Baz")) == "baz"
    ensures Normalize(None) == ""
  {
    KeyOfTrimmed("10.1/X");
    assert Lower("10.1/X") == "10.1/x";
    KeyOfTrimmed("Foo");
    assert Lower("Foo") == "foo";
    KeyOfTrimmed("Bar");
    assert Lower("Bar") == "bar";
    KeyOfTrimmed("Baz");
    assert Lower("Baz") == "baz";
  }

  /**
   * A source of two rows, the first with a DOI key and the second without,
   * is resolved by the DOI rule on the first row and then the title rule on
   * the second.
   */
  lemma TwoRowSource(st: RunState, src: Source)
    requires |src.rows| == 2
    requires src.rows[0].doiNormalized != "" && src.rows[1].doiNormalized == ""
    ensures ResolveSource(st, src).merged
         == TitleStep(DoiStep(st, src.dbName, 0, src.rows[0]), src.dbName, 1, src.rows[1]).merged
    ensures ResolveSource(st, src).log
         == TitleStep(DoiStep(st, src.dbName, 0, src.rows[0]), src.dbName, 1, src.rows[1]).log
    ensures ResolveSource(st, src).seenDois
         == TitleStep(DoiStep(st, src.dbName, 0, src.rows[0]), src.dbName, 1, src.rows[1]).seenDois
    ensures ResolveSource(st, src).seenTitles
         == TitleStep(DoiStep(st, src.dbName, 0, src.rows[0]), src.dbName, 1, src.rows[1]).seenTitles
  {
    var rows := src.rows;
    assert rows[..1][..0] == [] && rows[..2] == rows;
    assert Positions(rows[..1], true) == [0];
    assert Positions(rows, true) == [0];
    assert Positions(rows[..1], false) == [];
    assert Positions(rows, false) == [1];
    assert [0][..0] == [] && [1][..0] == [];
    var mid := Pass(st, src.dbName, rows, [0], true);
    assert mid == DoiStep(st, src.dbName, 0, rows[0]);
    var fin := Pass(mid, src.dbName, rows, [1], false);
    assert fin == TitleStep(mid, src.dbName, 1, rows[1]);
    ResolveSourcePasses(st, src, mid, fin);
  }

  // The sources of the example. Source A: a paper with DOI 10.1/X titled
  // "Foo", then a paper without a DOI titled "Foo". Source B: a paper with
  // DOI 10.1/X titled "Bar", then a paper without a DOI titled "Baz".
  const PaperA1 := Record(Some("Foo"), None, Some("10.1/X"), "A")
  const PaperA2 := Record(Some("Foo"), None, None, "A")
  const PaperB1 := Record(Some("Bar"), None, Some("10.1/X"), "B")
  const PaperB2 := Record(Some("Baz"), None, None, "B")
  const SourceA := Source("A", [Row(PaperA1, "10.1/x", "foo"), Row(PaperA2, "", "foo")])
  const SourceB := Source("B", [Row(PaperB1, "10.1/x", "bar"), Row(PaperB2, "", "baz")])

  /**
   * The shape of the example, for any keys: source a holds a row with a DOI
   * and a title, then a row without a DOI and with the same title; source b
   * holds a row with the same DOI, then a row without a DOI and with a title
   * that a's rows do not have.
   */
  ghost predicate ExampleShape(a: Source, b: Source)
  {
    && |a.rows| == 2 && |b.rows| == 2
    && a.rows[0].doiNormalized != "" && a.rows[0].titleNormalized != ""
    && a.rows[1].doiNormalized == "" && a.rows[1].titleNormalized == a.rows[0].titleNormalized
    && b.rows[0].doiNormalized == a.rows[0].doiNormalized
    && b.rows[1].doiNormalized == "" && b.rows[1].titleNormalized != ""
    && b.rows[1].titleNormalized != a.rows[0].titleNormalized
  }

  /** The example's sources have the example's shape, and their rows are the
      loader's rows for their papers. */
  lemma ExampleHasShape()
    ensures ExampleShape(SourceA, SourceB)
    ensures AllPrepared([SourceA, SourceB])
  {
    ExampleKeys();
    assert SourceA.rows == [Prepare(PaperA1), Prepare(PaperA2)];
    assert SourceB.rows == [Prepare(PaperB1), Prepare(PaperB2)];
  }

  /**
   * The end-to-end example: a's first row is merged by DOI; a's second row is
   * a duplicate title, because merging the first row made its title seen; b's
   * first row is a duplicate DOI; b's second row is merged by title. Two
   * papers are merged and four decisions logged, in row order.
   */
  lemma EndToEnd(a: Source, b: Source)
    requires ExampleShape(a, b)
    ensures Run([a, b]).merged == [a.rows[0], b.rows[1]]
    ensures Run([a, b]).log ==
      LogRowDecision(LogRowDecision(LogRowDecision(LogRowDecision([],
        a.rows[0], 0, a.dbName, true, UniqueDoiReason),
        a.rows[1], 1, a.dbName, false, DuplicateTitleReason(a.rows[0].titleNormalized)),
        b.rows[0], 0, b.dbName, false, DuplicateDoiReason(a.rows[0].doiNormalized)),
        b.rows[1], 1, b.dbName, true, UniqueTitleReason)
  {
    RunTwo(a, b);
    ExampleInOrder(a, b);
  }

  /** The example, resolved source by source. */
  lemma ExampleInOrder(a: Source, b: Source)
    requires ExampleShape(a, b)
    ensures ResolveSource(ResolveSource(Initial, a), b).merged == [a.rows[0], b.rows[1]]
    ensures ResolveSource(ResolveSource(Initial, a), b).log ==
      LogRowDecision(LogRowDecision(LogRowDecision(LogRowDecision([],
        a.rows[0], 0, a.dbName, true, UniqueDoiReason),
        a.rows[1], 1, a.dbName, false, DuplicateTitleReason(a.rows[0].titleNormalized)),
        b.rows[0], 0, b.dbName, false, DuplicateDoiReason(a.rows[0].doiNormalized)),
        b.rows[1], 1, b.dbName, true, UniqueTitleReason)
  {
    var mid := ResolveSource(Initial, a);
    assert mid.merged == [a.rows[0]] && mid.seenDois == {a.rows[0].doiNormalized}
      && mid.seenTitles == {a.rows[0].titleNormalized}
      && mid.log == LogRowDecision(LogRowDecision([], a.rows[0], 0, a.dbName, true, UniqueDoiReason),
           a.rows[1], 1, a.dbName, false, DuplicateTitleReason(a.rows[0].titleNormalized)) by {
      DoiRowThenTitleTwin(Initial, a);
    }
    assert b.rows[0].doiNormalized in mid.seenDois;
    assert b.rows[1].titleNormalized !in mid.seenTitles;
    DuplicateDoiThenNewTitle(mid, b);
    SnocPair(mid.merged, a.rows[0], b.rows[1]);
  }

  lemma SnocPair<T>(m: seq<T>, x: T, y: T)
    requires m == [x]
    ensures m + [y] == [x, y]
  {
  }

  /** A source like a: an unseen DOI row, then a DOI-less row with its title. */
  lemma DoiRowThenTitleTwin(st: RunState, src: Source)
    requires |src.rows| == 2
    requires src.rows[0].doiNormalized != "" && src.rows[0].doiNormalized !in st.seenDois
    requires src.rows[0].titleNormalized != ""
    requires src.rows[1].doiNormalized == "" && src.rows[1].titleNormalized == src.rows[0].titleNormalized
    ensures ResolveSource(st, src).merged == st.merged + [src.rows[0]]
    ensures ResolveSource(st, src).seenDois == st.seenDois + {src.rows[0].doiNormalized}
    ensures ResolveSource(st, src).seenTitles == st.seenTitles + {src.rows[0].titleNormalized}
    ensures ResolveSource(st, src).log ==
      LogRowDecision(LogRowDecision(st.log, src.rows[0], 0, src.dbName, true, UniqueDoiReason),
        src.rows[1], 1, src.dbName, false, DuplicateTitleReason(src.rows[0].titleNormalized))
  {
    TwoRowSource(st, src);
  }

  /** A source like b: a DOI row whose DOI is seen, then a DOI-less row with an
      unseen title. */
  lemma DuplicateDoiThenNewTitle(st: RunState, src: Source)
    requires |src.rows| == 2
    requires src.rows[0].doiNormalized != "" && src.rows[0].doiNormalized in st.seenDois
    requires src.rows[1].doiNormalized == ""
    requires src.rows[1].titleNormalized != "" && src.rows[1].titleNormalized !in st.seenTitles
    ensures ResolveSource(st, src).merged == st.merged + [src.rows[1]]
    ensures ResolveSource(st, src).log ==
      LogRowDecision(LogRowDecision(st.log, src.rows[0], 0, src.dbName, false, DuplicateDoiReason(src.rows[0].doiNormalized)),
        src.rows[1], 1, src.dbName, true, UniqueTitleReason)
  {
    TwoRowSource(st, src);
  }

  /** A run over two sources resolves the first, then the second. */
  lemma RunTwo(s1: Source, s2: Source)
    ensures Run([s1, s2]) == ResolveSource(ResolveSource(Initial, s1), s2)
  {
    assert [s1][..0] == [];
    assert Run([s1]) == ResolveSource(Initial, s1);
    assert [s1, s2][..1] == [s1];
  }

  // ---------------------------------------------------------------------------
  // Properties of small runs, for all inputs
  // ---------------------------------------------------------------------------

  /**
   * Order sensitivity: of two one-row sources whose rows share a DOI key, the
   * row of the source resolved first survives and the other is logged as a
   * duplicate DOI; swapping the sources swaps the survivor.
   */
  lemma FirstSourceWins(x: Row, y: Row, a: string, b: string)
    requires x.doiNormalized != "" && x.doiNormalized == y.doiNormalized
    ensures Run([Source(a, [x]), Source(b, [y])]).merged == [x]
    ensures Run([Source(b, [y]), Source(a, [x])]).merged == [y]
    ensures |Run([Source(a, [x]), Source(b, [y])]).log| == 2
    ensures !Run([Source(a, [x]), Source(b, [y])]).log[1].selected
    ensures Run([Source(a, [x]), Source(b, [y])]).log[1].reason == DuplicateDoiReason(y.doiNormalized)
  {
    RunTwo(Source(a, [x]), Source(b, [y]));
    RunTwo(Source(b, [y]), Source(a, [x]));
    FirstWinsOneWay(x, y, a, b);
    FirstWinsOneWay(y, x, b, a);
  }

  /** One direction of the above. */
  lemma FirstWinsOneWay(x: Row, y: Row, a: string, b: string)
    requires x.doiNormalized != "" && x.doiNormalized == y.doiNormalized
    ensures ResolveSource(ResolveSource(Initial, Source(a, [x])), Source(b, [y])).merged == [x]
    ensures |ResolveSource(ResolveSource(Initial, Source(a, [x])), Source(b, [y])).log| == 2
    ensures !ResolveSource(ResolveSource(Initial, Source(a, [x])), Source(b, [y])).log[1].selected
    ensures ResolveSource(ResolveSource(Initial, Source(a, [x])), Source(b, [y])).log[1].reason
         == DuplicateDoiReason(y.doiNormalized)
  {
    var st1 := ResolveSource(Initial, Source(a, [x]));
    OneDoiRow(Initial, Source(a, [x]));
    var s1 := DoiStep(Initial, a, 0, x);
    assert st1.merged == [x] && st1.seenDois == {x.doiNormalized} && |st1.log| == 1;
    OneDoiRow(st1, Source(b, [y]));
    var s2 := DoiStep(st1, b, 0, y);
    assert s2.merged == [x] && |s2.log| == 2;
    assert !s2.log[1].selected && s2.log[1].reason == DuplicateDoiReason(y.doiNormalized);
  }

  /** The positions of a one-row table in one group: the row, when it belongs. */
  lemma PositionsOne(r: Row, withDoi: bool)
    ensures Positions([r], withDoi) == if (r.doiNormalized != "") == withDoi then [0] else []
  {
    assert [r][..0] == [];
  }

  /** The positions of a two-row table in one group: the first row's, then the
      second row when it belongs. */
  lemma PositionsTwo(x: Row, y: Row, withDoi: bool)
    ensures Positions([x, y], withDoi) == Positions([x], withDoi) + if (y.doiNormalized != "") == withDoi then [1] else []
  {
    assert [x, y][..1] == [x];
  }

  /** A pass over a single position is one decision on that row. */
  lemma PassSingle(st: RunState, dbName: string, rows: seq<Row>, i: nat, byDoi: bool)
    requires i < |rows|
    ensures Pass(st, dbName, rows, [i], byDoi) == Step(st, dbName, i, rows[i], byDoi)
  {
    assert [i][..0] == [];
  }

  /** A one-row source whose row has a DOI key is resolved by the DOI rule. */
  lemma OneDoiRow(st: RunState, src: Source)
    requires |src.rows| == 1 && src.rows[0].doiNormalized != ""
    ensures ResolveSource(st, src).merged == DoiStep(st, src.dbName, 0, src.rows[0]).merged
    ensures ResolveSource(st, src).log == DoiStep(st, src.dbName, 0, src.rows[0]).log
    ensures ResolveSource(st, src).seenDois == DoiStep(st, src.dbName, 0, src.rows[0]).seenDois
  {
    var rows := src.rows;
    assert Positions(rows, true) == [0] && Positions(rows, false) == [] by {
      assert rows[..0] == [];
    }
    var mid := Pass(st, src.dbName, rows, [0], true);
    assert mid == DoiStep(st, src.dbName, 0, rows[0]) by {
      PassSingle(st, src.dbName, rows, 0, true);
    }
    ResolveSourcePasses(st, src, mid, mid);
  }

  /**
   * The DOI pass comes first: in a source whose first row has no DOI and
   * whose second row has a DOI and the same title key, the second row is
   * merged and the first, although earlier in the file, is logged as a
   * duplicate title.
   */
  lemma DoiPassFirst(x: Row, y: Row, a: string)
    requires x.doiNormalized == "" && y.doiNormalized != ""
    requires x.titleNormalized != "" && x.titleNormalized == y.titleNormalized
    ensures ResolveSource(Initial, Source(a, [x, y])).merged == [y]
    ensures |ResolveSource(Initial, Source(a, [x, y])).log| == 2
    ensures ResolveSource(Initial, Source(a, [x, y])).log[0].rowIndex == 2
    ensures ResolveSource(Initial, Source(a, [x, y])).log[1].rowIndex == 1
    ensures ResolveSource(Initial, Source(a, [x, y])).log[1].reason == DuplicateTitleReason(x.titleNormalized)
  {
    var src := Source(a, [x, y]);
    var rows := src.rows;
    assert Positions(rows, true) == [1] && Positions(rows, false) == [0] by {
      PositionsOne(x, true);
      PositionsOne(x, false);
      PositionsTwo(x, y, true);
      PositionsTwo(x, y, false);
    }
    var mid := Pass(Initial, a, rows, [1], true);
    assert mid == DoiStep(Initial, a, 1, y) by {
      PassSingle(Initial, a, rows, 1, true);
    }
    var fin := Pass(mid, a, rows, [0], false);
    assert fin == TitleStep(mid, a, 0, x) by {
      PassSingle(mid, a, rows, 0, false);
    }
    TitleTwinAfterDoi(x, y, a);
    ResolveSourcePasses(Initial, src, mid, fin);
  }

  /** The two decisions of the DOI-first scenario: y (position 1) by DOI, then
      its title twin x (position 0) by title. */
  lemma TitleTwinAfterDoi(x: Row, y: Row, a: string)
    requires x.doiNormalized == "" && y.doiNormalized != ""
    requires x.titleNormalized != "" && x.titleNormalized == y.titleNormalized
    ensures TitleStep(DoiStep(Initial, a, 1, y), a, 0, x).merged == [y]
    ensures |TitleStep(DoiStep(Initial, a, 1, y), a, 0, x).log| == 2
    ensures TitleStep(DoiStep(Initial, a, 1, y), a, 0, x).log[0].rowIndex == 2
    ensures TitleStep(DoiStep(Initial, a, 1, y), a, 0, x).log[1].rowIndex == 1
    ensures TitleStep(DoiStep(Initial, a, 1, y), a, 0, x).log[1].reason == DuplicateTitleReason(x.titleNormalized)
  {
    var mid := DoiStep(Initial, a, 1, y);
    assert mid.merged == [y] && mid.seenTitles == {y.titleNormalized} && |mid.log| == 1;
    var fin := TitleStep(mid, a, 0, x);
    assert fin.merged == [y] && |fin.log| == 2 && fin.log[0] == mid.log[0];
  }

  /**
   * Blank rows: a paper without a DOI whose title is absent or all
   * whitespace is rejected as empty, whatever the run has seen, and changes
   * nothing but the log.
   */
  lemma BlankRowRejected(st: RunState, dbName: string, idx: nat, paper: Record)
    requires Normalize(paper.doi) == ""
    requires paper.title.None? || AllSpace(paper.title.value)
    ensures !TitleStep(st, dbName, idx, Prepare(paper)).log[|st.log|].selected
    ensures TitleStep(st, dbName, idx, Prepare(paper)).log[|st.log|].reason == EmptyKeysReason
    ensures TitleStep(st, dbName, idx, Prepare(paper)).merged == st.merged
    ensures TitleStep(st, dbName, idx, Prepare(paper)).seenTitles == st.seenTitles
  {
    NormalizeSpec(paper.title);
  }
}
