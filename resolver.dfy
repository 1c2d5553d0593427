/**
 * The identity resolver, as functions on the value of a run's state.
 *
 * A run keeps the set of DOI keys seen so far, the set of title keys seen so
 * far, the merged collection, the processing log and the per-source
 * statistics. Sources are resolved in order; within a source every row with a
 * DOI key is decided first (DOI pass), then every row without one (title
 * pass), each group in its original row order. The imperative engine in module
 * Engine is proved to compute exactly these functions.
 */
module Resolver {
  import opened Wrappers
  import opened Normalizer
  import opened Sources
  import opened Ledger

  /** The four per-source counters of the statistics dictionary. */
  datatype SourceStats = SourceStats(totalRows: nat, uniqueDoiAdded: nat, uniqueTitleAdded: nat, totalUniqueAdded: nat)

  const NoStats := SourceStats(0, 0, 0, 0)

  datatype RunState = RunState(
    seenDois: set<string>,
    seenTitles: set<string>,
    merged: seq<Row>,
    log: seq<LogEntry>,
    stats: map<string, SourceStats>)

  /** The state a run starts from. */
  const Initial := RunState({}, {}, [], [], map[])

  // ---------------------------------------------------------------------------
  // Keys of the merged collection, and the run's consistency invariant
  // ---------------------------------------------------------------------------

  ghost function DoiKeys(m: seq<Row>): set<string>
  {
    set r | r in m && r.doiNormalized != "" :: r.doiNormalized
  }

  ghost function TitleKeys(m: seq<Row>): set<string>
  {
    set r | r in m && r.titleNormalized != "" :: r.titleNormalized
  }

  /**
   * What the merged collection guarantees: every record has a key, DOI keys
   * are pairwise distinct, and a record without a DOI key has a title key that
   * no earlier record of the collection has.
   */
  ghost predicate KeysUnique(m: seq<Row>)
  {
    && (forall j :: 0 <= j < |m| ==> m[j].doiNormalized != "" || m[j].titleNormalized != "")
    && (forall i, j :: 0 <= i < j < |m| && m[j].doiNormalized != "" ==> m[i].doiNormalized != m[j].doiNormalized)
    && (forall i, j :: 0 <= i < j < |m| && m[j].doiNormalized == "" ==> m[i].titleNormalized != m[j].titleNormalized)
  }

  /**
   * The run invariant: the seen sets are exactly the keys of the merged
   * collection, the merged keys are unique, and the log holds one YES entry
   * per merged record.
   */
  ghost predicate Consistent(st: RunState)
  {
    && st.seenDois == DoiKeys(st.merged)
    && st.seenTitles == TitleKeys(st.merged)
    && KeysUnique(st.merged)
    && CountSelected(st.log) == |st.merged|
  }

  lemma InitialConsistent()
    ensures Consistent(Initial)
  {
  }

  // ---------------------------------------------------------------------------
  // One row
  // ---------------------------------------------------------------------------

  /** Decides a row of the DOI pass (row has a DOI key, at position idx). */
  function DoiStep(st: RunState, dbName: string, idx: nat, row: Row): RunState
  {
    var d := row.doiNormalized;
    if d !in st.seenDois then
      var t := row.titleNormalized;
      st.(seenDois := st.seenDois + {d},
          seenTitles := if t != "" then st.seenTitles + {t} else st.seenTitles,
          merged := st.merged + [row],
          log := LogRowDecision(st.log, row, idx, dbName, true, UniqueDoiReason))
    else
      st.(log := LogRowDecision(st.log, row, idx, dbName, false, DuplicateDoiReason(d)))
  }

  /** Decides a row of the title pass (row has no DOI key, at position idx). */
  function TitleStep(st: RunState, dbName: string, idx: nat, row: Row): RunState
  {
    var t := row.titleNormalized;
    if t != "" && t !in st.seenTitles then
      st.(seenTitles := st.seenTitles + {t},
          merged := st.merged + [row],
          log := LogRowDecision(st.log, row, idx, dbName, true, UniqueTitleReason))
    else if t != "" then
      st.(log := LogRowDecision(st.log, row, idx, dbName, false, DuplicateTitleReason(t)))
    else
      st.(log := LogRowDecision(st.log, row, idx, dbName, false, EmptyKeysReason))
  }

  /** A DOI key is in the key set of a collection exactly when some record of
      the collection has it. */
  lemma DoiKeysHistory(m: seq<Row>, d: string)
    requires d != ""
    ensures d !in DoiKeys(m) <==> forall i :: 0 <= i < |m| ==> m[i].doiNormalized != d
  {
    if d in DoiKeys(m) {
      var w :| w in m && w.doiNormalized != "" && w.doiNormalized == d;
      var i :| 0 <= i < |m| && m[i] == w;
      assert m[i].doiNormalized == d;
    } else {
      forall i | 0 <= i < |m| ensures m[i].doiNormalized != d {
        assert m[i] in m;
      }
    }
  }

  lemma TitleKeysHistory(m: seq<Row>, t: string)
    requires t != ""
    ensures t !in TitleKeys(m) <==> forall i :: 0 <= i < |m| ==> m[i].titleNormalized != t
  {
    if t in TitleKeys(m) {
      var w :| w in m && w.titleNormalized != "" && w.titleNormalized == t;
      var i :| 0 <= i < |m| && m[i] == w;
      assert m[i].titleNormalized == t;
    } else {
      forall i | 0 <= i < |m| ensures m[i].titleNormalized != t {
        assert m[i] in m;
      }
    }
  }

  /** Appending a record adds its non-empty keys to the key sets. */
  lemma KeysAppend(m: seq<Row>, row: Row)
    ensures DoiKeys(m + [row]) == DoiKeys(m) + (if row.doiNormalized != "" then {row.doiNormalized} else {})
    ensures TitleKeys(m + [row]) == TitleKeys(m) + (if row.titleNormalized != "" then {row.titleNormalized} else {})
  {
    assert forall r :: r in m + [row] <==> r in m || r == row;
  }

  /** Appending a record whose key is new keeps the merged keys unique. */
  lemma KeysUniqueAppend(m: seq<Row>, row: Row)
    requires KeysUnique(m)
    requires row.doiNormalized != "" ==> forall i :: 0 <= i < |m| ==> m[i].doiNormalized != row.doiNormalized
    requires row.doiNormalized == "" ==> row.titleNormalized != "" && forall i :: 0 <= i < |m| ==> m[i].titleNormalized != row.titleNormalized
    ensures KeysUnique(m + [row])
  {
    var m' := m + [row];
    forall j | 0 <= j < |m'| ensures m'[j].doiNormalized != "" || m'[j].titleNormalized != "" {
      if j < |m| { assert m'[j] == m[j]; }
    }
    forall i, j | 0 <= i < j < |m'| && m'[j].doiNormalized != "" ensures m'[i].doiNormalized != m'[j].doiNormalized {
      assert m'[i] == m[i];
      if j < |m| { assert m'[j] == m[j]; }
    }
    forall i, j | 0 <= i < j < |m'| && m'[j].doiNormalized == "" ensures m'[i].titleNormalized != m'[j].titleNormalized {
      assert m'[i] == m[i];
      if j < |m| { assert m'[j] == m[j]; }
    }
  }

  lemma CountSelectedSnoc(log: seq<LogEntry>, e: LogEntry)
    ensures CountSelected(log + [e]) == CountSelected(log) + (if e.selected then 1 else 0)
  {
    assert (log + [e])[..|log|] == log;
  }

  /**
   * A DOI-pass row is selected exactly when its key is not in the seen set,
   * that is, when no record merged so far has its DOI key. Selection appends
   * the row and records "Unique DOI"; rejection records the duplicate key and
   * changes nothing but the log.
   */
  lemma DoiDecision(st: RunState, dbName: string, idx: nat, row: Row)
    requires Consistent(st) && row.doiNormalized != ""
    ensures var r := DoiStep(st, dbName, idx, row); var e := r.log[|st.log|];
      && |r.log| == |st.log| + 1 && r.log[..|st.log|] == st.log
      && e.sourceFile == dbName && e.rowIndex == idx + 1
      && (e.selected <==> row.doiNormalized !in st.seenDois)
      && (e.selected <==> forall i :: 0 <= i < |st.merged| ==> st.merged[i].doiNormalized != row.doiNormalized)
      && (e.selected ==> e.reason == UniqueDoiReason && r.merged == st.merged + [row])
      && (!e.selected ==> e.reason == DuplicateDoiReason(row.doiNormalized) && r.merged == st.merged)
      && r.stats == st.stats
  {
    DoiKeysHistory(st.merged, row.doiNormalized);
  }

  /** On selection by DOI, exactly the DOI key and the non-empty title key are
      added to the seen sets; on rejection neither set changes. */
  lemma DoiCrossLink(st: RunState, dbName: string, idx: nat, row: Row)
    ensures var r := DoiStep(st, dbName, idx, row);
      && (row.doiNormalized !in st.seenDois ==> row.doiNormalized in r.seenDois && (row.titleNormalized != "" ==> row.titleNormalized in r.seenTitles))
      && (row.doiNormalized !in st.seenDois ==>
            r.seenDois == st.seenDois + {row.doiNormalized} && r.seenTitles == st.seenTitles + KeySet(row.titleNormalized))
      && (row.doiNormalized in st.seenDois ==> r.seenDois == st.seenDois && r.seenTitles == st.seenTitles)
  {
  }

  /**
   * A title-pass row is selected exactly when its title key is non-empty and
   * no record merged so far, whether merged by DOI or by title, has that title
   * key. A row with neither key is rejected as empty, never as a duplicate.
   */
  lemma TitleDecision(st: RunState, dbName: string, idx: nat, row: Row)
    requires Consistent(st) && row.doiNormalized == ""
    ensures var r := TitleStep(st, dbName, idx, row); var e := r.log[|st.log|];
      && |r.log| == |st.log| + 1 && r.log[..|st.log|] == st.log
      && e.sourceFile == dbName && e.rowIndex == idx + 1
      && (e.selected <==> row.titleNormalized != "" && row.titleNormalized !in st.seenTitles)
      && (e.selected <==> row.titleNormalized != "" && forall i :: 0 <= i < |st.merged| ==> st.merged[i].titleNormalized != row.titleNormalized)
      && (e.selected ==> e.reason == UniqueTitleReason && r.merged == st.merged + [row])
      && (e.selected ==> r.seenTitles == st.seenTitles + {row.titleNormalized})
      && (!e.selected ==> r.merged == st.merged && r.seenTitles == st.seenTitles)
      && (row.titleNormalized == "" ==> e.reason == EmptyKeysReason)
      && (row.titleNormalized != "" && !e.selected ==> e.reason == DuplicateTitleReason(row.titleNormalized))
      && r.seenDois == st.seenDois && r.stats == st.stats
  {
    if row.titleNormalized != "" {
      TitleKeysHistory(st.merged, row.titleNormalized);
    }
  }

  /** The key set contributed by one key: nothing for the empty key. */
  function KeySet(k: string): set<string>
  {
    if k != "" then {k} else {}
  }

  /** Selecting a row whose key is unseen keeps the run invariant. */
  lemma AcceptConsistent(st: RunState, row: Row, e: LogEntry)
    requires Consistent(st) && e.selected
    requires row.doiNormalized != "" ==> row.doiNormalized !in st.seenDois
    requires row.doiNormalized == "" ==> row.titleNormalized != "" && row.titleNormalized !in st.seenTitles
    ensures Consistent(st.(seenDois := st.seenDois + KeySet(row.doiNormalized),
                           seenTitles := st.seenTitles + KeySet(row.titleNormalized),
                           merged := st.merged + [row],
                           log := st.log + [e]))
  {
    if row.doiNormalized != "" {
      DoiKeysHistory(st.merged, row.doiNormalized);
    } else {
      TitleKeysHistory(st.merged, row.titleNormalized);
    }
    KeysAppend(st.merged, row);
    KeysUniqueAppend(st.merged, row);
    CountSelectedSnoc(st.log, e);
  }

  /** Rejecting a row (logging it and nothing else) keeps the run invariant. */
  lemma RejectConsistent(st: RunState, e: LogEntry)
    requires Consistent(st) && !e.selected
    ensures Consistent(st.(log := st.log + [e]))
  {
    CountSelectedSnoc(st.log, e);
  }

  /** A DOI-pass step keeps the run invariant. */
  lemma DoiStepConsistent(st: RunState, dbName: string, idx: nat, row: Row)
    requires Consistent(st) && row.doiNormalized != ""
    ensures Consistent(DoiStep(st, dbName, idx, row))
  {
    var r := DoiStep(st, dbName, idx, row);
    var e := r.log[|st.log|];
    assert r.log == st.log + [e];
    if row.doiNormalized !in st.seenDois {
      AcceptConsistent(st, row, e);
      assert r.seenTitles == st.seenTitles + KeySet(row.titleNormalized);
    } else {
      RejectConsistent(st, e);
    }
  }

  /** A title-pass step keeps the run invariant. */
  lemma TitleStepConsistent(st: RunState, dbName: string, idx: nat, row: Row)
    requires Consistent(st) && row.doiNormalized == ""
    ensures Consistent(TitleStep(st, dbName, idx, row))
  {
    var r := TitleStep(st, dbName, idx, row);
    var t := row.titleNormalized;
    var e := r.log[|st.log|];
    assert r.log == st.log + [e];
    if t != "" && t !in st.seenTitles {
      AcceptConsistent(st, row, e);
      assert r.seenDois == st.seenDois + KeySet(row.doiNormalized);
    } else {
      RejectConsistent(st, e);
    }
  }

  // ---------------------------------------------------------------------------
  // One source: the split, the two passes, the statistics
  // ---------------------------------------------------------------------------

  /**
   * The boolean-mask split of a source: the 0-based positions of the rows
   * that have a DOI key (withDoi) or that have none (!withDoi), in ascending
   * order, and every such position.
   */
  function Positions(rows: seq<Row>, withDoi: bool): (ps: seq<nat>)
    ensures forall k :: 0 <= k < |ps| ==> ps[k] < |rows| && ((rows[ps[k]].doiNormalized != "") == withDoi)
    ensures forall k, l :: 0 <= k < l < |ps| ==> ps[k] < ps[l]
    ensures forall i :: 0 <= i < |rows| && ((rows[i].doiNormalized != "") == withDoi) ==> i in ps
    decreases |rows|
  {
    if rows == [] then []
    else
      var n := |rows| - 1;
      var ps := Positions(rows[..n], withDoi);
      assert forall k :: 0 <= k < |ps| ==> rows[..n][ps[k]] == rows[ps[k]];
      assert forall i :: 0 <= i < n ==> rows[..n][i] == rows[i];
      if (rows[n].doiNormalized != "") == withDoi then ps + [n] else ps
  }

  /** The order in which a source's rows are decided: DOI rows, then the rest. */
  function Order(rows: seq<Row>): seq<nat>
  {
    Positions(rows, true) + Positions(rows, false)
  }

  /** One decision: the DOI rule in the DOI pass, the title rule in the title pass. */
  function Step(st: RunState, dbName: string, idx: nat, row: Row, byDoi: bool): RunState
  {
    if byDoi then DoiStep(st, dbName, idx, row) else TitleStep(st, dbName, idx, row)
  }

  /**
   * Every decision appends exactly one log entry for the row and either
   * appends the row to the merged collection (when the entry says YES) or
   * leaves the collection alone; the seen sets only grow.
   */
  lemma StepShape(st: RunState, dbName: string, idx: nat, row: Row, byDoi: bool)
    ensures var r := Step(st, dbName, idx, row, byDoi);
      && |r.log| == |st.log| + 1 && r.log[..|st.log|] == st.log
      && r.log[|st.log|].sourceFile == dbName && r.log[|st.log|].rowIndex == idx + 1
      && (r.log[|st.log|].selected ==> r.merged == st.merged + [row])
      && (!r.log[|st.log|].selected ==> r.merged == st.merged)
      && st.seenDois <= r.seenDois && st.seenTitles <= r.seenTitles
      && r.stats == st.stats
  {
  }

  /**
   * A pass: the decisions for the rows at positions ps, in that order. The log
   * and the merged collection are only appended to, and the seen sets only
   * grow.
   */
  function Pass(st: RunState, dbName: string, rows: seq<Row>, ps: seq<nat>, byDoi: bool): (r: RunState)
    requires forall k :: 0 <= k < |ps| ==> ps[k] < |rows|
    ensures |r.log| == |st.log| + |ps| && st.log <= r.log
    ensures st.merged <= r.merged && |r.merged| <= |st.merged| + |ps|
    ensures st.seenDois <= r.seenDois && st.seenTitles <= r.seenTitles
    ensures r.stats == st.stats
    decreases |ps|
  {
    if ps == [] then st
    else
      var n := |ps| - 1;
      var mid := Pass(st, dbName, rows, ps[..n], byDoi);
      StepShape(mid, dbName, ps[n], rows[ps[n]], byDoi);
      Step(mid, dbName, ps[n], rows[ps[n]], byDoi)
  }

  /** The k-th entry a pass appends is the decision on the row at ps[k]. */
  lemma {:induction false} PassLog(st: RunState, dbName: string, rows: seq<Row>, ps: seq<nat>, byDoi: bool)
    requires forall k :: 0 <= k < |ps| ==> ps[k] < |rows|
    ensures forall j :: |st.log| <= j < |st.log| + |ps| ==>
      && Pass(st, dbName, rows, ps, byDoi).log[j].sourceFile == dbName
      && Pass(st, dbName, rows, ps, byDoi).log[j].rowIndex == ps[j - |st.log|] + 1
    decreases |ps|
  {
    if ps != [] {
      var n := |ps| - 1;
      var mid := Pass(st, dbName, rows, ps[..n], byDoi);
      PassLog(st, dbName, rows, ps[..n], byDoi);
      StepShape(mid, dbName, ps[n], rows[ps[n]], byDoi);
      var r := Pass(st, dbName, rows, ps, byDoi);
      assert r == Step(mid, dbName, ps[n], rows[ps[n]], byDoi);
      forall j | |st.log| <= j < |r.log|
        ensures r.log[j].sourceFile == dbName && r.log[j].rowIndex == ps[j - |st.log|] + 1
      {
        if j < |mid.log| {
          assert r.log[..|mid.log|][j] == mid.log[j];
          assert ps[..n][j - |st.log|] == ps[j - |st.log|];
          assert mid.log[j].rowIndex == ps[..n][j - |st.log|] + 1;
        } else {
          assert j - |st.log| == n;
          assert r.log[|mid.log|].rowIndex == ps[n] + 1;
        }
      }
    }
  }

  /** A pass adds one YES entry per row it appends to the merged collection. */
  lemma {:induction false} PassCount(st: RunState, dbName: string, rows: seq<Row>, ps: seq<nat>, byDoi: bool)
    requires forall k :: 0 <= k < |ps| ==> ps[k] < |rows|
    ensures var r := Pass(st, dbName, rows, ps, byDoi);
      CountSelected(r.log) == CountSelected(st.log) + (|r.merged| - |st.merged|)
    decreases |ps|
  {
    if ps != [] {
      var n := |ps| - 1;
      var mid := Pass(st, dbName, rows, ps[..n], byDoi);
      PassCount(st, dbName, rows, ps[..n], byDoi);
      StepShape(mid, dbName, ps[n], rows[ps[n]], byDoi);
      var r := Pass(st, dbName, rows, ps, byDoi);
      assert r.log == mid.log + [r.log[|mid.log|]];
      CountSelectedSnoc(mid.log, r.log[|mid.log|]);
    }
  }

  /** Every record a pass appends to the merged collection is one of the
      source's rows. */
  lemma {:induction false} PassMergedFrom(st: RunState, dbName: string, rows: seq<Row>, ps: seq<nat>, byDoi: bool)
    requires forall k :: 0 <= k < |ps| ==> ps[k] < |rows|
    ensures forall j :: |st.merged| <= j < |Pass(st, dbName, rows, ps, byDoi).merged| ==>
      Pass(st, dbName, rows, ps, byDoi).merged[j] in rows
    decreases |ps|
  {
    if ps != [] {
      var n := |ps| - 1;
      var mid := Pass(st, dbName, rows, ps[..n], byDoi);
      PassMergedFrom(st, dbName, rows, ps[..n], byDoi);
      StepShape(mid, dbName, ps[n], rows[ps[n]], byDoi);
      var r := Pass(st, dbName, rows, ps, byDoi);
      assert r == Step(mid, dbName, ps[n], rows[ps[n]], byDoi);
      forall j | |st.merged| <= j < |r.merged| ensures r.merged[j] in rows {
        if j < |mid.merged| {
          assert r.merged[j] == mid.merged[j];
        } else {
          assert r.merged[j] == rows[ps[n]];
        }
      }
    }
  }

  /** A pass over rows of its kind keeps the run invariant. */
  lemma {:induction false} PassConsistent(st: RunState, dbName: string, rows: seq<Row>, ps: seq<nat>, byDoi: bool)
    requires forall k :: 0 <= k < |ps| ==> ps[k] < |rows| && ((rows[ps[k]].doiNormalized != "") == byDoi)
    requires Consistent(st)
    ensures Consistent(Pass(st, dbName, rows, ps, byDoi))
    decreases |ps|
  {
    if ps != [] {
      var n := |ps| - 1;
      var mid := Pass(st, dbName, rows, ps[..n], byDoi);
      PassConsistent(st, dbName, rows, ps[..n], byDoi);
      if byDoi {
        DoiStepConsistent(mid, dbName, ps[n], rows[ps[n]]);
      } else {
        TitleStepConsistent(mid, dbName, ps[n], rows[ps[n]]);
      }
    }
  }

  /**
   * Resolving one source: an empty source only records zero statistics;
   * otherwise the DOI pass runs over the DOI rows, then the title pass over
   * the others, and the source's statistics are stored under its label.
   */
  function ResolveSource(st: RunState, src: Source): RunState
  {
    var rows := src.rows;
    if |rows| == 0 then st.(stats := st.stats[src.dbName := NoStats])
    else
      var mid := Pass(st, src.dbName, rows, Positions(rows, true), true);
      var fin := Pass(mid, src.dbName, rows, Positions(rows, false), false);
      var doiAdded := |mid.merged| - |st.merged|;
      var titleAdded := |fin.merged| - |mid.merged|;
      fin.(stats := fin.stats[src.dbName := SourceStats(|rows|, doiAdded, titleAdded, doiAdded + titleAdded)])
  }

  /** A non-empty source is resolved by its two passes followed by its
      statistics entry, whatever names the intermediate states are given. */
  lemma ResolveSourcePasses(st: RunState, src: Source, mid: RunState, fin: RunState)
    requires |src.rows| > 0
    requires mid == Pass(st, src.dbName, src.rows, Positions(src.rows, true), true)
    requires fin == Pass(mid, src.dbName, src.rows, Positions(src.rows, false), false)
    ensures st.merged <= mid.merged <= fin.merged
    ensures src.dbName in ResolveSource(st, src).stats
    ensures ResolveSource(st, src).stats[src.dbName]
         == SourceStats(|src.rows|, |mid.merged| - |st.merged|, |fin.merged| - |mid.merged|, |fin.merged| - |st.merged|)
    ensures ResolveSource(st, src) == fin.(stats := fin.stats[src.dbName := ResolveSource(st, src).stats[src.dbName]])
  {
    var r := ResolveSource(st, src);
    assert r.stats[src.dbName] == SourceStats(|src.rows|, |mid.merged| - |st.merged|, |fin.merged| - |mid.merged|, |fin.merged| - |st.merged|);
    assert r.stats == fin.stats[src.dbName := r.stats[src.dbName]];
  }

  /** The same, with the two counters the engine keeps while it runs. */
  lemma ResolveSourceTally(st: RunState, src: Source, mid: RunState, fin: RunState, doiAdded: nat, titleAdded: nat)
    requires |src.rows| > 0
    requires mid == Pass(st, src.dbName, src.rows, Positions(src.rows, true), true)
    requires fin == Pass(mid, src.dbName, src.rows, Positions(src.rows, false), false)
    requires |mid.merged| == |st.merged| + doiAdded && |fin.merged| == |mid.merged| + titleAdded
    ensures ResolveSource(st, src)
         == fin.(stats := fin.stats[src.dbName := SourceStats(|src.rows|, doiAdded, titleAdded, doiAdded + titleAdded)])
  {
    ResolveSourcePasses(st, src, mid, fin);
    var entry := ResolveSource(st, src).stats[src.dbName];
    assert entry == SourceStats(|src.rows|, doiAdded, titleAdded, doiAdded + titleAdded);
  }

  /** Resolving a source keeps the run invariant. */
  lemma ResolveSourceConsistent(st: RunState, src: Source)
    requires Consistent(st)
    ensures Consistent(ResolveSource(st, src))
  {
    if |src.rows| > 0 {
      var rows := src.rows;
      PassConsistent(st, src.dbName, rows, Positions(rows, true), true);
      var mid := Pass(st, src.dbName, rows, Positions(rows, true), true);
      PassConsistent(mid, src.dbName, rows, Positions(rows, false), false);
    }
  }

  /** Every row is in exactly one of the two groups. */
  lemma {:induction false} PositionsPartition(rows: seq<Row>)
    ensures |Positions(rows, true)| + |Positions(rows, false)| == |rows|
    decreases |rows|
  {
    if rows != [] {
      PositionsPartition(rows[..|rows| - 1]);
    }
  }

  /**
   * Within a source every row is decided exactly once: the processing order
   * lists each 0-based position once, the DOI rows first, each group in its
   * original order.
   */
  lemma OrderIsPermutation(rows: seq<Row>)
    ensures |Order(rows)| == |rows|
    ensures forall i :: 0 <= i < |rows| ==> i in Order(rows)
    ensures forall k, l :: 0 <= k < l < |Order(rows)| ==> Order(rows)[k] != Order(rows)[l]
    ensures forall k :: 0 <= k < |Order(rows)| ==>
      Order(rows)[k] < |rows| && (rows[Order(rows)[k]].doiNormalized != "" <==> k < |Positions(rows, true)|)
  {
    PositionsPartition(rows);
    OrderGroups(rows);
    OrderCovers(rows);
  }

  /** Every position of the source occurs in the processing order. */
  lemma OrderCovers(rows: seq<Row>)
    ensures forall i :: 0 <= i < |rows| ==> i in Order(rows)
  {
    var a := Positions(rows, true);
    var b := Positions(rows, false);
    var o := Order(rows);
    forall i | 0 <= i < |rows| ensures i in o {
      if rows[i].doiNormalized != "" {
        assert i in a;
      } else {
        assert i in b;
      }
    }
  }

  /** The processing order lists the DOI rows, then the others, each group
      strictly ascending. */
  lemma OrderGroups(rows: seq<Row>)
    ensures forall k :: 0 <= k < |Order(rows)| ==>
      Order(rows)[k] < |rows| && (rows[Order(rows)[k]].doiNormalized != "" <==> k < |Positions(rows, true)|)
    ensures forall k, l :: 0 <= k < l < |Positions(rows, true)| ==> Order(rows)[k] < Order(rows)[l]
    ensures forall k, l :: |Positions(rows, true)| <= k < l < |Order(rows)| ==> Order(rows)[k] < Order(rows)[l]
    ensures forall k, l :: 0 <= k < l < |Order(rows)| ==> Order(rows)[k] != Order(rows)[l]
  {
    var a := Positions(rows, true);
    var b := Positions(rows, false);
    var o := Order(rows);
    assert forall k :: 0 <= k < |a| ==> o[k] == a[k];
    assert forall k :: |a| <= k < |o| ==> o[k] == b[k - |a|];
  }

  /**
   * Resolving a source appends one log entry per row and nothing else to the
   * log: entry k of the new part is labelled with the source and carries the
   * 1-based position of the k-th row in processing order.
   */
  lemma ResolveSourceLog(st: RunState, src: Source)
    ensures |ResolveSource(st, src).log| == |st.log| + |src.rows|
    ensures st.log <= ResolveSource(st, src).log
    ensures forall j :: |st.log| <= j < |st.log| + |src.rows| ==>
      && ResolveSource(st, src).log[j].sourceFile == src.dbName
      && ResolveSource(st, src).log[j].rowIndex == Order(src.rows)[j - |st.log|] + 1
  {
    var rows := src.rows;
    PositionsPartition(rows);
    if |rows| > 0 {
      var a := Positions(rows, true);
      var b := Positions(rows, false);
      var mid := Pass(st, src.dbName, rows, a, true);
      var fin := Pass(mid, src.dbName, rows, b, false);
      PassLog(st, src.dbName, rows, a, true);
      PassLog(mid, src.dbName, rows, b, false);
      var r := ResolveSource(st, src);
      assert r.log == fin.log;
      forall j | |st.log| <= j < |st.log| + |rows|
        ensures r.log[j].sourceFile == src.dbName && r.log[j].rowIndex == Order(rows)[j - |st.log|] + 1
      {
        if j < |mid.log| {
          assert fin.log[..|mid.log|][j] == mid.log[j];
          assert Order(rows)[j - |st.log|] == a[j - |st.log|];
        } else {
          assert Order(rows)[j - |st.log|] == b[j - |mid.log|];
        }
      }
    }
  }

  /**
   * The statistics of a resolved source: total_rows is its row count, the
   * unique total is the sum of the DOI and title counts, each bounded by the
   * size of its group, and it equals both the growth of the merged collection
   * and the number of YES entries the source adds. An empty source records
   * zeros and leaves the log and the collection alone. The entries of other
   * labels are kept.
   */
  lemma ResolveSourceStats(st: RunState, src: Source)
    ensures src.dbName in ResolveSource(st, src).stats
    ensures ResolveSource(st, src).stats[src.dbName].totalRows == |src.rows|
    ensures ResolveSource(st, src).stats[src.dbName].totalUniqueAdded
         == ResolveSource(st, src).stats[src.dbName].uniqueDoiAdded + ResolveSource(st, src).stats[src.dbName].uniqueTitleAdded
    ensures ResolveSource(st, src).stats[src.dbName].uniqueDoiAdded <= |Positions(src.rows, true)|
    ensures ResolveSource(st, src).stats[src.dbName].uniqueTitleAdded <= |Positions(src.rows, false)|
    ensures st.merged <= ResolveSource(st, src).merged
    ensures ResolveSource(st, src).stats[src.dbName].totalUniqueAdded == |ResolveSource(st, src).merged| - |st.merged|
    ensures CountSelected(ResolveSource(st, src).log)
         == CountSelected(st.log) + ResolveSource(st, src).stats[src.dbName].totalUniqueAdded
    ensures |src.rows| == 0 ==>
      && ResolveSource(st, src).stats[src.dbName] == NoStats
      && ResolveSource(st, src).log == st.log && ResolveSource(st, src).merged == st.merged
    ensures ResolveSource(st, src).stats.Keys == st.stats.Keys + {src.dbName}
    ensures forall l :: l in st.stats && l != src.dbName ==> ResolveSource(st, src).stats[l] == st.stats[l]
  {
    var rows := src.rows;
    if |rows| > 0 {
      var a := Positions(rows, true);
      var b := Positions(rows, false);
      var mid := Pass(st, src.dbName, rows, a, true);
      PassCount(st, src.dbName, rows, a, true);
      PassCount(mid, src.dbName, rows, b, false);
    }
  }

  /** Every record resolving a source appends to the merged collection is one
      of that source's rows. */
  lemma ResolveSourceMergedFrom(st: RunState, src: Source)
    ensures forall j :: |st.merged| <= j < |ResolveSource(st, src).merged| ==> ResolveSource(st, src).merged[j] in src.rows
  {
    var rows := src.rows;
    if |rows| > 0 {
      var mid := Pass(st, src.dbName, rows, Positions(rows, true), true);
      PassMergedFrom(st, src.dbName, rows, Positions(rows, true), true);
      PassMergedFrom(mid, src.dbName, rows, Positions(rows, false), false);
      var fin := Pass(mid, src.dbName, rows, Positions(rows, false), false);
      ResolveSourcePasses(st, src, mid, fin);
      forall j | |st.merged| <= j < |fin.merged| ensures fin.merged[j] in rows {
        if j < |mid.merged| {
          assert fin.merged[j] == mid.merged[j];
        }
      }
    }
  }

  /** Resolving a source only grows the seen sets. */
  lemma ResolveSourceGrows(st: RunState, src: Source)
    ensures st.seenDois <= ResolveSource(st, src).seenDois
    ensures st.seenTitles <= ResolveSource(st, src).seenTitles
    ensures st.merged <= ResolveSource(st, src).merged
    ensures st.log <= ResolveSource(st, src).log
  {
  }
}
