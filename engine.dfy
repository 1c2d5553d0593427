/**
 * The deduplication engine as the program runs it: one object owns the seen
 * DOI set, the seen title set, the merged collection, the log and the
 * statistics for the duration of a run, and updates them in place, row by
 * row, in two loops per source.
 */
module Engine {
  import opened Wrappers
  import opened Sources
  import opened Ledger
  import opened Resolver
  import opened Aggregator

  class MergeRun {
    var seenDois: set<string>
    var seenTitles: set<string>
    var merged: seq<Record>
    var log: seq<LogEntry>
    var stats: map<string, SourceStats>
    /** The accepted rows with their key columns; merged holds their papers. */
    ghost var accepted: seq<Row>

    ghost function State(): RunState
      reads this
    {
      RunState(seenDois, seenTitles, accepted, log, stats)
    }

    /** The object invariant: merged is the projection of the accepted rows, and
        the state satisfies the run invariant. */
    ghost predicate Valid()
      reads this
    {
      merged == Papers(accepted) && Consistent(State())
    }

    /** A fresh run: nothing seen, merged, logged or counted. */
    constructor ()
      ensures Valid() && State() == Initial && merged == []
    {
      seenDois, seenTitles := {}, {};
      merged, log, stats := [], [], map[];
      accepted := [];
      new;
      InitialConsistent();
    }

    /** One decision of the DOI pass for the row at 0-based position idx:
        accepted exactly when its DOI key is unseen. */
    method DecideByDoi(dbName: string, idx: nat, row: Row) returns (added: bool)
      requires merged == Papers(accepted)
      modifies this
      ensures merged == Papers(accepted)
      ensures State() == DoiStep(old(State()), dbName, idx, row)
      ensures added <==> row.doiNormalized !in old(seenDois)
      ensures |accepted| == |old(accepted)| + (if added then 1 else 0)
    {
      var doiNorm := row.doiNormalized;
      added := doiNorm !in seenDois;
      if added {
        seenDois := seenDois + {doiNorm};
        if row.titleNormalized != "" {
          seenTitles := seenTitles + {row.titleNormalized};
        }
        merged := merged + [row.paper];
        accepted := accepted + [row];
        log := LogRowDecision(log, row, idx, dbName, true, UniqueDoiReason);
      } else {
        log := LogRowDecision(log, row, idx, dbName, false, DuplicateDoiReason(doiNorm));
      }
    }

    /** One decision of the title pass for the row at 0-based position idx:
        accepted exactly when its title key is non-empty and unseen. */
    method DecideByTitle(dbName: string, idx: nat, row: Row) returns (added: bool)
      requires merged == Papers(accepted)
      modifies this
      ensures merged == Papers(accepted)
      ensures State() == TitleStep(old(State()), dbName, idx, row)
      ensures added <==> row.titleNormalized != "" && row.titleNormalized !in old(seenTitles)
      ensures |accepted| == |old(accepted)| + (if added then 1 else 0)
    {
      var titleNorm := row.titleNormalized;
      added := titleNorm != "" && titleNorm !in seenTitles;
      if added {
        seenTitles := seenTitles + {titleNorm};
        merged := merged + [row.paper];
        accepted := accepted + [row];
        log := LogRowDecision(log, row, idx, dbName, true, UniqueTitleReason);
      } else if titleNorm != "" {
        log := LogRowDecision(log, row, idx, dbName, false, DuplicateTitleReason(titleNorm));
      } else {
        log := LogRowDecision(log, row, idx, dbName, false, EmptyKeysReason);
      }
    }

    /** The DOI pass over the rows at positions ps, in order; returns the
        number of rows it added to the merged collection. */
    method DoiPass(dbName: string, rows: seq<Row>, ps: seq<nat>) returns (added: nat)
      requires forall k :: 0 <= k < |ps| ==> ps[k] < |rows|
      requires merged == Papers(accepted)
      modifies this
      ensures merged == Papers(accepted)
      ensures State() == Pass(old(State()), dbName, rows, ps, true)
      ensures |accepted| == |old(accepted)| + added
    {
      ghost var st0 := State();
      added := 0;
      for k := 0 to |ps|
        invariant State() == Pass(st0, dbName, rows, ps[..k], true)
        invariant merged == Papers(accepted)
        invariant |accepted| == |st0.merged| + added
      {
        assert ps[..k + 1][..k] == ps[..k];
        var isNew := DecideByDoi(dbName, ps[k], rows[ps[k]]);
        if isNew {
          added := added + 1;
        }
      }
      assert ps[..|ps|] == ps;
    }

    /** The title pass over the rows at positions ps, in order; returns the
        number of rows it added to the merged collection. */
    method TitlePass(dbName: string, rows: seq<Row>, ps: seq<nat>) returns (added: nat)
      requires forall k :: 0 <= k < |ps| ==> ps[k] < |rows|
      requires merged == Papers(accepted)
      modifies this
      ensures merged == Papers(accepted)
      ensures State() == Pass(old(State()), dbName, rows, ps, false)
      ensures |accepted| == |old(accepted)| + added
    {
      ghost var st0 := State();
      added := 0;
      for k := 0 to |ps|
        invariant State() == Pass(st0, dbName, rows, ps[..k], false)
        invariant merged == Papers(accepted)
        invariant |accepted| == |st0.merged| + added
      {
        assert ps[..k + 1][..k] == ps[..k];
        var isNew := DecideByTitle(dbName, ps[k], rows[ps[k]]);
        if isNew {
          added := added + 1;
        }
      }
      assert ps[..|ps|] == ps;
    }

    /** Both passes over a non-empty source, then its statistics entry. */
    method ProcessRows(src: Source)
      requires |src.rows| > 0
      requires merged == Papers(accepted)
      modifies this
      ensures merged == Papers(accepted)
      ensures State() == ResolveSource(old(State()), src)
    {
      ghost var st0 := State();
      var dbName := src.dbName;
      var rows := src.rows;
      var doiRows := Positions(rows, true);
      var doiAdded := DoiPass(dbName, rows, doiRows);
      ghost var st1 := State();
      var otherRows := Positions(rows, false);
      var titleAdded := TitlePass(dbName, rows, otherRows);
      ghost var fin := State();
      ResolveSourceTally(st0, src, st1, fin, doiAdded, titleAdded);
      stats := stats[dbName := SourceStats(|rows|, doiAdded, titleAdded, doiAdded + titleAdded)];
    }

    /**
     * Resolves one loaded source against the run so far: an empty source only
     * records zero statistics; otherwise the DOI rows are decided first and
     * then the rows without a DOI, each group in row order, and the source's
     * counters are stored under its label.
     */
    method ProcessSource(src: Source)
      requires Valid()
      modifies this
      ensures Valid()
      ensures State() == ResolveSource(old(State()), src)
    {
      ResolveSourceConsistent(State(), src);
      if |src.rows| == 0 {
        stats := stats[src.dbName := NoStats];
      } else {
        ProcessRows(src);
      }
    }
  }

  /** The loop over the configuration: loads each source in turn and
      processes it; the run ends in the state of the specified run over the
      loaded sources. */
  method RunSources(configs: seq<SourceConfig>, titleCol: string, abstractCol: string, doiCol: string,
                    tables: seq<Option<seq<RawRow>>>) returns (run: MergeRun)
    requires |tables| == |configs|
    ensures fresh(run) && run.Valid()
    ensures run.State() == Run(LoadSources(configs, titleCol, abstractCol, doiCol, tables))
  {
    ghost var sources := LoadSources(configs, titleCol, abstractCol, doiCol, tables);
    run := new MergeRun();
    for k := 0 to |configs|
      invariant fresh(run) && run.Valid()
      invariant run.State() == Run(sources[..k])
    {
      var src := LoadSource(configs[k], titleCol, abstractCol, doiCol, tables[k]);
      assert src == sources[k];
      RunStep(sources, k);
      run.ProcessSource(src);
    }
    assert sources[..|configs|] == sources;
  }

  /**
   * merge_research_papers: loads each configured source in order and resolves
   * it against the run so far, then returns the merged collection, the log
   * and the statistics. The contents of the configured files are a parameter
   * (None for a file that could not be read); the result is the specified run
   * over the loaded sources: the log holds one entry per input row, one YES
   * entry per merged paper, and the merged papers are unique by normalized
   * DOI, and by normalized title among those without a DOI.
   */
  method MergeResearchPapers(configs: seq<SourceConfig>, titleCol: string, abstractCol: string, doiCol: string,
                             tables: seq<Option<seq<RawRow>>>)
    returns (merged: seq<Record>, log: seq<LogEntry>, stats: map<string, SourceStats>)
    requires |tables| == |configs|
    ensures merged == Papers(Run(LoadSources(configs, titleCol, abstractCol, doiCol, tables)).merged)
    ensures log == Run(LoadSources(configs, titleCol, abstractCol, doiCol, tables)).log
    ensures stats == Run(LoadSources(configs, titleCol, abstractCol, doiCol, tables)).stats
    ensures |log| == TotalRows(LoadSources(configs, titleCol, abstractCol, doiCol, tables))
    ensures CountSelected(log) == |merged|
    ensures PapersUnique(merged)
  {
    var run := RunSources(configs, titleCol, abstractCol, doiCol, tables);
    merged, log, stats := run.merged, run.log, run.stats;
    LoadedPrepared(configs, titleCol, abstractCol, doiCol, tables);
    RunSummary(LoadSources(configs, titleCol, abstractCol, doiCol, tables));
  }
}
