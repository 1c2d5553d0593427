/**
 * The aggregator: the run over all configured sources, in order, from the
 * empty state, and what it guarantees about the final collection, the log and
 * the statistics.
 */
module Aggregator {
  import opened Wrappers
  import opened Normalizer
  import opened Sources
  import opened Ledger
  import opened Resolver

  /** The state after resolving the sources in configured order. */
  function Run(sources: seq<Source>): RunState
    decreases |sources|
  {
    if sources == [] then Initial
    else ResolveSource(Run(sources[..|sources| - 1]), sources[|sources| - 1])
  }

  /** Extending the processed prefix by one source resolves that source. */
  lemma RunStep(sources: seq<Source>, k: nat)
    requires k < |sources|
    ensures Run(sources[..k + 1]) == ResolveSource(Run(sources[..k]), sources[k])
  {
    assert sources[..k + 1][..k] == sources[..k];
  }

  /** The number of input rows over all sources. */
  function TotalRows(sources: seq<Source>): nat
    decreases |sources|
  {
    if sources == [] then 0
    else TotalRows(sources[..|sources| - 1]) + |sources[|sources| - 1].rows|
  }

  /**
   * Every run is consistent: its merged collection has pairwise distinct DOI
   * keys, every record merged without a DOI has a title key no earlier record
   * has, the seen sets are exactly the merged keys, and the log holds one YES
   * entry per merged record.
   */
  lemma {:induction false} RunConsistent(sources: seq<Source>)
    ensures Consistent(Run(sources))
    ensures KeysUnique(Run(sources).merged)
    ensures CountSelected(Run(sources).log) == |Run(sources).merged|
    decreases |sources|
  {
    if sources == [] {
      InitialConsistent();
    } else {
      RunConsistent(sources[..|sources| - 1]);
      ResolveSourceConsistent(Run(sources[..|sources| - 1]), sources[|sources| - 1]);
    }
  }

  /** The log has one entry per input row of the run. */
  lemma {:induction false} RunLogLength(sources: seq<Source>)
    ensures |Run(sources).log| == TotalRows(sources)
    decreases |sources|
  {
    if sources != [] {
      RunLogLength(sources[..|sources| - 1]);
      ResolveSourceLog(Run(sources[..|sources| - 1]), sources[|sources| - 1]);
    }
  }

  /**
   * The run only grows its state: the state after any prefix of the sources
   * has a seen set contained in, and a collection and log that are prefixes
   * of, those of the whole run.
   */
  lemma {:induction false} RunGrows(sources: seq<Source>, n: nat)
    requires n <= |sources|
    ensures Run(sources[..n]).seenDois <= Run(sources).seenDois
    ensures Run(sources[..n]).seenTitles <= Run(sources).seenTitles
    ensures Run(sources[..n]).merged <= Run(sources).merged
    ensures Run(sources[..n]).log <= Run(sources).log
    decreases |sources|
  {
    if n < |sources| {
      var init := sources[..|sources| - 1];
      assert init[..n] == sources[..n];
      RunGrows(init, n);
      ResolveSourceGrows(Run(init), sources[|sources| - 1]);
    } else {
      assert sources[..n] == sources;
    }
  }

  // ---------------------------------------------------------------------------
  // The merged papers
  // ---------------------------------------------------------------------------

  /** Every row of every source carries the keys of its own cells, as the
      loader produces them. */
  ghost predicate AllPrepared(sources: seq<Source>)
  {
    forall k :: 0 <= k < |sources| ==> forall r :: r in sources[k].rows ==> Prepared(r)
  }

  /** Loaded sources carry the keys of their own cells. */
  lemma LoadedPrepared(configs: seq<SourceConfig>, defaultTitle: string, defaultAbstract: string, defaultDoi: string,
                       tables: seq<Option<seq<RawRow>>>)
    requires |tables| == |configs|
    ensures AllPrepared(LoadSources(configs, defaultTitle, defaultAbstract, defaultDoi, tables))
  {
    var sources := LoadSources(configs, defaultTitle, defaultAbstract, defaultDoi, tables);
    forall k | 0 <= k < |sources| ensures forall r :: r in sources[k].rows ==> Prepared(r) {
      var src := sources[k];
      forall r | r in src.rows ensures Prepared(r) {
        var i :| 0 <= i < |src.rows| && src.rows[i] == r;
      }
    }
  }

  /**
   * The uniqueness the merged output promises, stated on the papers and their
   * normalized cells: every paper has a DOI or a title, no two papers share a
   * DOI, and a paper without a DOI has a title no earlier paper has.
   */
  ghost predicate PapersUnique(papers: seq<Record>)
  {
    && (forall j :: 0 <= j < |papers| ==> Normalize(papers[j].doi) != "" || Normalize(papers[j].title) != "")
    && (forall i, j :: 0 <= i < j < |papers| && Normalize(papers[j].doi) != "" ==>
          Normalize(papers[i].doi) != Normalize(papers[j].doi))
    && (forall i, j :: 0 <= i < j < |papers| && Normalize(papers[j].doi) == "" ==>
          Normalize(papers[i].title) != Normalize(papers[j].title))
  }

  /** Only input rows are merged: when every input row is prepared, so is
      every merged row. */
  lemma {:induction false} RunMergedPrepared(sources: seq<Source>)
    requires AllPrepared(sources)
    ensures forall j :: 0 <= j < |Run(sources).merged| ==> Prepared(Run(sources).merged[j])
    decreases |sources|
  {
    if sources != [] {
      var init := sources[..|sources| - 1];
      var src := sources[|sources| - 1];
      forall k | 0 <= k < |init| ensures forall r :: r in init[k].rows ==> Prepared(r) {
        assert init[k] == sources[k];
      }
      RunMergedPrepared(init);
      ResolveSourceMergedFrom(Run(init), src);
      ResolveSourceGrows(Run(init), src);
      var m := Run(sources).merged;
      forall j | 0 <= j < |m| ensures Prepared(m[j]) {
        if j < |Run(init).merged| {
          assert m[j] == Run(init).merged[j];
        } else {
          assert m[j] in src.rows;
        }
      }
    }
  }

  /** Unique keys of prepared rows are unique normalized cells of their papers. */
  lemma KeysUniquePapers(m: seq<Row>)
    requires forall j :: 0 <= j < |m| ==> Prepared(m[j])
    requires KeysUnique(m)
    ensures PapersUnique(Papers(m))
  {
    var ps := Papers(m);
    forall j | 0 <= j < |m| ensures ps[j] == m[j].paper && Normalize(ps[j].doi) == m[j].doiNormalized
      && Normalize(ps[j].title) == m[j].titleNormalized {
    }
  }

  /** The merged papers of a run over loaded sources are unique by normalized
      DOI, and by normalized title among the papers without a DOI. */
  lemma RunPapersUnique(sources: seq<Source>)
    requires AllPrepared(sources)
    ensures PapersUnique(Papers(Run(sources).merged))
  {
    RunConsistent(sources);
    RunMergedPrepared(sources);
    KeysUniquePapers(Run(sources).merged);
  }

  // ---------------------------------------------------------------------------
  // Statistics over the whole run
  // ---------------------------------------------------------------------------

  /** What a whole run delivers: one log entry per input row, one YES entry per
      merged record, and unique merged papers. */
  lemma RunSummary(sources: seq<Source>)
    requires AllPrepared(sources)
    ensures |Run(sources).log| == TotalRows(sources)
    ensures CountSelected(Run(sources).log) == |Papers(Run(sources).merged)|
    ensures PapersUnique(Papers(Run(sources).merged))
  {
    RunLogLength(sources);
    RunConsistent(sources);
    RunPapersUnique(sources);
  }

  ghost predicate DistinctLabels(sources: seq<Source>)
  {
    forall k, l :: 0 <= k < l < |sources| ==> sources[k].dbName != sources[l].dbName
  }

  function Labels(sources: seq<Source>): (labels: seq<string>)
    ensures |labels| == |sources|
    ensures forall k :: 0 <= k < |sources| ==> labels[k] == sources[k].dbName
  {
    seq(|sources|, k requires 0 <= k < |sources| => sources[k].dbName)
  }

  /** The total_rows column summed over the given labels. */
  function SumTotalRows(stats: map<string, SourceStats>, labels: seq<string>): nat
    decreases |labels|
  {
    if labels == [] then 0
    else
      var l := labels[|labels| - 1];
      SumTotalRows(stats, labels[..|labels| - 1]) + (if l in stats then stats[l].totalRows else 0)
  }

  /** The total_unique_added column summed over the given labels. */
  function SumUniqueAdded(stats: map<string, SourceStats>, labels: seq<string>): nat
    decreases |labels|
  {
    if labels == [] then 0
    else
      var l := labels[|labels| - 1];
      SumUniqueAdded(stats, labels[..|labels| - 1]) + (if l in stats then stats[l].totalUniqueAdded else 0)
  }

  /** Both sums only read the entries of the labels they sum. */
  lemma {:induction false} SumsFrame(stats: map<string, SourceStats>, stats': map<string, SourceStats>, labels: seq<string>)
    requires forall k :: 0 <= k < |labels| ==>
      (labels[k] in stats <==> labels[k] in stats') && (labels[k] in stats ==> stats[labels[k]] == stats'[labels[k]])
    ensures SumTotalRows(stats, labels) == SumTotalRows(stats', labels)
    ensures SumUniqueAdded(stats, labels) == SumUniqueAdded(stats', labels)
    decreases |labels|
  {
    if labels != [] {
      SumsFrame(stats, stats', labels[..|labels| - 1]);
    }
  }

  /** The labels of the earlier sources do not include the last one's. */
  lemma LastLabelNew(sources: seq<Source>)
    requires DistinctLabels(sources) && sources != []
    ensures DistinctLabels(sources[..|sources| - 1])
    ensures Labels(sources) == Labels(sources[..|sources| - 1]) + [sources[|sources| - 1].dbName]
    ensures sources[|sources| - 1].dbName !in Labels(sources[..|sources| - 1])
  {
    var init := sources[..|sources| - 1];
    assert Labels(sources) == Labels(init) + [sources[|sources| - 1].dbName];
    forall k | 0 <= k < |init| ensures Labels(init)[k] != sources[|sources| - 1].dbName {
      assert sources[k] == init[k];
    }
  }

  /** Resolving a source whose label is new to the summed labels adds its row
      count to the total_rows sum. */
  lemma SumTotalRowsStep(before: RunState, src: Source, labels: seq<string>)
    requires src.dbName !in labels
    ensures SumTotalRows(ResolveSource(before, src).stats, labels + [src.dbName])
         == SumTotalRows(before.stats, labels) + |src.rows|
  {
    ResolveSourceStats(before, src);
    assert (labels + [src.dbName])[..|labels|] == labels;
    SumsFrame(before.stats, ResolveSource(before, src).stats, labels);
  }

  /** ... and its unique count, the growth of the collection, to the
      total_unique_added sum. */
  lemma SumUniqueAddedStep(before: RunState, src: Source, labels: seq<string>)
    requires src.dbName !in labels
    ensures before.merged <= ResolveSource(before, src).merged
    ensures SumUniqueAdded(ResolveSource(before, src).stats, labels + [src.dbName])
         == SumUniqueAdded(before.stats, labels) + (|ResolveSource(before, src).merged| - |before.merged|)
  {
    ResolveSourceStats(before, src);
    assert (labels + [src.dbName])[..|labels|] == labels;
    SumsFrame(before.stats, ResolveSource(before, src).stats, labels);
  }

  /** With distinct labels, total_rows summed over the configured sources is
      the number of input rows, which is the number of log entries. */
  lemma {:induction false} RunTotalRowsSum(sources: seq<Source>)
    requires DistinctLabels(sources)
    ensures SumTotalRows(Run(sources).stats, Labels(sources)) == TotalRows(sources) == |Run(sources).log|
    decreases |sources|
  {
    RunLogLength(sources);
    if sources != [] {
      var init := sources[..|sources| - 1];
      LastLabelNew(sources);
      RunTotalRowsSum(init);
      SumTotalRowsStep(Run(init), sources[|sources| - 1], Labels(init));
    }
  }

  /** With distinct labels, total_unique_added summed over the configured
      sources is the size of the merged collection. */
  lemma {:induction false} RunUniqueAddedSum(sources: seq<Source>)
    requires DistinctLabels(sources)
    ensures SumUniqueAdded(Run(sources).stats, Labels(sources)) == |Run(sources).merged|
    decreases |sources|
  {
    if sources != [] {
      var init := sources[..|sources| - 1];
      LastLabelNew(sources);
      RunUniqueAddedSum(init);
      SumUniqueAddedStep(Run(init), sources[|sources| - 1], Labels(init));
    }
  }

  /**
   * With distinct labels, the final statistics of each source are those it
   * recorded when it was resolved.
   */
  lemma {:induction false} RunStatsAt(sources: seq<Source>, k: nat)
    requires DistinctLabels(sources) && k < |sources|
    ensures sources[k].dbName in Run(sources).stats
    ensures Run(sources).stats[sources[k].dbName] == ResolveSource(Run(sources[..k]), sources[k]).stats[sources[k].dbName]
    decreases |sources|
  {
    var init := sources[..|sources| - 1];
    var src := sources[|sources| - 1];
    ResolveSourceStats(Run(init), src);
    if k < |sources| - 1 {
      assert init[..k] == sources[..k] && init[k] == sources[k];
      RunStatsAt(init, k);
    } else {
      assert init == sources[..k];
    }
  }
}
