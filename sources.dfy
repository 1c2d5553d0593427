/**
 * Input records and the run configuration.
 *
 * A source is what the loader hands the engine: a display label and the
 * ordered rows of one input table, each projected onto the four columns
 * Title, Abstract, DOI and DB. Reading the file itself is not modelled; the
 * loaded table is a sequence of rows mapping column names to cell texts, where
 * a column that is absent from a row stands for a missing column or a NaN cell.
 */
module Sources {
  import opened Wrappers
  import opened Normalizer

  /** A paper: the four columns written to the merged output. */
  datatype Record = Record(title: Option<string>, abstractText: Option<string>, doi: Option<string>, db: string)

  /** A loaded row: the paper and its two comparison keys, which the loader
      computes once per row (the doi_normalized and title_normalized columns). */
  datatype Row = Row(paper: Record, doiNormalized: string, titleNormalized: string)

  /** The loaded contents of one configured source. */
  datatype Source = Source(dbName: string, rows: seq<Row>)

  /** The loader's key columns for a paper. */
  function Prepare(paper: Record): (row: Row)
    ensures row.paper == paper
    ensures row.doiNormalized == Normalize(paper.doi) && row.titleNormalized == Normalize(paper.title)
  {
    Row(paper, Normalize(paper.doi), Normalize(paper.title))
  }

  /** A row whose keys are those of its cells, as every loaded row is. */
  ghost predicate Prepared(row: Row)
  {
    row == Prepare(row.paper)
  }

  /** The merged output's rows: the papers of the accepted rows, without their
      key columns. */
  function Papers(rows: seq<Row>): (papers: seq<Record>)
    ensures |papers| == |rows|
    ensures forall k :: 0 <= k < |rows| ==> papers[k] == rows[k].paper
  {
    seq(|rows|, k requires 0 <= k < |rows| => rows[k].paper)
  }

  /** One entry of the run configuration, with optional per-source column names. */
  datatype SourceConfig = SourceConfig(
    file: string,
    dbName: string,
    titleCol: Option<string>,
    abstractCol: Option<string>,
    doiCol: Option<string>)

  datatype Columns = Columns(title: string, abstractText: string, doi: string)

  /** get_column_names: each column name is the source's own override when it
      has one and the run-wide default otherwise. */
  function GetColumnNames(cfg: SourceConfig, defaultTitle: string, defaultAbstract: string, defaultDoi: string): (r: Columns)
    ensures cfg.titleCol.Some? ==> r.title == cfg.titleCol.value
    ensures cfg.titleCol.None? ==> r.title == defaultTitle
    ensures cfg.abstractCol.Some? ==> r.abstractText == cfg.abstractCol.value
    ensures cfg.abstractCol.None? ==> r.abstractText == defaultAbstract
    ensures cfg.doiCol.Some? ==> r.doi == cfg.doiCol.value
    ensures cfg.doiCol.None? ==> r.doi == defaultDoi
  {
    Columns(cfg.titleCol.GetOr(defaultTitle), cfg.abstractCol.GetOr(defaultAbstract), cfg.doiCol.GetOr(defaultDoi))
  }

  /** A raw table row: column name to cell text; no entry means NaN. */
  type RawRow = map<string, string>

  function Cell(raw: RawRow, column: string): Option<string>
  {
    if column in raw then Some(raw[column]) else None
  }

  /**
   * The loader's projection of a table onto the standard columns. A table that
   * could not be loaded (None) yields a source with no rows; otherwise every
   * raw row becomes one row, in order, reading the resolved columns, carrying
   * the source's label and the keys of its DOI and title cells.
   */
  function LoadSource(cfg: SourceConfig, defaultTitle: string, defaultAbstract: string, defaultDoi: string,
                      table: Option<seq<RawRow>>): (src: Source)
    ensures src.dbName == cfg.dbName
    ensures table.None? ==> src.rows == []
    ensures table.Some? ==> |src.rows| == |table.value|
    ensures forall k :: 0 <= k < |src.rows| ==> Prepared(src.rows[k]) && src.rows[k].paper.db == cfg.dbName
    ensures table.Some? ==> forall k :: 0 <= k < |src.rows| ==>
      && src.rows[k].paper.title == Cell(table.value[k], GetColumnNames(cfg, defaultTitle, defaultAbstract, defaultDoi).title)
      && src.rows[k].paper.abstractText == Cell(table.value[k], GetColumnNames(cfg, defaultTitle, defaultAbstract, defaultDoi).abstractText)
      && src.rows[k].paper.doi == Cell(table.value[k], GetColumnNames(cfg, defaultTitle, defaultAbstract, defaultDoi).doi)
  {
    var cols := GetColumnNames(cfg, defaultTitle, defaultAbstract, defaultDoi);
    match table
    case None => Source(cfg.dbName, [])
    case Some(t) =>
      Source(cfg.dbName, seq(|t|, k requires 0 <= k < |t| =>
        Prepare(Record(Cell(t[k], cols.title), Cell(t[k], cols.abstractText), Cell(t[k], cols.doi), cfg.dbName))))
  }

  /** The loaded sources of a run: one per configuration entry, in order, read
      from that entry's table (None for a table that could not be read). */
  function LoadSources(configs: seq<SourceConfig>, defaultTitle: string, defaultAbstract: string, defaultDoi: string,
                       tables: seq<Option<seq<RawRow>>>): (sources: seq<Source>)
    requires |tables| == |configs|
    ensures |sources| == |configs|
    ensures forall k :: 0 <= k < |configs| ==>
      sources[k] == LoadSource(configs[k], defaultTitle, defaultAbstract, defaultDoi, tables[k])
  {
    seq(|configs|, k requires 0 <= k < |configs| =>
      LoadSource(configs[k], defaultTitle, defaultAbstract, defaultDoi, tables[k]))
  }
}
