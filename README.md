# Research paper merger: deduplication core

This project models the core of a tool that merges bibliographic exports (Scopus, IEEE,
PubMed, Web of Science CSV files) into one collection of unique papers. Sources are
processed in their configured order. A paper is identified by its normalized DOI
(trimmed, lower-cased) when it has one, and otherwise by its normalized title. The first
occurrence wins. Every input row gets one entry in a decision log (YES/NO with a reason),
and each source gets four counters: total rows, papers added by DOI, papers added by title,
and the total added.

Modules:

- `Normalizer`: `normalize_text`. Strip ASCII whitespace, then lower-case ASCII letters.
  An absent value normalizes to the empty key.
- `Sources`: records, loaded rows with their two precomputed keys, `get_column_names`,
  and the loader's projection of a table onto the Title/Abstract/DOI/DB columns.
- `Ledger`: `log_row_decision`, the reason texts and the count of YES entries.
- `Resolver`: the dedup rules as functions on the value of a run's state:
  - one DOI-pass step and one title-pass step;
  - a pass over a list of row positions;
  - the resolution of one whole source.
  It also holds the run invariant `Consistent`:
  - the seen sets are exactly the keys of the merged rows;
  - merged DOI keys are pairwise distinct;
  - a DOI-less merged row has a title no earlier merged row has;
  - the log has one YES entry per merged row.
- `Aggregator`: a run over a sequence of sources, and the totals and statistics lemmas.
- `Engine`: the imperative program. Class `MergeRun` holds the seen DOI set, the seen title
  set, the merged collection, the log and the statistics, and updates them in place, row by
  row, in two loops per source. `MergeResearchPapers` loads each configured source in turn
  and feeds it to the run. Each method is proved to compute the corresponding `Resolver` or
  `Aggregator` function.
- `Scenarios`: concrete and shape-generic runs that pin down the observable behaviour:
  - the first source wins;
  - DOI rows are decided before DOI-less rows, and the log keeps their 1-based row numbers;
  - a DOI-less twin of a DOI-merged paper is rejected by title;
  - a blank row is rejected as empty.

## Model

| member | source | states |
|---|---|---|
| Normalizer.Normalize | research_paper_merger.py:6-10 | normalize_text: missing gives '', present gives the stripped and lower-cased text. Its properties are stated by NormalizeSpec, NormalizePresent and NormalizeIdempotent. |
| Normalizer.NormalizeSpec | research_paper_merger.py:6-10 | An absent value gives the empty key. Otherwise the key is no longer than the text, has no leading or trailing whitespace and no upper-case letter, and is empty exactly when the text is all whitespace (so the empty string also gives the empty key). |
| Normalizer.NormalizePresent | research_paper_merger.py:10 | If the non-whitespace core of a text lies between positions i and j, its key is that core lower-cased. |
| Normalizer.NormalizeIdempotent | research_paper_merger.py:6-10 | Normalizing a key again gives the same key. |
| Normalizer.StripBounds | research_paper_merger.py:10 | `strip()` leaves no whitespace at either end, never lengthens the text, and is empty exactly for all-whitespace text. |
| Normalizer.TrimStartSpec | research_paper_merger.py:10 | The left strip removes exactly a maximal all-whitespace prefix. |
| Normalizer.TrimEndSpec | research_paper_merger.py:10 | The right strip removes exactly a maximal all-whitespace suffix. |
| Normalizer.ToLower | research_paper_merger.py:10 | A capital letter becomes the corresponding lower-case letter, and every other character is unchanged. So the result is never upper-case, and whitespace stays whitespace. |
| Sources.GetColumnNames | research_paper_merger.py:16-21 | Each of the three column names is the source's override when present, else the run-wide default. |
| Sources.Prepare | research_paper_merger.py:49-51 | A loaded row carries its paper unchanged and the normalized DOI and title as its keys. |
| Sources.LoadSource | research_paper_merger.py:23-60 | The source has the configured label. An unreadable file gives no rows. Otherwise there is one row per table row, in order, reading the resolved columns, with the label in DB and both keys computed from the cells. |
| Sources.LoadSources | research_paper_merger.py:180-185 | One loaded source per configuration entry, in configuration order. |
| Sources.Papers | research_paper_merger.py:216-217 | The merged output is the accepted rows' papers without the key columns, one for one and in order. |
| Ledger.LogRowDecision | research_paper_merger.py:62-73 | Appends exactly one entry and keeps the old log as a prefix. The entry has the source label, Row_Index = idx + 1, the selected flag and the reason. Title, Abstract and DOI are the cell when present and '' when missing. |
| Ledger.DuplicateDoiReason | research_paper_merger.py:223 | The rejection reason 'Duplicate DOI (already seen: doi)'. Resolver.DoiDecision and Scenarios.FirstSourceWins state where it is written. |
| Ledger.DuplicateTitleReason | research_paper_merger.py:240 | The rejection reason 'Duplicate Title (already seen: first 50 characters...)', built with Prefix. Resolver.TitleDecision and Scenarios.DoiPassFirst state where it is written. |
| Ledger.Prefix | research_paper_merger.py:240 | The title shown in a duplicate-title reason is the whole title when it has at most 50 characters, and exactly its first 50 characters otherwise. |
| Ledger.CountSelected | research_paper_merger.py:70 | The YES count is at most the log length. It equals the length iff every entry is YES, and is 0 iff every entry is NO. |
| Ledger.CountSelectedAppend | research_paper_merger.py:70 | The YES count of a concatenated log is the sum of the parts' counts. |
| Resolver.InitialConsistent | research_paper_merger.py:163-175 | The empty starting state (no seen keys, empty merged, log and stats) satisfies the run invariant. |
| Resolver.DoiStep | research_paper_merger.py:207-223 | One decision of the DOI loop on the state value. Its meaning is stated by DoiDecision, DoiCrossLink and DoiStepConsistent, and Engine.MergeRun.DecideByDoi is proved to compute it. |
| Resolver.TitleStep | research_paper_merger.py:227-242 | One decision of the title loop on the state value. Its meaning is stated by TitleDecision and TitleStepConsistent, and Engine.MergeRun.DecideByTitle is proved to compute it. |
| Resolver.DoiDecision | research_paper_merger.py:206-223 | A DOI row is accepted iff its DOI key is unseen, iff no merged row has that DOI key. On accept the reason is 'Unique DOI' and the row is appended to merged. On reject the reason is 'Duplicate DOI (already seen: doi)' and merged is unchanged. Exactly one log entry with Row_Index idx + 1 is added, and the stats are untouched. |
| Resolver.DoiCrossLink | research_paper_merger.py:209-213 | On accept, the seen DOIs become exactly the old ones plus this DOI. The seen titles become exactly the old ones plus this title when it is non-empty. On reject, both seen sets are unchanged. |
| Resolver.TitleDecision | research_paper_merger.py:226-242 | A DOI-less row is accepted iff its title key is non-empty and unseen, iff no merged row (whether merged by DOI or by title) has that title. On accept the reason is 'Unique Title (no DOI)' and the seen titles become exactly the old ones plus this title. A non-empty seen title gives 'Duplicate Title (already seen: first 50...)' and an empty title gives 'Empty/missing Title and DOI'. On reject, merged and seen titles are unchanged. The seen DOIs and the stats are always unchanged. |
| Resolver.DoiStepConsistent | research_paper_merger.py:206-223 | Every DOI-pass decision preserves the run invariant. |
| Resolver.TitleStepConsistent | research_paper_merger.py:226-242 | Every title-pass decision preserves the run invariant. |
| Resolver.Positions | research_paper_merger.py:196-198 | The positions of the rows with (or without) a DOI key: exactly those rows, strictly increasing, i.e. in original order. |
| Resolver.PositionsPartition | research_paper_merger.py:196-198 | The two groups together have as many positions as the source has rows. |
| Resolver.OrderIsPermutation | research_paper_merger.py:196-242 | The decision order (DOI rows, then DOI-less rows) visits every row exactly once. Every DOI row comes before every DOI-less row. |
| Resolver.OrderGroups | research_paper_merger.py:206-242 | Within each group the decision order is the original row order. |
| Resolver.Pass | research_paper_merger.py:206-242 | A pass adds one log entry per row visited, and keeps the old log and old merged as prefixes. Merged grows by at most the number of rows visited, the seen sets only grow, and the stats are unchanged. |
| Resolver.PassLog | research_paper_merger.py:206-242 | The entries a pass adds carry the source label and, in visiting order, Row_Index = row position + 1. |
| Resolver.PassCount | research_paper_merger.py:206-242 | A pass adds as many YES entries as rows it appends to merged. |
| Resolver.PassMergedFrom | research_paper_merger.py:216-217 | Every row a pass appends to merged is one of the source's rows. |
| Resolver.PassConsistent | research_paper_merger.py:206-242 | A whole pass preserves the run invariant. |
| Resolver.ResolveSource | research_paper_merger.py:187-247 | The processing of one loaded source: zero statistics if it is empty, otherwise the DOI pass, the title pass and the four counters. Stated by ResolveSourceLog, ResolveSourceStats, ResolveSourceConsistent, ResolveSourceMergedFrom and ResolveSourceGrows, and computed by Engine.MergeRun.ProcessSource. |
| Resolver.ResolveSourceConsistent | research_paper_merger.py:187-247 | Resolving a whole source preserves the run invariant. |
| Resolver.ResolveSourceLog | research_paper_merger.py:196-242 | A source adds exactly one log entry per row after the old log. Each entry carries the source label and the 1-based position of the row in the decision order. |
| Resolver.ResolveSourceStats | research_paper_merger.py:187-247 | total_rows is the row count. total is DOI-added plus title-added, and equals the growth of merged. DOI-added is at most the number of DOI rows, and title-added at most the number of DOI-less rows. The YES count grows by the same amount. An empty source records zeros and leaves the log and merged unchanged. Other labels' stats are untouched. |
| Resolver.ResolveSourceMergedFrom | research_paper_merger.py:216-234 | Every row a source appends to merged is one of that source's rows. |
| Resolver.ResolveSourceGrows | research_paper_merger.py:210-230 | The seen DOI and title sets only grow. |
| Aggregator.Run | research_paper_merger.py:179-247 | The configuration loop on the state value: the sources resolved in configured order from the empty state. Stated by RunConsistent, RunLogLength, RunGrows, RunTotalRowsSum, RunUniqueAddedSum, RunStatsAt and RunPapersUnique, and computed by Engine.RunSources. |
| Aggregator.RunConsistent | research_paper_merger.py:163-247 | After any sequence of sources the run invariant holds: merged keys are unique and the number of YES entries equals the size of merged. |
| Aggregator.RunLogLength | research_paper_merger.py:180-242 | The log has one entry per input row across all sources. |
| Aggregator.RunGrows | research_paper_merger.py:163-247 | The run is monotone. The state after a prefix of the sources has seen sets contained in the final ones, and merged and log that are prefixes of the final ones. |
| Aggregator.RunTotalRowsSum | research_paper_merger.py:187-194 | With distinct labels, the sum of total_rows equals the total row count and the log length. |
| Aggregator.RunUniqueAddedSum | research_paper_merger.py:244-247 | With distinct labels, the sum of total_unique_added equals the size of merged. |
| Aggregator.RunStatsAt | research_paper_merger.py:187-247 | With distinct labels, each source's stored entry is the one computed when that source was resolved. |
| Aggregator.RunSummary | research_paper_merger.py:163-247 | For loaded sources, a whole run has one log entry per input row, as many YES entries as merged papers, and unique merged papers. |
| Aggregator.LoadedPrepared | research_paper_merger.py:42-51 | Every row of every loaded source carries the keys of its own DOI and title cells. |
| Aggregator.RunMergedPrepared | research_paper_merger.py:216-234 | Every merged row comes from a loaded source and so carries its own keys. |
| Aggregator.RunPapersUnique | research_paper_merger.py:163-247 | The merged papers are unique: each has a non-empty DOI or title key, non-empty DOI keys are pairwise distinct, and a DOI-less paper's title key differs from every earlier paper's. |
| Engine.MergeRun.constructor | research_paper_merger.py:163-175 | A fresh run has empty seen sets, merged, log and stats, and satisfies the invariant. |
| Engine.MergeRun.DecideByDoi | research_paper_merger.py:207-223 | Updates the state exactly as one DOI-pass decision. Returns whether the row was added, which holds iff its DOI key was unseen. |
| Engine.MergeRun.DecideByTitle | research_paper_merger.py:227-242 | Updates the state exactly as one title-pass decision. Returns whether the row was added, which holds iff its title key was non-empty and unseen. |
| Engine.MergeRun.DoiPass | research_paper_merger.py:206-223 | The DOI loop computes the DOI pass over the given positions. The returned counter is the number of rows it added. |
| Engine.MergeRun.TitlePass | research_paper_merger.py:226-242 | The title loop computes the title pass over the given positions. The returned counter is the number of rows it added. |
| Engine.MergeRun.ProcessRows | research_paper_merger.py:194-247 | For a non-empty source: the two loops, then the stats entry from their counters, give exactly the resolution of the source. |
| Engine.MergeRun.ProcessSource | research_paper_merger.py:187-247 | Processing a source gives exactly its resolution and keeps the object invariant. |
| Engine.RunSources | research_paper_merger.py:179-247 | The loop over the configuration loads each source in order and processes it. It ends in exactly the state of the specified run over the loaded sources. |
| Engine.MergeResearchPapers | research_paper_merger.py:163-270 | Returns the merged papers, log and stats of the run over the loaded sources. The log has one entry per input row, the YES count equals the number of merged papers, and the merged papers are unique by DOI key and, among DOI-less ones, by title key. |
| Scenarios.KeyOfTrimmed | research_paper_merger.py:10 | A text with no whitespace at either end normalizes to its lower-cased self. |
| Scenarios.ExampleKeys | research_paper_merger.py:6-10 | The keys of the sample cells, e.g. "10.1/X" becomes "10.1/x", and a missing cell gives the empty key. |
| Scenarios.TwoRowSource | research_paper_merger.py:196-242 | For a source whose first row has a DOI and whose second has none, resolution is one DOI step on row 1 followed by one title step on row 2. |
| Scenarios.ExampleHasShape | research_paper_merger.py:49-51 | The two sample sources have the shape that the end-to-end scenario requires, and their rows carry their own keys. |
| Scenarios.EndToEnd | research_paper_merger.py:163-247 | Two sources, each a DOI row then a DOI-less row: source A's DOI paper, then source A's DOI-less title twin (rejected as a duplicate title), then source B's paper with the same DOI (rejected as a duplicate DOI), then source B's new title (accepted). Merged and the full log are exactly as stated. |
| Scenarios.FirstSourceWins | research_paper_merger.py:180-223 | Two one-row sources with the same DOI: whichever is configured first is merged, and the second is logged NO with 'Duplicate DOI (already seen: doi)'. |
| Scenarios.DoiPassFirst | research_paper_merger.py:196-242 | In one source, a DOI-less row 1 and a DOI row 2 with the same title: row 2 is decided (and merged) first, and row 1 is then rejected as a duplicate title. The log's Row_Index values are 2 then 1. |
| Scenarios.BlankRowRejected | research_paper_merger.py:241-242 | A row with no DOI and a missing or all-whitespace title is logged NO with 'Empty/missing Title and DOI'. Merged and the seen titles are unchanged. |

## Left out

- Reading CSV files, the missing-columns warning and the exception paths. File contents are a parameter: `None` stands for a file that could not be read, which yields an empty source.
- Writing the merged data and the log with `to_csv`, all console output, and `print_summary`. They only report.
- `is_valid_doi` is not modelled: the merge never calls it.
- The `intra_file_duplicates` counter is not modelled: it is only printed.
- The default file list used when no configuration is given. The configuration is a parameter.
- pandas semantics:
  - a cell is a string or missing (NaN);
  - `str()` of numeric cells is not modelled;
  - the log's `Row_Index` uses the row's position, which equals pandas' index label for the default RangeIndex produced by `read_csv`.
- Normalizer.NormalizeSpec: whitespace and case are ASCII only. Python's `strip()` also removes Unicode whitespace, and `lower()` applies Unicode case mapping; neither is modelled.
- Aggregator.RunTotalRowsSum: the statistics are one map from source label to four counters rather than four dictionaries. A repeated label overwrites the earlier entry, as in the Python dictionaries, so the sums are stated only for distinct labels.
- Aggregator.RunUniqueAddedSum: stated only for distinct source labels, for the same reason.
- Engine.MergeResearchPapers: the merged output holds the four paper columns. The key columns of accepted rows are kept only as ghost state, matching the Python code, which drops them before appending.
