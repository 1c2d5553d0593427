/**
 * The decision ledger: one entry per processed row, recording where the row
 * came from, its cells, whether it was selected and why.
 */
module Ledger {
  import opened Wrappers
  import opened Sources

  /** One row of the processing log. `selected` is written out as YES / NO. */
  datatype LogEntry = LogEntry(
    sourceFile: string,
    rowIndex: nat,
    title: string,
    abstractText: string,
    doi: string,
    selected: bool,
    reason: string)

  function SelectedText(e: LogEntry): string
  {
    if e.selected then "YES" else "NO"
  }

  /** A missing cell is logged as the empty text. */
  function OrEmpty(o: Option<string>): string
  {
    o.GetOr("")
  }

  /**
   * log_row_decision: appends the entry for the row at 0-based position idx of
   * source dbName; the log records the 1-based position and leaves every
   * earlier entry as it was.
   */
  function LogRowDecision(log: seq<LogEntry>, row: Row, idx: nat, dbName: string, selected: bool, reason: string)
    : (r: seq<LogEntry>)
    ensures |r| == |log| + 1 && r[..|log|] == log
    ensures r[|log|].sourceFile == dbName && r[|log|].rowIndex == idx + 1
    ensures r[|log|].selected == selected && r[|log|].reason == reason
    ensures row.paper.title.None? ==> r[|log|].title == ""
    ensures row.paper.title.Some? ==> r[|log|].title == row.paper.title.value
    ensures row.paper.abstractText.None? ==> r[|log|].abstractText == ""
    ensures row.paper.abstractText.Some? ==> r[|log|].abstractText == row.paper.abstractText.value
    ensures row.paper.doi.None? ==> r[|log|].doi == ""
    ensures row.paper.doi.Some? ==> r[|log|].doi == row.paper.doi.value
  {
    log + [LogEntry(dbName, idx + 1, OrEmpty(row.paper.title), OrEmpty(row.paper.abstractText), OrEmpty(row.paper.doi), selected, reason)]
  }

  /** The reasons the engine writes. */
  const UniqueDoiReason := "Unique DOI"
  const UniqueTitleReason := "Unique Title (no DOI)"
  const EmptyKeysReason := "Empty/missing Title and DOI"

  function DuplicateDoiReason(doi: string): string
  {
    "Duplicate DOI (already seen: " + doi + ")"
  }

  /** The first 50 characters of s (all of s when it is shorter). */
  function Prefix(s: string, n: nat): (r: string)
    ensures |r| <= n && r <= s
    ensures |s| <= n ==> r == s
    ensures |s| > n ==> r == s[..n]
  {
    if |s| <= n then s else s[..n]
  }

  function DuplicateTitleReason(title: string): string
  {
    "Duplicate Title (already seen: " + Prefix(title, 50) + "...)"
  }

  /** The number of YES entries. */
  function CountSelected(log: seq<LogEntry>): (n: nat)
    ensures n <= |log|
    ensures n == |log| <==> forall k :: 0 <= k < |log| ==> log[k].selected
    ensures n == 0 <==> forall k :: 0 <= k < |log| ==> !log[k].selected
  {
    if log == [] then 0
    else
      var last := log[|log| - 1];
      assert forall k :: 0 <= k < |log| - 1 ==> log[..|log| - 1][k] == log[k];
      CountSelected(log[..|log| - 1]) + (if last.selected then 1 else 0)
  }

  /** Counting YES entries distributes over concatenation of logs. */
  lemma {:induction false} CountSelectedAppend(a: seq<LogEntry>, b: seq<LogEntry>)
    ensures CountSelected(a + b) == CountSelected(a) + CountSelected(b)
    decreases |b|
  {
    if b != [] {
      var b' := b[..|b| - 1];
      assert (a + b)[..|a + b| - 1] == a + b';
      CountSelectedAppend(a, b');
    } else {
      assert a + b == a;
    }
  }
}
