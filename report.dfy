/**
 * The report entries the tree reporter consumes (Surefire's WrappedReportEntry),
 * reduced to the fields the core reads. The formatting helpers behind them
 * (elapsedTimeAsString, getReportNameWithGroup, the captured output streams)
 * are not part of this model: their results are carried as opaque strings.
 */
module Report {
  import opened Wrappers

  /** Surefire's ReportEntryType. */
  datatype ReportEntryType = Success | Skipped | Failure | Error

  datatype Entry = Entry(
    sourceName: string,           // qualified class name, nested classes joined by '$'
    reportName: string,           // display name of the test (a null name is the empty string)
    reportNameWithGroup: string,  // display name of a class, prefixed by its enclosing classes
    reportSourceName: string,     // fallback label of a skipped test with a blank name
    status: ReportEntryType,
    elapsed: string,              // elapsedTimeAsString()
    message: Option<string>,      // None stands for null
    stackTrace: Option<string>,   // getStackTrace(false); None stands for null
    stdout: string,               // captured standard output, replayed verbatim
    stderr: string)               // captured standard error, replayed verbatim

  predicate IsErrorOrFailure(e: Entry) { e.status == Error || e.status == Failure }

  predicate IsSkipped(e: Entry) { e.status == Skipped }

  predicate IsSucceeded(e: Entry) { e.status == Success }

  /** Characters Java's Character.isWhitespace accepts in the ASCII range. */
  predicate IsWhitespace(c: char) {
    c == ' ' || c == '\t' || c == '\n' || c == '\r' || c == 11 as char || c == 12 as char
    || (28 as char <= c <= 31 as char)
  }

  /** StringUtils.isBlank: null, empty, or whitespace only. */
  predicate IsBlank(s: Option<string>) {
    s.None? || forall i | 0 <= i < |s.value| :: IsWhitespace(s.value[i])
  }
}
