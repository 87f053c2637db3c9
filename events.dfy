/** The messages exchanged between the page and the background worker. In
    the source every message is a plain object `{kind, ...payload}`; here it
    is one constructor per kind, so a handler that reacts to a kind matches on
    its constructor instead of looking the kind string up as a method name. */
module Events {
  import opened Common

  /** The browser `File` the user picked (its bytes travel separately). */
  datatype File = File(name: string, size: nat)

  /** `self.fileInfo` of the worker. */
  datatype FileInfo = FileInfo(name: string, size: nat, isParquet: bool)

  /** One generated code snippet set: `pythonSnippets(...)` of the worker. */
  datatype Snippets = Snippets(pandas: string, polars: string, warningEscapeChar: bool)

  /** The `kind` strings, as a closed vocabulary. */
  datatype Kind =
    | FILE_SELECTED | CSV_PARAMS | CSV_COMMIT
    | LOADING_PYODIDE | DONE_LOADING_PYODIDE
    | LOADING_FILE | DONE_LOADING_FILE
    | COMPUTING_CSV_PREVIEW | DONE_COMPUTING_CSV_PREVIEW
    | COMPUTING_REPORT | DONE_COMPUTING_REPORT

  /** A message. Fields the worker may leave `undefined` are options; a csv
      parameter set is a plain object of strings. */
  datatype Event =
    | FileSelected(file: File)
    | CsvParams(csvParams: map<string, string>)
    | CsvCommit
    | LoadingPyodide
    | DoneLoadingPyodide
    | LoadingFile(fileInfo: Option<FileInfo>)
    | DoneLoadingFile(fileInfo: Option<FileInfo>)
    | ComputingCsvPreview(fileInfo: Option<FileInfo>)
    | DoneComputingCsvPreview(
        raw: Option<string>,
        preview: Option<string>,
        errorType: Option<string>,
        error: Option<string>,
        fileInfo: Option<FileInfo>,
        sniffedCsvParams: Option<map<string, string>>,
        isComputingReport: bool)
    | ComputingReport(fileInfo: Option<FileInfo>)
    | DoneComputingReport(
        report: Option<string>,
        error: Option<string>,
        fileInfo: Option<FileInfo>,
        pythonSnippets: Snippets)

  function KindOf(e: Event): Kind
  {
    match e
    case FileSelected(_) => FILE_SELECTED
    case CsvParams(_) => CSV_PARAMS
    case CsvCommit => CSV_COMMIT
    case LoadingPyodide => LOADING_PYODIDE
    case DoneLoadingPyodide => DONE_LOADING_PYODIDE
    case LoadingFile(_) => LOADING_FILE
    case DoneLoadingFile(_) => DONE_LOADING_FILE
    case ComputingCsvPreview(_) => COMPUTING_CSV_PREVIEW
    case DoneComputingCsvPreview(_, _, _, _, _, _, _) => DONE_COMPUTING_CSV_PREVIEW
    case ComputingReport(_) => COMPUTING_REPORT
    case DoneComputingReport(_, _, _, _) => DONE_COMPUTING_REPORT
  }

  /** The three kinds the page sends; every other kind comes from the worker. */
  predicate FromPage(k: Kind)
  {
    k == FILE_SELECTED || k == CSV_PARAMS || k == CSV_COMMIT
  }

  /** Messages that announce engine work (`COMPUTING_*`). */
  predicate IsComputing(e: Event)
  {
    e.ComputingCsvPreview? || e.ComputingReport?
  }
}
