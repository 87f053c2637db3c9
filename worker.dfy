/** The background worker of the online report: the session it keeps
    (`self.fileInfo`, `self.data`, `self.sniff`, `self.csvParams`), the three
    entry points the page can call, the preview and report computations and
    the gate that holds both back until the Python engine has loaded.

    The Python engine (chardet, clevercsv, pandas, skrub) is an oracle: an
    `Engine` value says what each of its calls answers or raises. Every entry
    point is one atomic step from a session state to the next one plus the
    messages it posts, and a `Session` class carries out the same steps on
    mutable fields. */
module Worker {
  import opened Common
  import opened Events
  import Snippets

  // ---------------------------------------------------------------------
  // Pure helpers
  // ---------------------------------------------------------------------

  /** `isParquet(fileName)`. */
  predicate IsParquet(fileName: string)
  {
    EndsWith(fileName, ".parquet")
  }

  /** A `.parquet` extension makes a file parquet, whatever its stem, and a
      `.csv` extension never does. */
  lemma ParquetByExtension(stem: string)
    ensures IsParquet(stem + ".parquet")
    ensures !IsParquet(stem + ".csv")
  {
    var p := stem + ".parquet";
    assert p[|p| - |".parquet"|..] == ".parquet";
    var c := stem + ".csv";
    if |".parquet"| <= |c| {
      assert c[|c| - 1] == 'v';
      assert c[|c| - |".parquet"|..][|".parquet"| - 1] == c[|c| - 1];
    }
  }

  /** `escape_str_to_py`: the form's "none" sentinel becomes Python's `None`,
      every other text is kept. Reading it back gives the text again. */
  function EscapeStrToPy(escape: string): (r: Snippets.PyValue)
    ensures EscapePyToStr(r) == escape
    ensures r.PyNone? <==> escape == "none"
  {
    if escape == "none" then Snippets.PyNone else Snippets.PyStr(escape)
  }

  /** `escape_py_to_str`: Python's `None` becomes the sentinel "none". */
  function EscapePyToStr(escape: Snippets.PyValue): (r: string)
    ensures escape.PyStr? ==> r == escape.s
    ensures escape.PyNone? ==> r == "none"
  {
    match escape
    case PyNone => "none"
    case PyStr(s) => s
  }

  /** The sentinel is ambiguous: an escape string that is literally "none"
      does not survive the trip from Python to the form and back. */
  lemma EscapeSentinelCollides()
    ensures EscapeStrToPy(EscapePyToStr(Snippets.PyStr("none"))) != Snippets.PyStr("none")
  {
  }

  /** The sniffed encoding: chardet's answer, except that no answer and
      "ascii" both become "utf-8". */
  function NormalizeEncoding(detected: Option<string>): (r: string)
    ensures r != "ascii"
    ensures r == "utf-8" || detected == Some(r)
    ensures detected.Some? && detected.value != "ascii" ==> r == detected.value
  {
    if detected.None? || detected.value == "ascii" then "utf-8" else detected.value
  }

  /** Normalizing an already normalized encoding changes nothing. */
  lemma NormalizeEncodingIdempotent(detected: Option<string>)
    ensures NormalizeEncoding(Some(NormalizeEncoding(detected))) == NormalizeEncoding(detected)
  {
  }

  /** Python's `value or default` on a string that may be `None`: both `None`
      and the empty string fall back to the default. */
  function OrDefault(value: Option<string>, default: string): (r: string)
    ensures default != "" ==> r != ""
    ensures r == default || (value.Some? && r == value.value)
    ensures value.Some? && value.value != "" ==> r == value.value
  {
    if value.None? || value.value == "" then default else value.value
  }

  /** The sniffed escape: `escape_py_to_str(dialect.escapechar or None)`. */
  function SniffedEscape(escapechar: Option<string>): (r: string)
    ensures r != ""
    ensures r == "none" <==> escapechar.None? || escapechar.value in {"", "none"}
  {
    EscapePyToStr(if escapechar.None? || escapechar.value == "" then Snippets.PyNone
                  else Snippets.PyStr(escapechar.value))
  }

  // ---------------------------------------------------------------------
  // The engine oracle
  // ---------------------------------------------------------------------

  /** A Python exception: the formatted traceback and the exception's class
      name. */
  datatype Failure = Failure(error: string, errorType: string)

  datatype Outcome<T> = Ok(value: T) | Raised(failure: Failure)

  /** What clevercsv's sniffer reports; any field may be `None` or empty. */
  datatype Dialect = Dialect(delimiter: Option<string>, quotechar: Option<string>, escapechar: Option<string>)

  /** What the engine answers, or raises, for each call one job makes:
      `missingData` is what reading `js.data` raises when no bytes were
      loaded, `decoded` is the decoder's text (of the first 250000 bytes in
      sniff mode, of the first 4000 in manual mode), `dialect` is what the
      sniffer returns (`None` when it finds no dialect) or raises,
      `missingDialect` is the AttributeError that reading `dialect.delimiter`
      raises on `None`, `table` is the rendered five-row preview and `report`
      the report's HTML. */
  datatype Engine = Engine(
    missingData: Failure,
    detectedEncoding: Option<string>,
    decoded: Outcome<string>,
    dialect: Outcome<Option<Dialect>>,
    missingDialect: Failure,
    table: Outcome<string>,
    report: Outcome<string>)

  /** The parameter set the sniffer fills in, once it has a dialect. */
  function SniffedParams(encoding: string, d: Dialect): (r: map<string, string>)
    ensures r.Keys == {"encoding", "delimiter", "quote", "escape"}
    ensures forall k | k in r :: r[k] != "" || (k == "encoding" && encoding == "")
  {
    map["encoding" := encoding,
        "delimiter" := OrDefault(d.delimiter, ","),
        "quote" := OrDefault(d.quotechar, "\""),
        "escape" := SniffedEscape(d.escapechar)]
  }

  /** `decoded_text[:4000]` */
  function Prefix(text: string, n: nat): (r: string)
    ensures |r| <= n && r <= text
    ensures |text| <= n ==> r == text
  {
    if |text| <= n then text else text[..n]
  }

  /** What one run of `get_preview` leaves in the Python globals. */
  datatype PreviewResult = PreviewResult(
    raw: Option<string>,
    preview: Option<string>,
    failure: Option<Failure>,
    sniffed: map<string, string>)

  /** `get_preview()` with its `try`: in sniff mode the parameters are filled
      in stage by stage, so a failure keeps what the earlier stages found. */
  function Preview(sniff: bool, hasData: bool, engine: Engine): PreviewResult
  {
    if !hasData then PreviewResult(None, None, Some(engine.missingData), map[])
    else if sniff then
      var encoding := NormalizeEncoding(engine.detectedEncoding);
      var found := map["encoding" := encoding];
      match engine.decoded
      case Raised(f) => PreviewResult(None, None, Some(f), found)
      case Ok(text) =>
        match engine.dialect
        case Raised(f) => PreviewResult(Some(text), None, Some(f), found)
        case Ok(None) => PreviewResult(Some(Prefix(text, 4000)), None, Some(engine.missingDialect), found)
        case Ok(Some(d)) =>
          var params := SniffedParams(encoding, d);
          var raw := Some(Prefix(text, 4000));
          match engine.table
          case Raised(f) => PreviewResult(raw, None, Some(f), params)
          case Ok(html) => PreviewResult(raw, Some(html), None, params)
    else
      match engine.decoded
      case Raised(f) => PreviewResult(None, None, Some(f), map[])
      case Ok(text) =>
        match engine.table
        case Raised(f) => PreviewResult(Some(text), None, Some(f), map[])
        case Ok(html) => PreviewResult(Some(text), Some(html), None, map[])
  }

  /** The sniffer returned a dialect. */
  predicate FoundDialect(engine: Engine)
  {
    engine.dialect.Ok? && engine.dialect.value.Some?
  }

  /** A preview either fails or renders a table, never both, and a failed
      sniff still records the encoding it detected once the data could be
      read. */
  lemma PreviewFailsOrRenders(sniff: bool, hasData: bool, engine: Engine)
    ensures Preview(sniff, hasData, engine).failure.None? <==> Preview(sniff, hasData, engine).preview.Some?
    ensures var r := Preview(sniff, hasData, engine);
      r.failure.None? <==> hasData && engine.decoded.Ok? && engine.table.Ok? && (sniff ==> FoundDialect(engine))
    ensures var r := Preview(sniff, hasData, engine);
      sniff && hasData ==> "encoding" in r.sniffed && r.sniffed["encoding"] == NormalizeEncoding(engine.detectedEncoding)
    ensures !sniff ==> Preview(sniff, hasData, engine).sniffed == map[]
  {
  }

  /** The text shown as raw input is at most 4000 characters whenever the
      sniffer returned, with a dialect or without one; when it raised, it is
      the whole decoded text. Without a dialect the preview fails. */
  lemma PreviewRawLength(hasData: bool, engine: Engine)
    requires hasData && engine.decoded.Ok?
    ensures engine.dialect.Ok? ==> Preview(true, hasData, engine).raw == Some(Prefix(engine.decoded.value, 4000))
    ensures engine.dialect.Raised? ==> Preview(true, hasData, engine).raw == Some(engine.decoded.value)
    ensures engine.dialect == Ok(None) ==> Preview(true, hasData, engine).failure == Some(engine.missingDialect)
  {
  }

  function ErrorOf(f: Option<Failure>): (r: Option<string>)
    ensures r.Some? <==> f.Some?
  {
    if f.None? then None else Some(f.value.error)
  }

  function ErrorTypeOf(f: Option<Failure>): (r: Option<string>)
    ensures r.Some? <==> f.Some?
  {
    if f.None? then None else Some(f.value.errorType)
  }

  // ---------------------------------------------------------------------
  // Session state and steps
  // ---------------------------------------------------------------------

  type Bytes = seq<bv8>

  /** A JavaScript object of csv parameters: `ref` is its identity, which is
      what `!==` compares. */
  datatype JsParams = JsParams(ref: nat, values: map<string, string>)

  /** Work waiting on `await pyodideLoaded`, with what the engine will answer
      when it runs. */
  datatype Job = PreviewJob(engine: Engine) | ReportJob(engine: Engine)

  /** The worker's globals. `sniff` starts out `undefined`, which reads as
      false; `nextRef` is the identity the next created object gets. */
  datatype SessionState = SessionState(
    fileInfo: Option<FileInfo>,
    data: Option<Bytes>,
    sniff: bool,
    csvParams: Option<JsParams>,
    nextRef: nat,
    engineReady: bool,
    pending: seq<Job>)

  /** The state after a step and the messages it posted, in order. */
  datatype Transition = Transition(next: SessionState, posted: seq<Event>)

  function Then(posted: seq<Event>, t: Transition): (r: Transition)
    ensures r.next == t.next && r.posted == posted + t.posted
  {
    Transition(t.next, posted + t.posted)
  }

  function ParamValues(p: Option<JsParams>): (r: Option<map<string, string>>)
    ensures r.Some? <==> p.Some?
    ensures r.Some? ==> r.value == p.value.values
  {
    if p.None? then None else Some(p.value.values)
  }

  /** The worker's state when the script starts. */
  const Initial: SessionState := SessionState(None, None, false, None, 0, false, [])

  /** Messages that neither announce engine work nor the engine's arrival. */
  predicate Quiet(posted: seq<Event>)
  {
    forall i :: 0 <= i < |posted| ==> !IsComputing(posted[i]) && posted[i] != DoneLoadingPyodide
  }

  /** `getReport()` once the engine is there: announce, compute, and post the
      report with the snippets; a snippet that throws (no file information,
      or no parameters for a CSV) ends the job before the second message. */
  function RunReport(s: SessionState, engine: Engine): (t: Transition)
    ensures t.next == s
    ensures 1 <= |t.posted| <= 2 && t.posted[0] == ComputingReport(s.fileInfo)
  {
    var computing := ComputingReport(s.fileInfo);
    var result := if s.data.None? then Raised(engine.missingData) else engine.report;
    match Snippets.PythonSnippets(s.fileInfo, ParamValues(s.csvParams))
    case None => Transition(s, [computing])
    case Some(snippets) =>
      var report := if result.Ok? then Some(result.value) else None;
      var error := if result.Raised? then Some(result.failure.error) else None;
      Transition(s, [computing, DoneComputingReport(report, error, s.fileInfo, snippets)])
  }

  /** `csvPreview()` once the engine is there. In sniff mode the sniffed
      parameters become a new `self.csvParams`, sent along; the report
      follows the preview exactly when sniffing found no error. */
  function RunPreview(s: SessionState, engine: Engine): (t: Transition)
    ensures t.next.fileInfo == s.fileInfo && t.next.data == s.data && t.next.sniff == s.sniff
    ensures t.next.engineReady == s.engineReady && t.next.pending == s.pending
    ensures t.next.nextRef >= s.nextRef
    ensures |t.posted| >= 2 && t.posted[0] == ComputingCsvPreview(s.fileInfo) && t.posted[1].DoneComputingCsvPreview?
  {
    var r := Preview(s.sniff, s.data.Some?, engine);
    var head := [ComputingCsvPreview(s.fileInfo), PreviewMessage(s, r)];
    if ComputesReport(s, r) then Then(head, RunReport(AdoptSniffed(s, r), engine))
    else Transition(AdoptSniffed(s, r), head)
  }

  /** Whether `csvPreview()` goes on to the report. */
  predicate ComputesReport(s: SessionState, r: PreviewResult)
  {
    s.sniff && r.failure.None?
  }

  /** `DONE_COMPUTING_CSV_PREVIEW` for a preview result. */
  function PreviewMessage(s: SessionState, r: PreviewResult): (e: Event)
    ensures e.DoneComputingCsvPreview? && e.fileInfo == s.fileInfo
  {
    DoneComputingCsvPreview(r.raw, r.preview, ErrorTypeOf(r.failure), ErrorOf(r.failure),
                            s.fileInfo, if s.sniff then Some(r.sniffed) else None, ComputesReport(s, r))
  }

  /** In sniff mode, `self.csvParams` becomes a new object with the sniffed
      values. */
  function AdoptSniffed(s: SessionState, r: PreviewResult): (next: SessionState)
    ensures next.fileInfo == s.fileInfo && next.data == s.data && next.sniff == s.sniff
    ensures next.engineReady == s.engineReady && next.pending == s.pending
    ensures next.nextRef >= s.nextRef
  {
    if s.sniff then s.(csvParams := Some(JsParams(s.nextRef, r.sniffed)), nextRef := s.nextRef + 1) else s
  }

  /** `await pyodideLoaded`: run now, or wait in line. */
  function ReportStep(s: SessionState, engine: Engine): (t: Transition)
    ensures !s.engineReady ==> t.posted == [] && t.next == s.(pending := s.pending + [ReportJob(engine)])
    ensures s.engineReady ==> t.next == s
  {
    if s.engineReady then RunReport(s, engine)
    else Transition(s.(pending := s.pending + [ReportJob(engine)]), [])
  }

  function PreviewStep(s: SessionState, engine: Engine): (t: Transition)
    ensures !s.engineReady ==> t.posted == [] && t.next == s.(pending := s.pending + [PreviewJob(engine)])
    ensures t.next.fileInfo == s.fileInfo && t.next.data == s.data && t.next.sniff == s.sniff
    ensures t.next.engineReady == s.engineReady
    ensures s.engineReady ==> t.next.pending == s.pending
  {
    if s.engineReady then RunPreview(s, engine)
    else Transition(s.(pending := s.pending + [PreviewJob(engine)]), [])
  }

  /** `FILE_SELECTED`: record the file, forget the old bytes, read the new
      ones, then go on. A read that fails ends the step after
      `LOADING_FILE`. */
  function FileSelectedStep(s: SessionState, file: File, read: Option<Bytes>, engine: Engine): Transition
  {
    var info := FileInfo(file.name, file.size, IsParquet(file.name));
    var s1 := s.(fileInfo := Some(info), data := None);
    if read.None? then Transition(s1, [LoadingFile(Some(info))])
    else
      Then([LoadingFile(Some(info)), DoneLoadingFile(Some(info))],
           AfterRead(s1.(data := read), info.isParquet, engine))
  }

  /** `FILE_SELECTED` with bytes: the two load messages, then the rest. */
  lemma FileSelectedThenRead(s: SessionState, file: File, bytes: Bytes, engine: Engine)
    ensures var info := FileInfo(file.name, file.size, IsParquet(file.name));
      var rest := AfterRead(s.(fileInfo := Some(info), data := Some(bytes)), info.isParquet, engine);
      var t := FileSelectedStep(s, file, Some(bytes), engine);
      t.next == rest.next && t.posted == [LoadingFile(Some(info)), DoneLoadingFile(Some(info))] + rest.posted
  {
  }

  /** The rest of `FILE_SELECTED` once the bytes are in: the report for a
      parquet file, a sniffing preview for any other. */
  function AfterRead(s: SessionState, isParquet: bool, engine: Engine): Transition
  {
    if isParquet then ReportStep(s, engine) else PreviewStep(s.(sniff := true), engine)
  }

  /** `CSV_PARAMS`, given the object that arrived: when it is not the very
      object already held, switch to manual mode, keep it, and preview. */
  function CsvParamsStep(s: SessionState, incoming: JsParams, engine: Engine): Transition
  {
    if s.csvParams != Some(incoming) then
      PreviewStep(s.(sniff := false, csvParams := Some(incoming)), engine)
    else Transition(s, [])
  }

  /** `self.onmessage`: dispatch on the kind. A message's payload arrives as
      a structured clone, so a parameter object is always a new object. A
      kind with no entry point throws, and the message is dropped. */
  function OnMessage(s: SessionState, msg: Event, read: Option<Bytes>, engine: Engine): Transition
  {
    match msg
    case FileSelected(file) => FileSelectedStep(s, file, read, engine)
    case CsvParams(values) => CsvParamsStep(s.(nextRef := s.nextRef + 1), JsParams(s.nextRef, values), engine)
    case CsvCommit => ReportStep(s, engine)
    case _ => Transition(s, [])
  }

  function RunJob(s: SessionState, job: Job): (t: Transition)
    ensures t.next.engineReady == s.engineReady && t.next.pending == s.pending
  {
    match job
    case PreviewJob(engine) => RunPreview(s, engine)
    case ReportJob(engine) => RunReport(s, engine)
  }

  /** The waiting jobs, run in the order they started waiting. */
  function RunJobs(s: SessionState, jobs: seq<Job>): (t: Transition)
    ensures t.next.engineReady == s.engineReady && t.next.pending == s.pending
    decreases |jobs|
  {
    if jobs == [] then Transition(s, [])
    else
      var t := RunJobs(s, jobs[..|jobs| - 1]);
      Then(t.posted, RunJob(t.next, jobs[|jobs| - 1]))
  }

  /** One more waiting job. */
  lemma RunJobsStep(s: SessionState, jobs: seq<Job>, i: nat)
    requires i < |jobs|
    ensures var done := RunJobs(s, jobs[..i]);
      var step := RunJob(done.next, jobs[i]);
      RunJobs(s, jobs[..i + 1]).next == step.next
      && RunJobs(s, jobs[..i + 1]).posted == done.posted + step.posted
  {
    assert jobs[..i + 1][..i] == jobs[..i];
  }

  /** `startPyodide()` resolving: announce the engine, then let every waiting
      job run. */
  function EngineLoaded(s: SessionState): (t: Transition)
    requires !s.engineReady
    ensures t.next.engineReady && t.next.pending == []
    ensures |t.posted| >= 1 && t.posted[0] == DoneLoadingPyodide
  {
    Then([DoneLoadingPyodide], RunJobs(s.(engineReady := true, pending := []), s.pending))
  }

  /** What can happen to the worker: a message from the page, or the engine
      finishing its load. */
  datatype Input = Message(msg: Event, read: Option<Bytes>, engine: Engine) | Loaded

  /** One step; the load signal only comes once, so a second one does
      nothing. */
  function Step(s: SessionState, input: Input): Transition
  {
    match input
    case Message(msg, read, engine) => OnMessage(s, msg, read, engine)
    case Loaded => if s.engineReady then Transition(s, []) else EngineLoaded(s)
  }

  /** The state and the whole message stream after a run of inputs, starting
      from script start, which posts `LOADING_PYODIDE`. */
  function Run(inputs: seq<Input>): (t: Transition)
    decreases |inputs|
  {
    if inputs == [] then Transition(Initial, [LoadingPyodide])
    else
      var t := Run(inputs[..|inputs| - 1]);
      Then(t.posted, Step(t.next, inputs[|inputs| - 1]))
  }

  // ---------------------------------------------------------------------
  // The engine gate
  // ---------------------------------------------------------------------

  /** No `COMPUTING_*` message comes before `DONE_LOADING_PYODIDE`. */
  predicate ComputingAfterLoad(outbox: seq<Event>)
  {
    forall i :: 0 <= i < |outbox| && IsComputing(outbox[i]) ==> DoneLoadingPyodide in outbox[..i]
  }

  /** The gate's invariant: the engine counts as ready exactly when its
      arrival was announced, nothing waits once it is ready, and no engine
      work was announced before it. */
  predicate GateOk(s: SessionState, outbox: seq<Event>)
  {
    (s.engineReady <==> DoneLoadingPyodide in outbox)
    && (s.engineReady ==> s.pending == [])
    && ComputingAfterLoad(outbox)
  }

  lemma AppendAfterLoad(outbox: seq<Event>, posted: seq<Event>)
    requires ComputingAfterLoad(outbox) && DoneLoadingPyodide in outbox
    ensures ComputingAfterLoad(outbox + posted)
  {
    var all := outbox + posted;
    forall i | 0 <= i < |all| && IsComputing(all[i])
      ensures DoneLoadingPyodide in all[..i]
    {
      if i < |outbox| {
        assert all[..i] == outbox[..i];
      } else {
        var j :| 0 <= j < |outbox| && outbox[j] == DoneLoadingPyodide;
        assert all[..i][j] == DoneLoadingPyodide;
      }
    }
  }

  lemma AppendNoComputing(outbox: seq<Event>, posted: seq<Event>)
    requires ComputingAfterLoad(outbox)
    requires forall i :: 0 <= i < |posted| ==> !IsComputing(posted[i])
    ensures ComputingAfterLoad(outbox + posted)
  {
    var all := outbox + posted;
    assert forall k :: |outbox| <= k < |all| ==> all[k] == posted[k - |outbox|];
    forall i | 0 <= i < |all| && IsComputing(all[i])
      ensures DoneLoadingPyodide in all[..i]
    {
      assert i < |outbox|;
      assert all[..i] == outbox[..i];
    }
  }

  lemma AppendQuiet(outbox: seq<Event>, posted: seq<Event>)
    requires ComputingAfterLoad(outbox) && Quiet(posted)
    ensures ComputingAfterLoad(outbox + posted)
    ensures DoneLoadingPyodide in outbox + posted <==> DoneLoadingPyodide in outbox
  {
    AppendNoComputing(outbox, posted);
    var all := outbox + posted;
    assert forall k :: |outbox| <= k < |all| ==> all[k] == posted[k - |outbox|];
    if DoneLoadingPyodide in all {
      var j :| 0 <= j < |all| && all[j] == DoneLoadingPyodide;
      assert j < |outbox|;
    }
  }

  /** Before the engine is ready, a message step posts nothing that the
      gate holds back, and leaves the engine flag alone. */
  lemma OnMessageWhileLoading(s: SessionState, msg: Event, read: Option<Bytes>, engine: Engine)
    requires !s.engineReady
    ensures var t := OnMessage(s, msg, read, engine);
      Quiet(t.posted) && !t.next.engineReady
  {
  }

  lemma ReportDoesNotAnnounce(s: SessionState, engine: Engine)
    ensures DoneLoadingPyodide !in RunReport(s, engine).posted
  {
  }

  lemma PreviewDoesNotAnnounce(s: SessionState, engine: Engine)
    ensures DoneLoadingPyodide !in RunPreview(s, engine).posted
  {
    var r := Preview(s.sniff, s.data.Some?, engine);
    ReportDoesNotAnnounce(AdoptSniffed(s, r), engine);
  }

  /** Running the waiting jobs never announces the engine a second time. */
  lemma {:induction false} JobsDoNotAnnounce(s: SessionState, jobs: seq<Job>)
    ensures DoneLoadingPyodide !in RunJobs(s, jobs).posted
    decreases |jobs|
  {
    if jobs != [] {
      var prefix := jobs[..|jobs| - 1];
      JobsDoNotAnnounce(s, prefix);
      var t := RunJobs(s, prefix);
      match jobs[|jobs| - 1]
      case PreviewJob(engine) => PreviewDoesNotAnnounce(t.next, engine);
      case ReportJob(engine) => ReportDoesNotAnnounce(t.next, engine);
    }
  }

  /** Once the engine is ready, a message step never announces it again and
      nothing is left waiting. */
  lemma OnMessageWhenReady(s: SessionState, msg: Event, read: Option<Bytes>, engine: Engine)
    requires s.engineReady && s.pending == []
    ensures var t := OnMessage(s, msg, read, engine);
      t.next.engineReady && t.next.pending == [] && DoneLoadingPyodide !in t.posted
  {
    var t := OnMessage(s, msg, read, engine);
    match msg
    case FileSelected(file) =>
      var info := FileInfo(file.name, file.size, IsParquet(file.name));
      if read.Some? {
        var s2 := s.(fileInfo := Some(info), data := read);
        var head := [LoadingFile(Some(info)), DoneLoadingFile(Some(info))];
        if info.isParquet {
          ReportDoesNotAnnounce(s2, engine);
          assert t.posted == head + RunReport(s2, engine).posted;
        } else {
          PreviewDoesNotAnnounce(s2.(sniff := true), engine);
          assert t.posted == head + RunPreview(s2.(sniff := true), engine).posted;
        }
      }
    case CsvParams(values) =>
      PreviewDoesNotAnnounce(s.(nextRef := s.nextRef + 1, sniff := false, csvParams := Some(JsParams(s.nextRef, values))), engine);
    case CsvCommit =>
      ReportDoesNotAnnounce(s, engine);
    case _ =>
  }

  /** Every step keeps the gate's invariant. */
  lemma StepKeepsGate(s: SessionState, outbox: seq<Event>, input: Input)
    requires GateOk(s, outbox)
    ensures var t := Step(s, input); GateOk(t.next, outbox + t.posted)
  {
    var t := Step(s, input);
    match input
    case Message(msg, read, engine) =>
      if s.engineReady {
        OnMessageWhenReady(s, msg, read, engine);
        AppendAfterLoad(outbox, t.posted);
      } else {
        OnMessageWhileLoading(s, msg, read, engine);
        AppendQuiet(outbox, t.posted);
      }
    case Loaded =>
      if !s.engineReady {
        var u := RunJobs(s.(engineReady := true, pending := []), s.pending);
        AppendNoComputing(outbox, [DoneLoadingPyodide]);
        assert (outbox + [DoneLoadingPyodide])[|outbox|] == DoneLoadingPyodide;
        AppendAfterLoad(outbox + [DoneLoadingPyodide], u.posted);
        assert outbox + t.posted == outbox + [DoneLoadingPyodide] + u.posted;
      } else {
        assert outbox + t.posted == outbox;
      }
  }

  /** Whatever the page sends and whenever the engine arrives, no engine work
      is announced before the engine is, and the gate's invariant holds. */
  lemma {:induction false} RunKeepsGate(inputs: seq<Input>)
    ensures GateOk(Run(inputs).next, Run(inputs).posted)
    decreases |inputs|
  {
    if inputs == [] {
      assert !IsComputing(LoadingPyodide);
    } else {
      var prefix := inputs[..|inputs| - 1];
      RunKeepsGate(prefix);
      StepKeepsGate(Run(prefix).next, Run(prefix).posted, inputs[|inputs| - 1]);
    }
  }

  // ---------------------------------------------------------------------
  // Properties of the entry points
  // ---------------------------------------------------------------------

  /** `FILE_SELECTED` replaces the file information, announces the load with
      it, and, when the bytes arrive, keeps them and says so with the same
      information. */
  lemma FileSelectedRecordsFile(s: SessionState, file: File, read: Option<Bytes>, engine: Engine)
    ensures var t := FileSelectedStep(s, file, read, engine);
      var info := FileInfo(file.name, file.size, IsParquet(file.name));
      t.next.fileInfo == Some(info) && t.next.data == read
      && |t.posted| >= 1 && t.posted[0] == LoadingFile(Some(info))
      && (read.None? <==> |t.posted| == 1)
      && (read.Some? ==> t.posted[1] == DoneLoadingFile(Some(info)))
  {
  }

  /** A parquet file goes straight to the report: no preview message is
      posted, and neither the csv parameters nor the sniff flag are reset. */
  lemma ParquetSkipsPreview(s: SessionState, file: File, read: Option<Bytes>, engine: Engine)
    requires IsParquet(file.name)
    ensures var t := FileSelectedStep(s, file, read, engine);
      (forall i :: 0 <= i < |t.posted| ==>
         !t.posted[i].ComputingCsvPreview? && !t.posted[i].DoneComputingCsvPreview?)
      && t.next.csvParams == s.csvParams && t.next.sniff == s.sniff
      && (s.engineReady && read.Some? ==> t.posted[2] == ComputingReport(t.next.fileInfo))
  {
  }

  /** A file that cannot be read leaves the csv parameters and the sniff flag
      as they were, and no bytes behind. */
  lemma FailedReadKeepsParams(s: SessionState, file: File, engine: Engine)
    ensures var t := FileSelectedStep(s, file, None, engine);
      t.next.csvParams == s.csvParams && t.next.sniff == s.sniff && t.next.data.None?
  {
  }

  /** Any other file is previewed in sniff mode. */
  lemma CsvFileIsSniffed(s: SessionState, file: File, bytes: Bytes, engine: Engine)
    requires !IsParquet(file.name) && s.engineReady
    ensures var t := FileSelectedStep(s, file, Some(bytes), engine);
      t.next.sniff && t.posted[2] == ComputingCsvPreview(t.next.fileInfo)
      && t.posted[3].DoneComputingCsvPreview? && t.posted[3].sniffedCsvParams.Some?
  {
  }

  /** The preview is announced before its result; the report is computed
      exactly when sniff mode found no error, and then only after the result
      was posted. */
  lemma PreviewThenReport(s: SessionState, engine: Engine)
    ensures var t := RunPreview(s, engine);
      var done := t.posted[1];
      (done.isComputingReport <==> s.sniff && done.error.None?)
      && (done.isComputingReport <==> |t.posted| > 2)
      && (done.isComputingReport ==> t.posted[2] == ComputingReport(s.fileInfo))
      && done.fileInfo == s.fileInfo
  {
  }

  /** Sniff mode replaces the parameters by a new object holding what was
      sniffed and sends those values along; manual mode keeps the parameters
      and sends none. */
  lemma SniffedParamsReplaceParams(s: SessionState, engine: Engine)
    ensures var t := RunPreview(s, engine);
      var r := Preview(s.sniff, s.data.Some?, engine);
      (s.sniff ==> t.next.csvParams == Some(JsParams(s.nextRef, r.sniffed))
                   && t.posted[1].sniffedCsvParams == Some(r.sniffed))
      && (!s.sniff ==> t.next.csvParams == s.csvParams && t.posted[1].sniffedCsvParams.None?)
  {
  }

  /** A report announces itself with the current file information; its result
      carries the file information and the snippets for the current
      parameters, and an error exactly when there are no bytes or the
      engine raised. */
  lemma ReportCarriesSnippets(s: SessionState, engine: Engine)
    ensures var t := RunReport(s, engine);
      var snippets := Snippets.PythonSnippets(s.fileInfo, ParamValues(s.csvParams));
      (|t.posted| == 2 <==> snippets.Some?)
      && (|t.posted| == 2 ==>
            t.posted[1].fileInfo == s.fileInfo && t.posted[1].pythonSnippets == snippets.value
            && (t.posted[1].error.Some? <==> s.data.None? || engine.report.Raised?)
            && (t.posted[1].report.Some? <==> t.posted[1].error.None?))
  {
  }

  /** Every object this session holds was created before `nextRef`. */
  predicate RefsFresh(s: SessionState)
  {
    s.csvParams.Some? ==> s.csvParams.value.ref < s.nextRef
  }

  lemma StepKeepsRefsFresh(s: SessionState, input: Input)
    requires RefsFresh(s)
    ensures RefsFresh(Step(s, input).next)
  {
    match input
    case Message(msg, read, engine) => {
      match msg
      case FileSelected(file) =>
        var info := FileInfo(file.name, file.size, IsParquet(file.name));
        var s2 := s.(fileInfo := Some(info), data := read);
        if read.Some? && !info.isParquet {
          assert RefsFresh(s2.(sniff := true));
        }
      case _ =>
    }
    case Loaded =>
      if !s.engineReady {
        JobsKeepRefsFresh(s.(engineReady := true, pending := []), s.pending);
      }
  }

  lemma {:induction false} JobsKeepRefsFresh(s: SessionState, jobs: seq<Job>)
    requires RefsFresh(s)
    ensures RefsFresh(RunJobs(s, jobs).next)
    decreases |jobs|
  {
    if jobs != [] {
      JobsKeepRefsFresh(s, jobs[..|jobs| - 1]);
    }
  }

  /** The parameter guard of `CSV_PARAMS` compares identities, and the
      message's object is always a new one: so every `CSV_PARAMS` switches to
      manual mode and keeps the new values, even when they equal the values
      already held; the file and its bytes stay. */
  lemma CsvParamsAlwaysApplies(s: SessionState, values: map<string, string>, engine: Engine)
    requires RefsFresh(s)
    ensures var t := OnMessage(s, CsvParams(values), None, engine);
      !t.next.sniff && ParamValues(t.next.csvParams) == Some(values)
      && t.next.fileInfo == s.fileInfo && t.next.data == s.data
      && (s.engineReady ==> t.posted[0] == ComputingCsvPreview(s.fileInfo) && t.posted[1].sniffedCsvParams.None?)
  {
    var s1 := s.(nextRef := s.nextRef + 1);
    assert s1.csvParams != Some(JsParams(s.nextRef, values));
    var s2 := s1.(sniff := false, csvParams := Some(JsParams(s.nextRef, values)));
    if s.engineReady {
      PreviewThenReport(s2, engine);
      SniffedParamsReplaceParams(s2, engine);
    }
  }

  /** `CSV_COMMIT` computes the report, or waits for the engine to do so. */
  lemma CsvCommitReports(s: SessionState, engine: Engine)
    ensures var t := OnMessage(s, CsvCommit, None, engine);
      t.next.fileInfo == s.fileInfo && t.next.csvParams == s.csvParams && t.next.sniff == s.sniff
      && (s.engineReady ==> t.posted[0] == ComputingReport(s.fileInfo))
      && (!s.engineReady ==> t.posted == [] && t.next.pending == s.pending + [ReportJob(engine)])
  {
  }

  /** Messages the worker has no entry point for change nothing. */
  lemma OtherKindsIgnored(s: SessionState, msg: Event, read: Option<Bytes>, engine: Engine)
    requires !FromPage(KindOf(msg))
    ensures OnMessage(s, msg, read, engine) == Transition(s, [])
  {
  }

  function KindsOf(posted: seq<Event>): (r: seq<Kind>)
    ensures |r| == |posted|
    ensures forall i :: 0 <= i < |r| ==> r[i] == KindOf(posted[i])
  {
    seq(|posted|, i requires 0 <= i < |posted| => KindOf(posted[i]))
  }

  /** A sniffing preview on a ready engine, with every engine call
      succeeding, is followed by the report, and nothing fails. */
  lemma SniffedPreviewHappyPath(s: SessionState, engine: Engine)
    requires s.engineReady && s.sniff && s.data.Some? && s.fileInfo.Some?
    requires engine.decoded.Ok? && FoundDialect(engine) && engine.table.Ok? && engine.report.Ok?
    ensures var t := RunPreview(s, engine);
      KindsOf(t.posted) == [COMPUTING_CSV_PREVIEW, DONE_COMPUTING_CSV_PREVIEW, COMPUTING_REPORT, DONE_COMPUTING_REPORT]
      && t.posted[1].isComputingReport && t.posted[1].error.None?
      && t.posted[3].error.None? && t.posted[3].report == Some(engine.report.value)
  {
    var r := Preview(true, true, engine);
    assert r.sniffed.Keys == {"encoding", "delimiter", "quote", "escape"};
    var s1 := s.(csvParams := Some(JsParams(s.nextRef, r.sniffed)), nextRef := s.nextRef + 1);
    assert Snippets.PythonSnippets(s1.fileInfo, ParamValues(s1.csvParams)).Some?;
    var u := RunReport(s1, engine);
    assert |u.posted| == 2;
  }

  /** A CSV file on a ready engine, with every engine call succeeding, goes
      through the whole pipeline without an error. */
  lemma CsvHappyPath(s: SessionState, file: File, bytes: Bytes, engine: Engine)
    requires s.engineReady && !IsParquet(file.name)
    requires engine.decoded.Ok? && FoundDialect(engine) && engine.table.Ok? && engine.report.Ok?
    ensures var t := FileSelectedStep(s, file, Some(bytes), engine);
      KindsOf(t.posted) == [LOADING_FILE, DONE_LOADING_FILE, COMPUTING_CSV_PREVIEW,
                            DONE_COMPUTING_CSV_PREVIEW, COMPUTING_REPORT, DONE_COMPUTING_REPORT]
      && t.posted[3].isComputingReport && t.posted[3].error.None?
      && t.posted[5].error.None? && t.posted[5].report == Some(engine.report.value)
  {
    var info := FileInfo(file.name, file.size, IsParquet(file.name));
    var s3 := s.(fileInfo := Some(info), data := Some(bytes), sniff := true);
    SniffedPreviewHappyPath(s3, engine);
    var u := RunPreview(s3, engine);
    var t := FileSelectedStep(s, file, Some(bytes), engine);
    assert t.posted == [LoadingFile(Some(info)), DoneLoadingFile(Some(info))] + u.posted;
  }

  /** A parquet file on a ready engine goes from loading straight to the
      report. */
  lemma ParquetHappyPath(s: SessionState, file: File, bytes: Bytes, engine: Engine)
    requires s.engineReady && IsParquet(file.name) && engine.report.Ok?
    ensures var t := FileSelectedStep(s, file, Some(bytes), engine);
      KindsOf(t.posted) == [LOADING_FILE, DONE_LOADING_FILE, COMPUTING_REPORT, DONE_COMPUTING_REPORT]
      && t.posted[3].error.None?
  {
  }

  // ---------------------------------------------------------------------
  // What the snippets say, against what the report reads with
  // ---------------------------------------------------------------------

  /** The pandas snippet's escape argument is what `get_report` passes as
      `escapechar` only for "none" and for a backslash: any other escape
      character is written as a backslash. */
  lemma EscapeLiteralFaithful(escape: string)
    ensures Snippets.PyLiteral(Snippets.EscapeLiteral(Some(escape))) == Some(EscapeStrToPy(escape))
        <==> escape == "none" || escape == "\\"
  {
    Snippets.EscapeLiteralDenotes(Some(escape));
  }

  /** The polars escape warning is raised exactly when the pandas snippet
      passes an escape character that polars cannot. */
  lemma EscapeWarningIffPandasEscapes(info: FileInfo, params: map<string, string>)
    ensures var r := Snippets.PythonSnippets(Some(info), Some(params));
      r.Some? && (r.value.warningEscapeChar <==>
        !info.isParquet && Snippets.PyLiteral(Snippets.EscapeLiteral(Get(params, "escape"))) != Some(Snippets.PyNone))
  {
    Snippets.EscapeLiteralDenotes(Get(params, "escape"));
  }

  /** For sniffed parameters whose delimiter needs no escaping (or is a tab),
      the separator and quote the pandas snippet writes are exactly the ones
      the preview and the report read with. */
  lemma SniffedSnippetFaithful(encoding: string, d: Dialect)
    requires var p := SniffedParams(encoding, d);
      p["delimiter"] == "\t" || Snippets.PlainText(p["delimiter"])
    requires var p := SniffedParams(encoding, d); p["quote"] == "\"" || p["quote"] == "'"
    ensures var p := SniffedParams(encoding, d);
      Snippets.PyLiteral(Snippets.DelimiterLiteral(Get(p, "delimiter"))) == Some(Snippets.PyStr(p["delimiter"]))
      && Snippets.PyLiteral(Snippets.QuoteLiteral(Get(p, "quote"))) == Some(Snippets.PyStr(p["quote"]))
  {
    var p := SniffedParams(encoding, d);
    Snippets.DelimiterLiteralDenotes(p["delimiter"]);
    Snippets.QuoteLiteralFaithful(p["quote"]);
  }
}
