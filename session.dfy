/** The worker's globals as a mutable object: each entry point of the worker
    script is a method that updates the fields in place and appends to the
    stream of posted messages, and is proved to do what the corresponding
    step of `Worker` describes. */
module WorkerSession {
  import opened Common
  import opened Events
  import Snippets
  import opened Worker

  class Session {
    var fileInfo: Option<FileInfo>
    var data: Option<Bytes>
    var sniff: bool
    var csvParams: Option<JsParams>
    var nextRef: nat
    var engineReady: bool
    var pending: seq<Job>
    /** Every message posted to the page so far, in order. */
    var outbox: seq<Event>

    function State(): SessionState
      reads this
    {
      SessionState(fileInfo, data, sniff, csvParams, nextRef, engineReady, pending)
    }

    /** The gate's invariant and fresh object identities. */
    predicate Valid()
      reads this
    {
      GateOk(State(), outbox) && RefsFresh(State())
    }

    /** Script start: the globals are unset and `startPyodide()` has posted
        `LOADING_PYODIDE`. */
    constructor ()
      ensures State() == Initial && outbox == [LoadingPyodide]
      ensures Valid()
    {
      fileInfo := None;
      data := None;
      sniff := false;
      csvParams := None;
      nextRef := 0;
      engineReady := false;
      pending := [];
      outbox := [LoadingPyodide];
      new;
      assert !IsComputing(LoadingPyodide);
    }

    /** `getReport()` past its `await`. */
    method GetReport(engine: Engine)
      requires engineReady
      modifies this
      ensures State() == RunReport(old(State()), engine).next
      ensures outbox == old(outbox) + RunReport(old(State()), engine).posted
    {
      outbox := outbox + [ComputingReport(fileInfo)];
      var result := if data.None? then Raised(engine.missingData) else engine.report;
      var snippets := Snippets.PythonSnippets(fileInfo, ParamValues(csvParams));
      if snippets.None? {
        // pythonSnippets throws a TypeError: the job ends here
        return;
      }
      var report := if result.Ok? then Some(result.value) else None;
      var error := if result.Raised? then Some(result.failure.error) else None;
      outbox := outbox + [DoneComputingReport(report, error, fileInfo, snippets.value)];
    }

    /** `csvPreview()` past its `await`. */
    method CsvPreview(engine: Engine)
      requires engineReady
      modifies this
      ensures State() == RunPreview(old(State()), engine).next
      ensures outbox == old(outbox) + RunPreview(old(State()), engine).posted
    {
      var r := Preview(sniff, data.Some?, engine);
      outbox := outbox + [ComputingCsvPreview(fileInfo), PreviewMessage(State(), r)];
      var computeReport := ComputesReport(State(), r);
      if sniff {
        csvParams := Some(JsParams(nextRef, r.sniffed));
        nextRef := nextRef + 1;
      }
      assert State() == AdoptSniffed(old(State()), r);
      if computeReport {
        GetReport(engine);
      }
    }

    /** `getReport()` as called: it runs now, or waits for the engine. */
    method AwaitReport(engine: Engine)
      modifies this
      ensures State() == ReportStep(old(State()), engine).next
      ensures outbox == old(outbox) + ReportStep(old(State()), engine).posted
    {
      if engineReady {
        GetReport(engine);
      } else {
        pending := pending + [ReportJob(engine)];
      }
    }

    /** `csvPreview()` as called. */
    method AwaitPreview(engine: Engine)
      modifies this
      ensures State() == PreviewStep(old(State()), engine).next
      ensures outbox == old(outbox) + PreviewStep(old(State()), engine).posted
    {
      if engineReady {
        CsvPreview(engine);
      } else {
        pending := pending + [PreviewJob(engine)];
      }
    }

    /** `FILE_SELECTED(data)`, with the outcome of reading the file. */
    method FileSelected(file: File, read: Option<Bytes>, engine: Engine)
      modifies this
      ensures State() == FileSelectedStep(old(State()), file, read, engine).next
      ensures outbox == old(outbox) + FileSelectedStep(old(State()), file, read, engine).posted
    {
      var info := FileInfo(file.name, file.size, IsParquet(file.name));
      StartLoading(info);
      if read.None? {
        // the read rejects: the handler stops
        return;
      }
      ghost var s1 := old(State()).(fileInfo := Some(info), data := Some(read.value));
      ReadDone(info, read.value, engine);
      FileSelectedThenRead(old(State()), file, read.value, engine);
      AppendAssoc(old(outbox), [LoadingFile(Some(info))], [DoneLoadingFile(Some(info))]);
      AppendAssoc(old(outbox), [LoadingFile(Some(info)), DoneLoadingFile(Some(info))],
                  AfterRead(s1, info.isParquet, engine).posted);
    }

    /** The start of `FILE_SELECTED`: record the file, announce the load and
        forget the old bytes. */
    method StartLoading(info: FileInfo)
      modifies this
      ensures State() == old(State()).(fileInfo := Some(info), data := None)
      ensures outbox == old(outbox) + [LoadingFile(Some(info))]
    {
      fileInfo := Some(info);
      outbox := outbox + [LoadingFile(fileInfo)];
      data := None;
    }

    /** `FILE_SELECTED` once `readFile` has resolved with the bytes. */
    method ReadDone(info: FileInfo, bytes: Bytes, engine: Engine)
      requires fileInfo == Some(info)
      modifies this
      ensures State() == AfterRead(old(State()).(data := Some(bytes)), info.isParquet, engine).next
      ensures outbox == old(outbox) + [DoneLoadingFile(Some(info))]
                        + AfterRead(old(State()).(data := Some(bytes)), info.isParquet, engine).posted
    {
      data := Some(bytes);
      outbox := outbox + [DoneLoadingFile(fileInfo)];
      if info.isParquet {
        AwaitReport(engine);
      } else {
        sniff := true;
        AwaitPreview(engine);
      }
    }

    /** `CSV_PARAMS(data)`, given the object that arrived. */
    method CsvParams(incoming: JsParams, engine: Engine)
      modifies this
      ensures State() == CsvParamsStep(old(State()), incoming, engine).next
      ensures outbox == old(outbox) + CsvParamsStep(old(State()), incoming, engine).posted
    {
      if csvParams != Some(incoming) {
        sniff := false;
        csvParams := Some(incoming);
        AwaitPreview(engine);
      }
    }

    /** `CSV_COMMIT(data)`. */
    method CsvCommit(engine: Engine)
      modifies this
      ensures State() == ReportStep(old(State()), engine).next
      ensures outbox == old(outbox) + ReportStep(old(State()), engine).posted
    {
      AwaitReport(engine);
    }

    /** `self.onmessage`: the payload is a structured clone, so a parameter
        object is a new one; a kind with no entry point is dropped. */
    method OnMessage(msg: Event, read: Option<Bytes>, engine: Engine)
      requires Valid()
      modifies this
      ensures State() == Worker.OnMessage(old(State()), msg, read, engine).next
      ensures outbox == old(outbox) + Worker.OnMessage(old(State()), msg, read, engine).posted
      ensures Valid()
    {
      ghost var before := State();
      ghost var outboxBefore := outbox;
      match msg {
        case FileSelected(file) =>
          FileSelected(file, read, engine);
        case CsvParams(values) =>
          var clone := JsParams(nextRef, values);
          nextRef := nextRef + 1;
          CsvParams(clone, engine);
        case CsvCommit =>
          CsvCommit(engine);
        case _ =>
      }
      StepKeepsGate(before, outboxBefore, Message(msg, read, engine));
      StepKeepsRefsFresh(before, Message(msg, read, engine));
    }

    /** `startPyodide()` resolving: announce the engine, then run every job
        that was waiting, in order. */
    method EngineLoaded()
      requires Valid() && !engineReady
      modifies this
      ensures State() == Worker.EngineLoaded(old(State())).next
      ensures outbox == old(outbox) + Worker.EngineLoaded(old(State())).posted
      ensures Valid()
    {
      ghost var before := State();
      ghost var outboxBefore := outbox;
      AnnounceAndRun();
      StepKeepsGate(before, outboxBefore, Loaded);
      StepKeepsRefsFresh(before, Loaded);
    }

    /** The body of the load continuation. */
    method AnnounceAndRun()
      requires !engineReady
      modifies this
      ensures State() == Worker.EngineLoaded(old(State())).next
      ensures outbox == old(outbox) + Worker.EngineLoaded(old(State())).posted
    {
      var jobs := pending;
      ghost var start := old(State()).(engineReady := true, pending := []);
      engineReady := true;
      pending := [];
      outbox := outbox + [DoneLoadingPyodide];
      RunWaitingJobs(jobs);
      AppendAssoc(old(outbox), [DoneLoadingPyodide], RunJobs(start, jobs).posted);
    }

    /** The continuations of the jobs that were waiting, in the order they
        started waiting. */
    method RunWaitingJobs(jobs: seq<Job>)
      requires engineReady
      modifies this
      ensures State() == RunJobs(old(State()), jobs).next
      ensures outbox == old(outbox) + RunJobs(old(State()), jobs).posted
    {
      ghost var start := State();
      var i := 0;
      while i < |jobs|
        invariant 0 <= i <= |jobs|
        invariant State() == RunJobs(start, jobs[..i]).next
        invariant outbox == old(outbox) + RunJobs(start, jobs[..i]).posted
      {
        RunNextJob(start, old(outbox), jobs, i);
        i := i + 1;
      }
      assert jobs[..|jobs|] == jobs;
    }

    /** The `i`-th waiting job, after the ones before it. */
    method RunNextJob(ghost start: SessionState, ghost base: seq<Event>, jobs: seq<Job>, i: nat)
      requires i < |jobs| && start.engineReady
      requires State() == RunJobs(start, jobs[..i]).next
      requires outbox == base + RunJobs(start, jobs[..i]).posted
      modifies this
      ensures State() == RunJobs(start, jobs[..i + 1]).next
      ensures outbox == base + RunJobs(start, jobs[..i + 1]).posted
    {
      ghost var done := RunJobs(start, jobs[..i]);
      RunJobsStep(start, jobs, i);
      ghost var step := Worker.RunJob(done.next, jobs[i]);
      RunJob(jobs[i]);
      assert State() == step.next;
      assert outbox == base + done.posted + step.posted;
      AppendAssoc(base, done.posted, step.posted);
    }

    method RunJob(job: Job)
      requires engineReady
      modifies this
      ensures State() == Worker.RunJob(old(State()), job).next
      ensures outbox == old(outbox) + Worker.RunJob(old(State()), job).posted
    {
      match job {
        case PreviewJob(engine) => CsvPreview(engine);
        case ReportJob(engine) => GetReport(engine);
      }
    }
  }
}
