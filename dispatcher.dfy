/** The page script's objects: `App`, which owns the handlers and forwards
    every message to each of them in turn, and `Handler`, whose `receive`
    runs its pre-handlers and then its own pipeline on the element it was
    built for. Elements are `Region` objects updated in place; a handler and
    its pre-handlers share one region, as the source's handlers share one
    DOM element. Every method is proved to do what `Observers` says. */
module Dispatcher {
  import opened Common
  import opened Events
  import opened Observers

  /** A `data-handler` element: the observable parts of its DOM subtree. */
  class Region {
    var hidden: bool
    var disabled: bool
    var open: bool
    var text: map<Role, string>
    var escapeWarningHidden: bool
    var statuses: seq<Status>
    var fields: seq<FormField>

    function Snapshot(): RegionState
      reads this
    {
      RegionState(hidden, disabled, open, text, escapeWarningHidden, statuses, fields)
    }

    constructor (init: RegionState)
      ensures Snapshot() == init
    {
      hidden := init.hidden;
      disabled := init.disabled;
      open := init.open;
      text := init.text;
      escapeWarningHidden := init.escapeWarningHidden;
      statuses := init.statuses;
      fields := init.fields;
    }
  }

  class Handler {
    const cls: HandlerClass
    const region: Region
    const preHandlers: seq<Handler>

    /** The pre-handlers are the ones the class installs, on the same
        element, and have none of their own. */
    predicate Valid()
    {
      |preHandlers| == |PreHandlers(cls)|
      && forall i :: 0 <= i < |preHandlers| ==>
           preHandlers[i].cls == PreHandlers(cls)[i]
           && preHandlers[i].region == region
           && preHandlers[i].preHandlers == []
    }

    /** `new cls(elem, app)`: `FileInput` and `CsvParamsSubmit` push a
        `DisableDuringComputation` on their own element. */
    constructor (cls: HandlerClass, region: Region)
      ensures this.cls == cls && this.region == region && Valid()
    {
      var pres: seq<Handler> := [];
      if cls == FileInput || cls == CsvParamsSubmit {
        var pre := new Handler.Leaf(DisableDuringComputation, region);
        pres := [pre];
      }
      this.cls := cls;
      this.region := region;
      this.preHandlers := pres;
    }

    /** A handler built with no pre-handlers. */
    constructor Leaf(cls: HandlerClass, region: Region)
      requires PreHandlers(cls) == []
      ensures this.cls == cls && this.region == region && preHandlers == [] && Valid()
    {
      this.cls := cls;
      this.region := region;
      this.preHandlers := [];
    }

    /** `receive(data)`: pre-handlers first; a throw ends the delivery. */
    method Receive(e: Event) returns (raised: bool)
      requires Valid()
      modifies region
      ensures region.Snapshot() == Deliver(cls, old(region.Snapshot()), e).state
      ensures raised == Deliver(cls, old(region.Snapshot()), e).raised
      decreases |preHandlers|
    {
      ghost var start := region.Snapshot();
      ghost var pres := PreHandlers(cls);
      raised := false;
      var i := 0;
      while i < |preHandlers| && !raised
        invariant 0 <= i <= |preHandlers|
        invariant region.Snapshot() == RunPre(pres[..i], start, e).state
        invariant raised == RunPre(pres[..i], start, e).raised
      {
        assert pres[..i + 1][..i] == pres[..i];
        PreHandlersAreLeaves(cls, i);
        raised := preHandlers[i].Receive(e);
        i := i + 1;
      }
      if !raised {
        assert pres[..|preHandlers|] == pres;
        raised := RunPipeline(e);
      } else {
        RunPreStops(pres, start, e, i);
      }
    }

    /** Hide, show and clear by the message's kind, then the reaction named
        after the kind. */
    method RunPipeline(e: Event) returns (raised: bool)
      modifies region
      ensures region.Snapshot() == Pipeline(cls, old(region.Snapshot()), e).state
      ensures raised == Pipeline(cls, old(region.Snapshot()), e).raised
    {
      var upon := DeclaredUpon(cls);
      var k := KindOf(e);
      if k in upon.hide {
        Hide();
      }
      if k in upon.show {
        Show();
      }
      if k in upon.clear {
        Clear();
      }
      raised := Reaction(e);
    }

    method Hide()
      modifies region
      ensures region.Snapshot() == old(region.Snapshot()).(hidden := true)
    {
      region.hidden := true;
    }

    method Show()
      modifies region
      ensures region.Snapshot() == old(region.Snapshot()).(hidden := false)
    {
      region.hidden := false;
    }

    method Disable()
      modifies region
      ensures region.Snapshot() == old(region.Snapshot()).(disabled := true)
    {
      region.disabled := true;
    }

    method Enable()
      modifies region
      ensures region.Snapshot() == old(region.Snapshot()).(disabled := false)
    {
      region.disabled := false;
    }

    /** `clear()`, as the class overrides it. */
    method Clear()
      modifies region
      ensures region.Snapshot() == ClearRegion(cls, old(region.Snapshot()))
    {
      match cls {
        case CsvTextPreview =>
          region.text := region.text[CsvText := ""];
        case CsvTablePreview =>
          region.text := region.text[CsvTable := ""];
        case CsvPreviewError =>
          region.text := region.text[FileNameText := ""][CsvErrorText := ""];
        case PythonSnippets =>
          region.text := region.text[PandasSnippetText := ""][PolarsSnippetText := ""];
          region.escapeWarningHidden := true;
        case ReportError =>
          region.text := region.text[FileNameText := ""][ReportErrorText := ""];
        case _ =>
          region.text := region.text[Body := ""];
      }
    }

    /** `this[data.kind](data)` when the class defines that method. */
    method Reaction(e: Event) returns (raised: bool)
      modifies region
      ensures region.Snapshot() == React(cls, old(region.Snapshot()), e).state
      ensures raised == React(cls, old(region.Snapshot()), e).raised
    {
      raised := false;
      match cls {
        case FileInput =>
        case FileNameDisplay =>
          if e.FileSelected? {
            region.text := region.text[Body := e.file.name];
          }
        case LargeFileWarning => LargeFileReaction(e);
        case StatusContainer => raised := StatusReaction(e);
        case CsvDialog => raised := DialogReaction(e);
        case DisableDuringComputation => DisableReaction(e);
        case CsvDialogForm => FormReaction(e);
        case CsvParamsSubmit =>
          if e.DoneComputingCsvPreview? {
            if e.error.Some? { Disable(); } else { Enable(); }
          }
        case CsvTextPreview =>
          if e.DoneComputingCsvPreview? && e.raw.Some? {
            region.text := region.text[CsvText := e.raw.value];
            Show();
          }
        case CsvTablePreview =>
          if e.DoneComputingCsvPreview? && e.preview.Some? {
            region.text := region.text[CsvTable := e.preview.value];
            Show();
          }
        case CsvPreviewError => raised := PreviewErrorReaction(e);
        case PythonSnippets => SnippetsReaction(e);
        case Report =>
          if e.DoneComputingReport? && e.error.None? {
            region.text := region.text[Body := JsText(e.report)];
            Show();
          }
        case ReportError => raised := ReportErrorReaction(e);
      }
    }

    /** `LargeFileWarning.FILE_SELECTED`. */
    method LargeFileReaction(e: Event)
      modifies region
      ensures region.Snapshot() == ReactLargeFile(old(region.Snapshot()), e)
    {
      if e.FileSelected? {
        var mb := Megabytes(e.file.size);
        region.text := region.text[FileSizeText := Decimal(mb) + " MB"];
        if mb >= 100 {
          Show();
        } else {
          Hide();
        }
      }
    }

    /** The `StatusContainer` methods named after kinds. */
    method StatusReaction(e: Event) returns (raised: bool)
      modifies region
      ensures region.Snapshot() == ReactStatus(old(region.Snapshot()), e).state
      ensures raised == ReactStatus(old(region.Snapshot()), e).raised
    {
      raised := false;
      match e {
        case FileSelected(_) => Show();
        case LoadingPyodide => PostStatus(PyodideLoadingText, LOADING_PYODIDE);
        case LoadingFile(info) =>
          if info.None? {
            raised := true;
          } else {
            PostStatus("Loading '" + info.value.name + "'.", LOADING_FILE);
          }
        case ComputingCsvPreview(_) => PostStatus(ParsingText, COMPUTING_CSV_PREVIEW);
        case ComputingReport(info) =>
          if info.None? {
            raised := true;
          } else {
            PostStatus("Computing the report for '" + info.value.name + "'.", COMPUTING_REPORT);
          }
        case _ =>
          var k := InProgress(KindOf(e));
          if k.Some? {
            RemoveStatus(k.value);
          }
      }
    }

    /** `postStatus(content, kind)`. */
    method PostStatus(content: string, kind: Kind)
      modifies region
      ensures region.Snapshot() == Observers.PostStatus(old(region.Snapshot()), content, kind)
    {
      region.statuses := region.statuses + [Status(content, kind, true)];
    }

    /** `removeStatus(kind)`: every entry tagged with the kind goes. */
    method RemoveStatus(kind: Kind)
      modifies region
      ensures region.Snapshot() == Observers.RemoveStatus(old(region.Snapshot()), kind)
    {
      var entries := region.statuses;
      var kept: seq<Status> := [];
      var i := 0;
      while i < |entries|
        invariant 0 <= i <= |entries|
        invariant kept == Without(entries[..i], kind)
      {
        assert entries[..i + 1][..i] == entries[..i];
        if entries[i].kind != kind {
          kept := kept + [entries[i]];
        }
        i := i + 1;
      }
      assert entries[..|entries|] == entries;
      region.statuses := kept;
    }

    /** The `CsvDialog` methods named after kinds. */
    method DialogReaction(e: Event) returns (raised: bool)
      modifies region
      ensures region.Snapshot() == ReactCsvDialog(old(region.Snapshot()), e).state
      ensures raised == ReactCsvDialog(old(region.Snapshot()), e).raised
    {
      raised := false;
      match e {
        case DoneComputingCsvPreview(_, _, _, _, _, _, computing) =>
          region.open := true;
          if !computing {
            Show();
          }
        case DoneComputingReport(_, error, info, _) =>
          region.open := error.Some?;
          if info.None? {
            raised := true;
          } else if !info.value.isParquet {
            Show();
          }
        case _ =>
      }
    }

    /** `DisableDuringComputation.receive`, after `super.receive`. */
    method DisableReaction(e: Event)
      modifies region
      ensures region.Snapshot() == ReactDisable(old(region.Snapshot()), e)
    {
      var k := KindOf(e);
      if k == FILE_SELECTED || k == CSV_COMMIT {
        Disable();
      }
      if k == DONE_COMPUTING_REPORT {
        Enable();
      }
      if e.DoneComputingCsvPreview? && !e.isComputingReport {
        Enable();
      }
    }

    /** The `CsvDialogForm` methods named after kinds. */
    method FormReaction(e: Event)
      modifies region
      ensures region.Snapshot() == ReactForm(old(region.Snapshot()), e)
    {
      match e {
        case FileSelected(_) =>
          region.fields := ResetFields(region.fields);
        case DoneComputingCsvPreview(_, _, _, _, _, sniffed, _) =>
          if sniffed.Some? {
            WriteSniffed(sniffed.value);
          }
        case _ =>
      }
    }

    /** The loop over the form's controls that writes each sniffed value. */
    method WriteSniffed(sniffed: map<string, string>)
      modifies region
      ensures region.Snapshot() == old(region.Snapshot()).(fields := ApplySniffed(old(region.fields), sniffed))
    {
      ghost var goal := ApplySniffed(region.fields, sniffed);
      ghost var before := region.fields;
      var i := 0;
      while i < |region.fields|
        invariant 0 <= i <= |region.fields| == |before|
        invariant region.Snapshot() == old(region.Snapshot()).(fields := region.fields)
        invariant forall j :: 0 <= j < i ==> region.fields[j] == goal[j]
        invariant forall j :: i <= j < |before| ==> region.fields[j] == before[j]
      {
        var control := region.fields[i];
        if control.name in sniffed {
          region.fields := region.fields[i := control.(value := sniffed[control.name])];
        }
        i := i + 1;
      }
      assert region.fields == goal;
    }

    /** `getCsvParams()`: one entry per control, the later control winning
        for a repeated name. */
    method GetCsvParams() returns (r: map<string, string>)
      ensures r == ParamsOf(region.fields)
    {
      var controls := region.fields;
      r := map[];
      var i := 0;
      while i < |controls|
        invariant 0 <= i <= |controls|
        invariant r == ParamsOf(controls[..i])
      {
        assert controls[..i + 1][..i] == controls[..i];
        r := r[controls[i].name := controls[i].value];
        i := i + 1;
      }
      assert controls[..|controls|] == controls;
    }

    /** `CsvPreviewError.DONE_COMPUTING_CSV_PREVIEW`. */
    method PreviewErrorReaction(e: Event) returns (raised: bool)
      modifies region
      ensures region.Snapshot() == ReactPreviewError(old(region.Snapshot()), e).state
      ensures raised == ReactPreviewError(old(region.Snapshot()), e).raised
    {
      raised := false;
      if e.DoneComputingCsvPreview? && e.error.Some? {
        if e.fileInfo.None? {
          raised := true;
        } else {
          region.text := region.text[FileNameText := e.fileInfo.value.name][CsvErrorText := e.error.value];
          Show();
        }
      }
    }

    /** `PythonSnippets.DONE_COMPUTING_REPORT`. */
    method SnippetsReaction(e: Event)
      modifies region
      ensures region.Snapshot() == ReactSnippets(old(region.Snapshot()), e)
    {
      if e.DoneComputingReport? && e.error.None? {
        region.escapeWarningHidden := !e.pythonSnippets.warningEscapeChar;
        region.text := region.text[PandasSnippetText := e.pythonSnippets.pandas][PolarsSnippetText := e.pythonSnippets.polars];
        Show();
      }
    }

    /** `ReportError.DONE_COMPUTING_REPORT`. */
    method ReportErrorReaction(e: Event) returns (raised: bool)
      modifies region
      ensures region.Snapshot() == ReactReportError(old(region.Snapshot()), e).state
      ensures raised == ReactReportError(old(region.Snapshot()), e).raised
    {
      raised := false;
      if e.DoneComputingReport? && e.error.Some? {
        if e.fileInfo.None? {
          raised := true;
        } else {
          region.text := region.text[FileNameText := e.fileInfo.value.name][ReportErrorText := e.error.value];
          Show();
        }
      }
    }
  }

  /** One more delivery, while none has thrown. */
  lemma SweepStep(ds: seq<Delivery>, ss: seq<RegionState>, i: nat)
    requires |ds| == |ss| && i < |ds|
    requires !Sweep(ds[..i], ss[..i]).raised
    ensures Sweep(ds[..i + 1], ss[..i + 1])
         == Broadcast(Sweep(ds[..i], ss[..i]).states + [ds[i].state], i + 1, ds[i].raised)
  {
    assert ds[..i + 1][..i] == ds[..i] && ss[..i + 1][..i] == ss[..i];
  }

  /** Once a delivery throws, or every region has had its turn, the sweep is
      over: the later regions keep their state. */
  lemma {:induction false} SweepStoppedWhole(ds: seq<Delivery>, ss: seq<RegionState>, i: nat)
    requires |ds| == |ss| && i <= |ds|
    requires Sweep(ds[..i], ss[..i]).raised || i == |ds|
    ensures var b := Sweep(ds[..i], ss[..i]);
      Sweep(ds, ss) == Broadcast(b.states + ss[i..], b.delivered, b.raised)
    decreases |ds|
  {
    var b := Sweep(ds[..i], ss[..i]);
    if i == |ds| {
      assert ds[..i] == ds && ss[..i] == ss;
      assert b.states + ss[i..] == b.states;
    } else {
      var n := |ds| - 1;
      assert ds[..n][..i] == ds[..i] && ss[..n][..i] == ss[..i];
      SweepStoppedWhole(ds[..n], ss[..n], i);
      assert Sweep(ds[..n], ss[..n]).states == b.states + ss[..n][i..];
      AppendAssoc(b.states, ss[..n][i..], [ss[n]]);
      assert ss[..n][i..] + [ss[n]] == ss[i..];
    }
  }

  /** The same, region by region. */
  lemma SweepStopped(ds: seq<Delivery>, ss: seq<RegionState>, i: nat)
    requires |ds| == |ss| && i <= |ds|
    requires Sweep(ds[..i], ss[..i]).raised || i == |ds|
    ensures var b := Sweep(ds[..i], ss[..i]);
      Sweep(ds, ss) == Broadcast(b.states + ss[i..], b.delivered, b.raised)
    ensures var b := Sweep(ds[..i], ss[..i]);
      (forall j :: 0 <= j < i ==> Sweep(ds, ss).states[j] == b.states[j])
      && (forall j :: i <= j < |ss| ==> Sweep(ds, ss).states[j] == ss[j])
  {
    SweepStoppedWhole(ds, ss, i);
  }

  /** Where the loop of `receive` ends, the regions are in the states the
      whole sweep gives. */
  lemma SweepEnded(ds: seq<Delivery>, start: seq<RegionState>, now: seq<RegionState>, i: nat, raised: bool)
    requires |ds| == |start| == |now| && i <= |ds| && (raised || i == |ds|)
    requires Sweep(ds[..i], start[..i]).delivered == i && raised == Sweep(ds[..i], start[..i]).raised
    requires forall j :: 0 <= j < i ==> now[j] == Sweep(ds[..i], start[..i]).states[j]
    requires forall j :: i <= j < |now| ==> now[j] == start[j]
    ensures Sweep(ds, start) == Broadcast(now, i, raised)
  {
    SweepStopped(ds, start, i);
    assert now == Sweep(ds, start).states;
  }

  class App {
    const handlers: seq<Handler>
    /** What `worker.postMessage` was given, in order. */
    var toWorker: seq<Event>
    /** The messages `emit` queued with `setTimeout` for the page itself. */
    var scheduled: seq<Event>

    function Regions(): set<Region>
    {
      set i | 0 <= i < |handlers| :: handlers[i].region
    }

    /** Every handler is well formed and owns its own element. */
    predicate Valid()
    {
      (forall i :: 0 <= i < |handlers| ==> handlers[i].Valid())
      && forall i, j :: 0 <= i < j < |handlers| ==> handlers[i].region != handlers[j].region
    }

    function Classes(): (r: seq<HandlerClass>)
      ensures |r| == |handlers| && forall i :: 0 <= i < |r| ==> r[i] == handlers[i].cls
    {
      seq(|handlers|, i requires 0 <= i < |handlers| => handlers[i].cls)
    }

    function Snapshots(): (r: seq<RegionState>)
      reads Regions()
      ensures |r| == |handlers| && forall i :: 0 <= i < |r| ==> r[i] == handlers[i].region.Snapshot()
    {
      seq(|handlers|, i requires 0 <= i < |handlers| reads Regions() => handlers[i].region.Snapshot())
    }

    constructor (handlers: seq<Handler>)
      ensures this.handlers == handlers && toWorker == [] && scheduled == []
    {
      this.handlers := handlers;
      toWorker := [];
      scheduled := [];
    }

    /** The page's start: one handler per `data-handler` element, of the
        class registered under its marker; an unregistered marker makes
        `new undefined(...)` throw, and there is no app. */
    static method Create(markers: seq<string>, elements: seq<Region>) returns (app: App?)
      requires |markers| == |elements|
      requires forall i, j :: 0 <= i < j < |elements| ==> elements[i] != elements[j]
      ensures app == null <==> exists i :: 0 <= i < |markers| && Lookup(markers[i]).None?
      ensures app != null ==>
        fresh(app) && app.Valid() && app.toWorker == [] && app.scheduled == []
        && |app.handlers| == |markers|
        && forall i :: 0 <= i < |markers| ==>
             Some(app.handlers[i].cls) == Lookup(markers[i]) && app.handlers[i].region == elements[i]
    {
      var hs: seq<Handler> := [];
      var i := 0;
      while i < |markers|
        invariant 0 <= i <= |markers| && |hs| == i
        invariant forall j :: 0 <= j < i ==> Lookup(markers[j]).Some?
        invariant forall j :: 0 <= j < i ==>
          hs[j].Valid() && Some(hs[j].cls) == Lookup(markers[j]) && hs[j].region == elements[j]
      {
        var cls := Lookup(markers[i]);
        if cls.None? {
          return null;
        }
        var h := new Handler(cls.value, elements[i]);
        hs := hs + [h];
        i := i + 1;
      }
      app := new App(hs);
    }

    /** `receive(data)`: every handler in turn; a throw propagates and the
        handlers after the one that threw do not see the message. */
    method Receive(e: Event) returns (delivered: nat, raised: bool)
      requires Valid()
      modifies Regions()
      ensures var b := ReceiveAll(Classes(), old(Snapshots()), e);
        Snapshots() == b.states && delivered == b.delivered && raised == b.raised
      ensures toWorker == old(toWorker) && scheduled == old(scheduled)
    {
      ghost var start := Snapshots();
      ghost var ds := Deliveries(Classes(), start, e);
      delivered, raised := ReceiveInTurn(e, ds, start);
      SweepEnded(ds, start, Snapshots(), delivered, raised);
    }

    /** The loop of `receive`: the handlers in turn, until one throws. The
        message's deliveries to the regions as they were are `ds`. */
    method ReceiveInTurn(e: Event, ghost ds: seq<Delivery>, ghost start: seq<RegionState>)
        returns (i: nat, raised: bool)
      requires Valid() && |start| == |handlers| && ds == Deliveries(Classes(), start, e)
      requires forall j :: 0 <= j < |handlers| ==> handlers[j].region.Snapshot() == start[j]
      modifies Regions()
      ensures i <= |handlers| && (raised || i == |handlers|)
      ensures Sweep(ds[..i], start[..i]).delivered == i && raised == Sweep(ds[..i], start[..i]).raised
      ensures forall j :: 0 <= j < i ==> handlers[j].region.Snapshot() == Sweep(ds[..i], start[..i]).states[j]
      ensures forall j :: i <= j < |handlers| ==> handlers[j].region.Snapshot() == start[j]
    {
      raised := false;
      i := 0;
      while i < |handlers| && !raised
        invariant 0 <= i <= |handlers|
        invariant Sweep(ds[..i], start[..i]).delivered == i
        invariant raised == Sweep(ds[..i], start[..i]).raised
        invariant forall j :: 0 <= j < i ==>
          handlers[j].region.Snapshot() == Sweep(ds[..i], start[..i]).states[j]
        invariant forall j :: i <= j < |handlers| ==> handlers[j].region.Snapshot() == start[j]
      {
        SweepStep(ds, start, i);
        raised := DeliverTo(i, e, ds, start);
        i := i + 1;
      }
    }

    /** `handler.receive(data)` for the `i`-th handler: it takes the `i`-th
        of the deliveries `ds` of the message to regions in states `start`,
        and only its region changes. */
    method DeliverTo(i: nat, e: Event, ghost ds: seq<Delivery>, ghost start: seq<RegionState>)
        returns (raised: bool)
      requires Valid() && i < |handlers| == |start|
      requires ds == Deliveries(Classes(), start, e) && handlers[i].region.Snapshot() == start[i]
      modifies handlers[i].region
      ensures handlers[i].region.Snapshot() == ds[i].state && raised == ds[i].raised
      ensures forall j :: 0 <= j < |handlers| && j != i ==>
        handlers[j].region.Snapshot() == old(handlers[j].region.Snapshot())
    {
      DeliveriesAt(Classes(), start, e, i);
      raised := handlers[i].Receive(e);
    }

    /** `emit(data)`: the message goes to the worker now and to the page's
        own handlers on a later turn. */
    method Emit(e: Event)
      modifies this
      ensures toWorker == old(toWorker) + [e] && scheduled == old(scheduled) + [e]
    {
      scheduled := scheduled + [e];
      toWorker := toWorker + [e];
    }

    /** The `setTimeout` callback of the oldest `emit`. */
    method RunScheduled() returns (delivered: nat, raised: bool)
      requires Valid() && scheduled != []
      modifies this, Regions()
      ensures scheduled == old(scheduled)[1..] && toWorker == old(toWorker)
      ensures var b := ReceiveAll(Classes(), old(Snapshots()), old(scheduled)[0]);
        Snapshots() == b.states && delivered == b.delivered && raised == b.raised
    {
      var e := scheduled[0];
      scheduled := scheduled[1..];
      delivered, raised := Receive(e);
    }

    /** `FileInput.fileSelected()`: only a single chosen file is sent. */
    method SelectFiles(files: seq<File>)
      modifies this
      ensures |files| == 1 ==>
        toWorker == old(toWorker) + [FileSelected(files[0])] && scheduled == old(scheduled) + [FileSelected(files[0])]
      ensures |files| != 1 ==> toWorker == old(toWorker) && scheduled == old(scheduled)
    {
      if |files| != 1 {
        return;
      }
      Emit(FileSelected(files[0]));
    }

    /** `CsvDialogForm.csvParamsChanged()`, for the form handler `form`. */
    method FormChanged(form: Handler)
      requires form in handlers && form.cls == CsvDialogForm
      modifies this
      ensures toWorker == old(toWorker) + [CsvParams(ParamsOf(form.region.fields))]
      ensures scheduled == old(scheduled) + [CsvParams(ParamsOf(form.region.fields))]
    {
      var params := form.GetCsvParams();
      Emit(CsvParams(params));
    }

    /** The click listener of `CsvParamsSubmit`. */
    method ClickCommit()
      modifies this
      ensures toWorker == old(toWorker) + [CsvCommit] && scheduled == old(scheduled) + [CsvCommit]
    {
      Emit(CsvCommit);
    }
  }
}
