/** The page's observers, as values. Each `data-handler` element is a region
    of the page with a few observable properties; a handler class says how an
    event changes its region. `Deliver` is `Handler.receive`: pre-handlers,
    then hide, show and clear by kind, then the reaction named after the
    kind. A handler that reads `fileInfo.name` of a message without file
    information throws, which is recorded as `raised`. */
module Observers {
  import opened Common
  import opened Events

  /** The texts a region shows: its own contents, or the `data-role` child
      that holds them. */
  datatype Role =
    | Body | FileSizeText | CsvText | CsvTable | FileNameText | CsvErrorText
    | PandasSnippetText | PolarsSnippetText | ReportErrorText

  /** One `status-display` entry, tagged with the kind that posted it. */
  datatype Status = Status(content: string, kind: Kind, withLoader: bool)

  /** One control of the csv parameter form. */
  datatype FormField = FormField(name: string, value: string, defaultValue: string)

  /** What can be observed of a region: `data-hidden`, `disabled`, the
      dialog's `open`, its texts, the polars escape warning's `data-hidden`,
      its status entries and its form controls. */
  datatype RegionState = RegionState(
    hidden: bool,
    disabled: bool,
    open: bool,
    text: map<Role, string>,
    escapeWarningHidden: bool,
    statuses: seq<Status>,
    fields: seq<FormField>)

  /** The registered handler classes. */
  datatype HandlerClass =
    | FileInput | FileNameDisplay | LargeFileWarning | StatusContainer | CsvDialog
    | DisableDuringComputation | CsvDialogForm | CsvParamsSubmit | CsvTextPreview
    | CsvTablePreview | CsvPreviewError | PythonSnippets | Report | ReportError

  /** `cls.name`, the key `App.register` files a class under. */
  function ClassName(c: HandlerClass): string
  {
    match c
    case FileInput => "FileInput"
    case FileNameDisplay => "FileNameDisplay"
    case LargeFileWarning => "LargeFileWarning"
    case StatusContainer => "StatusContainer"
    case CsvDialog => "CsvDialog"
    case DisableDuringComputation => "DisableDuringComputation"
    case CsvDialogForm => "CsvDialogForm"
    case CsvParamsSubmit => "CsvParamsSubmit"
    case CsvTextPreview => "CsvTextPreview"
    case CsvTablePreview => "CsvTablePreview"
    case CsvPreviewError => "CsvPreviewError"
    case PythonSnippets => "PythonSnippets"
    case Report => "Report"
    case ReportError => "ReportError"
  }

  /** `App.handlerClasses[name]`: the class registered under a
      `data-handler` marker, if any. */
  function Lookup(name: string): (r: Option<HandlerClass>)
    ensures r.Some? ==> ClassName(r.value) == name
  {
    if name == "FileInput" then Some(FileInput)
    else if name == "FileNameDisplay" then Some(FileNameDisplay)
    else if name == "LargeFileWarning" then Some(LargeFileWarning)
    else if name == "StatusContainer" then Some(StatusContainer)
    else if name == "CsvDialog" then Some(CsvDialog)
    else if name == "DisableDuringComputation" then Some(DisableDuringComputation)
    else if name == "CsvDialogForm" then Some(CsvDialogForm)
    else if name == "CsvParamsSubmit" then Some(CsvParamsSubmit)
    else if name == "CsvTextPreview" then Some(CsvTextPreview)
    else if name == "CsvTablePreview" then Some(CsvTablePreview)
    else if name == "CsvPreviewError" then Some(CsvPreviewError)
    else if name == "PythonSnippets" then Some(PythonSnippets)
    else if name == "Report" then Some(Report)
    else if name == "ReportError" then Some(ReportError)
    else None
  }

  /** Every class is found under its own name: registration is a round
      trip. */
  lemma LookupClassName(c: HandlerClass)
    ensures Lookup(ClassName(c)) == Some(c)
  {
  }

  // ---------------------------------------------------------------------
  // The pipeline of Handler.receive
  // ---------------------------------------------------------------------

  /** The `hideUpon`, `showUpon` and `clearUpon` lists of a handler. */
  datatype Upon = Upon(hide: set<Kind>, show: set<Kind>, clear: set<Kind>)

  function DeclaredUpon(c: HandlerClass): Upon
  {
    match c
    case CsvDialog => Upon({FILE_SELECTED}, {}, {})
    case CsvTextPreview => Upon({FILE_SELECTED, CSV_PARAMS}, {}, {FILE_SELECTED, CSV_PARAMS})
    case CsvTablePreview => Upon({FILE_SELECTED, CSV_PARAMS}, {}, {FILE_SELECTED, CSV_PARAMS})
    case CsvPreviewError => Upon({FILE_SELECTED, CSV_PARAMS}, {}, {FILE_SELECTED, CSV_PARAMS})
    case PythonSnippets => Upon({FILE_SELECTED, CSV_PARAMS, CSV_COMMIT}, {}, {FILE_SELECTED, CSV_PARAMS, CSV_COMMIT})
    case Report => Upon({FILE_SELECTED, CSV_PARAMS, CSV_COMMIT}, {}, {FILE_SELECTED, CSV_PARAMS, CSV_COMMIT})
    case ReportError => Upon({FILE_SELECTED, CSV_PARAMS, CSV_COMMIT}, {}, {FILE_SELECTED, CSV_PARAMS, CSV_COMMIT})
    case _ => Upon({}, {}, {})
  }

  /** The pre-handlers a class's constructor installs on its own element. */
  function PreHandlers(c: HandlerClass): (r: seq<HandlerClass>)
    ensures forall i :: 0 <= i < |r| ==> r[i] == DisableDuringComputation
  {
    if c == FileInput || c == CsvParamsSubmit then [DisableDuringComputation] else []
  }

  /** Pre-handlers have no pre-handlers of their own: the nesting is one
      level deep. */
  lemma PreHandlersAreLeaves(c: HandlerClass, i: nat)
    requires i < |PreHandlers(c)|
    ensures PreHandlers(PreHandlers(c)[i]) == []
  {
  }

  /** A class's `clear()`: the default empties the region; the preview,
      error and snippet regions empty only their display children, and the
      snippets also hide the escape warning. */
  function ClearRegion(c: HandlerClass, s: RegionState): RegionState
  {
    match c
    case CsvTextPreview => s.(text := s.text[CsvText := ""])
    case CsvTablePreview => s.(text := s.text[CsvTable := ""])
    case CsvPreviewError => s.(text := s.text[FileNameText := ""][CsvErrorText := ""])
    case PythonSnippets =>
      s.(text := s.text[PandasSnippetText := ""][PolarsSnippetText := ""], escapeWarningHidden := true)
    case ReportError => s.(text := s.text[FileNameText := ""][ReportErrorText := ""])
    case _ => s.(text := s.text[Body := ""])
  }

  /** The roles a class's `clear()` empties. */
  function ClearedRoles(c: HandlerClass): set<Role>
  {
    match c
    case CsvTextPreview => {CsvText}
    case CsvTablePreview => {CsvTable}
    case CsvPreviewError => {FileNameText, CsvErrorText}
    case PythonSnippets => {PandasSnippetText, PolarsSnippetText}
    case ReportError => {FileNameText, ReportErrorText}
    case _ => {Body}
  }

  /** Clearing empties exactly the class's roles and keeps everything else
      but the escape warning, which the snippets' clear hides. */
  lemma ClearRegionEmpties(c: HandlerClass, s: RegionState)
    ensures var r := ClearRegion(c, s);
      (forall role | role in ClearedRoles(c) :: role in r.text && r.text[role] == "")
      && (forall role | role !in ClearedRoles(c) && role in s.text :: role in r.text && r.text[role] == s.text[role])
      && r.hidden == s.hidden && r.disabled == s.disabled && r.open == s.open
      && r.statuses == s.statuses && r.fields == s.fields
      && r.escapeWarningHidden == (s.escapeWarningHidden || c == PythonSnippets)
  {
  }

  /** Hide, then show, then clear, each when the kind is listed. */
  function ApplyUpon(u: Upon, c: HandlerClass, s: RegionState, k: Kind): (r: RegionState)
    ensures r.hidden == (if k in u.show then false else if k in u.hide then true else s.hidden)
  {
    var s1 := if k in u.hide then s.(hidden := true) else s;
    var s2 := if k in u.show then s1.(hidden := false) else s1;
    if k in u.clear then ClearRegion(c, s2) else s2
  }

  /** Show comes after hide: a kind listed in both leaves the region shown,
      whatever it was. */
  lemma ShowWinsOverHide(u: Upon, c: HandlerClass, s: RegionState, k: Kind)
    requires k in u.hide && k in u.show
    ensures !ApplyUpon(u, c, s, k).hidden
  {
  }

  /** The outcome of a delivery: the new region and whether the handler
      threw. */
  datatype Delivery = Delivery(state: RegionState, raised: bool)

  /** One handler's own part of `receive`, without pre-handlers. */
  function Pipeline(c: HandlerClass, s: RegionState, e: Event): Delivery
  {
    React(c, ApplyUpon(DeclaredUpon(c), c, s, KindOf(e)), e)
  }

  /** The pre-handlers, in order; one that throws stops the rest. */
  function RunPre(pres: seq<HandlerClass>, s: RegionState, e: Event): Delivery
    decreases |pres|
  {
    if pres == [] then Delivery(s, false)
    else
      var d := RunPre(pres[..|pres| - 1], s, e);
      if d.raised then d else Pipeline(pres[|pres| - 1], d.state, e)
  }

  /** Once a pre-handler has thrown, the later ones are never reached. */
  lemma {:induction false} RunPreStops(pres: seq<HandlerClass>, s: RegionState, e: Event, i: nat)
    requires i <= |pres| && RunPre(pres[..i], s, e).raised
    ensures RunPre(pres, s, e) == RunPre(pres[..i], s, e)
    decreases |pres|
  {
    if i < |pres| {
      var init := pres[..|pres| - 1];
      assert init[..i] == pres[..i];
      RunPreStops(init, s, e, i);
    } else {
      assert pres[..i] == pres;
    }
  }

  /** `Handler.receive(data)`. */
  function Deliver(c: HandlerClass, s: RegionState, e: Event): Delivery
  {
    var d := RunPre(PreHandlers(c), s, e);
    if d.raised then d else Pipeline(c, d.state, e)
  }

  // ---------------------------------------------------------------------
  // Reactions
  // ---------------------------------------------------------------------

  /** The reaction named after the event's kind, if the class has one. */
  function React(c: HandlerClass, s: RegionState, e: Event): Delivery
  {
    match c
    case FileNameDisplay => Delivery(ReactFileName(s, e), false)
    case LargeFileWarning => Delivery(ReactLargeFile(s, e), false)
    case StatusContainer => ReactStatus(s, e)
    case CsvDialog => ReactCsvDialog(s, e)
    case DisableDuringComputation => Delivery(ReactDisable(s, e), false)
    case CsvDialogForm => Delivery(ReactForm(s, e), false)
    case CsvParamsSubmit => Delivery(ReactSubmit(s, e), false)
    case CsvTextPreview => Delivery(ReactTextPreview(s, e), false)
    case CsvTablePreview => Delivery(ReactTablePreview(s, e), false)
    case CsvPreviewError => ReactPreviewError(s, e)
    case PythonSnippets => Delivery(ReactSnippets(s, e), false)
    case Report => Delivery(ReactReport(s, e), false)
    case ReportError => ReactReportError(s, e)
    case FileInput => Delivery(s, false)
  }

  /** `FileNameDisplay.FILE_SELECTED`. */
  function ReactFileName(s: RegionState, e: Event): RegionState
  {
    match e
    case FileSelected(file) => s.(text := s.text[Body := file.name])
    case _ => s
  }

  /** `Math.floor(size / 1e6)`, on whole bytes. */
  function Megabytes(size: nat): nat
  {
    size / 1000000
  }

  /** `LargeFileWarning.FILE_SELECTED`. */
  function ReactLargeFile(s: RegionState, e: Event): RegionState
  {
    match e
    case FileSelected(file) =>
      var mb := Megabytes(file.size);
      s.(text := s.text[FileSizeText := Decimal(mb) + " MB"], hidden := !(mb >= 100))
    case _ => s
  }

  const PyodideLoadingText: string :=
    "The Pyodide python distribution is loading and importing packages. This can take around 30 seconds."
  const ParsingText: string := "Parsing CSV."

  /** `postStatus(content, kind)`: one entry, with a loader, at the end. */
  function PostStatus(s: RegionState, content: string, kind: Kind): (r: RegionState)
    ensures r.statuses == s.statuses + [Status(content, kind, true)]
  {
    s.(statuses := s.statuses + [Status(content, kind, true)])
  }

  /** The entries left once every entry of `kind` is removed. */
  function Without(statuses: seq<Status>, kind: Kind): (r: seq<Status>)
    ensures |r| <= |statuses|
    ensures forall i :: 0 <= i < |r| ==> r[i].kind != kind && r[i] in statuses
    decreases |statuses|
  {
    if statuses == [] then []
    else
      var last := statuses[|statuses| - 1];
      var rest := Without(statuses[..|statuses| - 1], kind);
      if last.kind == kind then rest else rest + [last]
  }

  /** `removeStatus(kind)`. */
  function RemoveStatus(s: RegionState, kind: Kind): RegionState
  {
    s.(statuses := Without(s.statuses, kind))
  }

  /** The `*_PYODIDE`, `*_FILE`, `*_CSV_PREVIEW` and `*_REPORT` pairs: the
      kind whose status a `DONE_*` kind removes. */
  function InProgress(k: Kind): Option<Kind>
  {
    match k
    case DONE_LOADING_PYODIDE => Some(LOADING_PYODIDE)
    case DONE_LOADING_FILE => Some(LOADING_FILE)
    case DONE_COMPUTING_CSV_PREVIEW => Some(COMPUTING_CSV_PREVIEW)
    case DONE_COMPUTING_REPORT => Some(COMPUTING_REPORT)
    case _ => None
  }

  /** The `StatusContainer` reactions. */
  function ReactStatus(s: RegionState, e: Event): Delivery
  {
    match e
    case FileSelected(_) => Delivery(s.(hidden := false), false)
    case LoadingPyodide => Delivery(PostStatus(s, PyodideLoadingText, LOADING_PYODIDE), false)
    case LoadingFile(info) =>
      if info.None? then Delivery(s, true)
      else Delivery(PostStatus(s, "Loading '" + info.value.name + "'.", LOADING_FILE), false)
    case ComputingCsvPreview(_) => Delivery(PostStatus(s, ParsingText, COMPUTING_CSV_PREVIEW), false)
    case ComputingReport(info) =>
      if info.None? then Delivery(s, true)
      else Delivery(PostStatus(s, "Computing the report for '" + info.value.name + "'.", COMPUTING_REPORT), false)
    case _ =>
      var k := InProgress(KindOf(e));
      if k.Some? then Delivery(RemoveStatus(s, k.value), false) else Delivery(s, false)
  }

  /** The `CsvDialog` reactions; reading `fileInfo.isParquet` of a report
      without file information throws after `open` was set. */
  function ReactCsvDialog(s: RegionState, e: Event): Delivery
  {
    match e
    case DoneComputingCsvPreview(_, _, _, _, _, _, computing) =>
      var s1 := s.(open := true);
      Delivery(if !computing then s1.(hidden := false) else s1, false)
    case DoneComputingReport(_, error, info, _) =>
      var s1 := s.(open := error.Some?);
      if info.None? then Delivery(s1, true)
      else Delivery(if !info.value.isParquet then s1.(hidden := false) else s1, false)
    case _ => Delivery(s, false)
  }

  /** `DisableDuringComputation.receive`'s own part. */
  function ReactDisable(s: RegionState, e: Event): RegionState
  {
    var k := KindOf(e);
    var s1 := if k == FILE_SELECTED || k == CSV_COMMIT then s.(disabled := true) else s;
    var s2 := if k == DONE_COMPUTING_REPORT then s1.(disabled := false) else s1;
    if e.DoneComputingCsvPreview? && !e.isComputingReport then s2.(disabled := false) else s2
  }

  /** `form.reset()`: every control back to its default. */
  function ResetFields(fields: seq<FormField>): (r: seq<FormField>)
    ensures |r| == |fields|
    ensures forall i :: 0 <= i < |r| ==> r[i] == fields[i].(value := fields[i].defaultValue)
  {
    seq(|fields|, i requires 0 <= i < |fields| => fields[i].(value := fields[i].defaultValue))
  }

  /** The sniffed values written into the controls that have one. */
  function ApplySniffed(fields: seq<FormField>, sniffed: map<string, string>): (r: seq<FormField>)
    ensures |r| == |fields|
    ensures forall i :: 0 <= i < |r| ==> r[i].name == fields[i].name && r[i].defaultValue == fields[i].defaultValue
    ensures forall i :: 0 <= i < |r| && fields[i].name in sniffed ==> r[i].value == sniffed[fields[i].name]
    ensures forall i :: 0 <= i < |r| && fields[i].name !in sniffed ==> r[i] == fields[i]
    decreases |fields|
  {
    if fields == [] then []
    else
      var last := fields[|fields| - 1];
      var rest := ApplySniffed(fields[..|fields| - 1], sniffed);
      rest + [if last.name in sniffed then last.(value := sniffed[last.name]) else last]
  }

  /** The `CsvDialogForm` reactions. */
  function ReactForm(s: RegionState, e: Event): RegionState
  {
    match e
    case FileSelected(_) => s.(fields := ResetFields(s.fields))
    case DoneComputingCsvPreview(_, _, _, _, _, sniffed, _) =>
      if sniffed.None? then s else s.(fields := ApplySniffed(s.fields, sniffed.value))
    case _ => s
  }

  /** `getCsvParams()`: one entry per control name. */
  function ParamsOf(fields: seq<FormField>): (r: map<string, string>)
    ensures r.Keys == set i | 0 <= i < |fields| :: fields[i].name
    decreases |fields|
  {
    if fields == [] then map[]
    else
      var last := fields[|fields| - 1];
      var rest := ParamsOf(fields[..|fields| - 1]);
      assert forall i :: 0 <= i < |fields| - 1 ==> fields[..|fields| - 1][i] == fields[i];
      rest[last.name := last.value]
  }

  /** No later control has the same name as control `i`. */
  predicate LastOfName(fields: seq<FormField>, i: nat)
    requires i < |fields|
  {
    forall j :: i < j < |fields| ==> fields[j].name != fields[i].name
  }

  /** Of two controls with the same name, the later one's value is
      reported. */
  lemma {:induction false} ParamsOfLastWins(fields: seq<FormField>, i: nat)
    requires i < |fields| && LastOfName(fields, i)
    ensures ParamsOf(fields)[fields[i].name] == fields[i].value
    decreases |fields|
  {
    var n := |fields| - 1;
    if i < n {
      var prefix := fields[..n];
      assert prefix[i] == fields[i];
      assert LastOfName(prefix, i) by {
        forall j | i < j < |prefix| ensures prefix[j].name != prefix[i].name {
          assert prefix[j] == fields[j];
        }
      }
      ParamsOfLastWins(prefix, i);
      assert fields[n].name != fields[i].name;
    }
  }

  /** `CsvParamsSubmit.DONE_COMPUTING_CSV_PREVIEW`. */
  function ReactSubmit(s: RegionState, e: Event): RegionState
  {
    match e
    case DoneComputingCsvPreview(_, _, _, error, _, _, _) => s.(disabled := error.Some?)
    case _ => s
  }

  /** `CsvTextPreview.DONE_COMPUTING_CSV_PREVIEW`. */
  function ReactTextPreview(s: RegionState, e: Event): RegionState
  {
    match e
    case DoneComputingCsvPreview(raw, _, _, _, _, _, _) =>
      if raw.None? then s else s.(text := s.text[CsvText := raw.value], hidden := false)
    case _ => s
  }

  /** `CsvTablePreview.DONE_COMPUTING_CSV_PREVIEW`. */
  function ReactTablePreview(s: RegionState, e: Event): RegionState
  {
    match e
    case DoneComputingCsvPreview(_, preview, _, _, _, _, _) =>
      if preview.None? then s else s.(text := s.text[CsvTable := preview.value], hidden := false)
    case _ => s
  }

  /** `CsvPreviewError.DONE_COMPUTING_CSV_PREVIEW`. */
  function ReactPreviewError(s: RegionState, e: Event): Delivery
  {
    match e
    case DoneComputingCsvPreview(_, _, _, error, info, _, _) =>
      if error.None? then Delivery(s, false)
      else if info.None? then Delivery(s, true)
      else Delivery(s.(text := s.text[FileNameText := info.value.name][CsvErrorText := error.value], hidden := false), false)
    case _ => Delivery(s, false)
  }

  /** `PythonSnippets.DONE_COMPUTING_REPORT`. */
  function ReactSnippets(s: RegionState, e: Event): RegionState
  {
    match e
    case DoneComputingReport(_, error, _, snippets) =>
      if error.Some? then s
      else s.(escapeWarningHidden := !snippets.warningEscapeChar,
              text := s.text[PandasSnippetText := snippets.pandas][PolarsSnippetText := snippets.polars],
              hidden := false)
    case _ => s
  }

  /** `Report.DONE_COMPUTING_REPORT`. */
  function ReactReport(s: RegionState, e: Event): RegionState
  {
    match e
    case DoneComputingReport(report, error, _, _) =>
      if error.Some? then s else s.(text := s.text[Body := JsText(report)], hidden := false)
    case _ => s
  }

  /** `ReportError.DONE_COMPUTING_REPORT`. */
  function ReactReportError(s: RegionState, e: Event): Delivery
  {
    match e
    case DoneComputingReport(_, error, info, _) =>
      if error.None? then Delivery(s, false)
      else if info.None? then Delivery(s, true)
      else Delivery(s.(text := s.text[FileNameText := info.value.name][ReportErrorText := error.value], hidden := false), false)
    case _ => Delivery(s, false)
  }

  // ---------------------------------------------------------------------
  // App.receive
  // ---------------------------------------------------------------------

  /** The regions after `App.receive`, and how many handlers got the event:
      all of them, unless one threw, which ends the loop after it. */
  datatype Broadcast = Broadcast(states: seq<RegionState>, delivered: nat, raised: bool)

  /** Each handler's delivery, as if every handler received the message. */
  function Deliveries(cs: seq<HandlerClass>, ss: seq<RegionState>, e: Event): (ds: seq<Delivery>)
    requires |cs| == |ss|
    ensures |ds| == |cs|
    decreases |cs|
  {
    if cs == [] then []
    else
      var n := |cs| - 1;
      Deliveries(cs[..n], ss[..n], e) + [Deliver(cs[n], ss[n], e)]
  }

  /** The `i`-th entry is the `i`-th handler's delivery. */
  lemma {:induction false} DeliveriesAt(cs: seq<HandlerClass>, ss: seq<RegionState>, e: Event, i: nat)
    requires |cs| == |ss| && i < |cs|
    ensures Deliveries(cs, ss, e)[i] == Deliver(cs[i], ss[i], e)
    decreases |cs|
  {
    var n := |cs| - 1;
    if i < n {
      DeliveriesAt(cs[..n], ss[..n], e, i);
    }
  }

  /** The loop of `App.receive` over given deliveries: it takes them in
      order and stops after the first one that threw. */
  function Sweep(ds: seq<Delivery>, ss: seq<RegionState>): (b: Broadcast)
    requires |ds| == |ss|
    ensures |b.states| == |ss| && b.delivered <= |ds|
    ensures !b.raised ==> b.delivered == |ds|
    decreases |ds|
  {
    if ds == [] then Broadcast([], 0, false)
    else
      var n := |ds| - 1;
      var b := Sweep(ds[..n], ss[..n]);
      if b.raised then Broadcast(b.states + [ss[n]], b.delivered, true)
      else Broadcast(b.states + [ds[n].state], n + 1, ds[n].raised)
  }

  /** The sweep hands out the first `delivered` outcomes, none but the last
      of which threw; it is raised exactly when that last one threw; the
      other regions keep their state. */
  lemma {:induction false} SweepStops(ds: seq<Delivery>, ss: seq<RegionState>)
    requires |ds| == |ss|
    ensures var b := Sweep(ds, ss);
      (forall i :: 0 <= i < b.delivered ==> b.states[i] == ds[i].state)
      && (forall i :: b.delivered <= i < |ss| ==> b.states[i] == ss[i])
      && (forall i :: 0 <= i < b.delivered - 1 ==> !ds[i].raised)
      && (b.raised <==> b.delivered > 0 && ds[b.delivered - 1].raised)
    decreases |ds|
  {
    if ds != [] {
      var n := |ds| - 1;
      SweepStops(ds[..n], ss[..n]);
      var b := Sweep(ds[..n], ss[..n]);
      assert forall i :: 0 <= i < n ==> ds[..n][i] == ds[i] && ss[..n][i] == ss[i];
      if !b.raised {
        assert b.delivered == n;
      }
    }
  }

  /** `App.receive(data)` over handlers of classes `cs` on regions `ss`. */
  function ReceiveAll(cs: seq<HandlerClass>, ss: seq<RegionState>, e: Event): (b: Broadcast)
    requires |cs| == |ss|
    ensures |b.states| == |ss| && b.delivered <= |cs|
    ensures !b.raised ==> b.delivered == |cs|
  {
    Sweep(Deliveries(cs, ss, e), ss)
  }

  /** What `App.receive` does to each handler: the first `delivered`
      handlers get the message and none but the last of them throws; the
      outcome is raised exactly when that last one threw; the others keep
      their state. */
  lemma ReceiveAllDelivers(cs: seq<HandlerClass>, ss: seq<RegionState>, e: Event)
    requires |cs| == |ss|
    ensures var b := ReceiveAll(cs, ss, e);
      (forall i :: 0 <= i < b.delivered ==> b.states[i] == Deliver(cs[i], ss[i], e).state)
      && (forall i :: b.delivered <= i < |ss| ==> b.states[i] == ss[i])
      && (forall i :: 0 <= i < b.delivered - 1 ==> !Deliver(cs[i], ss[i], e).raised)
      && (b.raised <==> b.delivered > 0 && Deliver(cs[b.delivered - 1], ss[b.delivered - 1], e).raised)
  {
    var ds := Deliveries(cs, ss, e);
    SweepStops(ds, ss);
    forall i | 0 <= i < |cs|
      ensures ds[i] == Deliver(cs[i], ss[i], e)
    {
      DeliveriesAt(cs, ss, e, i);
    }
  }
}
