/** What the page's handlers promise, stated over `Observers.Deliver`: which
    controls are disabled while the engine works, how the status entries come
    and go, which regions a new input resets, how the form takes the sniffed
    parameters and gives them back, and which handlers can throw. */
module ObserverFacts {
  import opened Common
  import opened Events
  import opened Observers
  import Worker

  // ---------------------------------------------------------------------
  // Disabling during computation
  // ---------------------------------------------------------------------

  /** `DisableDuringComputation` touches `disabled` only: it disables on a
      file choice or a commit, enables once a report is done, and enables
      after a preview that is not followed by a report. */
  lemma DisableFollowsComputation(s: RegionState, e: Event)
    ensures var d := Deliver(DisableDuringComputation, s, e);
      !d.raised && d.state.(disabled := s.disabled) == s
      && (e.FileSelected? || e.CsvCommit? ==> d.state.disabled)
      && (e.DoneComputingReport? ==> !d.state.disabled)
      && (e.DoneComputingCsvPreview? ==> d.state.disabled == (s.disabled && e.isComputingReport))
      && (!e.FileSelected? && !e.CsvCommit? && !e.DoneComputingReport? && !e.DoneComputingCsvPreview?
          ==> d.state.disabled == s.disabled)
  {
  }

  /** The file input is its own pre-handler's region and reacts to nothing
      else: it behaves exactly like `DisableDuringComputation`. */
  lemma FileInputFollowsComputation(s: RegionState, e: Event)
    ensures Deliver(FileInput, s, e) == Deliver(DisableDuringComputation, s, e)
  {
    assert PreHandlers(FileInput) == [DisableDuringComputation];
    assert PreHandlers(FileInput)[..0] == [];
  }

  /** The commit button: after a preview it is disabled exactly when the
      preview failed, whatever its pre-handler decided first; a file choice
      or a commit disables it. */
  lemma SubmitFollowsPreview(s: RegionState, e: Event)
    ensures var d := Deliver(CsvParamsSubmit, s, e);
      !d.raised && d.state.(disabled := s.disabled) == s
      && (e.DoneComputingCsvPreview? ==> (d.state.disabled <==> e.error.Some?))
      && (e.FileSelected? || e.CsvCommit? ==> d.state.disabled)
      && (e.DoneComputingReport? ==> !d.state.disabled)
      && (!e.FileSelected? && !e.CsvCommit? && !e.DoneComputingReport? && !e.DoneComputingCsvPreview?
          ==> d.state.disabled == s.disabled)
  {
    assert PreHandlers(CsvParamsSubmit) == [DisableDuringComputation];
    assert PreHandlers(CsvParamsSubmit)[..0] == [];
  }

  // ---------------------------------------------------------------------
  // Status entries
  // ---------------------------------------------------------------------

  /** Removing a kind distributes over concatenation: it is a filter that
      keeps the order of what it keeps. */
  lemma {:induction false} WithoutAppend(xs: seq<Status>, ys: seq<Status>, k: Kind)
    ensures Without(xs + ys, k) == Without(xs, k) + Without(ys, k)
    decreases |ys|
  {
    if ys == [] {
      assert xs + ys == xs;
    } else {
      var n := |ys| - 1;
      assert (xs + ys)[..|xs + ys| - 1] == xs + ys[..n];
      assert (xs + ys)[|xs + ys| - 1] == ys[n];
      WithoutAppend(xs, ys[..n], k);
    }
  }

  /** An entry of another kind is kept as often as it occurs; every entry of
      the kind goes. */
  lemma {:induction false} WithoutCounts(xs: seq<Status>, k: Kind, st: Status)
    ensures multiset(Without(xs, k))[st] == if st.kind == k then 0 else multiset(xs)[st]
    decreases |xs|
  {
    if xs != [] {
      var n := |xs| - 1;
      WithoutCounts(xs[..n], k, st);
      assert xs == xs[..n] + [xs[n]];
      assert multiset(xs) == multiset(xs[..n]) + multiset{xs[n]};
    }
  }

  /** A list with no entry of the kind is left as it is. */
  lemma {:induction false} WithoutNothingToRemove(xs: seq<Status>, k: Kind)
    requires forall i :: 0 <= i < |xs| ==> xs[i].kind != k
    ensures Without(xs, k) == xs
    decreases |xs|
  {
    if xs != [] {
      var n := |xs| - 1;
      WithoutNothingToRemove(xs[..n], k);
      assert xs == xs[..n] + [xs[n]];
    }
  }

  /** Removing twice removes nothing more. */
  lemma WithoutIdempotent(xs: seq<Status>, k: Kind)
    ensures Without(Without(xs, k), k) == Without(xs, k)
  {
    WithoutNothingToRemove(Without(xs, k), k);
  }

  /** Removing two kinds in either order leaves the same entries. */
  lemma {:induction false} WithoutCommutes(xs: seq<Status>, k1: Kind, k2: Kind)
    ensures Without(Without(xs, k1), k2) == Without(Without(xs, k2), k1)
    decreases |xs|
  {
    if xs != [] {
      var n := |xs| - 1;
      var init := xs[..n];
      var x := [xs[n]];
      WithoutCommutes(init, k1, k2);
      assert xs == init + x;
      WithoutAppend(init, x, k1);
      WithoutAppend(Without(init, k1), Without(x, k1), k2);
      WithoutAppend(init, x, k2);
      WithoutAppend(Without(init, k2), Without(x, k2), k1);
      WithoutOneCommutes(xs[n], k1, k2);
    }
  }

  lemma WithoutOneCommutes(st: Status, k1: Kind, k2: Kind)
    ensures Without(Without([st], k1), k2) == Without(Without([st], k2), k1)
  {
    WithoutSingle(st, k1);
    WithoutSingle(st, k2);
    if st.kind != k1 {
      WithoutSingle(st, k2);
    }
    if st.kind != k2 {
      WithoutSingle(st, k1);
    }
  }

  /** A single entry is kept exactly when it is of another kind. */
  lemma WithoutSingle(st: Status, k: Kind)
    ensures Without([st], k) == if st.kind == k then [] else [st]
  {
    assert [st][..0] == [];
  }

  /** The message that starts a piece of work, and the one that ends it. */
  predicate Announces(e: Event)
  {
    e.LoadingPyodide? || e.ComputingCsvPreview?
    || (e.LoadingFile? && e.fileInfo.Some?) || (e.ComputingReport? && e.fileInfo.Some?)
  }

  /** A start message adds one entry, with a loader, tagged with its kind. */
  lemma StatusPostsOne(s: RegionState, e: Event)
    requires Announces(e)
    ensures var d := Deliver(StatusContainer, s, e);
      !d.raised && d.state.(statuses := s.statuses) == s
      && |d.state.statuses| == |s.statuses| + 1
      && d.state.statuses[..|s.statuses|] == s.statuses
      && d.state.statuses[|s.statuses|].kind == KindOf(e)
      && d.state.statuses[|s.statuses|].withLoader
  {
  }

  /** A `DONE_*` message removes every entry of the kind it ends and keeps
      the others, in order. */
  lemma StatusDoneClears(s: RegionState, e: Event)
    requires InProgress(KindOf(e)).Some?
    ensures var d := Deliver(StatusContainer, s, e);
      var k := InProgress(KindOf(e)).value;
      !d.raised && d.state.(statuses := s.statuses) == s
      && (forall i :: 0 <= i < |d.state.statuses| ==> d.state.statuses[i].kind != k)
      && (forall st: Status :: st.kind != k ==> multiset(d.state.statuses)[st] == multiset(s.statuses)[st])
  {
    var k := InProgress(KindOf(e)).value;
    var d := Deliver(StatusContainer, s, e);
    assert d.state.statuses == Without(s.statuses, k);
    forall st: Status | st.kind != k
      ensures multiset(d.state.statuses)[st] == multiset(s.statuses)[st]
    {
      WithoutCounts(s.statuses, k, st);
    }
  }

  /** The matching `DONE_*` kind of a start message. */
  function Finishing(k: Kind): (r: Kind)
    ensures InProgress(r) == Some(k) || (k != LOADING_PYODIDE && k != LOADING_FILE
                                         && k != COMPUTING_CSV_PREVIEW && k != COMPUTING_REPORT)
  {
    match k
    case LOADING_PYODIDE => DONE_LOADING_PYODIDE
    case LOADING_FILE => DONE_LOADING_FILE
    case COMPUTING_CSV_PREVIEW => DONE_COMPUTING_CSV_PREVIEW
    case COMPUTING_REPORT => DONE_COMPUTING_REPORT
    case _ => k
  }

  /** Starting a piece of work and finishing it leaves the status list as it
      was, provided nothing of that kind was shown before. */
  lemma StartThenFinishRestores(s: RegionState, start: Event, done: Event)
    requires Announces(start) && KindOf(done) == Finishing(KindOf(start))
    requires forall i :: 0 <= i < |s.statuses| ==> s.statuses[i].kind != KindOf(start)
    ensures Deliver(StatusContainer, Deliver(StatusContainer, s, start).state, done).state == s
  {
    var k := KindOf(start);
    var mid := Deliver(StatusContainer, s, start).state;
    StatusPostsOne(s, start);
    assert mid.statuses == s.statuses + [mid.statuses[|s.statuses|]];
    var fin := Deliver(StatusContainer, mid, done).state;
    assert fin.statuses == Without(mid.statuses, k);
    WithoutAppend(s.statuses, [mid.statuses[|s.statuses|]], k);
    WithoutNothingToRemove(s.statuses, k);
  }

  /** The two status messages that name the file throw when the worker sent
      no file information, and change nothing. */
  lemma StatusNeedsFile(s: RegionState, e: Event)
    requires e == LoadingFile(None) || e == ComputingReport(None)
    ensures Deliver(StatusContainer, s, e) == Delivery(s, true)
  {
  }

  /** A start message delivered twice shows two entries of its kind, each
      with a loader: delivery of these kinds is not idempotent. */
  lemma AnnouncingTwiceShowsTwo(s: RegionState, e: Event)
    requires Announces(e)
    ensures var once := Deliver(StatusContainer, s, e).state;
      var twice := Deliver(StatusContainer, once, e).state;
      |twice.statuses| == |s.statuses| + 2
      && twice.statuses[..|s.statuses|] == s.statuses
      && twice.statuses[|s.statuses|].kind == KindOf(e) && twice.statuses[|s.statuses|].withLoader
      && twice.statuses[|s.statuses| + 1].kind == KindOf(e) && twice.statuses[|s.statuses| + 1].withLoader
  {
    var once := Deliver(StatusContainer, s, e).state;
    StatusPostsOne(s, e);
    StatusPostsOne(once, e);
    var twice := Deliver(StatusContainer, once, e).state;
    assert twice.statuses[..|once.statuses|][..|s.statuses|] == twice.statuses[..|s.statuses|];
  }

  // ---------------------------------------------------------------------
  // Resetting on new input
  // ---------------------------------------------------------------------

  /** The classes whose contents a new choice of file, new parameters or a
      commit make stale. */
  predicate ResetBy(c: HandlerClass, k: Kind)
  {
    ((c == PythonSnippets || c == Report || c == ReportError)
      && (k == FILE_SELECTED || k == CSV_PARAMS || k == CSV_COMMIT))
    || ((c == CsvTextPreview || c == CsvTablePreview || c == CsvPreviewError)
      && (k == FILE_SELECTED || k == CSV_PARAMS))
  }

  /** Such an input hides the region and empties what it displays, and
      nothing else happens to it. */
  lemma InputResetsRegion(c: HandlerClass, s: RegionState, e: Event)
    requires ResetBy(c, KindOf(e))
    ensures var d := Deliver(c, s, e);
      !d.raised && d.state.hidden
      && (forall role | role in ClearedRoles(c) :: role in d.state.text && d.state.text[role] == "")
      && (forall role | role !in ClearedRoles(c) && role in s.text ::
            role in d.state.text && d.state.text[role] == s.text[role])
      && d.state.disabled == s.disabled && d.state.open == s.open
      && d.state.statuses == s.statuses && d.state.fields == s.fields
  {
    ClearRegionEmpties(c, s.(hidden := true));
  }

  /** A new file hides the dialog and changes nothing else in it. */
  lemma FileSelectedHidesDialog(s: RegionState, f: File)
    ensures Deliver(CsvDialog, s, FileSelected(f)) == Delivery(s.(hidden := true), false)
  {
  }

  // ---------------------------------------------------------------------
  // The report
  // ---------------------------------------------------------------------

  /** A finished report shows the report when there is no error, and the
      error otherwise; the other region is left as it was, so a report shown
      earlier stays shown next to a new error. With both hidden before,
      exactly one of them is shown after. */
  lemma ReportOrError(sr: RegionState, se: RegionState, e: Event)
    requires e.DoneComputingReport? && e.fileInfo.Some?
    ensures var r := Deliver(Report, sr, e);
      var x := Deliver(ReportError, se, e);
      !r.raised && !x.raised
      && (e.error.None? ==> !r.state.hidden && r.state.text[Body] == JsText(e.report) && x.state == se)
      && (e.error.Some? ==> r.state == sr && !x.state.hidden
                            && x.state.text[ReportErrorText] == e.error.value
                            && x.state.text[FileNameText] == e.fileInfo.value.name)
      && (sr.hidden && se.hidden ==>
            (r.state.hidden <==> e.error.Some?) && (x.state.hidden <==> e.error.None?))
  {
  }

  /** Without file information only an error report throws, and only in the
      error region. */
  lemma ReportErrorNeedsFile(s: RegionState, e: Event)
    requires e.DoneComputingReport? && e.fileInfo.None?
    ensures Deliver(ReportError, s, e) == Delivery(s, e.error.Some?)
    ensures !Deliver(Report, s, e).raised
  {
  }

  /** The snippets appear with a report and not with an error; the polars
      escape warning is visible exactly when the snippets ask for it. */
  lemma SnippetsFollowReport(s: RegionState, e: Event)
    requires e.DoneComputingReport?
    ensures var d := Deliver(PythonSnippets, s, e);
      !d.raised
      && (e.error.Some? ==> d.state == s)
      && (e.error.None? ==>
            (!d.state.hidden
             && d.state.escapeWarningHidden == !e.pythonSnippets.warningEscapeChar
             && d.state.text[PandasSnippetText] == e.pythonSnippets.pandas
             && d.state.text[PolarsSnippetText] == e.pythonSnippets.polars))
  {
  }

  /** The dialog stays open after a report only when there was an error, and
      is shown for a CSV file. */
  lemma DialogAfterReport(s: RegionState, e: Event)
    requires e.DoneComputingReport?
    ensures var d := Deliver(CsvDialog, s, e);
      d.state.open == e.error.Some?
      && (d.raised <==> e.fileInfo.None?)
      && (e.fileInfo.Some? && !e.fileInfo.value.isParquet ==> !d.state.hidden)
      && (e.fileInfo.Some? && e.fileInfo.value.isParquet ==> d.state.hidden == s.hidden)
  {
  }

  /** The dialog opens after a preview and is shown unless a report follows. */
  lemma DialogAfterPreview(s: RegionState, e: Event)
    requires e.DoneComputingCsvPreview?
    ensures var d := Deliver(CsvDialog, s, e);
      !d.raised && d.state.open
      && d.state.hidden == (s.hidden && e.isComputingReport)
  {
  }

  /** Every report message the worker posts names the file, so the dialog
      and the error region never throw on it. */
  lemma WorkerReportsNameTheFile(st: Worker.SessionState, engine: Worker.Engine, s: RegionState)
    ensures var posted := Worker.RunReport(st, engine).posted;
      forall i :: 0 <= i < |posted| && posted[i].DoneComputingReport? ==>
        posted[i].fileInfo.Some?
        && !Deliver(CsvDialog, s, posted[i]).raised && !Deliver(ReportError, s, posted[i]).raised
  {
  }

  // ---------------------------------------------------------------------
  // The preview regions
  // ---------------------------------------------------------------------

  /** Each preview region shows its part of a preview when that part is
      there and is left alone otherwise; the error region throws on an error
      without file information. */
  lemma PreviewRegions(st: RegionState, sa: RegionState, se: RegionState, e: Event)
    requires e.DoneComputingCsvPreview?
    ensures var t := Deliver(CsvTextPreview, st, e);
      !t.raised && (e.raw.None? ==> t.state == st)
      && (e.raw.Some? ==> !t.state.hidden && t.state.text[CsvText] == e.raw.value)
    ensures var a := Deliver(CsvTablePreview, sa, e);
      !a.raised && (e.preview.None? ==> a.state == sa)
      && (e.preview.Some? ==> !a.state.hidden && a.state.text[CsvTable] == e.preview.value)
    ensures var x := Deliver(CsvPreviewError, se, e);
      (x.raised <==> e.error.Some? && e.fileInfo.None?)
      && (e.error.None? || x.raised ==> x.state == se)
      && (e.error.Some? && e.fileInfo.Some? ==>
            !x.state.hidden && x.state.text[CsvErrorText] == e.error.value
            && x.state.text[FileNameText] == e.fileInfo.value.name)
  {
  }

  // ---------------------------------------------------------------------
  // The parameter form
  // ---------------------------------------------------------------------

  /** No two controls share a name. */
  predicate UniqueNames(fields: seq<FormField>)
  {
    forall i, j :: 0 <= i < j < |fields| ==> fields[i].name != fields[j].name
  }

  /** A new file puts every control back to its default. */
  lemma FormResetOnFile(s: RegionState, f: File)
    ensures var d := Deliver(CsvDialogForm, s, FileSelected(f));
      !d.raised && d.state.(fields := s.fields) == s && |d.state.fields| == |s.fields|
      && forall i :: 0 <= i < |s.fields| ==>
           d.state.fields[i].name == s.fields[i].name && d.state.fields[i].value == s.fields[i].defaultValue
  {
  }

  /** A preview without sniffed parameters leaves the form alone; one with
      them writes exactly the sniffed keys. */
  lemma FormTakesSniffed(s: RegionState, e: Event)
    requires e.DoneComputingCsvPreview?
    ensures var d := Deliver(CsvDialogForm, s, e);
      !d.raised && d.state.(fields := s.fields) == s
      && (e.sniffedCsvParams.None? ==> d.state == s)
      && (e.sniffedCsvParams.Some? ==>
            (|d.state.fields| == |s.fields|
             && forall i :: 0 <= i < |s.fields| ==>
                  d.state.fields[i].name == s.fields[i].name
                  && d.state.fields[i].value
                     == if s.fields[i].name in e.sniffedCsvParams.value
                        then e.sniffedCsvParams.value[s.fields[i].name] else s.fields[i].value))
  {
  }

  /** Round trip through the form: once the sniffed values are written into
      controls with distinct names, `getCsvParams()` reads back every sniffed
      value that has a control, and the old value of every other control. */
  lemma FormReadsBackSniffed(fields: seq<FormField>, sniffed: map<string, string>)
    requires UniqueNames(fields)
    ensures var back := ParamsOf(ApplySniffed(fields, sniffed));
      back.Keys == ParamsOf(fields).Keys
      && (forall name | name in back && name in sniffed :: back[name] == sniffed[name])
      && (forall name | name in back && name !in sniffed :: back[name] == ParamsOf(fields)[name])
  {
    var applied := ApplySniffed(fields, sniffed);
    var back := ParamsOf(applied);
    assert forall i :: 0 <= i < |fields| ==> applied[i].name == fields[i].name;
    assert back.Keys == ParamsOf(fields).Keys;
    forall name | name in back
      ensures name in sniffed ==> back[name] == sniffed[name]
      ensures name !in sniffed ==> back[name] == ParamsOf(fields)[name]
    {
      var i :| 0 <= i < |applied| && applied[i].name == name;
      assert LastOfName(applied, i);
      assert LastOfName(fields, i);
      ParamsOfLastWins(applied, i);
      ParamsOfLastWins(fields, i);
    }
  }

  // ---------------------------------------------------------------------
  // Single-reaction regions
  // ---------------------------------------------------------------------

  /** The size warning shows the whole megabytes and is visible exactly for
      files of at least 100 MB (10^8 bytes). */
  lemma LargeFileShownIff(s: RegionState, f: File)
    ensures var d := Deliver(LargeFileWarning, s, FileSelected(f));
      !d.raised && (!d.state.hidden <==> f.size >= 100000000)
      && d.state.text[FileSizeText] == Decimal(f.size / 1000000) + " MB"
  {
    var q := f.size / 1000000;
    assert f.size == q * 1000000 + f.size % 1000000;
    assert 0 <= f.size % 1000000 < 1000000;
  }

  /** The name display shows the chosen file's name. */
  lemma FileNameShown(s: RegionState, f: File)
    ensures Deliver(FileNameDisplay, s, FileSelected(f)) == Delivery(s.(text := s.text[Body := f.name]), false)
  {
  }

  // ---------------------------------------------------------------------
  // Redelivery
  // ---------------------------------------------------------------------

  /** The `DONE_*` kinds. */
  predicate Finishes(e: Event)
  {
    InProgress(KindOf(e)).Some?
  }

  /** Writing the same sniffed values twice changes nothing more. */
  lemma ApplySniffedIdempotent(fields: seq<FormField>, sniffed: map<string, string>)
    ensures ApplySniffed(ApplySniffed(fields, sniffed), sniffed) == ApplySniffed(fields, sniffed)
  {
    var once := ApplySniffed(fields, sniffed);
    var twice := ApplySniffed(once, sniffed);
    assert |twice| == |once|;
    forall i | 0 <= i < |once| ensures twice[i] == once[i] {
    }
  }

  /** No class hides, shows or clears on a finishing message. */
  lemma FinishingSkipsUpon(c: HandlerClass, s: RegionState, e: Event)
    requires Finishes(e)
    ensures Pipeline(c, s, e) == React(c, s, e)
  {
  }

  /** A class without pre-handlers is its own pipeline. */
  lemma NoPreHandlers(c: HandlerClass, s: RegionState, e: Event)
    requires c != FileInput && c != CsvParamsSubmit
    ensures Deliver(c, s, e) == Pipeline(c, s, e)
  {
    assert PreHandlers(c) == [];
  }

  /** Delivering a finishing message a second time to the same handler
      changes nothing more: every handler's reaction to it is idempotent. */
  lemma FinishingIsIdempotent(c: HandlerClass, s: RegionState, e: Event)
    requires Finishes(e)
    ensures Deliver(c, Deliver(c, s, e).state, e) == Deliver(c, s, e)
  {
    var d := Deliver(c, s, e);
    if c == FileInput {
      FileInputFollowsComputation(s, e);
      FileInputFollowsComputation(d.state, e);
    } else if c == CsvParamsSubmit {
      SubmitFollowsPreview(s, e);
      SubmitFollowsPreview(d.state, e);
    } else {
      NoPreHandlers(c, s, e);
      NoPreHandlers(c, d.state, e);
      FinishingSkipsUpon(c, s, e);
      FinishingSkipsUpon(c, d.state, e);
      ReactIdempotent(c, s, e);
    }
  }

  /** Every class's reaction to a finishing message is idempotent. */
  lemma ReactIdempotent(c: HandlerClass, s: RegionState, e: Event)
    requires Finishes(e)
    ensures React(c, React(c, s, e).state, e) == React(c, s, e)
  {
    if c == StatusContainer {
      WithoutIdempotent(s.statuses, InProgress(KindOf(e)).value);
    } else if c == CsvDialogForm {
      if e.DoneComputingCsvPreview? && e.sniffedCsvParams.Some? {
        ApplySniffedIdempotent(s.fields, e.sniffedCsvParams.value);
      }
    } else if c == CsvDialog || c == CsvPreviewError || c == ReportError {
      RaisingReactionsIdempotent(c, s, e);
    } else if c == CsvTextPreview || c == CsvTablePreview || c == PythonSnippets || c == Report {
      DisplayReactionsIdempotent(c, s, e);
    } else {
      ControlReactionsIdempotent(c, s, e);
    }
  }

  /** The reactions that may throw on a missing file information. */
  lemma RaisingReactionsIdempotent(c: HandlerClass, s: RegionState, e: Event)
    requires Finishes(e) && (c == CsvDialog || c == CsvPreviewError || c == ReportError)
    ensures React(c, React(c, s, e).state, e) == React(c, s, e)
  {
  }

  /** The reactions that fill a display and show it. */
  lemma DisplayReactionsIdempotent(c: HandlerClass, s: RegionState, e: Event)
    requires Finishes(e) && (c == CsvTextPreview || c == CsvTablePreview || c == PythonSnippets || c == Report)
    ensures React(c, React(c, s, e).state, e) == React(c, s, e)
  {
  }

  /** The reactions of the controls and of the file displays. */
  lemma ControlReactionsIdempotent(c: HandlerClass, s: RegionState, e: Event)
    requires Finishes(e)
    requires c == FileInput || c == FileNameDisplay || c == LargeFileWarning
          || c == DisableDuringComputation || c == CsvParamsSubmit
    ensures React(c, React(c, s, e).state, e) == React(c, s, e)
  {
  }

  // ---------------------------------------------------------------------
  // App.receive
  // ---------------------------------------------------------------------

  /** When no handler throws, every handler receives the event, in order. */
  lemma EveryHandlerReceives(cs: seq<HandlerClass>, ss: seq<RegionState>, e: Event)
    requires |cs| == |ss|
    requires forall i :: 0 <= i < |cs| ==> !Deliver(cs[i], ss[i], e).raised
    ensures var b := ReceiveAll(cs, ss, e);
      !b.raised && b.delivered == |cs|
      && forall i :: 0 <= i < |cs| ==> b.states[i] == Deliver(cs[i], ss[i], e).state
  {
    ReceiveAllDelivers(cs, ss, e);
  }

  /** A handler that throws is the last one to receive the event: the
      handlers after it keep their state. */
  lemma ThrowStopsTheRest(cs: seq<HandlerClass>, ss: seq<RegionState>, e: Event, j: nat)
    requires |cs| == |ss| && j < |cs|
    requires Deliver(cs[j], ss[j], e).raised
    requires forall i :: 0 <= i < j ==> !Deliver(cs[i], ss[i], e).raised
    ensures var b := ReceiveAll(cs, ss, e);
      b.raised && b.delivered == j + 1
      && forall i :: j < i < |cs| ==> b.states[i] == ss[i]
  {
    ReceiveAllDelivers(cs, ss, e);
  }
}
