# skrub online report, modelled in Dafny

The skrub online report is a single web page. The user picks a CSV or
parquet file, and the page shows a preview, lets the user adjust the CSV
parameters, and then shows a skrub `TableReport` together with Python
snippets that reproduce it. The Python engine (Pyodide) runs in a web worker.
This project models three parts of it and proves properties of each.

- **The page's dispatcher and its observers** (`skrub-online-report.js`).
  - `App` keeps the list of handlers, one per `data-handler` element. `emit`
    sends a message to the worker and schedules local delivery. `receive`
    hands the message to each handler in order.
  - Each handler runs the `Handler.receive` pipeline: pre-handlers; then hide,
    show and clear according to the kind; then the reaction named after the
    kind.
  - Each region of the page is a `RegionState` record: `data-hidden`,
    `disabled`, the dialog's `open`, the texts, the status entries and the form
    controls.
  - The pure module `Observers` says what one delivery does (`Deliver`).
    `Dispatcher` holds the same objects as classes (`Region`, `Handler`,
    `App`). Their methods update the regions in place and are proved against
    `Deliver`. `ObserverFacts` proves what the page promises on top of that.
- **The worker's session** (`skrub-worker.js`).
  - The session's globals are `fileInfo`, `data`, `sniff` and `csvParams`. Two
    more fields are added: the engine gate (`pyodideLoaded`, with the jobs
    waiting on it) and the stream of posted messages.
  - The pure module `Worker` gives each entry point as a transition.
  - The class `WorkerSession.Session` updates the fields in place and is
    proved against those transitions.
  - The Python engine is an oracle value (`Engine`): what chardet detected,
    what the decoder and the clevercsv sniffer produced, and whether pandas
    and skrub succeeded.
  - The snippet templates (`Snippets`) are checked against a small evaluator
    of Python string literals.
- **Two build helpers** (`build.py`): `relative` and `bust`.

A JavaScript object's identity matters in `CSV_PARAMS`: its guard compares
references. So a parameter object is modelled as `JsParams(ref, values)`.
Every object that crosses `postMessage` is a structured clone, so it gets a
fresh `ref`. This follows the code's `!==`: two objects with equal values
are still different. A value comparison would behave otherwise.

Both sides have exceptions. A handler that reads `data.fileInfo.name` on a
message without file information throws. `pythonSnippets` throws without
file information, or without parameters for a CSV file. Both are modelled:
as `raised` for a handler, and as the end of the job for the worker. On the
page, a throw ends `App.receive`, so the handlers after the one that threw
never see the message.

## Model

| member | source | states |
|---|---|---|
| Build.Split | build.py:27-28 | `str.split("/")`: at least one piece, and no piece contains a slash |
| Build.Join | build.py:28-29 | definition: `"/".join(parts)`, the pieces with one slash between neighbours |
| Build.JoinSplit | build.py:28-29 | joining the pieces of a split with "/" gives back the string |
| Build.SplitJoin | build.py:28-29 | splitting a join of slash-free pieces gives back the pieces |
| Build.SplitLength | build.py:27 | `len(current_page.split("/")) - 1` is the number of slashes in the page |
| Build.Relative | build.py:25-29 | definition: one ".." per level of the current page, then the pieces of the path, joined by "/" |
| Build.RelativeClimbs | build.py:25-29 | `relative` is one "../" per slash of the current page, followed by the path unchanged |
| Build.RelativeTopLevel | build.py:27-29 | for a page without a slash, the path is returned as it is |
| Build.RelativeEndsWithPath | build.py:28-29 | for every page, the result ends with the path |
| Build.RelativeFromExamplePage | build.py:95 | for `examples/<name>.html` the result is "../" + path |
| Build.AlnumRun | build.py:48 | the greedy `[a-zA-Z0-9]+` run: all alphanumeric, and stopped by a non-alphanumeric character or the end |
| Build.MarkerAt | build.py:48 | a match found at the start is `?__skrub_`, a non-empty alphanumeric word, then `__`; text that does not start with '?' never matches |
| Build.Bust | build.py:47-48 | definition: scanning left to right, each marker becomes the marker of the version and every other character is copied |
| Build.AlnumRunOfWord | build.py:48 | the run over an alphanumeric word followed by something else stops exactly at the word's end |
| Build.MarkerAtWord | build.py:48 | every non-empty alphanumeric word between the two halves is a marker |
| Build.BustWithoutMarker | build.py:47-48 | text in which no marker starts is returned unchanged |
| Build.BustRewritesMarker | build.py:47-48 | a marker carrying any version is rewritten to the current version, and the rest is busted in turn |
| Build.BustFrame | build.py:47-48 | text in which no marker starts, even one holding a '?' such as a query string, is copied through unchanged and the rest is busted on its own |
| Build.BustPlainPrefix | build.py:47-48 | text without '?' is copied through unchanged |
| Build.BustKeepsPlainPrefix | build.py:47-48 | a '?'-free prefix of the output is a prefix of the input |
| Build.MarkerShape | build.py:48 | a matched marker is head, word, tail |
| Build.BustCreatesNoMarker | build.py:48 | rewriting never creates a marker after a '?' that had none |
| Build.BustIdempotent | build.py:48 | for an alphanumeric non-empty version (a slice of `token_hex`, build.py:149), busting twice equals busting once |
| Build.BustOneMarker | build.py:47-48 | text in which no marker starts, followed by one marker: only the marker's version changes |
| Build.WorkerUrlBusted | skrub-online-report.js:47 | the worker script URL in the page is rewritten to the build's version |
| Observers.Lookup | skrub-online-report.js:67-69 | a class found under a name was registered under that name |
| Observers.LookupClassName | skrub-online-report.js:67-69 | every class is found under its own name |
| Observers.DeclaredUpon | skrub-online-report.js:75-77 | definition: each class's `hideUpon`, `showUpon` and `clearUpon` lists, empty unless the class declares them (241, 356-357, 376-377, 397-398, 420-421, 453-454, 468-469) |
| Observers.PreHandlers | skrub-online-report.js:133 | the only pre-handler a constructor installs is a `DisableDuringComputation` |
| Observers.PreHandlersAreLeaves | skrub-online-report.js:263-277 | pre-handlers have no pre-handlers of their own |
| Observers.ClearRegion | skrub-online-report.js:115-117 | definition: `clear()` as each class overrides it (359-361, 379-381, 400-403, 423-429, 471-474); otherwise the base `clear()` (115-117) empties the region's `Body`, which `Report` uses |
| Observers.ClearRegionEmpties | skrub-online-report.js:359-429 | `clear()` empties exactly the class's display roles and keeps everything else; the snippets' clear also hides the escape warning |
| Observers.ApplyUpon | skrub-online-report.js:89-97 | after hide and show, the region is shown if the kind is in `showUpon`, hidden if it is only in `hideUpon`, and unchanged otherwise |
| Observers.ShowWinsOverHide | skrub-online-report.js:89-94 | a kind in both `hideUpon` and `showUpon` leaves the region shown |
| Observers.Pipeline | skrub-online-report.js:89-100 | definition: hide, show and clear from the class's lists, then the kind-named method |
| Observers.RunPre | skrub-online-report.js:86-88 | definition: the pre-handlers receive the message in order, stopping at the first throw |
| Observers.RunPreStops | skrub-online-report.js:86-88 | once a pre-handler has thrown, the pre-handlers after it are never reached: the outcome is the one at the throw |
| Observers.Deliver | skrub-online-report.js:85-101 | definition: `Handler.receive` on one region: the pre-handlers, then the pipeline unless one threw |
| Observers.React | skrub-online-report.js:98-100 | definition: `this[data.kind](data)` when the class has that method, nothing otherwise |
| Observers.ReactFileName | skrub-online-report.js:155-160 | definition: `FileNameDisplay.FILE_SELECTED` writes the file name |
| Observers.ReactLargeFile | skrub-online-report.js:162-174 | definition: `LargeFileWarning.FILE_SELECTED` writes whole megabytes and shows from 10^8 bytes |
| Observers.ReactStatus | skrub-online-report.js:176-214 | definition: the `StatusContainer` kind methods, reading `data.fileInfo.name` for LOADING_FILE and COMPUTING_REPORT |
| Observers.ReactCsvDialog | skrub-online-report.js:240-259 | definition: the `CsvDialog` methods: `open` on a preview; `open` iff error, then throw without `fileInfo`, then show unless parquet on a report |
| Observers.ReactDisable | skrub-online-report.js:263-277 | definition: the checks of `DisableDuringComputation.receive` |
| Observers.ReactForm | skrub-online-report.js:279-313 | definition: reset on FILE_SELECTED, sniffed values on a preview |
| Observers.ReactSubmit | skrub-online-report.js:344-350 | definition: disabled iff the preview has an error |
| Observers.ReactTextPreview | skrub-online-report.js:363-372 | definition: `CsvTextPreview.DONE_COMPUTING_CSV_PREVIEW` |
| Observers.ReactTablePreview | skrub-online-report.js:383-393 | definition: `CsvTablePreview.DONE_COMPUTING_CSV_PREVIEW` |
| Observers.ReactPreviewError | skrub-online-report.js:405-415 | definition: `CsvPreviewError.DONE_COMPUTING_CSV_PREVIEW`, throwing on an error without `fileInfo` |
| Observers.ReactSnippets | skrub-online-report.js:431-447 | definition: `PythonSnippets.DONE_COMPUTING_REPORT`, returning early on an error |
| Observers.ReactReport | skrub-online-report.js:456-463 | definition: `Report.DONE_COMPUTING_REPORT`, returning early on an error |
| Observers.ReactReportError | skrub-online-report.js:476-486 | definition: `ReportError.DONE_COMPUTING_REPORT`, returning early without an error |
| Observers.PostStatus | skrub-online-report.js:216-229 | `postStatus` appends one entry with a loader at the end |
| Observers.Without | skrub-online-report.js:231-236 | the entries kept after removing a kind: none of that kind, each one from the original list |
| Observers.ResetFields | skrub-online-report.js:300-302 | `form.reset()` puts every control back to its default value |
| Observers.ApplySniffed | skrub-online-report.js:304-313 | controls named in the sniffed values get that value; every other control is unchanged |
| Observers.ParamsOf | skrub-online-report.js:315-321 | `getCsvParams()` has exactly one key per control name |
| Observers.ParamsOfLastWins | skrub-online-report.js:315-321 | for a repeated name, the last control's value is reported |
| Observers.Deliveries | skrub-online-report.js:60-65 | one delivery per handler |
| Observers.DeliveriesAt | skrub-online-report.js:60-65 | the i-th delivery is the i-th handler's delivery on its own region |
| Observers.Sweep | skrub-online-report.js:62-64 | the loop delivers to at most every handler, and to all of them when nothing threw |
| Observers.SweepStops | skrub-online-report.js:62-64 | the loop takes the deliveries in order and stops after the first one that threw; later regions keep their state |
| Observers.ReceiveAll | skrub-online-report.js:60-65 | `App.receive`: the number delivered is at most the number of handlers, and equals it when no handler threw |
| Observers.ReceiveAllDelivers | skrub-online-report.js:60-65 | each of the first `delivered` handlers gets the message on its own region; only the last of them may throw, and the outcome is raised exactly when it did; later regions are unchanged |
| ObserverFacts.DisableFollowsComputation | skrub-online-report.js:263-277 | disables on FILE_SELECTED and CSV_COMMIT; enables on DONE_COMPUTING_REPORT, and on DONE_COMPUTING_CSV_PREVIEW when no report follows; every other kind leaves `disabled` alone; nothing else changes |
| ObserverFacts.FileInputFollowsComputation | skrub-online-report.js:130-137 | the file input behaves exactly like its `DisableDuringComputation` pre-handler |
| ObserverFacts.SubmitFollowsPreview | skrub-online-report.js:333-352 | after a preview, the commit button is disabled if and only if the preview reported an error, whatever the pre-handler did first |
| ObserverFacts.WithoutAppend | skrub-online-report.js:231-236 | removal is a filter: it distributes over concatenation and keeps order |
| ObserverFacts.WithoutCounts | skrub-online-report.js:231-236 | every entry of the removed kind goes; every other entry is kept as many times as it occurred |
| ObserverFacts.WithoutNothingToRemove | skrub-online-report.js:231-236 | a list without the kind is left as it is |
| ObserverFacts.WithoutIdempotent | skrub-online-report.js:231-236 | removing a kind twice removes nothing more |
| ObserverFacts.WithoutCommutes | skrub-online-report.js:231-236 | removing two kinds in either order gives the same list |
| ObserverFacts.WithoutSingle | skrub-online-report.js:231-236 | a single entry is kept exactly when it is of another kind |
| ObserverFacts.StatusPostsOne | skrub-online-report.js:181-214 | a start message appends exactly one entry, tagged with its kind and with a loader, after the old entries |
| ObserverFacts.StatusDoneClears | skrub-online-report.js:187-214 | after a DONE_* message no entry of the matching kind remains, and other entries keep their counts |
| ObserverFacts.Finishing | skrub-online-report.js:181-214 | each start kind is paired with the DONE_* kind that removes it |
| ObserverFacts.StartThenFinishRestores | skrub-online-report.js:181-236 | a start message followed by its DONE_* message gives back the original list, when nothing of that kind was shown before |
| ObserverFacts.StatusNeedsFile | skrub-online-report.js:191-210 | LOADING_FILE and COMPUTING_REPORT without file information throw and change nothing |
| ObserverFacts.AnnouncingTwiceShowsTwo | skrub-online-report.js:181-210 | every start message (LOADING_PYODIDE, COMPUTING_CSV_PREVIEW, and LOADING_FILE or COMPUTING_REPORT with file information) delivered twice leaves the old entries and adds two entries of its kind, each with a loader |
| ObserverFacts.InputResetsRegion | skrub-online-report.js:354-474 | FILE_SELECTED, CSV_PARAMS (and, for the report regions, CSV_COMMIT) hide the preview and report regions and empty their displays; nothing else changes |
| ObserverFacts.FileSelectedHidesDialog | skrub-online-report.js:240-241 | a new file hides the dialog and changes nothing else |
| ObserverFacts.ReportOrError | skrub-online-report.js:451-486 | on DONE_COMPUTING_REPORT with file information, no error shows the report and leaves the error region as it was; an error shows the error region with the file name and the error text and leaves the report as it was, so a report shown before stays shown; with both hidden before, exactly one is shown |
| ObserverFacts.ReportErrorNeedsFile | skrub-online-report.js:476-486 | without file information only an error report throws, and only in the error region |
| ObserverFacts.SnippetsFollowReport | skrub-online-report.js:431-447 | the snippets are shown with a report and left alone on an error; the polars warning is visible exactly when `warningEscapeChar` is set |
| ObserverFacts.DialogAfterReport | skrub-online-report.js:250-258 | after a report the dialog is open if and only if there is an error; it is shown for a CSV file and throws without file information |
| ObserverFacts.DialogAfterPreview | skrub-online-report.js:243-248 | after a preview the dialog is open, and shown unless a report follows |
| ObserverFacts.WorkerReportsNameTheFile | skrub-worker.js:86-92 | every DONE_COMPUTING_REPORT the worker posts carries file information, so the dialog and the error region do not throw on it |
| ObserverFacts.PreviewRegions | skrub-online-report.js:363-415 | the text and table previews show their part when it is present and are untouched otherwise; the error region shows the file name and the error, and throws on an error without file information |
| ObserverFacts.FormResetOnFile | skrub-online-report.js:300-302 | a new file puts every control back to its default |
| ObserverFacts.FormTakesSniffed | skrub-online-report.js:304-313 | a preview without sniffed values leaves the form alone; one with them overwrites exactly the controls whose names are sniffed |
| ObserverFacts.FormReadsBackSniffed | skrub-online-report.js:304-321 | round trip: with distinct control names, `getCsvParams()` after writing reads back every sniffed value that has a control, and the old value of every other control |
| ObserverFacts.LargeFileShownIff | skrub-online-report.js:162-174 | the warning shows the size in whole megabytes and is visible if and only if the file has at least 10^8 bytes |
| ObserverFacts.FileNameShown | skrub-online-report.js:155-160 | the name display shows the chosen file's name |
| ObserverFacts.ApplySniffedIdempotent | skrub-online-report.js:304-313 | writing the same sniffed values twice changes nothing more |
| ObserverFacts.FinishingSkipsUpon | skrub-online-report.js:85-101 | no class hides, shows or clears on a DONE_* message |
| ObserverFacts.NoPreHandlers | skrub-online-report.js:86-88 | a class without pre-handlers is its own pipeline |
| ObserverFacts.FinishingIsIdempotent | skrub-online-report.js:85-101 | delivering the same DONE_* message twice to one handler changes nothing more than delivering it once |
| ObserverFacts.ReactIdempotent | skrub-online-report.js:98-100 | each class's reaction to a DONE_* message is idempotent |
| ObserverFacts.RaisingReactionsIdempotent | skrub-online-report.js:240-259 | the same, for the dialog and the two error regions |
| ObserverFacts.DisplayReactionsIdempotent | skrub-online-report.js:354-464 | the same, for the previews, the snippets and the report |
| ObserverFacts.ControlReactionsIdempotent | skrub-online-report.js:130-352 | the same, for the controls and the file displays |
| ObserverFacts.EveryHandlerReceives | skrub-online-report.js:60-65 | when no handler throws, every handler receives the message once, in list order |
| ObserverFacts.ThrowStopsTheRest | skrub-online-report.js:60-65 | a handler that throws is the last to receive the message; the handlers after it keep their state |
| Dispatcher.Region.constructor | skrub-online-report.js:79-83 | a region starts in the given state |
| Dispatcher.Handler.constructor | skrub-online-report.js:130-134 | `new cls(elem, app)`: its class, its element, and the pre-handler list its constructor builds |
| Dispatcher.Handler.Leaf | skrub-online-report.js:79-83 | a handler with no pre-handlers |
| Dispatcher.Handler.Receive | skrub-online-report.js:85-101 | the region's new state and whether it threw are those of `Deliver` on the old state |
| Dispatcher.Handler.RunPipeline | skrub-online-report.js:89-100 | hide, show, clear, then the reaction, as `Pipeline` |
| Dispatcher.Handler.Hide | skrub-online-report.js:107-109 | sets `data-hidden` and nothing else |
| Dispatcher.Handler.Show | skrub-online-report.js:111-113 | removes `data-hidden` and nothing else |
| Dispatcher.Handler.Disable | skrub-online-report.js:119-122 | sets `disabled` and nothing else |
| Dispatcher.Handler.Enable | skrub-online-report.js:124-127 | clears `disabled` and nothing else |
| Dispatcher.Handler.Clear | skrub-online-report.js:115-117 | `clear()` as the class overrides it |
| Dispatcher.Handler.Reaction | skrub-online-report.js:98-100 | the method named after the kind, as `React` |
| Dispatcher.Handler.LargeFileReaction | skrub-online-report.js:163-173 | `LargeFileWarning.FILE_SELECTED` |
| Dispatcher.Handler.StatusReaction | skrub-online-report.js:177-214 | the `StatusContainer` kind methods |
| Dispatcher.Handler.PostStatus | skrub-online-report.js:216-229 | `postStatus` appends one entry at the end |
| Dispatcher.Handler.RemoveStatus | skrub-online-report.js:231-236 | the loop of `removeStatus` leaves the entries of other kinds, in order |
| Dispatcher.Handler.DialogReaction | skrub-online-report.js:243-259 | the `CsvDialog` kind methods |
| Dispatcher.Handler.DisableReaction | skrub-online-report.js:264-276 | `DisableDuringComputation.receive` after `super.receive` |
| Dispatcher.Handler.FormReaction | skrub-online-report.js:300-313 | the `CsvDialogForm` kind methods |
| Dispatcher.Handler.WriteSniffed | skrub-online-report.js:308-312 | the loop over the controls writes the sniffed values as `ApplySniffed` |
| Dispatcher.Handler.GetCsvParams | skrub-online-report.js:315-321 | the loop over the controls builds `ParamsOf` of the form's controls |
| Dispatcher.Handler.PreviewErrorReaction | skrub-online-report.js:405-415 | `CsvPreviewError.DONE_COMPUTING_CSV_PREVIEW` |
| Dispatcher.Handler.SnippetsReaction | skrub-online-report.js:431-447 | `PythonSnippets.DONE_COMPUTING_REPORT` |
| Dispatcher.Handler.ReportErrorReaction | skrub-online-report.js:476-486 | `ReportError.DONE_COMPUTING_REPORT` |
| Dispatcher.SweepStep | skrub-online-report.js:62-64 | one more turn of the loop extends the sweep by that handler's delivery |
| Dispatcher.SweepStoppedWhole | skrub-online-report.js:62-64 | once a delivery threw, or every handler had its turn, the whole sweep is the sweep so far followed by the remaining regions' old states |
| Dispatcher.SweepStopped | skrub-online-report.js:62-64 | once a delivery threw, or every handler had its turn, the remaining regions keep their state |
| Dispatcher.SweepEnded | skrub-online-report.js:62-64 | where the loop stops, the regions are in the states the whole sweep gives |
| Dispatcher.App.Classes | skrub-online-report.js:41-45 | the classes of the handlers, in list order |
| Dispatcher.App.Snapshots | skrub-online-report.js:41-45 | the states of the handlers' regions, in list order |
| Dispatcher.App.constructor | skrub-online-report.js:40-51 | an app holding the given handlers, with nothing sent or scheduled |
| Dispatcher.App.Create | skrub-online-report.js:40-45 | one handler per `data-handler` element, in document order, of the registered class; there is no app exactly when a marker is unregistered |
| Dispatcher.App.Receive | skrub-online-report.js:60-65 | the regions end as `ReceiveAll` says; nothing is posted to the worker and nothing is scheduled |
| Dispatcher.App.ReceiveInTurn | skrub-online-report.js:62-64 | the loop over the handlers, stopping at the first throw |
| Dispatcher.App.DeliverTo | skrub-online-report.js:63 | one handler's region takes its delivery; every other region is unchanged |
| Dispatcher.App.Emit | skrub-online-report.js:53-58 | `emit` posts the message to the worker and schedules its local delivery, once each |
| Dispatcher.App.RunScheduled | skrub-online-report.js:54-56 | the oldest scheduled message is received by the page, and nothing goes to the worker |
| Dispatcher.App.SelectFiles | skrub-online-report.js:139-150 | only a selection of exactly one file emits FILE_SELECTED |
| Dispatcher.App.FormChanged | skrub-online-report.js:282-328 | for the app's `CsvDialogForm` handler (the listener installed at 282-285), a change emits CSV_PARAMS with the form's current values |
| Dispatcher.App.ClickCommit | skrub-online-report.js:337-341 | a click emits CSV_COMMIT |
| Snippets.ReadFileSnippet | skrub-worker.js:201-240 | a snippet exists unless the file is a CSV and there are no parameters |
| Snippets.DelimiterLiteral | skrub-worker.js:215-216 | definition: `'\t'` for a tab, otherwise the delimiter between single quotes |
| Snippets.EscapeLiteral | skrub-worker.js:217 | definition: `None` for "none", otherwise a backslash literal |
| Snippets.QuoteLiteral | skrub-worker.js:218 | definition: `'"'` for a double quote, otherwise `"'"` |
| Snippets.PythonSnippets | skrub-worker.js:242-267 | the snippets exist if and only if there is file information, and parameters for a CSV; the escape warning implies a CSV whose escape is not "none" |
| Snippets.PolarsIgnoresEscape | skrub-worker.js:230-238 | the polars snippet does not depend on the escape parameter |
| Snippets.ParquetIgnoresParams | skrub-worker.js:202-214 | a parquet file's snippets ignore the parameters and never warn |
| Snippets.SingleQuotedDenotes | skrub-worker.js:216 | text with no backslash, single quote, line break (newline or carriage return) or NUL byte, between single quotes, denotes itself as a Python literal |
| Snippets.QuotedEscapeDenotes | skrub-worker.js:215-217 | a quoted one-character escape (`\t`, `\\` and the others Python defines) denotes Python's value for it |
| Snippets.QuotedCharDenotes | skrub-worker.js:218 | a quoted character that is not the quote, a backslash, a line break or a NUL byte denotes itself |
| Snippets.DelimiterLiteralDenotes | skrub-worker.js:215-216 | the separator literal denotes the delimiter, for a tab and for every delimiter with no backslash, single quote, line break or NUL byte |
| Snippets.DelimiterLiteralBreaks | skrub-worker.js:215-216 | the delimiter is put between quotes unescaped, so one holding a line break or a NUL byte (and no backslash) makes the separator literal a Python syntax error |
| Snippets.EscapeLiteralDenotes | skrub-worker.js:217 | the escape literal is `None` for "none" and a backslash for every other value |
| Snippets.QuoteLiteralDenotes | skrub-worker.js:218 | the quote literal is `"` for `"` and `'` for every other value |
| Snippets.QuoteLiteralFaithful | skrub-worker.js:218 | the quote written is the quote used if and only if it is one of the two quote characters |
| Worker.ParquetByExtension | skrub-worker.js:3-5 | a `.parquet` name is parquet, and a `.csv` name is not |
| Worker.EscapeStrToPy | skrub-worker.js:34-37 | round trip: `escape_py_to_str(escape_str_to_py(s)) == s`; the result is `None` if and only if s is "none" |
| Worker.EscapePyToStr | skrub-worker.js:39-42 | `None` becomes "none"; a string is kept |
| Worker.EscapeSentinelCollides | skrub-worker.js:34-42 | the other direction fails: the Python string "none" comes back as `None` |
| Worker.NormalizeEncoding | skrub-worker.js:114-117 | never "ascii"; "utf-8" when nothing was detected; otherwise the detected encoding |
| Worker.NormalizeEncodingIdempotent | skrub-worker.js:114-117 | normalizing twice equals normalizing once |
| Worker.OrDefault | skrub-worker.js:122-124 | `value or default`: the default for `None` and for "", the value otherwise |
| Worker.SniffedEscape | skrub-worker.js:126-127 | never empty; "none" exactly when the sniffer gave no escape, an empty one, or "none" |
| Worker.SniffedParams | skrub-worker.js:117-127 | the sniffed set has exactly the keys encoding, delimiter, quote and escape, and only the encoding may be empty |
| Worker.Prefix | skrub-worker.js:121 | `decoded_text[:4000]`: at most 4000 characters, a prefix of the text, the whole text when it is short |
| Worker.Preview | skrub-worker.js:102-149 | definition: the outcome of `get_preview()` from the engine's results: decode, sniff (when sniffing), read, render |
| Worker.PreviewFailsOrRenders | skrub-worker.js:102-157 | a preview fails or renders a table, never both; it renders if and only if the bytes were decoded, the table was read and, when sniffing, the sniffer returned a dialect; a sniff records the normalized encoding; manual mode sniffs nothing |
| Worker.PreviewRawLength | skrub-worker.js:118-122 | the raw text shown is cut to 4000 characters once the sniffer returned, with or without a dialect, and whole when it raised; without a dialect the preview fails with the AttributeError of `dialect.delimiter` |
| Worker.RunReport | skrub-worker.js:52-93 | `getReport` leaves the state alone and first posts COMPUTING_REPORT with the current file information |
| Worker.RunPreview | skrub-worker.js:96-187 | `csvPreview` keeps the file, the bytes and the mode, and posts COMPUTING_CSV_PREVIEW and then DONE_COMPUTING_CSV_PREVIEW |
| Worker.PreviewMessage | skrub-worker.js:158-166 | the DONE_COMPUTING_CSV_PREVIEW message carries the current file information |
| Worker.AdoptSniffed | skrub-worker.js:167-177 | adopting sniffed values leaves the file, the bytes, the mode and the gate alone |
| Worker.ReportStep | skrub-worker.js:52-53 | `await pyodideLoaded`: before the engine is ready the report job waits and nothing is posted |
| Worker.PreviewStep | skrub-worker.js:96-97 | the same for the preview job |
| Worker.RunJob | skrub-worker.js:53 | a waiting job leaves the gate as it is |
| Worker.RunJobs | skrub-worker.js:309 | the waiting jobs, run in order, leave the gate as it is |
| Worker.EngineLoaded | skrub-worker.js:46-48 | the load announces DONE_LOADING_PYODIDE first and leaves nothing waiting |
| Worker.OnMessageWhileLoading | skrub-worker.js:311-313 | before the engine is ready, a message posts nothing that needs the engine |
| Worker.JobsDoNotAnnounce | skrub-worker.js:53 | running the waiting jobs never announces the engine again |
| Worker.OnMessageWhenReady | skrub-worker.js:311-313 | once the engine is ready, a message leaves nothing waiting and does not announce the engine |
| Worker.StepKeepsGate | skrub-worker.js:8-10 | every step keeps the gate's invariant: no COMPUTING_* message before DONE_LOADING_PYODIDE |
| Worker.RunKeepsGate | skrub-worker.js:309-313 | after any sequence of messages and the load, no COMPUTING_* message precedes DONE_LOADING_PYODIDE |
| Worker.FileSelectedRecordsFile | skrub-worker.js:270-286 | FILE_SELECTED replaces the file information, posts LOADING_FILE and then DONE_LOADING_FILE with it, and keeps the bytes read; a failed read stops after LOADING_FILE |
| Worker.FileSelectedStep | skrub-worker.js:270-293 | definition: FILE_SELECTED: record the file, post LOADING_FILE, drop the bytes, read, then continue as `AfterRead` |
| Worker.AfterRead | skrub-worker.js:282-292 | definition: post DONE_LOADING_FILE, then the report for parquet, or a sniffing preview |
| Worker.ParquetSkipsPreview | skrub-worker.js:287-288 | a parquet file posts no preview message and keeps the parameters and the mode |
| Worker.FailedReadKeepsParams | skrub-worker.js:281-282 | a failed read leaves no bytes and keeps the parameters and the mode |
| Worker.CsvFileIsSniffed | skrub-worker.js:289-291 | any other file is previewed in sniff mode and gets sniffed parameters |
| Worker.PreviewThenReport | skrub-worker.js:158-186 | `isComputingReport` is set if and only if sniffing found no error; the report starts exactly then, and after the DONE message |
| Worker.SniffedParamsReplaceParams | skrub-worker.js:167-181 | in sniff mode the parameters become a new object holding the sniffed values, which are sent along; in manual mode the parameters stay and none are sent |
| Worker.ReportCarriesSnippets | skrub-worker.js:86-92 | the report message carries the file information and the snippets for the current parameters; it has an error exactly when there are no bytes or the engine raised; a throwing snippet ends the job |
| Worker.StepKeepsRefsFresh | skrub-worker.js:170-173 | every parameter object the worker holds is older than any it will create |
| Worker.JobsKeepRefsFresh | skrub-worker.js:170-173 | the same, across the waiting jobs |
| Worker.CsvParamsAlwaysApplies | skrub-worker.js:296-302 | since the guard compares references and every message brings a new object, each CSV_PARAMS switches to manual mode, keeps the new values and previews them; the file and the bytes stay |
| Worker.CsvParamsStep | skrub-worker.js:296-302 | definition: if the incoming object is not the held one, switch to manual mode, keep it and preview |
| Worker.CsvCommitReports | skrub-worker.js:305-307 | CSV_COMMIT computes the report, or waits for the engine to do so |
| Worker.OtherKindsIgnored | skrub-worker.js:311-313 | a kind with no entry point changes nothing |
| Worker.OnMessage | skrub-worker.js:311-313 | definition: `self[e.data.kind](e.data)` for the three entry points; any other kind changes nothing |
| Worker.Step | skrub-worker.js:46-313 | definition: one input: a message to `self.onmessage` (311-313), or the engine's load (46-48), which comes once |
| Worker.Run | skrub-worker.js:7-313 | definition: the script's start (7-10), then the inputs in order (309-313) |
| Worker.SniffedPreviewHappyPath | skrub-worker.js:96-187 | a sniffing preview on a ready engine with no failure is followed by the report, without errors |
| Worker.CsvHappyPath | skrub-worker.js:270-293 | a CSV file on a ready engine with no failure posts the six messages in order, without errors |
| Worker.ParquetHappyPath | skrub-worker.js:270-293 | a parquet file on a ready engine goes from loading straight to the report |
| Worker.EscapeLiteralFaithful | skrub-worker.js:217 | the pandas snippet's escape is the one the report uses if and only if it is "none" or a backslash |
| Worker.EscapeWarningIffPandasEscapes | skrub-worker.js:263 | the polars warning is raised if and only if the pandas snippet passes an escape character |
| Worker.SniffedSnippetFaithful | skrub-worker.js:215-218 | for sniffed parameters whose delimiter is a tab or has no backslash, single quote, line break or NUL byte, and whose quote is a quote character, the separator and quote in the snippet are the ones the preview read with |
| WorkerSession.Session.constructor | skrub-worker.js:7-10 | the script starts with unset globals and has posted LOADING_PYODIDE |
| WorkerSession.Session.GetReport | skrub-worker.js:52-93 | `getReport` past its await: the new state and the posted messages are those of `RunReport` |
| WorkerSession.Session.CsvPreview | skrub-worker.js:96-187 | `csvPreview` past its await, as `RunPreview` |
| WorkerSession.Session.AwaitReport | skrub-worker.js:52-53 | `getReport()` as called: runs now or waits, as `ReportStep` |
| WorkerSession.Session.AwaitPreview | skrub-worker.js:96-97 | `csvPreview()` as called, as `PreviewStep` |
| WorkerSession.Session.FileSelected | skrub-worker.js:270-293 | FILE_SELECTED, as `FileSelectedStep` |
| WorkerSession.Session.StartLoading | skrub-worker.js:271-281 | records the file, posts LOADING_FILE and drops the old bytes |
| WorkerSession.Session.ReadDone | skrub-worker.js:282-292 | the continuation after the read, as `AfterRead` |
| WorkerSession.Session.CsvParams | skrub-worker.js:296-302 | CSV_PARAMS, as `CsvParamsStep` |
| WorkerSession.Session.CsvCommit | skrub-worker.js:305-307 | CSV_COMMIT, as `ReportStep` |
| WorkerSession.Session.OnMessage | skrub-worker.js:311-313 | `self.onmessage`, as `Worker.OnMessage`, keeping the gate's invariant and fresh object identities |
| WorkerSession.Session.EngineLoaded | skrub-worker.js:46-48 | the engine's arrival, as `Worker.EngineLoaded`, keeping the invariants |
| WorkerSession.Session.AnnounceAndRun | skrub-worker.js:46-48 | announce the engine, then run the waiting jobs |
| WorkerSession.Session.RunWaitingJobs | skrub-worker.js:309 | the loop over the waiting jobs, as `RunJobs` |
| WorkerSession.Session.RunNextJob | skrub-worker.js:309 | one more waiting job |
| WorkerSession.Session.RunJob | skrub-worker.js:53 | a waiting job resumed, as `Worker.RunJob` |

## Left out

- DOM rendering: `setInnerHTML` re-creating scripts, `querySelector`, `innerHTML` and `textContent` writes, `<select>` semantics and `allEncodings`. An encoding missing from the select would read back empty; here a control keeps any value written to it.
- `console.log` and the load timing with `performance.now`: neither has an observable effect.
- copybutton.js: clipboard, shadow DOM and timers, with no logic of the report.
- The Python engine: Pyodide's load, micropip, chardet, clevercsv, pandas and skrub. Their outcomes are an `Engine` parameter. The engine's outputs do not depend on the parameters, and nothing is said about what the report contains.
- Asynchrony. Each worker entry point runs to its end as one step. A job waiting on `pyodideLoaded` resumes when the load completes, in the order it started waiting. In the source, overlapping previews and reports can interleave at their `await`s, and that is not modelled.
- `readFile` and `FileReader`: the read is an `Option` of bytes given to `FILE_SELECTED`.
- The load signal comes only once. A second one does nothing in `Worker.Step`; the session's `EngineLoaded` requires that the engine is not yet loaded.
- `Math.floor(size / 1e6)` is floating-point division. It is modelled as integer division of a whole number of bytes.
- Dispatcher.App.Create: a marker with no registered class makes `new undefined(...)` throw, and there is no app. The listeners that the handlers built before it registered are not modelled.
- Whether a disabled control can still fire events is not modelled: `SelectFiles`, `FormChanged` and `ClickCommit` may be called at any time.
- `postStatus`'s `withLoader` argument is always left at its default in the source, so every entry has a loader.
- The page's `this.worker.onmessage` callback (skrub-online-report.js:48-50) calls `receive`: it is `Dispatcher.App.Receive` itself, with no separate member.
- The report's HTML is written with the text JavaScript produces for the value (`JsText`): "undefined" if it is absent. Nothing is said about parsing that HTML.
- The snippets' `pandas.text` and `polars.text` fields, and `polars.warningEscapeChar`, are flattened into one `Snippets` record.
- build.py's I/O and templating: `write`, `get_datasets`, `add_report`, `build_examples`, `build_pages`, jinja2, `shutil`, `argparse` and `secrets`. The version is a parameter of `Bust`.
- Build.MarkerAt: the regular expression engine is replaced by a matcher for this one pattern, anchored at the start of the text.
- Snippets.Escape: the `\N{...}`, `\u` and `\U` escapes are not evaluated, so a literal holding one has no value here. The snippets never write them. Other string prefixes (raw, bytes, f-strings) and triple quotes are not modelled either.
- Build.Bust: the version is inserted literally. `re.sub` reads its replacement as a template, where a backslash or `\g<...>` would be interpreted; the version comes from `token_hex` and is hexadecimal, so this never arises, and `BustIdempotent` requires `ValidVersion`.
