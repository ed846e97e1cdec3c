# Invoice OCR batch: stripes, result cache and fail-fast processing

This project models in Dafny the sequential core of a Streamlit app for extracting invoice data (`app.py`). On each script run the app does the following:

- It takes the uploaded invoice images and selects those whose name is not yet in the session's `processed_files` list.
- It reconciles the session cache with the current uploads. `processed_results` maps a name to its markdown tables; `processed_files` lists the processed names.
- It then processes the selected files one after another:
  - upscale the image by 1.2;
  - cut it into five overlapping horizontal stripes;
  - OCR every stripe with a vision model;
  - join the stripe texts with a blank line;
  - ask a second model for two markdown tables;
  - only then record the file in the cache.

  The first exception from either model aborts the whole batch. A progress counter advances once per model call, against a budget of six steps per file.

The model has seven modules:

- `ModelCalls` (model_calls.dfy): what a call to either language model gives, the returned text or the message of the exception it raised.
- `Stripes` (stripes.dfy): the crop boxes of `split_image_into_horizontal_stripes`. They are computed by a loop method and proved against the pure layout `Layout`. The lemmas give the bounds, the ordering, the overlap and the exact set of rows the stripes cover.
- `TextRuns` (text_runs.dfy): the `"\n\n"` join of the stripe texts. The lemmas place each run and each separator in the joined text.
- `ResultCache` (result_cache.dfy): the cache as a value `Ledger(results, files)`. It covers the new-file filter `Unprocessed`, reconciliation `Reconciled` (with the order-preserving list filter `Kept`) and the commit of a finished file.
- `FileLoop` (file_loop.dfy): the fail-fast file loop `RunFiles`, for any per-file processing and step cost. It proves what the cache holds after the loop, what the counter reaches, and that only fully processed files are recorded.
- `Batch` (batch.dfy): the app's own per-file pipeline. `OcrRuns` and `ProcessFile` instantiate the loop as `RunBatch`, and `Rerun` is one whole script run. Its lemmas cover:
  - fail-fast;
  - the step budget;
  - stripe order;
  - the cache invariant;
  - idempotence of re-running.
- `SessionState` (session.dfy): the session as a class `Session` whose fields `processedResults` (a map) and `processedFiles` (a sequence) are updated in place. Its methods have the source's loops. Each one is proved to leave exactly the state given by the matching function of `ResultCache` or `Batch`. Every method also preserves the invariant that a name has a cached result exactly when it is listed as processed.

The two model calls are oracles, passed in as total functions that return either the text or the exception message:

- `ocr` gets the upload and the crop box of the stripe;
- `format_to_table` (`synth`) gets the joined text.

The reconciliation and selection steps are modelled exactly as written, including uploads that share a name. Reconciliation restricts the results map and filters the processed list, and with no uploads clears both. Selection filters the uploads by name. Because names can repeat, the cache invariant is "same set of names" and not "no duplicates".

Behaviours of the code worth knowing:

- The stripes do not always cover the image. Their union is exactly the rows `[0, min(N * sh + oh, height))`, where `sh = height // N` and `oh` is the overlap height. When `height % N > oh` the bottom rows are never sent to OCR; `Stripes.CoversWholeImageIff` and `Stripes.BottomRowsDropped` state this.
- Two neighbouring stripes share `2 * oh` rows, not `oh`, because each stripe is widened by `oh` on both sides.
- A failing stripe OCR still advances the counter: the increment comes before the call.

## Model

| member | source | states |
|---|---|---|
| Stripes.Layout | app.py:36-46 | the decomposition yields exactly `stripe_count` boxes |
| Stripes.SplitIntoStripes | app.py:36-46 | the append loop over `range(stripe_count)` returns exactly the layout, one box per index in index order |
| Stripes.BandsCoverage | app.py:38-43 | for any nominal height sh, the union of the widened, clamped bands is exactly the rows [0, min(n*sh+oh, height)) |
| Stripes.StripeWithinImage | app.py:38-44 | every box spans the full width and satisfies 0 <= upper <= lower <= height |
| Stripes.StripeOrder | app.py:41-43 | the first stripe starts at row 0; upper and lower bounds never decrease; neighbours touch or overlap, sharing exactly 2*oh rows when oh <= sh |
| Stripes.InteriorStripeHeight | app.py:38-43 | a stripe strictly between the first and last is sh + 2*oh rows high |
| Stripes.LastStripeEnd | app.py:43 | the last stripe ends at min(N*sh + oh, height) |
| Stripes.CoverageExact | app.py:38-43 | a row is covered by some stripe iff 0 <= row < min(N*sh + oh, height) |
| Stripes.CoversWholeImageIff | app.py:38-43 | every row of the image is covered iff height % N <= oh |
| Stripes.ShortImageStripesEmpty | app.py:38-43 | an image with fewer rows than stripes yields only empty boxes (0, 0) |
| Stripes.BottomRowsDropped | app.py:38-43 | a 24-row image in 5 stripes leaves rows 20..23 uncropped |
| Stripes.DefaultExample | app.py:36-46 | a 500-row image with overlap 10 gives rows [0,110), [90,210), [190,310), [290,410), [390,500) |
| TextRuns.JoinRuns | app.py:76 | with at least one run, the joined text is exactly as long as the runs plus one "\n\n" between each pair of neighbours, nothing more |
| TextRuns.RunPlaced | app.py:76 | run i appears verbatim in the joined text at its offset, after the runs before it |
| TextRuns.SeparatorPlaced | app.py:76 | each later run is preceded by exactly "\n\n" |
| TextRuns.JoinAppend | app.py:76 | joining one more run appends "\n\n" and the run |
| ResultCache.Names | app.py:158 | current_file_names has one name per upload |
| ResultCache.Unprocessed | app.py:158-163 | an upload is selected iff its name is not in processed_files; nothing is selected iff every name is listed; never more uploads are selected than were uploaded |
| ResultCache.UnprocessedAppend | app.py:160-163 | selection distributes over concatenation, so upload order is preserved |
| ResultCache.UnprocessedAgree | app.py:162 | selection depends only on whether each upload's name is listed |
| ResultCache.Kept | app.py:172 | a name is kept iff it was listed and is current; the list never grows |
| ResultCache.KeptAppend | app.py:172 | the filter distributes over concatenation, so the old order is preserved |
| ResultCache.KeptAllCurrent | app.py:172 | filtering a list of current names changes nothing |
| ResultCache.Reconciled | app.py:166-172 | keys are exactly the old keys that are current; retained entries keep their value; listed names are exactly the old listed names that are current; the cache invariant is preserved |
| ResultCache.ReconcileAllCurrent | app.py:166-172 | reconciling a cache that holds only current names leaves it unchanged |
| ResultCache.ReconcileExample | app.py:166-172 | entries {A, B, C} reconciled with uploads [B, C, D] keep exactly B and C, in order |
| ResultCache.Commit | app.py:217-218 | a finished file's table is stored under its name, the keys become the old keys plus that name, every other entry keeps its value, and the name is appended after the existing processed list, which is otherwise unchanged |
| ResultCache.CommitKeepsConsistent | app.py:217-218 | storing a result and appending its name keeps "a name has a result iff it is listed" |
| FileLoop.Step | app.py:185-221 | one file's steps are always counted; the loop goes on iff the file yields a table, which is then stored under its name with the name appended, every other entry keeping its key and value; otherwise the cache is untouched and the failure names this file, its stage and its message |
| FileLoop.RunFiles | app.py:184-229 | a reported failure names a file of the batch |
| FileLoop.RunFilesStopsAtAbort | app.py:205-207 | once a prefix of the batch has aborted, later files change nothing (the exception propagates out of the loop) |
| FileLoop.RunFilesOutcome | app.py:184-229 | every file before the failing one (all files if none failed) produced a table; the reported error is the failing file's own |
| FileLoop.RunFilesFiles | app.py:218 | processed_files grows by exactly the names of the finished files, in batch order |
| FileLoop.RunFilesSteps | app.py:180-209 | the counter advances the full per-file budget for each finished file, plus the failing file's own steps |
| FileLoop.RunFilesKeys | app.py:217 | the results afterwards hold exactly the old keys plus the finished files' names; entries no finished file overwrote keep their value |
| FileLoop.RunFilesEntries | app.py:215-218 | every recorded name holds the table of a finished file of that name: no partial record is stored |
| FileLoop.RunFilesKeepsConsistent | app.py:217-218 | the batch preserves the cache invariant, whether it completes or aborts |
| Batch.OverlapHeight | app.py:39 | the overlap is the largest whole number of rows not above a tenth of the stripe height |
| Batch.StripesOf | app.py:189 | each upload is cut into exactly 5 stripes |
| Batch.TotalSteps | app.py:180 | total_steps is one step per stripe (5) plus one synthesis step, for each new file |
| Batch.OcrRuns | app.py:191-207 | a successful stripe loop holds one text per stripe; a failed one names a stripe that exists |
| Batch.ProcessFile | app.py:185-221 | an OCR failure names one of the 5 stripes; a table or a synthesis failure is only reached once every stripe's OCR returned |
| Batch.FileSteps | app.py:192-208 | a file takes between 1 and 6 progress steps |
| Batch.OcrRunsInStripeOrder | app.py:191-207 | the stripe loop succeeds iff every stripe's OCR does, and then holds the texts in stripe order; otherwise it names the first stripe that raised, all earlier ones having succeeded |
| Batch.OcrRunsStopAtFailure | app.py:205-207 | after a failing stripe no later stripe is OCR'd |
| Batch.FileOutcome | app.py:185-221 | a file yields a table only if all 5 stripe OCRs succeeded and synthesis of their stripe-ordered join returned it, in 6 steps; an OCR failure at stripe i takes i+1 steps; a synthesis failure comes only after all 5 OCRs succeeded, reports the exception synthesis raised on their stripe-ordered join, and takes 6 |
| Batch.TablesTakeFullSteps | app.py:191-208 | every file that yields a table took 6 steps |
| Batch.RunBatch | app.py:185-221 | a reported failure names a selected file; the processed list keeps its old length and grows by at most one name per selected file |
| Batch.RunBatchStep | app.py:185-221 | one iteration either records file k (result and name) and counts its steps, or ends the whole batch with file k's failure |
| Batch.FailFast | app.py:205-207 | when file k fails, files 0..k-1 are recorded in both entries and file k's error is reported; later files are absent unless cached before or named like a finished file |
| Batch.CompletedBatch | app.py:184-221 | a completed batch produced a table for every file, appended every name in order, and used exactly total_steps |
| Batch.StepsWithinTotal | app.py:180-209 | the counter never exceeds total_steps = 5n + n, equals it on completion, and exceeds 6k when file k fails |
| Batch.Rerun | app.py:158-229 | one script run never advances the counter beyond 6 steps per upload; with no uploads it clears both session entries and does nothing else |
| Batch.SelectionIgnoresReconcile | app.py:158-175 | selecting before reconciliation picks the same files as selecting after it |
| Batch.RerunOnlyCurrentNames | app.py:158-229 | after any run only currently uploaded names remain in either session entry |
| Batch.SelectedNamesUploaded | app.py:158-163 | every name among the selected files is a current upload name |
| Batch.RerunKeepsConsistent | app.py:158-229 | every script run preserves the cache invariant |
| Batch.RerunFailFast | app.py:184-229 | within a run, an abort at new file k leaves files 0..k-1 recorded, and file k and every later new file uncached unless a finished file carries the same name |
| Batch.RerunIdempotent | app.py:158-229 | after a completed run, rerunning with the same uploads selects nothing, calls neither model (0 steps) and leaves the cache unchanged |
| SessionState.Session.constructor | app.py:132-136 | a new session starts with an empty results map and an empty processed list |
| SessionState.Session.SelectNewFiles | app.py:158-163 | the loop returns exactly the unprocessed uploads, in upload order |
| SessionState.Session.Reconcile | app.py:165-175 | the new state is the reconciled cache, or empty when nothing is uploaded; the invariant is kept |
| SessionState.Session.ProcessBatch | app.py:177-229 | the nested loops leave exactly the state, counter and outcome of the fail-fast batch, with total_steps = 6n and the counter within it |
| SessionState.Session.Run | app.py:158-229 | one script run: select, reconcile, then process the selection if any; the result is that of the run function |
| SessionState.OcrStripes | app.py:190-207 | the stripe loop collects the OCR texts in order, one per stripe, stops at the first exception, and counts one step per call made |
| SessionState.ProcessUpload | app.py:185-216 | one file: its stripes, their OCR, one synthesis of the joined texts; the result and the steps are those of the file's specification |

## Left out

- The Streamlit interface is left out: sidebar, previews, progress-bar rendering and its ratio `min(current_step / total_steps, 1.0)`, status messages, error banners and result display. The exception that ends the batch is modelled as the `Aborted` outcome; `st.stop` itself is not modelled.
- The LLM calls (`ChatGroq`, message payloads, prompt text) are oracles. Each returns the text or an exception message. The `.strip()` on their answers belongs to the oracles.
- `encode_image_pil` (JPEG and base64 encoding) is left out; it only feeds the OCR oracle.
- The resize by 1.2 is floating point. An `Upload` carries the image size after the resize, `int(width * 1.2)` by `int(height * 1.2)`.
- Batch.OverlapHeight: models `int(stripe_height * 0.1)` as `stripe_height / 10`. That the two agree for every realistic height rests on an argument about IEEE doubles that is not proved here. `Stripes` itself takes the overlap height as an input.
- Pixel handling is left out: `Image.open`, `crop` and the pixels are not modelled, and a stripe is its crop box. Failures to open or resize an image are not modelled either; the only failure sources are the two model calls.
- Stripes.SplitIntoStripes: requires `stripe_count >= 1`. With 0 the source divides by zero; the app always uses the default 5.
- Stripes.ShortImageStripesEmpty: assumes the overlap is at most the nominal stripe height. That always holds for the default overlap of 0.1.
- `sleep`, `load_dotenv` and API-key loading are timing and I/O.
