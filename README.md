# PDF worker orchestration, modelled in Dafny

The Utilities site merges and decrypts PDF files in two web workers, each of
which wraps a third-party engine:

- The **merge worker** is built on pdf-lib. It walks the user-ordered preview
  list and skips out-of-range indices. It turns each PNG or JPEG into one page
  sized by the unit conversion, with the image's aspect ratio kept. It copies
  every page of each PDF, optionally rescaled. It posts progress, a warning per
  failed or unsupported file, and, when every awaited call returns, exactly
  one terminal message.
- The **decrypt worker** runs pdfcpu, compiled to WebAssembly. It initializes
  its runtime once and caches the compiled module. It stages the input in an
  in-memory filesystem, runs the engine with an argument vector built from the
  optional password, and reports a fixed ladder of progress milestones. When
  no output appears, it classifies the engine's captured text into one error.
  On success it cleans up the staged files.

Each engine call is replaced by an outcome given as input, and `postMessage`
appends to a sequence of events: `Progress(real)`, `Warning(message,
description)`, `Error(message, description)` and `Success(bytes)`.

- **Merge worker.** A file's outcome says what pdf-lib makes of it: an image
  decodes to its pixel size or fails; a PDF loads to its page sizes or fails
  with an error message. Serialising the merged document is a function `save`.
- **Decrypt worker.** The engine is a function from the argument vector and the
  filesystem to a run result: the bytes it writes to `/output.pdf`, if any, and
  the text it prints. The model appends that text to the captured
  stdout/stderr, which stands in for the buffer `wasm_exec` keeps. `init`'s
  environment says whether the Go runtime passes the `if (!go)` test and which
  module was compiled.

Files:

- `messages.dfy` (module `Messages`): the event type and generic facts about
  progress sequences.
- `text.dfy` (module `Text`): JavaScript's `String.includes`, and an integer
  written as plain decimal text, which is how a template literal renders an
  index below 1e21 in magnitude.
- `units.dfy` (module `Units`): `convertUnit`.
- `merge.dfy` (module `PdfLibWorker`): `mergePdf` and its `onmessage`. A pure
  specification (`ProcessEntry`, `ProcessEntries`, `MergeEvents`) sits beside
  the imperative methods (`MergePdf` with its loop over the preview list,
  `CopyPages` with its loop over copied pages), and the methods are proved equal
  to it.
- `merge_properties.dfy` (module `MergeProperties`): what the merge worker
  promises.
- `decrypt.dfy` (module `PdfcpuWorker`): the worker's module-level variables as
  the fields of the class `Pdfcpu`, whose methods `Init`, `Decrypt` and
  `OnMessage` are proved equal to the state-transition functions `InitStep`,
  `DecryptStep` and `OnMessageStep`, and the failure classification `Classify`.
- `decrypt_properties.dfy` (module `DecryptProperties`): what the decrypt worker
  promises.

Where the model's choices need explaining:

- **Invalid entries keep their share.** The progress share of each entry is 80
  divided by the length of the preview list. An entry whose index is out of
  range posts no progress but still counts in that length. The loop therefore
  ends at 80 · (in-range entries) / (entries), and reaches 80 only when every
  index is in range.
- **No missing output on failure.** On a failed decrypt, `/output.pdf` is by
  definition absent, since its absence is what makes the run fail. Only the
  staged `/input.pdf` is left behind.
- **The `if (!go)` branch of `init` is modelled as written.** In JavaScript
  `new Go()` always yields an object, so this branch cannot run in the
  program. The model reaches it through `InitEnv.goCreated == false`, which
  stands for that branch only, not for a constructor that throws. Taken as
  written, the branch makes the request post two errors: the `init` error,
  then `Go wasm runtime is not initialized`. The worker stays uninitialized, so
  the next request retries `init`.
- **Captured text is assumed never to be cleared.** The worker only reads
  `stdout_stderr`; whatever writes to it lives in `wasm_exec`. The model
  assumes that each run appends what the engine prints and that nothing clears
  it. Under that assumption, once a run has printed `This file is not
  encrypted`, every later failed run is reported as not encrypted.

## Model

| member | source | states |
|---|---|---|
| Units.Factor | docs/_app/immutable/assets/pdf-lib.worker.BNhH-Uyq.ts:8-13 | every unit's length in millimetres is positive |
| Units.ConvertUnit | docs/_app/immutable/assets/pdf-lib.worker.BNhH-Uyq.ts:3-16 | the converted value measures the same length in millimetres as the input: r · factor(to) = value · factor(from) |
| Units.ConvertToMillimetres | docs/_app/immutable/assets/pdf-lib.worker.BNhH-Uyq.ts:8-15 | the millimetre is the base unit: converting to it multiplies by the source factor |
| Units.ConvertToSelf | docs/_app/immutable/assets/pdf-lib.worker.BNhH-Uyq.ts:15 | converting a unit to itself returns the value |
| Units.ConvertCompose | docs/_app/immutable/assets/pdf-lib.worker.BNhH-Uyq.ts:15 | converting through an intermediate unit equals converting directly |
| Units.ConvertRoundTrip | docs/_app/immutable/assets/pdf-lib.worker.BNhH-Uyq.ts:15 | converting a to b and back returns the value |
| Units.ConvertMonotone | docs/_app/immutable/assets/pdf-lib.worker.BNhH-Uyq.ts:15 | conversion preserves the order of lengths |
| Units.SeventyTwoPointsNearlyAnInch | docs/_app/immutable/assets/pdf-lib.worker.BNhH-Uyq.ts:12 | the point factor is a truncated decimal: 72 points are strictly less than, and within 1e-11 of, one inch |
| Text.ContainsAppendRight | src/lib/workers/pdfcpu.worker.ts:102 | text that contains a marker still contains it after more text is appended |
| Text.ContainsAppendLeft | src/lib/workers/pdfcpu.worker.ts:102 | a marker in a run's own output is still found after the text captured before it |
| Text.NatToString | docs/_app/immutable/assets/pdf-lib.worker.BNhH-Uyq.ts:39 | the rendering is a non-empty string of digits without a leading zero |
| Text.NatToStringRoundTrip | docs/_app/immutable/assets/pdf-lib.worker.BNhH-Uyq.ts:39 | reading the digits back gives the number |
| Text.IntToString | docs/_app/immutable/assets/pdf-lib.worker.BNhH-Uyq.ts:39 | the rendering is non-empty and starts with a minus sign exactly for negative numbers |
| Text.NatToStringInjective | docs/_app/immutable/assets/pdf-lib.worker.BNhH-Uyq.ts:39 | distinct naturals render differently |
| Text.IntToStringInjective | docs/_app/immutable/assets/pdf-lib.worker.BNhH-Uyq.ts:39 | distinct integers are rendered as distinct texts |
| PdfLibWorker.KindOf | docs/_app/immutable/assets/pdf-lib.worker.BNhH-Uyq.ts:51-158 | the handling is PNG exactly for `image/png`, JPEG exactly for `image/jpg` or `image/jpeg`, PDF exactly for `application/pdf` |
| PdfLibWorker.ImagePage | docs/_app/immutable/assets/pdf-lib.worker.BNhH-Uyq.ts:55-63 | the anchor dimension of an image page is the output size converted to points, and the page keeps the image's aspect ratio |
| PdfLibWorker.ScalePage | docs/_app/immutable/assets/pdf-lib.worker.BNhH-Uyq.ts:119-132 | without scaling a page of any size is unchanged; with scaling a page whose anchor dimension is zero becomes non-finite, any other page gets the converted output size as its anchor dimension; a finite result keeps the aspect ratio |
| PdfLibWorker.CopiedPages | docs/_app/immutable/assets/pdf-lib.worker.BNhH-Uyq.ts:116-132 | one page per source page, in source order, each scaled as asked |
| PdfLibWorker.LoadFailureDescription | docs/_app/immutable/assets/pdf-lib.worker.BNhH-Uyq.ts:139-142 | the encrypted description exactly when the load error's message contains `is encrypted`, the unknown-error description otherwise |
| PdfLibWorker.Share | docs/_app/immutable/assets/pdf-lib.worker.BNhH-Uyq.ts:46 | each entry's progress share is positive |
| PdfLibWorker.FilePages | docs/_app/immutable/assets/pdf-lib.worker.BNhH-Uyq.ts:51-159 | only a decoded image or a loaded PDF adds pages: an image one page, a PDF one page per source page |
| PdfLibWorker.FileEvents | docs/_app/immutable/assets/pdf-lib.worker.BNhH-Uyq.ts:51-159 | an in-range file posts either progress reports only or a single warning, and nothing that ends the run |
| PdfLibWorker.ProcessEntry | docs/_app/immutable/assets/pdf-lib.worker.BNhH-Uyq.ts:33-164 | one iteration only appends messages and pages, and counts the file exactly when its index is in range |
| PdfLibWorker.ProcessEntries | docs/_app/immutable/assets/pdf-lib.worker.BNhH-Uyq.ts:26-165 | after any prefix of the preview list, the run opened with progress 0 and counted no more files than entries |
| PdfLibWorker.MergeEvents | docs/_app/immutable/assets/pdf-lib.worker.BNhH-Uyq.ts:26-181 | a merge opens with progress 0 and ends with an error or a success (that it is the only one is `MergeEndsOnce`) |
| PdfLibWorker.PagePercent | docs/_app/immutable/assets/pdf-lib.worker.BNhH-Uyq.ts:133-135 | a per-page value lies within the file's share, and the last page's value equals the file's end-of-file value |
| PdfLibWorker.PageProgress | docs/_app/immutable/assets/pdf-lib.worker.BNhH-Uyq.ts:118-137 | one progress report per copied page, the k-th carrying that page's value |
| PdfLibWorker.ProcessEntriesNext | docs/_app/immutable/assets/pdf-lib.worker.BNhH-Uyq.ts:32-165 | handling one more preview entry is one more iteration of the loop body |
| PdfLibWorker.MergePdf | docs/_app/immutable/assets/pdf-lib.worker.BNhH-Uyq.ts:18-182 | the loop posts exactly the specified messages and builds exactly the specified pages |
| PdfLibWorker.HandleEntry | docs/_app/immutable/assets/pdf-lib.worker.BNhH-Uyq.ts:33-164 | one loop iteration: an out-of-range index is reported and skipped, otherwise the file is handled, its end-of-file progress posted and `fileNumber` advanced |
| PdfLibWorker.HandleFile | docs/_app/immutable/assets/pdf-lib.worker.BNhH-Uyq.ts:51-159 | the MIME dispatch appends exactly the file's messages and pages |
| PdfLibWorker.CopyPages | docs/_app/immutable/assets/pdf-lib.worker.BNhH-Uyq.ts:116-137 | the inner loop appends every copied page in order, each followed by its progress report |
| PdfLibWorker.OnMessage | docs/_app/immutable/assets/pdf-lib.worker.BNhH-Uyq.ts:184-200 | a `merge` request posts what `mergePdf` posts; any other type posts the invalid-type error |
| PdfLibWorker.PageFractionBound | docs/_app/immutable/assets/pdf-lib.worker.BNhH-Uyq.ts:133-135 | page k's fraction of the share lies between 0 and the share, and equals it for the last page |
| PdfLibWorker.ReachedStep | docs/_app/immutable/assets/pdf-lib.worker.BNhH-Uyq.ts:161 | finishing a file adds exactly one share |
| MergeProperties.InvalidEntrySkipped | docs/_app/immutable/assets/pdf-lib.worker.BNhH-Uyq.ts:33-44 | an out-of-range index posts one warning naming it, adds no page and no progress, and leaves `fileNumber` unchanged |
| MergeProperties.InvalidIndexNamed | docs/_app/immutable/assets/pdf-lib.worker.BNhH-Uyq.ts:39 | the warning for an out-of-range entry identifies its index: equal warnings mean equal indices |
| MergeProperties.ImageEntryAddsOnePage | docs/_app/immutable/assets/pdf-lib.worker.BNhH-Uyq.ts:52-100 | a decoded image adds exactly one page, anchored on the converted output size with the image's aspect ratio, then its end-of-file progress |
| MergeProperties.PdfEntryAppendsPages | docs/_app/immutable/assets/pdf-lib.worker.BNhH-Uyq.ts:113-137 | a loaded PDF appends all its pages in order after the existing ones: unchanged without scaling; with scaling anchored on the target, or non-finite where the anchor dimension is zero; its last per-page value equals its end-of-file value |
| MergeProperties.ImageFailureWarns | docs/_app/immutable/assets/pdf-lib.worker.BNhH-Uyq.ts:70-109 | an image that fails to embed posts one warning naming it, adds no page, and the run continues |
| MergeProperties.PdfFailureWarns | docs/_app/immutable/assets/pdf-lib.worker.BNhH-Uyq.ts:138-147 | a PDF that fails to load posts one warning naming it, with the encrypted description exactly when the error says `is encrypted`, and adds no page |
| MergeProperties.UnsupportedTypeWarns | docs/_app/immutable/assets/pdf-lib.worker.BNhH-Uyq.ts:150-158 | any other MIME type posts one warning naming the file and its type and adds no page |
| MergeProperties.ValidCount | docs/_app/immutable/assets/pdf-lib.worker.BNhH-Uyq.ts:30-164 | the count of in-range entries never exceeds the number of entries |
| MergeProperties.FileProgressShape | docs/_app/immutable/assets/pdf-lib.worker.BNhH-Uyq.ts:133-162 | one file's reports never go down, stay within its share and end at its end-of-file value |
| MergeProperties.PageProgressClimbs | docs/_app/immutable/assets/pdf-lib.worker.BNhH-Uyq.ts:133-136 | a PDF's per-page reports climb through its share to the end-of-file value |
| MergeProperties.EntryKeepsShape | docs/_app/immutable/assets/pdf-lib.worker.BNhH-Uyq.ts:32-165 | each iteration keeps progress non-decreasing and exactly at `fileNumber` shares, and advances `fileNumber` only for an in-range entry |
| MergeProperties.LoopInvariant | docs/_app/immutable/assets/pdf-lib.worker.BNhH-Uyq.ts:26-165 | after any prefix of the preview list, `fileNumber` is the number of in-range entries and progress opened at 0, never went down and stands at `fileNumber` shares |
| MergeProperties.ValidCountAll | docs/_app/immutable/assets/pdf-lib.worker.BNhH-Uyq.ts:35 | every entry counts exactly when every index is in range |
| MergeProperties.LoopProgressEnd | docs/_app/immutable/assets/pdf-lib.worker.BNhH-Uyq.ts:26-164 | inside the loop, progress starts at 0, never goes down and stays within 0..80; it ends at (in-range entries) shares, which is 80 exactly when every index is in range |
| MergeProperties.ProgressAfterShares | docs/_app/immutable/assets/pdf-lib.worker.BNhH-Uyq.ts:46-161 | v of n shares stay within 0..80 and reach 80 only when v = n |
| MergeProperties.MergeEndsOnce | docs/_app/immutable/assets/pdf-lib.worker.BNhH-Uyq.ts:26-181 | once the awaited calls return, a run opens with progress 0 and ends with exactly one terminal message, last: the `Empty output` error exactly when no page was added, otherwise progress 100 then the saved document |
| MergeProperties.MergeProgressMonotone | docs/_app/immutable/assets/pdf-lib.worker.BNhH-Uyq.ts:26-180 | over the whole run progress opens at 0, never goes down and stays within 0..100 |
| MergeProperties.EntryAppendsPages | docs/_app/immutable/assets/pdf-lib.worker.BNhH-Uyq.ts:35-159 | one iteration adds exactly the entry's pages: none for an out-of-range index, otherwise the file's |
| MergeProperties.PagesOfSnoc | docs/_app/immutable/assets/pdf-lib.worker.BNhH-Uyq.ts:32 | the reference page list of a longer preview list extends the shorter one |
| MergeProperties.PagesFollowPreview | docs/_app/immutable/assets/pdf-lib.worker.BNhH-Uyq.ts:32-165 | the merged document holds each entry's pages in preview order, each file's pages in their own order |
| MergeProperties.OtherMessageRefused | docs/_app/immutable/assets/pdf-lib.worker.BNhH-Uyq.ts:184-200 | any type other than `merge` posts exactly one `Invalid message type` error and no progress |
| MergeProperties.PageFractionMonotone | docs/_app/immutable/assets/pdf-lib.worker.BNhH-Uyq.ts:133-135 | per-page values never go down as the page index grows |
| MergeProperties.ShareTimesCount | docs/_app/immutable/assets/pdf-lib.worker.BNhH-Uyq.ts:46-161 | v shares of 80/n are 80 · v / n, at most 80, and 80 exactly when v = n |
| PdfcpuWorker.Argv | src/lib/workers/pdfcpu.worker.ts:91-95 | the vector is the decrypt command on `/input.pdf` and `/output.pdf`, with `-upw` and the password inserted only for a truthy password |
| PdfcpuWorker.ArgvPasswordFlag | src/lib/workers/pdfcpu.worker.ts:91-95 | `-upw` is in the vector exactly when the password is truthy, and the password follows it |
| PdfcpuWorker.Classify | src/lib/workers/pdfcpu.worker.ts:99-146 | the password marker is read by whether a password was given: a wrong password is reported only for a truthy password, a missing one only for a falsy one (the full chain is `ClassifyDecisionTable`) |
| PdfcpuWorker.InitStep | src/lib/workers/pdfcpu.worker.ts:24-47 | `init` installs an empty filesystem and keeps the captured text; with a runtime it stores the module and sets `initialized` silently, without one it posts its error and changes neither |
| PdfcpuWorker.AfterBoot | src/lib/workers/pdfcpu.worker.ts:54-155 | after progress 10 a request ends with an error or a success, keeps the module and the flag, and only adds to the captured text |
| PdfcpuWorker.DecryptStep | src/lib/workers/pdfcpu.worker.ts:49-155 | a request opens with progress 0, ends with an error or a success, never drops captured text, and keeps an initialized worker's module |
| PdfcpuWorker.Pdfcpu.constructor | src/lib/workers/pdfcpu.worker.ts:16-20 | the worker starts with no filesystem, runtime or module, uninitialized, with nothing captured or posted |
| PdfcpuWorker.Pdfcpu.Init | src/lib/workers/pdfcpu.worker.ts:24-47 | called, as `decrypt` calls it, only on an uninitialized worker, it leaves the state and messages of `InitStep` |
| PdfcpuWorker.Pdfcpu.Decrypt | src/lib/workers/pdfcpu.worker.ts:49-155 | the new state and messages are those of `DecryptStep` |
| PdfcpuWorker.Pdfcpu.Begin | src/lib/workers/pdfcpu.worker.ts:50-52 | progress 0, `init` only while uninitialized, progress 10 |
| PdfcpuWorker.Pdfcpu.Run | src/lib/workers/pdfcpu.worker.ts:54-155 | the state and messages after progress 10 are those of `AfterBoot` |
| PdfcpuWorker.Pdfcpu.Execute | src/lib/workers/pdfcpu.worker.ts:85-154 | with the filesystem, runtime and module present, the staging, engine run, classification and cleanup leave the state and messages of `AfterBoot` |
| PdfcpuWorker.Pdfcpu.OnMessage | src/lib/workers/pdfcpu.worker.ts:157-173 | a `decrypt` request runs `decrypt`; any other type posts the invalid-type error |
| DecryptProperties.ClassifyDecisionTable | src/lib/workers/pdfcpu.worker.ts:99-146 | each failure description is chosen exactly when its marker is the first one found in the captured text, the password marker split by whether a password was given |
| DecryptProperties.DescriptionsDistinct | src/lib/workers/pdfcpu.worker.ts:105-141 | the five failure descriptions are pairwise distinct |
| DecryptProperties.InitialValid | src/lib/workers/pdfcpu.worker.ts:16-20 | the starting state is uninitialized and satisfies the invariant |
| DecryptProperties.InitOutcome | src/lib/workers/pdfcpu.worker.ts:24-47 | `init` installs an empty filesystem, sets `initialized` and stores the module exactly when the runtime exists, and posts its error exactly when it does not |
| DecryptProperties.DecryptKeepsValid | src/lib/workers/pdfcpu.worker.ts:20-51 | `initialized` is never set without the filesystem, runtime and module all present |
| DecryptProperties.InitializedSkipsInit | src/lib/workers/pdfcpu.worker.ts:51 | once initialized, a request does not depend on the `init` environment and keeps the cached module |
| DecryptProperties.ModuleCompiledOnce | src/lib/workers/pdfcpu.worker.ts:20-51 | the first request compiles the module and a later request reuses it |
| DecryptProperties.MissingStateCheckOrder | src/lib/workers/pdfcpu.worker.ts:54-83 | the filesystem, the runtime and the module are checked in that order; the first missing one ends the request with its own distinct error and the filesystem untouched |
| DecryptProperties.MissingRuntimeReported | src/lib/workers/pdfcpu.worker.ts:24-73 | from a valid state only the runtime can be missing, exactly when `init` took its `if (!go)` branch; taken as written, that branch leads to two errors, nothing staged, and a worker that stays uninitialized |
| DecryptProperties.EngineArguments | src/lib/workers/pdfcpu.worker.ts:91-96 | the runtime carries the argument vector built from the password, with `-upw` exactly for a truthy password |
| DecryptProperties.DecryptSucceeds | src/lib/workers/pdfcpu.worker.ts:50-154 | with an output present, the messages are progress 0, 10, 20, 30, 80, 90, 100 and the output's bytes; both staged files are gone and every other file is unchanged |
| DecryptProperties.EngineOutputPosted | src/lib/workers/pdfcpu.worker.ts:149-154 | the bytes the engine writes are the bytes of the success message |
| DecryptProperties.DecryptFails | src/lib/workers/pdfcpu.worker.ts:85-146 | with no output, the messages are progress 0, 10, 20, 30, 80 and one error classified from all text captured so far; `/input.pdf` stays staged |
| DecryptProperties.NotEncryptedSticks | src/lib/workers/pdfcpu.worker.ts:96-108 | once the captured text says the file is not encrypted, every later failed run is reported as not encrypted, given that `wasm_exec` never clears the capture |
| DecryptProperties.PrintedMarkerDecides | src/lib/workers/pdfcpu.worker.ts:96-108 | whatever was captured before, a failed run whose own output says the file is not encrypted is reported that way |
| DecryptProperties.ReportsThenTerminal | src/lib/workers/pdfcpu.worker.ts:50-154 | non-decreasing progress reports then one terminal message end exactly once |
| DecryptProperties.LaddersClimb | src/lib/workers/pdfcpu.worker.ts:50-153 | both milestone ladders are non-decreasing within 0..100 |
| DecryptProperties.SuccessEndsOnce | src/lib/workers/pdfcpu.worker.ts:147-154 | a successful run ends exactly once, with climbing progress |
| DecryptProperties.FailureEndsOnce | src/lib/workers/pdfcpu.worker.ts:99-146 | a failed run ends exactly once, with climbing progress |
| DecryptProperties.DecryptEndsOnce | src/lib/workers/pdfcpu.worker.ts:49-155 | whenever the runtime is available and the awaited calls return, a request posts exactly one terminal message, last, after progress that never goes down |
| DecryptProperties.OtherMessageRefused | src/lib/workers/pdfcpu.worker.ts:157-173 | any type other than `decrypt` posts exactly the invalid-type error and changes nothing |

## Left out

- pdf-lib itself (embedding, loading, `copyPages`, `drawImage`, `page.scale`, `save`) is replaced by each file's given outcome, a page list of (width, height) pairs and the function `save`.
- The Go runtime bridge, the pdfcpu WebAssembly binary, `fetch`, `WebAssembly.instantiateStreaming` and `WebAssembly.instantiate` are foreign code. The engine run is a function parameter, and `init`'s environment is a parameter. The fresh module instance made for each run is not modelled. `wasm_exec` (the source of `Go`, `initGo` and `stdout_stderr`) is not part of this model.
- BrowserFS configuration and `Buffer` are replaced by a map from paths to bytes. An engine run may add `/output.pdf` to it, but no other change by the engine is modelled.
- `Blob` construction, `arrayBuffer()`, the `postMessage` transport and `console.error` are I/O. The event sequence and the byte payloads stand in for them.
- Floating point: `convertUnit`, the image aspect ratios and the progress shares are computed over exact reals, so rounding is not modelled.
- Images with a zero dimension are excluded by their type: a decoded PNG or JPEG has a positive pixel size. PDF pages of any finite size are modelled, zero and negative sides included; a page that is rescaled while its anchor dimension is zero gets the size `NonFinite`, which stands for JavaScript's infinite or NaN result without telling them apart.
- Text.IntToString: indices are rendered as plain decimal digits, which matches the template literal only for magnitudes below 1e21 (JavaScript writes `1e+21` and above in exponent form); ids beyond 2^53, which JavaScript cannot hold exactly, are not modelled either.
- `parseInt` on a non-numeric id yields NaN, which passes the range check and then fails at `file.arrayBuffer()`. Ids are modelled as already-parsed integers.
- A failure part-way through copying a PDF's pages is not modelled: a PDF either loads with all its pages or fails before any are added.
- Non-`Error` exceptions from a PDF load take the unknown-error description. They are not separated from load errors whose message lacks `is encrypted`.
- A file outcome whose kind does not match its MIME type (say, a PNG that "loads" as a PDF) is treated as a failure of the expected kind.
- Unhandled promise rejections: a failing BrowserFS configuration, a `new Go()` that throws, or a failing module compilation inside `init` rejects `decrypt` after progress 0 and posts nothing more. This path is not modelled.
- Other awaited calls outside any `try` are taken to return: in the merge worker `PDFDocument.create()`, `file.arrayBuffer()` and `mergedPDF.save()`; in the decrypt worker `file.arrayBuffer()`, `writeFileSync`, `WebAssembly.instantiate`, `go.run`, `readFileSync` and `unlinkSync`. `onmessage` does not await `mergePdf` or `decrypt`, so a rejection of any of these ends the request with no terminal message at all. `MergeEndsOnce` and `DecryptEndsOnce` hold only because `save`, the engine and the file bytes are given as total inputs.
- Asynchrony and concurrent requests: every `await` is a sequential step, and one request finishes before the next starts.
- The scale type, the anchor dimension and the unit are enumerations of the values the dialog offers. Any scale type other than `all` behaves as no scaling and any dimension other than `width` as height, as the source's `else` branches do. An unknown unit, which would make `convertUnit` return NaN, cannot be expressed.
