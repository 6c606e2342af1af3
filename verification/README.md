# MP4 Maker — a Dafny model

MP4 Maker converts an uploaded video to MP4 in two ways. The browser page
(`script.js`) runs FFmpeg.wasm on the chosen file. The Express server
(`server.js`) takes an upload on `/convert`, runs FFmpeg on it and streams
the result back. A launcher (`start.js`) starts the server, watches its
output and opens the page once the server reports it is running.

This project models the logic around the encoder. The encoder itself is
not modelled. The model covers:

- the names each side derives: the download name, the virtual input and
  output names and the encoder's argument list in the browser; the
  bitrate default, the `path.parse(...).name` output name and the output
  path on the server;
- the browser pipeline over an FFmpeg.wasm instance's virtual file
  system, with its error mapping;
- the `/convert` handler as a state machine over one request: status,
  headers, body, encoder job, unlink calls and the files left on disk;
- the launcher's `isBrowserOpened` flag and its exit-code classification.

Files:

- `wrappers.dfy`: `Option` and `Result`.
- `text.dfy`: the string operations the code relies on, each with its
  characterisation: `split(...).pop()`, `includes` and `toLowerCase` as
  the scripts call them, and the last-dot scan inside Node's `path.parse`
  (`LastIndexOf`). The scripts never call `join`; `Join` is there as the
  inverse of `split`, to pin `split` down.
- `browser_names.dfy`: the names and arguments derived in `script.js`.
- `browser_pipeline.dfy`: `startConversion`, `realConversion` and
  `convertWithFFmpegWasm`. A `WasmEncoder` class holds the loaded flag,
  the virtual file system and the log of calls.
- `server_names.dfy`: the bitrate default, `path.parse(...).name` (POSIX)
  and the output path.
- `server_handler.dfy`: the `/convert` handler. `Exchange` has one method
  per callback. `Expected` is the reference outcome of a whole request,
  and `Serve` drives an `Exchange` and is proved equal to it.
- `launcher.dfy`: the launcher's event handling and `close` report.

The encoder, the file fetch, the loader, multer and the read stream are
opaque. Whether each succeeds, what the encoder writes, which unlinks fail
and which callbacks fire are all parameters of the model.

## Model

| member | source | states |
|---|---|---|
| Text.Split | script.js:87 | `split` never yields an empty list |
| Text.SplitPiecesHaveNoSeparator | script.js:87 | no piece of `split(sep)` contains `sep` |
| Text.JoinSplit | script.js:87 | joining the pieces of `split(sep)` with `sep` gives back the string |
| Text.SplitJoin | script.js:87 | splitting a join of separator-free pieces gives back the pieces |
| Text.LastSegmentSpec | script.js:87 | `split(sep).pop()` is the text after the last `sep`; it is the whole string exactly when there is no `sep` |
| Text.LastIndexOf | server.js:35 | the last-dot scan of `path.parse`: -1 or an index holding the character, with none after it |
| Text.LastSegmentAfterLastIndex | script.js:87 | `split(c).pop()` starts right after the last `c` |
| Text.IncludesSpec | start.js:29 | `includes` holds exactly when the text occurs at some position |
| Text.ToLower | script.js:87 | `toLowerCase` keeps the length, maps each character on its own and leaves no ASCII capital |
| BrowserNames.MatchFrom | script.js:39 | the regex search returns the leftmost position where `\.[^/.]+$` matches, or none when no position matches |
| BrowserNames.DownloadName | script.js:39 | a trailing dot plus one or more characters other than `.` and `/` becomes `.mp4`; a name without one gets `.mp4` appended |
| BrowserNames.ExtensionAtLastDot | script.js:39 | the pattern matches at `i` exactly when `i` is the last dot, something follows it and no `/` follows it |
| BrowserNames.DownloadNameEndsInMp4 | script.js:39 | every download name ends in `.mp4` |
| BrowserNames.DownloadNameExamples | script.js:39 | `clip.MOV`, `archive.tar.gz`, `video`, `a.`, `.bashrc` and `dir.v/clip` give `clip.mp4`, `archive.tar.mp4`, `video.mp4`, `a..mp4`, `.mp4` and `dir.v/clip.mp4` |
| BrowserNames.InputNameSpec | script.js:87-88 | the input name is `input.` plus the lower-cased text after the last dot, or the lower-cased whole name when there is no dot; that text is the input name's own last segment |
| BrowserNames.InputNameIsNotOutputName | script.js:88-89 | the virtual input name never equals `output.mp4`, so writing the input cannot clobber the output |
| BrowserNames.InputNameLowerCasesExtension | script.js:87-88 | `Clip.MOV` gives `input.mov` |
| BrowserNames.InputNameTakesLastDot | script.js:87-88 | `archive.tar.GZ` gives `input.gz` |
| BrowserNames.InputNameWithoutDot | script.js:87-88 | `video` gives `input.video` |
| BrowserNames.InputNameTrailingDot | script.js:87-88 | `a.` gives `input.` |
| BrowserNames.EncoderArgs | script.js:95-104 | fifteen words: the option pairs `-i` input, `-c:v libx264`, `-preset fast`, `-crf 22`, `-c:a aac`, `-b:a` bitrate+`k`, `-movflags +faststart`, then the output name last |
| BrowserPipeline.WasmEncoder.constructor | script.js:69-79 | a new instance is unloaded, with an empty file system and no calls |
| BrowserPipeline.WasmEncoder.Load | script.js:83 | loading succeeds or fails as given and changes no file |
| BrowserPipeline.WasmEncoder.WriteFile | script.js:92 | on success the named file holds the data; when the write throws no file changes; the call is logged either way |
| BrowserPipeline.WasmEncoder.RunEncoder | script.js:95-104 | a run that exits may write the file named by the last argument; a rejected run changes no file |
| BrowserPipeline.WasmEncoder.ReadFile | script.js:107 | reading returns the file's bytes, or nothing (the throw) when it is absent |
| BrowserPipeline.WasmEncoder.Unlink | script.js:115-116 | the file is removed; the call fails (throws) exactly when it was absent |
| BrowserPipeline.ConvertWithWasm | script.js:58-126 | the result, the calls made and the files left equal `Conversion`, `ExpectedCalls` and `Leftover`: load, write, run, read, unlink both, stopping at the first failure |
| BrowserPipeline.RealConversion | script.js:24-56 | reports success exactly when the conversion succeeds, and then offers the encoder's bytes under `DownloadName` of the file name; never fails itself |
| BrowserPipeline.StartConversion | script.js:9-22 | with no file chosen nothing is converted; otherwise the first file is, with the same outcome: a download under `DownloadName` on success and none on failure |
| BrowserPipeline.FailuresHaveFixedMessages | script.js:60-124 | a failure carries the missing-global message exactly when FFmpeg is undefined and the processing message otherwise; success means every step succeeded and the result is the bytes the encoder wrote |
| BrowserPipeline.FailedWriteStopsBeforeRun | script.js:92 | a write that throws ends the conversion with the processing message before the run, with no file left behind |
| BrowserPipeline.MissingGlobalMakesNoCalls | script.js:60-62 | an undefined FFmpeg global fails before any call on an instance |
| BrowserPipeline.OutputNameIsConsistent | script.js:87-116 | the run writes `output.mp4` from the input name that was written; every read is of `output.mp4`; only those two names are unlinked |
| BrowserPipeline.CleanupOnlyAfterSuccessfulRead | script.js:107-119 | unlinks happen exactly on success, after the read, input first then output, and leave the file system empty |
| ServerNames.ResolveBitrate | server.js:34 | the bitrate field when present and non-empty, `"30"` otherwise; never empty |
| ServerNames.TrimTrailingSlashes | server.js:35 | the path without its trailing `/` characters, which are all that was removed |
| ServerNames.ParsedNameSpec | server.js:35 | the parsed name is a prefix of the base name and contains no `/` |
| ServerNames.ParsedNameOfPlainBase | server.js:35 | for a name without `/`, the base is the name, and the parsed name drops the text from the last dot unless that dot is first or the name is `..` |
| ServerNames.ParsedNameDropsLastExtension | server.js:35 | `stem.ext` parses to `stem` when `ext` has no dot |
| ServerNames.ParsedNameHiddenFile | server.js:35 | a name starting with its only dot parses to itself |
| ServerNames.ParsedNameDropsDirectories | server.js:35 | directories are dropped: `dir/base` parses like `base` |
| ServerNames.OutputPathInUploadsDir | server.js:35-37 | the output file name is one plain component ending in `.mp4`, so the output path lies directly inside the uploads directory whatever the uploaded name |
| ServerNames.BrowserAndServerNamesAgree | server.js:35-36 | the browser's download name (script.js:39) equals the server's output name for a name without `/` that has no dot, or whose last dot is neither first nor last |
| ServerNames.BrowserAndServerNamesDiffer | server.js:35-36 | the two disagree on hidden files (`.mp4` against `.x.mp4`) and on a trailing dot (`a..mp4` against `a.mp4`) |
| ConvertHandler.Exchange.constructor | server.js:28 | a request starts with nothing sent, no job, and only the staged upload on disk |
| ConvertHandler.Exchange.Unlink | server.js:57 | the unlink call is recorded; the file goes unless its removal fails; the response is untouched |
| ConvertHandler.Exchange.Handle | server.js:29-48 | no file gives 400 `No file uploaded.` and no job; otherwise the encoder job gets the staged input, the derived output path and the resolved bitrate, with nothing sent yet |
| ConvertHandler.Exchange.OnEncoderError | server.js:55-59 | 500 `Conversion failed.`, only the staged input unlinked, a partial output left on disk |
| ConvertHandler.Exchange.OnEncoderEnd | server.js:60-70 | the MP4 headers are set and the output path is piped as the body; nothing is unlinked |
| ConvertHandler.Exchange.OnStreamEnd | server.js:72-75 | the input, then the output, is unlinked; the response is unchanged |
| ConvertHandler.Serve | server.js:28-78 | a request driven through the handler and its callbacks ends exactly as `Expected` says |
| ConvertHandler.NoUploadIsRejected | server.js:29-31 | no upload gives 400 `No file uploaded.`, no encoder job and no unlink |
| ConvertHandler.ExactlyOneResponse | server.js:29-75 | every request gets exactly one response: 400, 500 or a 200 stream |
| ConvertHandler.EncoderInvocation | server.js:33-48 | the job's input is the staged path, its output is derived from the original name only, and its video bitrate defaults to `"30"` |
| ConvertHandler.EncoderErrorCleansInputOnly | server.js:55-59 | on an encoder error the answer is 500 with no headers set by the handler; only the input is unlinked; a partial output stays |
| ConvertHandler.SuccessUnlinksOnlyAfterStreamEnd | server.js:60-75 | on success the MP4 headers and the stream are sent; input and output are unlinked, in that order, only when the stream ends; otherwise both stay on disk |
| ConvertHandler.CleanupErrorsDoNotChangeResponse | server.js:57-74 | which unlinks fail never changes status, headers, body, response count or the unlink calls |
| ConvertHandler.InputUnlinkedAtMostOnce | server.js:57-74 | the staged input is unlinked once on error or stream end, and never otherwise |
| StartScript.Launcher.constructor | start.js:13 | the flag starts down, with no launch |
| StartScript.Launcher.Handle | start.js:24-50 | a stdout chunk holding the whole ready message raises the flag and opens the page if the flag was down; stderr data and spawn errors (the `error` handler, start.js:66-69) change nothing |
| StartScript.Launcher.OnClose | start.js:54-62 | a non-zero or null code before the page opened is "failed to start"; after it, "stopped unexpectedly"; code 0 is "stopped" |
| StartScript.LaunchedOnceIffOpened | start.js:29-34 | the page is opened once if the flag is up and never otherwise, however many chunks announce the server |
| StartScript.OpenedIffSomeChunkAnnounces | start.js:24-30 | the flag is up exactly when some single stdout chunk held the whole ready message |
| StartScript.OpenedStaysOpened | start.js:13-30 | once up, the flag never comes down, whatever events follow |
| StartScript.SplitMessageNotDetected | start.js:25-29 | the ready message split over two chunks does not raise the flag |
| StartScript.ServerReadyLineAnnounces | server.js:82 | the line the server logs when it listens holds the ready message, whatever the port |

## Behaviour of the code worth knowing

The server handler (server.js:28-78) behaves as follows, and the model
does the same:

- The server's only failure outcome is the encoder's `error` event. There
  is no "missing output" outcome and no check that the output exists
  before it is streamed.
- The bitrate is passed to the server's encoder as the video bitrate.
- The failure answer is the fixed text `Conversion failed.`, with no
  diagnostic text.
- A partial output left behind by a failed run is not removed.
- No cleanup happens when the read stream fails or never ends.

## Left out

- Text.ToLower: only ASCII letters are lower-cased. JavaScript's full Unicode case mapping is not modelled.
- ServerNames.ParsedName: POSIX separators only. The root quirk of `path.parse` on a path such as `/..` is not modelled.
- ServerNames.OutputPath: joins with a single `/`, assuming the uploads directory is already normalised, as `path.join(__dirname, 'uploads')` makes it.
- The encoder itself, on both sides. The browser model has `RunOutcome`; the server model has `EncoderOutcome`.
- `createFFmpeg` options, the core URL and logging. Creating an instance is assumed not to fail.
- `fetchFile`, `Blob` and `URL.createObjectURL`. A fetch is success or failure plus bytes, and the object URL is modelled by the bytes behind it.
- Progress reporting on both sides (floating-point percentages, logging only).
- DOM updates, `alert` and `showLoading`, including the status text `Conversion failed: ` plus the message.
- BrowserPipeline.ConvertWithWasm: the input unlink always succeeds, because the input was written just before. The model keeps the branch where it throws and the output unlink is skipped, but that branch is never taken.
- Express, multer and cors setup, creating the uploads directory, and `app.listen`. The names multer gives staged files are inputs.
- The headers Express and `cors()` add to a response themselves (`Content-Type`, `Content-Length` and `ETag` from `send`, `Access-Control-Allow-Origin` from `cors()`). The model's headers are only those the handler sets.
- A repeated `bitrate` form field, which would arrive as an array.
- The byte streaming itself, the stream's `error` event, and the interleaving of concurrent requests. Two concurrent uploads with the same original name share an output path, but cross-request behaviour is not modelled.
- Console output, the encoder's `start` and `progress` events, and the error-only logging in the cleanup callbacks.
- `spawn`, the dynamic `import('open')` and its failure handling, and the launcher's console output.
