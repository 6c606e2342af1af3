/** The conversion in the browser (script.js:9-125). The page checks that
    a file was chosen, then drives one FFmpeg.wasm instance through its
    virtual file system: write the input, run the encoder, read the output,
    unlink both. Every failure inside is turned into one fixed message, and
    the page reports success or failure without throwing.

    The WebAssembly encoder, its loader and the reading of the chosen
    file's bytes are outside the model: whether each succeeds, and what the
    encoder writes, are inputs (an `Environment`). */
module BrowserPipeline {
  import opened Wrappers
  import opened BrowserNames

  newtype byte = x: int | 0 <= x < 256

  /** Thrown before anything else when the FFmpeg global is missing (script.js:61). */
  const NotLoadedMessage: string :=
    "FFmpeg.wasm is not loaded. Please check your internet connection and try again."

  /** What every failure during loading, writing, running or reading becomes (script.js:124). */
  const ProcessingFailedMessage: string :=
    "Video processing failed. Please try a different file or check your browser compatibility."

  /** A chosen file: its name and its bytes. */
  datatype File = File(name: string, content: seq<byte>)

  /** How `ffmpeg.run(...)` turns out: its promise rejects, or the encoder
      exits, having written its output file or not. */
  datatype RunOutcome = Rejected | Exited(written: Option<seq<byte>>)

  /** The page's surroundings: whether the FFmpeg global is defined, whether
      `load()`, `fetchFile(file)` and the write into the virtual file system
      succeed, and how the run ends. */
  datatype Environment = Environment(ffmpegDefined: bool, loadOk: bool, fetchOk: bool, writeOk: bool, run: RunOutcome)

  /** A call made on the FFmpeg.wasm instance. */
  datatype Call = Load | WriteFile(name: string) | Run(args: seq<string>) | ReadFile(name: string) | Unlink(name: string)

  /** What the page offers for download: the output bytes (behind an
      object URL) and the download name. */
  datatype Download = Download(data: seq<byte>, fileName: string)

  datatype StartOutcome = NoFileChosen | Finished(ok: bool, download: Option<Download>)

  /** One FFmpeg.wasm instance as `createFFmpeg` returns it: whether it is
      loaded, its virtual file system, and the calls made on it so far. */
  class WasmEncoder {
    var loaded: bool
    var files: map<string, seq<byte>>
    var calls: seq<Call>

    /** `createFFmpeg({...})`: a fresh instance with an empty file system. */
    constructor ()
      ensures !loaded && files == map[] && calls == []
    {
      loaded := false;
      files := map[];
      calls := [];
    }

    /** `await ffmpeg.load()`, which succeeds when `ok`. */
    method Load(ok: bool) returns (success: bool)
      modifies this
      ensures success == ok && loaded == ok
      ensures files == old(files) && calls == old(calls) + [Call.Load]
    {
      calls := calls + [Call.Load];
      loaded := ok;
      success := ok;
    }

    /** `ffmpeg.FS('writeFile', name, data)`, which succeeds when `ok`;
        when it throws, no file is written. */
    method WriteFile(name: string, data: seq<byte>, ok: bool) returns (success: bool)
      requires loaded
      modifies this
      ensures success == ok
      ensures loaded && files == if ok then old(files)[name := data] else old(files)
      ensures calls == old(calls) + [Call.WriteFile(name)]
    {
      calls := calls + [Call.WriteFile(name)];
      if ok {
        files := files[name := data];
      }
      success := ok;
    }

    /** `await ffmpeg.run(...args)`: the encoder writes its output, if it
        produces any, to the file named by the last argument. */
    method RunEncoder(args: seq<string>, outcome: RunOutcome) returns (ok: bool)
      requires loaded
      modifies this
      ensures ok == outcome.Exited?
      ensures loaded && calls == old(calls) + [Call.Run(args)]
      ensures files == if outcome.Exited? && outcome.written.Some? && |args| > 0
                       then old(files)[args[|args| - 1] := outcome.written.value]
                       else old(files)
    {
      calls := calls + [Call.Run(args)];
      if outcome.Exited? && outcome.written.Some? && |args| > 0 {
        files := files[args[|args| - 1] := outcome.written.value];
      }
      ok := outcome.Exited?;
    }

    /** `ffmpeg.FS('readFile', name)`, which throws when there is no such file. */
    method ReadFile(name: string) returns (data: Option<seq<byte>>)
      requires loaded
      modifies this
      ensures data == if name in old(files) then Some(old(files)[name]) else None
      ensures loaded && files == old(files) && calls == old(calls) + [Call.ReadFile(name)]
    {
      calls := calls + [Call.ReadFile(name)];
      data := if name in files then Some(files[name]) else None;
    }

    /** `ffmpeg.FS('unlink', name)`, which throws when there is no such file. */
    method Unlink(name: string) returns (ok: bool)
      requires loaded
      modifies this
      ensures ok == (name in old(files))
      ensures loaded && files == old(files) - {name} && calls == old(calls) + [Call.Unlink(name)]
    {
      calls := calls + [Call.Unlink(name)];
      ok := name in files;
      files := files - {name};
    }
  }

  // ------------------------------------------------------------------
  // what a conversion should do
  // ------------------------------------------------------------------

  /** The result of `convertWithFFmpegWasm`: the bytes the encoder wrote,
      when every step succeeds; the missing-global message when FFmpeg is
      not defined; the processing message for every other failure. */
  function Conversion(file: File, env: Environment): Result<seq<byte>, string>
  {
    if !env.ffmpegDefined then Failure(NotLoadedMessage)
    else if env.loadOk && env.fetchOk && env.writeOk && env.run.Exited? && env.run.written.Some? then
      Success(env.run.written.value)
    else Failure(ProcessingFailedMessage)
  }

  /** The calls a conversion makes on its instance: load, write the input,
      run, read the output, unlink the input and the output, stopping at
      the first failure. */
  function ExpectedCalls(file: File, bitrate: string, env: Environment): seq<Call>
  {
    var input := InputName(file.name);
    var args := EncoderArgs(input, bitrate, OutputName);
    if !env.ffmpegDefined then []
    else if !env.loadOk || !env.fetchOk then [Call.Load]
    else if !env.writeOk then [Call.Load, Call.WriteFile(input)]
    else if env.run.Rejected? then [Call.Load, Call.WriteFile(input), Call.Run(args)]
    else if env.run.written.None? then
      [Call.Load, Call.WriteFile(input), Call.Run(args), Call.ReadFile(OutputName)]
    else
      [Call.Load, Call.WriteFile(input), Call.Run(args), Call.ReadFile(OutputName),
       Call.Unlink(input), Call.Unlink(OutputName)]
  }

  /** What is left in the instance's file system afterwards: nothing after
      a success or a failed write, the input after a failed run or a
      failed read. */
  function Leftover(file: File, env: Environment): map<string, seq<byte>>
  {
    if env.ffmpegDefined && env.loadOk && env.fetchOk && env.writeOk && !Conversion(file, env).Success? then
      map[InputName(file.name) := file.content]
    else map[]
  }

  // ------------------------------------------------------------------
  // the page's code
  // ------------------------------------------------------------------

  /** `convertWithFFmpegWasm(file, bitrate)` (script.js:58-126). The
      object URL it returns is modelled by the bytes behind it. Also
      returned: the calls made on the instance and the files left in it. */
  method ConvertWithWasm(file: File, bitrate: string, env: Environment)
    returns (r: Result<seq<byte>, string>, calls: seq<Call>, left: map<string, seq<byte>>)
    ensures r == Conversion(file, env)
    ensures calls == ExpectedCalls(file, bitrate, env)
    ensures left == Leftover(file, env)
  {
    if !env.ffmpegDefined {
      return Failure(NotLoadedMessage), [], map[];
    }
    var ffmpeg := new WasmEncoder();
    var loaded := ffmpeg.Load(env.loadOk);
    if !loaded {
      return Failure(ProcessingFailedMessage), ffmpeg.calls, ffmpeg.files;
    }
    var inputName := InputName(file.name);
    var outputName := OutputName;
    InputNameIsNotOutputName(file.name);
    if !env.fetchOk {
      return Failure(ProcessingFailedMessage), ffmpeg.calls, ffmpeg.files;
    }
    var written := ffmpeg.WriteFile(inputName, file.content, env.writeOk);
    if !written {
      return Failure(ProcessingFailedMessage), ffmpeg.calls, ffmpeg.files;
    }
    var ran := ffmpeg.RunEncoder(EncoderArgs(inputName, bitrate, outputName), env.run);
    if !ran {
      return Failure(ProcessingFailedMessage), ffmpeg.calls, ffmpeg.files;
    }
    var data := ffmpeg.ReadFile(outputName);
    if data.None? {
      return Failure(ProcessingFailedMessage), ffmpeg.calls, ffmpeg.files;
    }
    // A failure while cleaning up is only logged: the second unlink is
    // skipped and the result stands.
    var removedInput := ffmpeg.Unlink(inputName);
    if removedInput {
      var removedOutput := ffmpeg.Unlink(outputName);
    }
    return Success(data.value), ffmpeg.calls, ffmpeg.files;
  }

  /** `realConversion(file, bitrate)` (script.js:24-56): never throws;
      reports whether the conversion succeeded and, if so, offers the
      output under the download name. */
  method RealConversion(file: File, bitrate: string, env: Environment)
    returns (ok: bool, download: Option<Download>)
    ensures ok == Conversion(file, env).Success?
    ensures ok ==> download == Some(Download(Conversion(file, env).value, DownloadName(file.name)))
    ensures !ok ==> download.None?
  {
    var r, _, _ := ConvertWithWasm(file, bitrate, env);
    if r.Failure? {
      return false, None;
    }
    return true, Some(Download(r.value, DownloadName(file.name)));
  }

  /** `startConversion()` (script.js:9-22): with no file chosen nothing is
      converted; otherwise the first chosen file is converted. */
  method StartConversion(chosen: seq<File>, bitrate: string, env: Environment)
    returns (outcome: StartOutcome)
    ensures |chosen| == 0 <==> outcome == NoFileChosen
    ensures |chosen| > 0 ==> outcome.ok == Conversion(chosen[0], env).Success?
    ensures |chosen| > 0 && outcome.ok ==>
      outcome.download == Some(Download(Conversion(chosen[0], env).value, DownloadName(chosen[0].name)))
    ensures |chosen| > 0 && !outcome.ok ==> outcome.download.None?
  {
    if |chosen| == 0 {
      return NoFileChosen;
    }
    var ok, download := RealConversion(chosen[0], bitrate, env);
    return Finished(ok, download);
  }

  // ------------------------------------------------------------------
  // properties of a conversion
  // ------------------------------------------------------------------

  /** Every failure is one of two fixed messages: the missing-global one
      exactly when FFmpeg is not defined, the processing one otherwise. */
  lemma FailuresHaveFixedMessages(file: File, env: Environment)
    ensures Conversion(file, env).Failure? ==>
      Conversion(file, env).error == (if env.ffmpegDefined then ProcessingFailedMessage else NotLoadedMessage)
    ensures forall bytes :: Conversion(file, env) == Success(bytes) <==>
      env.ffmpegDefined && env.loadOk && env.fetchOk && env.writeOk && env.run == Exited(Some(bytes))
  {
  }

  /** A missing FFmpeg global fails before any call on an instance. */
  lemma MissingGlobalMakesNoCalls(file: File, bitrate: string, env: Environment)
    requires !env.ffmpegDefined
    ensures ExpectedCalls(file, bitrate, env) == []
    ensures Conversion(file, env) == Failure(NotLoadedMessage)
  {
  }

  /** A write into the virtual file system that throws ends the
      conversion with the processing message before the encoder runs, and
      leaves no file behind. */
  lemma FailedWriteStopsBeforeRun(file: File, bitrate: string, env: Environment)
    requires env.ffmpegDefined && env.loadOk && env.fetchOk && !env.writeOk
    ensures ExpectedCalls(file, bitrate, env) == [Call.Load, Call.WriteFile(InputName(file.name))]
    ensures Conversion(file, env) == Failure(ProcessingFailedMessage)
    ensures Leftover(file, env) == map[]
  {
  }

  /** The name the encoder is told to write is the one read back and
      unlinked, always `output.mp4`; the input it is told to read is the
      one written and later unlinked. */
  lemma OutputNameIsConsistent(file: File, bitrate: string, env: Environment)
    ensures forall c | c in ExpectedCalls(file, bitrate, env) && c.Run? ::
      |c.args| == 15 && c.args[14] == OutputName && c.args[1] == InputName(file.name)
    ensures forall c | c in ExpectedCalls(file, bitrate, env) && c.ReadFile? :: c.name == OutputName
    ensures forall c | c in ExpectedCalls(file, bitrate, env) && c.WriteFile? :: c.name == InputName(file.name)
    ensures forall c | c in ExpectedCalls(file, bitrate, env) && c.Unlink? ::
      c.name == InputName(file.name) || c.name == OutputName
  {
  }

  /** Cleanup happens only after a successful read, and then both files
      are unlinked, the input first; nothing is left behind. */
  lemma CleanupOnlyAfterSuccessfulRead(file: File, bitrate: string, env: Environment)
    ensures var calls := ExpectedCalls(file, bitrate, env);
      (exists c | c in calls :: c.Unlink?) <==> Conversion(file, env).Success?
    ensures Conversion(file, env).Success? ==>
      var calls := ExpectedCalls(file, bitrate, env);
      && calls[3] == Call.ReadFile(OutputName)
      && calls[4..] == [Call.Unlink(InputName(file.name)), Call.Unlink(OutputName)]
      && Leftover(file, env) == map[]
  {
    var calls := ExpectedCalls(file, bitrate, env);
    if Conversion(file, env).Success? {
      assert calls[4].Unlink?;
    }
  }
}
