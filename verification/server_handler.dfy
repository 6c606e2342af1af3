/** The `/convert` request handler (server.js:28-78) as a state machine.

    One `Exchange` object is one request: what multer staged, the response
    being built (status, headers, body), the encoder invocation, the files
    of this request still on disk and the unlink calls the handler has
    issued. Its methods are the handler's body and the callbacks it
    registers with the encoder and with the read stream. The encoder and
    the stream themselves are outside the model: which callback fires, and
    whether an unlink fails, are inputs. */
module ConvertHandler {
  import opened Wrappers
  import opened ServerNames

  const NoFileMessage: string := "No file uploaded."
  const FailureMessage: string := "Conversion failed."

  /** `req.file` as multer hands it over: where the upload was staged and
      the file name the client sent. */
  datatype Upload = Upload(path: string, originalName: string)

  /** How the encoder run ends: its `error` event (it may have left a
      partial output file behind) or its `end` event. */
  datatype EncoderOutcome = EncoderError(leftOutput: bool) | EncoderEnd

  datatype Body = NoBody | Text(message: string) | FileStream(path: string)

  /** The encoder invocation `ffmpeg(input).output(output).videoBitrate(b)`. */
  datatype Job = Job(input: string, output: string, videoBitrate: string)

  datatype Stage = Received | Rejected | Encoding | EncodeFailed | Streaming | CleanedUp

  /** The two headers set before the file is piped (server.js:64-65). */
  function Mp4Headers(outputFileName: string): seq<(string, string)>
  {
    [ ("Content-Type", "video/mp4"),
      ("Content-Disposition", "attachment; filename=\"" + outputFileName + "\"") ]
  }

  /** What one request ends with. */
  datatype Final = Final(
    status: int,
    headers: seq<(string, string)>,
    body: Body,
    responses: nat,
    job: Option<Job>,
    unlinked: seq<string>,
    onDisk: set<string>)

  class Exchange {
    const uploadsDir: string
    const upload: Option<Upload>
    /** Paths whose removal fails; the failure is only logged. */
    const failingUnlinks: set<string>

    var stage: Stage
    var status: int
    var headers: seq<(string, string)>
    var body: Body
    /** Responses sent: `send` calls and pipes started. */
    var responses: nat
    var job: Option<Job>
    var outputFileName: string
    var outputPath: string
    var onDisk: set<string>
    /** The paths passed to `fs.unlink`, in order. */
    var unlinked: seq<string>

    /** What each stage of the handler has done so far. */
    ghost predicate Valid()
      reads this
    {
      && (stage == Received ==>
            && responses == 0 && status == 200 && job.None? && headers == [] && body == NoBody
            && unlinked == [])
      && (stage == Rejected ==>
            && upload.None? && responses == 1 && status == 400 && body == Text(NoFileMessage)
            && job.None? && headers == [] && unlinked == [])
      && (stage != Received && stage != Rejected ==>
            && upload.Some?
            && outputFileName == OutputFileName(upload.value.originalName)
            && outputPath == OutputPath(uploadsDir, upload.value.originalName)
            && job.Some? && job.value.input == upload.value.path && job.value.output == outputPath)
      && (stage == Encoding ==>
            responses == 0 && status == 200 && headers == [] && body == NoBody && unlinked == [])
      && (stage == EncodeFailed ==>
            && responses == 1 && status == 500 && body == Text(FailureMessage) && headers == []
            && unlinked == [upload.value.path])
      && (stage == Streaming ==>
            && responses == 1 && status == 200 && headers == Mp4Headers(outputFileName)
            && body == FileStream(outputPath) && unlinked == [])
      && (stage == CleanedUp ==>
            && responses == 1 && status == 200 && headers == Mp4Headers(outputFileName)
            && body == FileStream(outputPath) && unlinked == [upload.value.path, outputPath])
    }

    /** The state of the request as a value. */
    function Snapshot(): Final
      reads this
    {
      Final(status, headers, body, responses, job, unlinked, onDisk)
    }

    /** A request arrives after multer has staged its file, if any. */
    constructor (uploadsDir: string, upload: Option<Upload>, failingUnlinks: set<string>)
      ensures Valid() && stage == Received
      ensures this.uploadsDir == uploadsDir && this.upload == upload
      ensures this.failingUnlinks == failingUnlinks
      ensures status == 200 && headers == [] && body == NoBody && responses == 0
      ensures job.None? && unlinked == []
      ensures onDisk == if upload.Some? then {upload.value.path} else {}
    {
      this.uploadsDir := uploadsDir;
      this.upload := upload;
      this.failingUnlinks := failingUnlinks;
      stage := Received;
      status := 200;
      headers := [];
      body := NoBody;
      responses := 0;
      job := None;
      outputFileName := "";
      outputPath := "";
      onDisk := if upload.Some? then {upload.value.path} else {};
      unlinked := [];
    }

    /** `fs.unlink(path, callback)`: the call is recorded; the file goes
        unless its removal fails, which the callback only logs. */
    method Unlink(path: string)
      modifies this
      ensures unlinked == old(unlinked) + [path]
      ensures onDisk == if path in failingUnlinks then old(onDisk) else old(onDisk) - {path}
      ensures stage == old(stage) && status == old(status) && headers == old(headers)
      ensures body == old(body) && responses == old(responses) && job == old(job)
      ensures outputFileName == old(outputFileName) && outputPath == old(outputPath)
    {
      unlinked := unlinked + [path];
      if path !in failingUnlinks {
        onDisk := onDisk - {path};
      }
    }

    /** The handler body (server.js:29-48, 77): with no file it answers 400
        at once and starts nothing; otherwise it derives the bitrate and
        the output path and starts the encoder. */
    method Handle(bitrateField: Option<string>)
      requires Valid() && stage == Received
      modifies this
      ensures Valid()
      ensures upload.None? ==>
        && stage == Rejected && status == 400 && body == Text(NoFileMessage)
        && responses == 1 && job.None?
      ensures upload.Some? ==>
        && stage == Encoding && status == old(status) && responses == 0
        && job == Some(Job(upload.value.path,
                           OutputPath(uploadsDir, upload.value.originalName),
                           ResolveBitrate(bitrateField)))
      ensures headers == old(headers) && onDisk == old(onDisk) && unlinked == old(unlinked)
    {
      if upload.None? {
        status := 400;
        body := Text(NoFileMessage);
        responses := responses + 1;
        stage := Rejected;
        return;
      }
      var inputFile := upload.value;
      var bitrate := ResolveBitrate(bitrateField);
      outputFileName := OutputFileName(inputFile.originalName);
      outputPath := uploadsDir + "/" + outputFileName;
      job := Some(Job(inputFile.path, outputPath, bitrate));
      stage := Encoding;
    }

    /** The encoder's `error` callback (server.js:55-59): only the staged
        input is unlinked, and the answer is 500. A partial output file the
        encoder left behind stays on disk. */
    method OnEncoderError(leftOutput: bool)
      requires Valid() && stage == Encoding
      modifies this
      ensures Valid() && stage == EncodeFailed
      ensures status == 500 && body == Text(FailureMessage) && responses == 1 && headers == []
      ensures unlinked == [upload.value.path]
      ensures job == old(job) && outputPath == old(outputPath)
      ensures var written := if leftOutput then old(onDisk) + {outputPath} else old(onDisk);
        onDisk == if upload.value.path in failingUnlinks then written
                  else written - {upload.value.path}
    {
      if leftOutput {
        onDisk := onDisk + {outputPath};
      }
      Unlink(upload.value.path);
      status := 500;
      body := Text(FailureMessage);
      responses := responses + 1;
      stage := EncodeFailed;
    }

    /** The encoder's `end` callback (server.js:60-70): the encoder wrote
        the output; both headers are set, then the output file is piped as
        the body. Nothing is unlinked yet. */
    method OnEncoderEnd()
      requires Valid() && stage == Encoding
      modifies this
      ensures Valid() && stage == Streaming
      ensures status == old(status) && responses == 1
      ensures headers == Mp4Headers(outputFileName) && body == FileStream(outputPath)
      ensures unlinked == [] && onDisk == old(onDisk) + {outputPath}
      ensures job == old(job) && outputPath == old(outputPath)
      ensures outputFileName == old(outputFileName)
    {
      onDisk := onDisk + {outputPath};
      headers := headers + [("Content-Type", "video/mp4")];
      headers := headers + [("Content-Disposition", "attachment; filename=\"" + outputFileName + "\"")];
      body := FileStream(outputPath);
      responses := responses + 1;
      stage := Streaming;
    }

    /** The read stream's `end` callback (server.js:72-75): the input, then
        the output, is unlinked; the response is not touched. */
    method OnStreamEnd()
      requires Valid() && stage == Streaming
      modifies this
      ensures Valid() && stage == CleanedUp
      ensures unlinked == [upload.value.path, outputPath]
      ensures var gone := {upload.value.path, outputPath} - failingUnlinks;
        onDisk == old(onDisk) - gone
      ensures status == old(status) && headers == old(headers) && body == old(body)
      ensures responses == old(responses) && job == old(job)
    {
      Unlink(upload.value.path);
      Unlink(outputPath);
      stage := CleanedUp;
    }
  }

  /** Everything one request does, given whether a file was uploaded, the
      bitrate field, which unlinks fail, how the encoder ends and whether
      the read stream reaches its end. */
  function Expected(uploadsDir: string, upload: Option<Upload>, failing: set<string>,
                    bitrateField: Option<string>, outcome: EncoderOutcome, streamEnds: bool): Final
  {
    match upload
    case None => Final(400, [], Text(NoFileMessage), 1, None, [], {})
    case Some(u) =>
      var out := OutputPath(uploadsDir, u.originalName);
      var job := Job(u.path, out, ResolveBitrate(bitrateField));
      match outcome
      case EncoderError(leftOutput) =>
        var written := if leftOutput then {u.path, out} else {u.path};
        Final(500, [], Text(FailureMessage), 1, Some(job), [u.path], written - ({u.path} - failing))
      case EncoderEnd =>
        var headers := Mp4Headers(OutputFileName(u.originalName));
        if streamEnds then
          Final(200, headers, FileStream(out), 1, Some(job), [u.path, out],
                {u.path, out} - ({u.path, out} - failing))
        else
          Final(200, headers, FileStream(out), 1, Some(job), [], {u.path, out})
  }

  /** One request from arrival to the last callback: the handler runs, then
      the encoder's `error` or `end` callback, then, on success, the read
      stream's `end` callback if the stream ends. */
  method Serve(uploadsDir: string, upload: Option<Upload>, failing: set<string>,
               bitrateField: Option<string>, outcome: EncoderOutcome, streamEnds: bool)
    returns (final: Final)
    ensures final == Expected(uploadsDir, upload, failing, bitrateField, outcome, streamEnds)
  {
    var ex := new Exchange(uploadsDir, upload, failing);
    ex.Handle(bitrateField);
    if ex.stage == Encoding {
      match outcome
      case EncoderError(leftOutput) =>
        ex.OnEncoderError(leftOutput);
      case EncoderEnd =>
        ex.OnEncoderEnd();
        if streamEnds {
          ex.OnStreamEnd();
        }
    }
    final := ex.Snapshot();
  }

  // ------------------------------------------------------------------
  // properties of a request
  // ------------------------------------------------------------------

  /** With no uploaded file the answer is 400 `No file uploaded.`, the
      encoder is never started and nothing is unlinked. */
  lemma NoUploadIsRejected(uploadsDir: string, failing: set<string>, bitrateField: Option<string>,
                           outcome: EncoderOutcome, streamEnds: bool)
    ensures var f := Expected(uploadsDir, None, failing, bitrateField, outcome, streamEnds);
      f.status == 400 && f.body == Text(NoFileMessage) && f.job.None? && f.unlinked == []
  {
  }

  /** Every request gets exactly one response: 400, 500, or a 200 stream. */
  lemma ExactlyOneResponse(uploadsDir: string, upload: Option<Upload>, failing: set<string>,
                           bitrateField: Option<string>, outcome: EncoderOutcome, streamEnds: bool)
    ensures var f := Expected(uploadsDir, upload, failing, bitrateField, outcome, streamEnds);
      && f.responses == 1
      && (f.status == 400 || f.status == 500 || (f.status == 200 && f.body.FileStream?))
  {
  }

  /** The encoder gets the staged input, the output path derived from the
      original name only, and the bitrate field or `"30"` as its video
      bitrate. */
  lemma EncoderInvocation(uploadsDir: string, u: Upload, failing: set<string>,
                          bitrateField: Option<string>, outcome: EncoderOutcome, streamEnds: bool)
    ensures var f := Expected(uploadsDir, Some(u), failing, bitrateField, outcome, streamEnds);
      && f.job.Some?
      && f.job.value.input == u.path
      && f.job.value.output == OutputPath(uploadsDir, u.originalName)
      && (bitrateField.None? || bitrateField == Some("") ==> f.job.value.videoBitrate == DefaultBitrate)
  {
  }

  /** On an encoder error the answer is 500 `Conversion failed.`, only the
      staged input is unlinked, and a partial output is left on disk. */
  lemma EncoderErrorCleansInputOnly(uploadsDir: string, u: Upload, failing: set<string>,
                                    bitrateField: Option<string>, leftOutput: bool, streamEnds: bool)
    requires failing == {}
    requires u.path != OutputPath(uploadsDir, u.originalName)
    ensures var f := Expected(uploadsDir, Some(u), failing, bitrateField, EncoderError(leftOutput), streamEnds);
      && f.status == 500 && f.body == Text(FailureMessage) && f.headers == []
      && f.unlinked == [u.path]
      && f.onDisk == if leftOutput then {OutputPath(uploadsDir, u.originalName)} else {}
  {
  }

  /** On success the MP4 headers are set and the output is streamed; the
      input and the output are unlinked once each, in that order, and
      only when the stream ends. A stream that never ends leaves both on
      disk. */
  lemma SuccessUnlinksOnlyAfterStreamEnd(uploadsDir: string, u: Upload, failing: set<string>,
                                         bitrateField: Option<string>, streamEnds: bool)
    ensures var f := Expected(uploadsDir, Some(u), failing, bitrateField, EncoderEnd, streamEnds);
      var out := OutputPath(uploadsDir, u.originalName);
      && f.status == 200
      && f.headers == Mp4Headers(OutputFileName(u.originalName))
      && f.body == FileStream(out)
      && f.unlinked == (if streamEnds then [u.path, out] else [])
      && (!streamEnds ==> f.onDisk == {u.path, out})
      && (streamEnds && failing == {} ==> f.onDisk == {})
  {
  }

  /** A failing unlink is only logged: it never changes the response. */
  lemma CleanupErrorsDoNotChangeResponse(uploadsDir: string, upload: Option<Upload>,
                                         failing1: set<string>, failing2: set<string>,
                                         bitrateField: Option<string>, outcome: EncoderOutcome,
                                         streamEnds: bool)
    ensures var f1 := Expected(uploadsDir, upload, failing1, bitrateField, outcome, streamEnds);
      var f2 := Expected(uploadsDir, upload, failing2, bitrateField, outcome, streamEnds);
      && f1.status == f2.status && f1.headers == f2.headers && f1.body == f2.body
      && f1.responses == f2.responses && f1.unlinked == f2.unlinked
  {
  }

  /** The staged input is unlinked at most once, and exactly once when the
      encoder fails or the stream ends. */
  lemma InputUnlinkedAtMostOnce(uploadsDir: string, u: Upload, failing: set<string>,
                                bitrateField: Option<string>, outcome: EncoderOutcome, streamEnds: bool)
    requires u.path != OutputPath(uploadsDir, u.originalName)
    ensures var f := Expected(uploadsDir, Some(u), failing, bitrateField, outcome, streamEnds);
      multiset(f.unlinked)[u.path] == (if outcome.EncoderError? || streamEnds then 1 else 0)
  {
  }
}
