/** The stateful part of wa-helper.js: the module-level temp-file ledger
    `globalTempFiles`, the files on disk it refers to, and the messages the
    chat client is asked to send. `convertFile`, `detectAndConvertMedia`,
    `sendMessageWithOptionalMedia` and `cleanupTempFiles` change that state
    step by step, as the source does; each is proved against the pure
    decision of module Sanitizer. */
module Helper {
  import opened Wrappers
  import opened Text
  import opened Sanitizer

  /** `MessageMedia.fromFilePath(file)`, kept opaque: only the path it was
      read from is recorded. */
  datatype Media = MediaFrom(path: string)

  /** What `detectAndConvertMedia` resolves to; `None` is `null`. */
  datatype MediaInfo = MediaInfo(media: Option<Media>, tempFiles: seq<string>, file: Option<string>, mimeType: Option<string>)

  /** A `client.sendMessage` call. */
  datatype Outgoing =
    | TextMessage(chatId: string, body: string)
    | MediaMessage(chatId: string, media: Media, caption: string, sendMediaAsDocument: bool)

  /** The result object for a decision: an acceptance reports the decided
      file and type, a rejection nulls everything except `tempFiles`. */
  function InfoOf(d: Decision): (info: MediaInfo)
    ensures info.tempFiles == d.tempFiles
    ensures info.media.Some? <==> d.Accept?
    ensures info.media.Some? ==> info.file.Some? && info.mimeType.Some? && info.media.value == MediaFrom(info.file.value)
    ensures info.media.None? ==> info.file.None? && info.mimeType.None?
    ensures d.Accept? ==> info.file == Some(d.file) && info.mimeType == Some(d.mimeType)
  {
    match d
    case Accept(f, m, t) => MediaInfo(Some(MediaFrom(f)), t, Some(f), Some(m))
    case Reject(t) => MediaInfo(None, t, None, None)
  }

  /** The paths a deletion loop may remove: `if (t && fs.existsSync(t))`
      skips the empty path. */
  function Removable(paths: seq<string>): set<string>
  {
    set p | p in paths && p != ""
  }

  /** The path a façade call converts into, if it converts at all: only
      when a non-empty path was given and a file exists there
      (`filePath && fs.existsSync(filePath)`). */
  function FacadeTarget(filePath: Option<string>, files: set<string>, lookedUp: Option<string>): Option<string>
  {
    if filePath.Some? && filePath.value != "" && filePath.value in files then ConversionTarget(filePath.value, lookedUp) else None
  }

  /** The one message a façade call sends: the media with the text as
      caption when a non-empty path was given, a file exists there and the
      sanitiser accepts it, the text alone otherwise;
      the document flag is whether the original path contains `.pdf`. */
  function Dispatch(chatId: string, text: string, filePath: Option<string>, files: set<string>,
                    lookedUp: Option<string>, transcodes: bool, sizeOf: string -> nat): (m: Outgoing)
    ensures m.chatId == chatId
    ensures m.MediaMessage? <==> filePath.Some? && filePath.value != "" && filePath.value in files && Sanitize(filePath.value, lookedUp, transcodes, sizeOf).Accept?
    ensures m.MediaMessage? ==> m.caption == text && (m.sendMediaAsDocument <==> Contains(filePath.value, ".pdf"))
    ensures m.MediaMessage? ==> m.media == MediaFrom(Sanitize(filePath.value, lookedUp, transcodes, sizeOf).file)
    ensures m.TextMessage? ==> m.body == text
  {
    if filePath.Some? && filePath.value != "" && filePath.value in files && Sanitize(filePath.value, lookedUp, transcodes, sizeOf).Accept? then
      MediaMessage(chatId, MediaFrom(Sanitize(filePath.value, lookedUp, transcodes, sizeOf).file), text, Contains(filePath.value, ".pdf"))
    else TextMessage(chatId, text)
  }

  function AsSeq(o: Option<string>): seq<string>
  {
    if o.Some? then [o.value] else []
  }

  function AsSet(o: Option<string>): set<string>
  {
    if o.Some? then {o.value} else {}
  }

  /** A non-empty path keeps a non-empty output path. */
  lemma OutputPathNonEmpty(inputPath: string, outputExt: string)
    requires inputPath != [] && outputExt != []
    ensures OutputPath(inputPath, outputExt) != []
  {
  }

  /** A façade call leaves its input file in place when the input has an
      extension other than the one it is converted to. */
  lemma InputSurvives(filePath: Option<string>, files: set<string>, lookedUp: Option<string>, k: int)
    requires filePath.Some? && filePath.value != "" && filePath.value in files && lookedUp.Some?
    requires IsExtensionAt(filePath.value, k)
    requires ConversionFor(lookedUp.value).Some? ==> filePath.value[k..] != ConversionFor(lookedUp.value).value.outputExt
    ensures filePath.value in files - AsSet(FacadeTarget(filePath, files, lookedUp))
  {
    if ConversionFor(lookedUp.value).Some? {
      OutputPathDiffers(filePath.value, ConversionFor(lookedUp.value).value.outputExt, k);
    }
  }

  /** An input path without a dot is its own conversion output, so a façade
      call that converts it deletes the input itself. */
  lemma DotlessInputConsumed(filePath: Option<string>, files: set<string>, lookedUp: Option<string>)
    requires filePath.Some? && filePath.value != "" && filePath.value in files && lookedUp.Some? && ConversionFor(lookedUp.value).Some?
    requires forall j :: 0 <= j < |filePath.value| ==> filePath.value[j] != '.'
    ensures FacadeTarget(filePath, files, lookedUp) == Some(filePath.value)
    ensures filePath.value !in files - AsSet(FacadeTarget(filePath, files, lookedUp))
  {
    NoDotNoExtension(filePath.value, ConversionFor(lookedUp.value).value.outputExt);
  }

  class Helper {
    /** The paths that exist on disk. */
    var files: set<string>
    /** `globalTempFiles`. */
    var ledger: seq<string>
    /** Every `client.sendMessage` call, in order. */
    var outbox: seq<Outgoing>

    constructor (existing: set<string>)
      ensures files == existing && ledger == [] && outbox == []
    {
      files := existing;
      ledger := [];
      outbox := [];
    }

    /** `convertFile(inputPath, outputExt, config)`: the derived output path
        goes on the ledger before the transcoder runs; on success the file
        exists, on failure any file at that path is removed. */
    method ConvertFile(inputPath: string, outputExt: string, transcodes: bool) returns (r: Option<string>)
      modifies this`files, this`ledger
      ensures r.Some? <==> transcodes
      ensures r.Some? ==> r.value == OutputPath(inputPath, outputExt)
      ensures ledger == old(ledger) + [OutputPath(inputPath, outputExt)]
      ensures files == if transcodes then old(files) + {OutputPath(inputPath, outputExt)}
                       else old(files) - {OutputPath(inputPath, outputExt)}
    {
      var outputPath := OutputPath(inputPath, outputExt);
      ledger := ledger + [outputPath];
      if transcodes {
        files := files + {outputPath};
        r := Some(outputPath);
      } else {
        if outputPath in files {
          files := files - {outputPath};
        }
        r := None;
      }
    }

    /** `detectAndConvertMedia(filePath)`: resolves to the decision of
        `Sanitize`; the only state it changes is that of the one conversion it
        may run. */
    method DetectAndConvertMedia(filePath: string, lookedUp: Option<string>, transcodes: bool, sizeOf: string -> nat)
      returns (info: MediaInfo)
      requires filePath in files
      modifies this`files, this`ledger
      ensures info == InfoOf(Sanitize(filePath, lookedUp, transcodes, sizeOf))
      ensures ledger == old(ledger) + AsSeq(ConversionTarget(filePath, lookedUp))
      ensures files == if transcodes then old(files) + AsSet(ConversionTarget(filePath, lookedUp))
                       else old(files) - AsSet(ConversionTarget(filePath, lookedUp))
    {
      var tempFiles: seq<string> := [];
      var file := filePath;
      if lookedUp.None? {
        return MediaInfo(None, tempFiles, None, None);
      }
      var mimeType := lookedUp.value;

      if mimeType == "video/webm" {
        var converted := ConvertFile(file, ".mp4", transcodes);
        if converted.None? {
          return MediaInfo(None, tempFiles, None, None);
        }
        file := converted.value;
        tempFiles := tempFiles + [file];
        mimeType := "video/mp4";
      }

      if mimeType in WAV_TYPES {
        var converted := ConvertFile(file, ".mp3", transcodes);
        if converted.None? {
          return MediaInfo(None, tempFiles, None, None);
        }
        file := converted.value;
        tempFiles := tempFiles + [file];
        mimeType := "audio/mpeg";
      }

      if mimeType == "application/mp4" {
        mimeType := "video/mp4";
      }

      var allowed := false;
      if StartsWith(mimeType, "video/") {
        allowed := mimeType in ALLOWED_MIME_VIDEO;
      } else if StartsWith(mimeType, "audio/") {
        allowed := mimeType in ALLOWED_MIME_AUDIO;
      } else if mimeType in ALLOWED_MIME_DOC {
        allowed := true;
      }
      if !allowed {
        return MediaInfo(None, tempFiles, None, None);
      }

      var size := sizeOf(file);
      if size > MAX_FILE_SIZE {
        return MediaInfo(None, tempFiles, None, None);
      }
      info := MediaInfo(Some(MediaFrom(file)), tempFiles, Some(file), Some(mimeType));
    }

    /** The deletion loops of `cleanupTempFiles` and of the façade's
        `finally`: every listed non-empty path is gone afterwards and no other
        file is touched. */
    method DeleteExisting(paths: seq<string>)
      modifies this`files
      ensures files == old(files) - Removable(paths)
    {
      var i := 0;
      while i < |paths|
        invariant 0 <= i <= |paths|
        invariant files == old(files) - Removable(paths[..i])
      {
        var t := paths[i];
        assert paths[..i + 1] == paths[..i] + [t];
        if t != "" && t in files {
          files := files - {t};
        }
        i := i + 1;
      }
      assert paths[..|paths|] == paths;
    }

    /** `sendMessageWithOptionalMedia(client, chatId, messageText, filePath)`:
        exactly one message is sent, and whether or not that send fails
        (`ok` false: the promise rejects), the temp files of the sanitiser
        are deleted; the only path whose existence changes is the one a
        conversion wrote. */
    method SendMessageWithOptionalMedia(chatId: string, messageText: string, filePath: Option<string>,
                                        lookedUp: Option<string>, transcodes: bool, sizeOf: string -> nat,
                                        sendSucceeds: bool)
      returns (ok: bool)
      modifies this`files, this`ledger, this`outbox
      ensures ok == sendSucceeds
      ensures outbox == old(outbox) + [Dispatch(chatId, messageText, filePath, old(files), lookedUp, transcodes, sizeOf)]
      ensures files == old(files) - AsSet(FacadeTarget(filePath, old(files), lookedUp))
      ensures ledger == old(ledger) + AsSeq(FacadeTarget(filePath, old(files), lookedUp))
      ensures (filePath.Some? && filePath.value != "" && filePath.value in old(files)) ==>
        forall t :: t in Sanitize(filePath.value, lookedUp, transcodes, sizeOf).tempFiles ==> t !in files
    {
      var temp: seq<string> := [];
      var sentMedia := false;
      if filePath.Some? && filePath.value != "" && filePath.value in files {
        var mediaInfo := DetectAndConvertMedia(filePath.value, lookedUp, transcodes, sizeOf);
        temp := temp + mediaInfo.tempFiles;
        if mediaInfo.media.Some? {
          outbox := outbox + [MediaMessage(chatId, mediaInfo.media.value, messageText, Contains(filePath.value, ".pdf"))];
          sentMedia := true;
        }
        match ConversionTarget(filePath.value, lookedUp)
        case Some(out) =>
          OutputPathNonEmpty(filePath.value, ConversionFor(lookedUp.value).value.outputExt);
        case None =>
      }
      if !sentMedia {
        outbox := outbox + [TextMessage(chatId, messageText)];
      }
      ok := sendSucceeds;
      // finally: delete the temp files created during conversion
      DeleteExisting(temp);
    }

    /** `cleanupTempFiles()`: every non-empty path on the ledger is gone, the
        ledger is empty, and no file off the ledger is touched. */
    method CleanupTempFiles()
      modifies this`files, this`ledger
      ensures ledger == []
      ensures files == old(files) - Removable(old(ledger))
    {
      DeleteExisting(ledger);
      ledger := [];
    }
  }
}
