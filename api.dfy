/**
 * `POST /process-audio`: validate the upload, save it to a temporary ".wav"
 * file, cut silence, export WAV next to it, answer with the file under a name
 * derived from the upload's, and remove both temporary files.
 */
module Api {
  import opened Wrappers
  import opened Storage
  import opened Naming
  import opened Silence
  import opened Exporter

  /** One part of `request.files`; only its file name matters here. */
  datatype Upload = Upload(filename: string)

  const FILE_FIELD := "file"
  const NO_FILE_PROVIDED := "No file provided"
  const NO_FILE_SELECTED := "No file selected"
  const SAVE_FAILED := "Error saving input file"
  const PROCESSING_FAILED := "Processing failed: "

  datatype Reply =
    | JsonError(code: nat, message: string)  // jsonify({'error': message}), code
    | WavAttachment(filename: string)         // 200, audio/wav, Content-Disposition filename

  /**
   * Lines 160-167: a request without a `file` part, or whose file has an
   * empty name, is answered 400; otherwise the upload is taken.
   */
  function Validate(files: map<string, Upload>): (r: Result<Upload, Reply>)
    ensures r.Success? <==> FILE_FIELD in files && files[FILE_FIELD].filename != ""
    ensures r.Success? ==> r.value == files[FILE_FIELD]
    ensures r.Failure? ==> r.error.JsonError? && r.error.code == 400
    ensures FILE_FIELD !in files ==> r.error.message == NO_FILE_PROVIDED
    ensures FILE_FIELD in files && files[FILE_FIELD].filename == "" ==> r.error.message == NO_FILE_SELECTED
  {
    if FILE_FIELD !in files then Failure(JsonError(400, NO_FILE_PROVIDED))
    else if files[FILE_FIELD].filename == "" then Failure(JsonError(400, NO_FILE_SELECTED))
    else Success(files[FILE_FIELD])
  }

  /**
   * `process_audio()`. `inputPath` is the name `tempfile` chose (it ends in
   * ".wav"), `saved` tells whether `file.save` succeeded, `load` and `split`
   * are the decoder and the splitter, `exportWav` the WAV encoder.
   */
  method ProcessAudio(
    form: map<string, Upload>,
    inputPath: Path,
    saved: bool,
    files: Files,
    load: Path -> Result<Audio, string>,
    split: (Audio, SilenceParams) -> seq<Audio>,
    exportWav: Audio -> Export
  ) returns (reply: Reply, files': Files)
    requires EndsWith(inputPath, WAV_EXT)
    ensures Validate(form).Failure? ==> reply == Validate(form).error && files' == files
    ensures Validate(form).Success? && !saved ==>
              reply == JsonError(500, SAVE_FAILED) && files' == files + {inputPath}
    ensures Validate(form).Success? && saved ==>
              files' == files - {inputPath, ProcessedWavPath(inputPath)}
    ensures Validate(form).Success? && saved ==>
              var processed := load(inputPath);
              if processed.Failure? then
                reply == JsonError(500, PROCESSING_FAILED + processed.error)
              else
                match exportWav(Reassembled(processed.value, split(processed.value, DEFAULT_PARAMS)))
                case Written(_) => reply == WavAttachment(DownloadName(form[FILE_FIELD].filename))
                case Raised(message, _) => reply == JsonError(500, PROCESSING_FAILED + message)
  {
    var validated := Validate(form);
    if validated.Failure? {
      return validated.error, files;
    }
    var upload := validated.value;
    // tempfile.NamedTemporaryFile(delete=False, suffix='.wav') creates the file
    files' := files + {inputPath};
    if !saved {
      return JsonError(500, SAVE_FAILED), files';
    }
    var outputPath := ProcessedWavPath(inputPath);
    ProcessedWavPathDiffers(inputPath);
    var processed := CutSilence(inputPath, DEFAULT_PARAMS, load, split);
    var error: string;
    if processed.Success? {
      match exportWav(processed.value) {
        case Written(_) =>
          files' := files' + {outputPath};
          // os.path.exists(output_path) holds: the file was just written
          files' := files' - {inputPath};
          files' := files' - {outputPath};
          return WavAttachment(DownloadName(upload.filename)), files';
        case Raised(message, partial) =>
          if partial {
            files' := files' + {outputPath};
          }
          error := message;
      }
    } else {
      error := processed.error;
    }
    if inputPath in files' {
      files' := files' - {inputPath};
    }
    if outputPath in files' {
      files' := files' - {outputPath};
    }
    reply := JsonError(500, PROCESSING_FAILED + error);
  }
}
