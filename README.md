# Silence cutter service, modelled in Dafny

A model of the logic in `app.py` of a small Flask service that cuts the silent
gaps out of an uploaded recording. The audio library (decoding, silence
detection, MP3/WAV encoding) stays behind function parameters. What the
service itself decides is modelled and proved:

- **`cut_silence`** (`silence.dfy`, module `Silence`). The recording is loaded
  and split into chunks by the splitter. The chunks are glued back together in
  a loop. When the splitter returns no chunks, the original recording comes
  back unchanged.
- **`export_mp3_with_size_limit`** (`exporter.dfy`, module `Exporter`). It
  tries 256, 192, 160, 128, 96, 64 and 32 kbps in that order. The first export
  whose file fits the byte budget is renamed to the output path. Too-large or
  failed attempts have their temporary file deleted. If no bitrate fits, one
  24 kbps export goes straight to the output path. The function raises only
  when that last export fails. The loop, with its early return, is proved equal
  to a recursive first-fit specification (`FirstFit`, `SizeLimitedExport`).
- **The `jobs` table** (`jobs.dfy`, class `Jobs.JobTable`). It covers the
  background worker's transitions, the single-delivery `GET /job/<id>` and the
  `active_jobs` count of `GET /health`.
- **`POST /process-audio`** (`api.dfy`, module `Api`). It covers upload
  validation (400 responses), the temporary output name, the download name,
  and the cleanup of both temporary files.
- **Name derivations** (`naming.dfy`, module `Naming`). These are `str(n)`,
  `str.replace` and `str.rsplit(".", 1)`, with their round trips.

The filesystem is the set of existing paths (`Storage.Files`). Operations
receive it as a value and return the new set. `os.path.exists` is membership,
`os.unlink` is removal and `os.rename` moves one path to another. An encoder
call is the oracle `encode(audio, kbps)`. It returns `Written(size)`, or
`Raised(message, leftPartial)` when the call raised, possibly leaving a partial
file behind. Decoding is `load(path)`, which gives the audio or the exception
message. The silence splitter is `split(audio, params)`.

Some points of the code's behaviour that the model keeps as written:
- When `file.save` raises (app.py:172-179), the `NamedTemporaryFile(delete=False)`
  input stays on disk. Every other failure after the save removes both
  temporary files. `Api.ProcessAudio` states this (`files' == files + {inputPath}`).
- Only the `file` upload field is accepted. The only check on it is for an
  empty file name. No extension is checked.
- The `/` endpoint reports `keep_silence` 23 (app.py:292), but `cut_silence`
  uses 30 by default (app.py:30). Both constants are kept
  (`Silence.REPORTED_PARAMS`, `Silence.DEFAULT_PARAMS`).
- No lock guards the `jobs` table. The model runs the table one call at a time.

## Model

| member | source | states |
|---|---|---|
| Naming.NatToString | app.py:78 | `str(bitrate)` is a non-empty string of decimal digits |
| Naming.ParseNatToString | app.py:78 | reading the digits back gives the bitrate (round trip with `ParseNat`) |
| Naming.NatToStringInjective | app.py:78 | distinct bitrates have distinct decimal strings |
| Naming.ReplaceLength | app.py:182 | `str.replace` lengthens the string by the rewritten occurrences times the length difference |
| Naming.CountPositiveIffOccurs | app.py:182 | `str.replace` rewrites something exactly when the pattern occurs somewhere |
| Naming.ReplaceAbsent | app.py:133 | with no occurrence of the pattern, `str.replace` returns the string unchanged |
| Naming.ReplaceSuffix | app.py:133 | a name whose only occurrence of the pattern is its suffix gets just that suffix rewritten |
| Naming.ProcessedWavPathDiffers | app.py:173-182 | for a temporary name ending in ".wav", the `_processed.wav` output name is at least 10 characters longer and never equals the input |
| Naming.Mp3PathOfWavName | app.py:133 | `x.wav` with no other ".wav" becomes `x.mp3` |
| Naming.Mp3PathWithoutWav | app.py:133 | a path with no ".wav" is its own MP3 name |
| Naming.LastIndexOf | app.py:211 | the index found holds a dot, no dot follows it, and `None` means no dot at all |
| Naming.RSplitDot | app.py:211 | `rsplit(".", 1)` yields one or two pieces |
| Naming.RSplitDotJoin | app.py:211 | `".".join(s.rsplit(".", 1)) == s`; two pieces exactly when `s` has a dot; the last piece has no dot |
| Naming.DownloadName | app.py:211 | the download name ends in `_processed.wav` |
| Naming.DownloadNameShape | app.py:211 | the download name is the upload name (no dot) or the upload name minus its last `.ext` (with a dot), followed by `_processed.wav` |
| Silence.ConcatSnoc | app.py:61-63 | `result += chunk` appends exactly that chunk's samples |
| Silence.ConcatLength | app.py:59-65 | the concatenation is as long as all chunks together |
| Silence.ChunkInPlace | app.py:59-65 | every chunk appears unchanged, in order, at its offset in the result |
| Silence.ReassembledMeaning | app.py:50-65 | no chunks gives the original audio; otherwise the length is the sum of the chunk lengths and each chunk is at its offset |
| Silence.CutSilence | app.py:30-68 | a load error is re-raised with its message; otherwise the loop's result is the original audio (no chunks) or the in-order concatenation |
| Exporter.TempPath | app.py:78 | the temporary name is strictly longer than the output path, so it is never the output |
| Exporter.TempPathInjective | app.py:77-78 | each bitrate has its own temporary file |
| Exporter.FirstFit | app.py:75-96 | the index chosen fits the budget and every earlier bitrate did not; `None` means no bitrate fits |
| Exporter.FirstFitMonotone | app.py:75-96 | a larger budget never settles on a later (lower) bitrate |
| Exporter.TryBitrate | app.py:78-105 | one loop pass: accepted exactly when the export fits; the temporary file is renamed to the output if accepted, removed otherwise |
| Exporter.ExportMp3WithSizeLimit | app.py:70-121 | the loop with early return and the fallback give the result, files and attempts of `SizeLimitedExport` |
| Exporter.AttemptsInOrder | app.py:75-115 | attempts are a prefix of 256..32 in table order, with 24 added only after the whole table; at most 8 exports |
| Exporter.AcceptsFirstFit | app.py:77-96 | a table bitrate is accepted only when it fits and every earlier one did not; the fallback runs only when none fits |
| Exporter.RaisesOnlyWhenFallbackFails | app.py:107-121 | the call fails exactly when nothing fits and the 24 kbps export raised; then the message is fixed and all 8 exports ran; on success the output exists |
| Exporter.CleansUpTempFiles | app.py:92-105 | no temporary file of a tried bitrate remains; no other path than the output and the temporary names is touched |
| Jobs.ActiveCountBound | app.py:278 | `active_jobs` never exceeds the number of jobs |
| Jobs.ActiveCountZero | app.py:278 | `active_jobs` is 0 exactly when no job is pending or processing |
| Jobs.ActiveCountUpdate | app.py:278 | replacing one record changes `active_jobs` by that record's old and new contribution only |
| Jobs.ActiveCountRemoveFinished | app.py:278 | deleting a finished record leaves `active_jobs` unchanged |
| Jobs.RemoveIfExists | app.py:150-153 | the guarded unlink removes that path and touches no other |
| Jobs.JobTable.constructor | app.py:25 | the table starts empty |
| Jobs.JobTable.Start | app.py:126 | the job becomes `processing` and nothing else changes |
| Jobs.JobTable.MarkCompleted | app.py:138-140 | `completed` with output path and completion time; `active_jobs` drops by one if the job was active |
| Jobs.JobTable.MarkFailed | app.py:145-147 | `failed` with error and completion time; `active_jobs` drops by one if the job was active |
| Jobs.JobTable.Finish | app.py:127-153 | the job ends `completed` (MP3 path, time) or `failed` (load error or the export's fixed message, time); on failure the input and the output name held at the raise are removed |
| Jobs.JobTable.ProcessAudioBackground | app.py:123-153 | `processing`, then exactly one of two outcomes; other jobs are untouched. A load error ends `failed` with its message, and the input and output names are removed. Otherwise the size-limited export decides: on success the job is `completed` with the MP3 path and the files are those of `SizeLimitedExport`; on failure the job is `failed` with the fixed compression message, and the input and MP3 files are removed |
| Jobs.JobTable.GetJobStatus | app.py:227-271 | unknown id gives 404 and no change; pending/processing is reported and unchanged; failed is reported and deleted; completed with output is delivered and deleted; missing output gives 500 and keeps the record; `active_jobs` never changes |
| Jobs.JobTable.HealthCheck | app.py:273-279 | reports healthy with `active_jobs` at most the number of jobs, and 0 exactly when none is pending or processing |
| Jobs.PollTwice | app.py:229-262 | after a delivery or a failure report, the next query is 404; a running job answers the same twice |
| Api.Validate | app.py:160-167 | 400 "No file provided" without a `file` part, 400 "No file selected" for an empty name; accepted exactly otherwise |
| Api.ProcessAudio | app.py:155-225 | validation errors touch no file; a failed save leaves the input file; after a save, both temporary files are gone on every outcome; success answers with the derived download name; failures answer 500 with the exception's message |

## Left out

- Flask routing, response bodies and headers beyond status code, message and
  file name, reading files into memory, and logging: I/O with nothing to prove.
- pydub internals: decoding, MP3/WAV encoding, dBFS windows and the padding and
  overlap behaviour of `split_on_silence`. These are the parameters `load`,
  `split` and `encode`/`exportWav`. The split's own exceptions are not modelled
  apart from load errors.
- Failures of `os.path.getsize`, `os.rename` and of the unguarded
  `os.unlink(temp_path)` in `export_mp3_with_size_limit`. The model treats
  these filesystem calls as succeeding.
- Api.ProcessAudio: the "Processed file not found" branch (app.py:214-216) is
  not modelled. A successful export always leaves its file in the model, so the
  branch cannot be reached.
- Concurrency: `threaded=True` and the unsynchronised access to `jobs`. The
  table is modelled one call at a time. The worker is split into `Start` and
  `Finish` so a status query can fall between them.
- Timestamps and job ids are plain values (`datetime.now()` becomes a `now`
  parameter). No code in `app.py` inserts jobs, so the worker requires an
  existing record.
- File sizes on disk are not tracked. The size checked against the budget is
  the size the encoder reports. The `/1024/1024:.2f` values in log messages are
  left out.
- The `/` endpoint is only represented by its constants.
