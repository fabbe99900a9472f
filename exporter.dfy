/**
 * `export_mp3_with_size_limit`: encode at each bitrate of a fixed descending
 * table, keep the first file that fits the byte budget, delete the rest, and
 * fall back to one 24 kbps encode when nothing fits. The MP3 encoder is
 * library code and enters as the oracle `encode(audio, kbps)`.
 */
module Exporter {
  import opened Wrappers
  import opened Storage
  import opened Naming
  import opened Silence

  /** Candidate bitrates in kbps, highest quality first. */
  const BITRATES: seq<nat> := [256, 192, 160, 128, 96, 64, 32]

  /** The extreme-compression bitrate tried once when no candidate fits. */
  const FALLBACK_BITRATE: nat := 24

  /** `MAX_FILE_SIZE`: 50 MiB. */
  const MAX_FILE_SIZE: nat := 50 * 1024 * 1024

  const COMPRESSION_ERROR := "Unable to compress audio under 50MB limit"

  /**
   * What one `audio.export(path, bitrate=...)` call does: it writes a file of
   * `size` bytes, or it raises, possibly leaving a partial file behind.
   */
  datatype Export = Written(size: nat) | Raised(message: string, leftPartial: bool)

  /** A candidate is accepted when its export produced a file within the budget. */
  predicate Fits(e: Export, budget: nat) {
    e.Written? && e.size <= budget
  }

  /** `output_path + f"_temp_{bitrate}.mp3"`. */
  function TempPath(output: Path, bitrate: nat): (p: Path)
    ensures |p| > |output|
  {
    output + "_temp_" + NatToString(bitrate) + MP3_EXT
  }

  /** Every bitrate has its own temporary file, and none is the output. */
  lemma TempPathInjective(output: Path, a: nat, b: nat)
    requires TempPath(output, a) == TempPath(output, b)
    ensures a == b
  {
    var p := TempPath(output, a);
    var k := |output| + 6;
    assert p[k..|p| - 4] == NatToString(a);
    assert TempPath(output, b)[k..|p| - 4] == NatToString(b);
    NatToStringInjective(a, b);
  }

  /** The index in `rates` of the first bitrate whose export fits, if any. */
  function FirstFit(
    audio: Audio, budget: nat, encode: (Audio, nat) -> Export, rates: seq<nat>
  ): (k: Option<nat>)
    ensures k.Some? ==> k.value < |rates| && Fits(encode(audio, rates[k.value]), budget)
    ensures k.Some? ==> forall j :: 0 <= j < k.value ==> !Fits(encode(audio, rates[j]), budget)
    ensures k.None? ==> forall j :: 0 <= j < |rates| ==> !Fits(encode(audio, rates[j]), budget)
    decreases |rates|
  {
    if rates == [] then None
    else if Fits(encode(audio, rates[0]), budget) then Some(0)
    else match FirstFit(audio, budget, encode, rates[1..])
      case None => None
      case Some(k) => Some(k + 1)
  }

  /** The temporary files of the first `n` candidates. */
  function TempPaths(output: Path, n: nat): set<Path>
    requires n <= |BITRATES|
  {
    if n == 0 then {} else TempPaths(output, n - 1) + {TempPath(output, BITRATES[n - 1])}
  }

  /** Everything the call ends with: its result, the files that exist, the bitrates tried. */
  datatype ExportRun = ExportRun(result: Result<Path, string>, files: Files, attempts: seq<nat>)

  /**
   * The outcome of `export_mp3_with_size_limit(audio, output, budget)` on a
   * filesystem holding `files`.
   */
  function SizeLimitedExport(
    audio: Audio, output: Path, budget: nat, files: Files, encode: (Audio, nat) -> Export
  ): ExportRun
  {
    match FirstFit(audio, budget, encode, BITRATES)
    case Some(k) =>
      ExportRun(Success(output), files - TempPaths(output, k + 1) + {output}, BITRATES[..k + 1])
    case None =>
      var rest := files - TempPaths(output, |BITRATES|);
      var tried := BITRATES + [FALLBACK_BITRATE];
      match encode(audio, FALLBACK_BITRATE)
      case Written(_) => ExportRun(Success(output), rest + {output}, tried)
      case Raised(_, partial) =>
        ExportRun(Failure(COMPRESSION_ERROR), if partial then rest + {output} else rest, tried)
  }

  lemma {:induction false} TempPathsHas(output: Path, n: nat, i: nat)
    requires i < n <= |BITRATES|
    ensures TempPath(output, BITRATES[i]) in TempPaths(output, n)
    decreases n
  {
    if i < n - 1 {
      TempPathsHas(output, n - 1, i);
    }
  }

  lemma {:induction false} TempPathsGrow(output: Path, m: nat, n: nat)
    requires m <= n <= |BITRATES|
    ensures TempPaths(output, m) <= TempPaths(output, n)
    decreases n
  {
    if m < n {
      TempPathsGrow(output, m, n - 1);
    }
  }

  /** Deleting the next candidate's temporary file extends the deleted prefix by one. */
  lemma DeleteNextTemp(files: Files, output: Path, i: nat)
    requires i < |BITRATES|
    ensures files - TempPaths(output, i) - {TempPath(output, BITRATES[i])} == files - TempPaths(output, i + 1)
  {
  }

  lemma SpecWhenAccepted(audio: Audio, output: Path, budget: nat, files: Files, encode: (Audio, nat) -> Export, i: nat)
    requires FirstFit(audio, budget, encode, BITRATES) == Some(i)
    ensures SizeLimitedExport(audio, output, budget, files, encode)
         == ExportRun(Success(output), files - TempPaths(output, i + 1) + {output}, BITRATES[..i + 1])
  {
  }

  lemma SpecWhenNoneFits(audio: Audio, output: Path, budget: nat, files: Files, encode: (Audio, nat) -> Export)
    requires FirstFit(audio, budget, encode, BITRATES) == None
    ensures var rest := files - TempPaths(output, |BITRATES|);
            SizeLimitedExport(audio, output, budget, files, encode)
              == match encode(audio, FALLBACK_BITRATE)
                 case Written(_) => ExportRun(Success(output), rest + {output}, BITRATES + [FALLBACK_BITRATE])
                 case Raised(_, partial) =>
                   ExportRun(Failure(COMPRESSION_ERROR), if partial then rest + {output} else rest, BITRATES + [FALLBACK_BITRATE])
  {
  }

  /** The first fitting candidate is at `i` when it fits and none before it did. */
  lemma FirstFitAt(audio: Audio, budget: nat, encode: (Audio, nat) -> Export, rates: seq<nat>, i: nat)
    requires i < |rates| && Fits(encode(audio, rates[i]), budget)
    requires forall j :: 0 <= j < i ==> !Fits(encode(audio, rates[j]), budget)
    ensures FirstFit(audio, budget, encode, rates) == Some(i)
  {
  }

  /**
   * One pass of the loop body: export to the bitrate's temporary file, rename
   * it to the output when it fits, delete it (if it exists) otherwise.
   */
  method TryBitrate(
    audio: Audio, output: Path, maxSize: nat, files: Files, encode: (Audio, nat) -> Export, bitrate: nat
  ) returns (accepted: bool, files': Files)
    ensures accepted == Fits(encode(audio, bitrate), maxSize)
    ensures accepted ==> files' == files - {TempPath(output, bitrate)} + {output}
    ensures !accepted ==> files' == files - {TempPath(output, bitrate)}
  {
    var tempPath := TempPath(output, bitrate);
    files' := files;
    match encode(audio, bitrate) {
      case Written(size) =>
        files' := files' + {tempPath};
        if size <= maxSize {
          // os.rename(temp_path, output_path)
          files' := files' - {tempPath} + {output};
          return true, files';
        }
        files' := files' - {tempPath};
      case Raised(_, partial) =>
        if partial {
          files' := files' + {tempPath};
        }
        if tempPath in files' {
          files' := files' - {tempPath};
        }
    }
    accepted := false;
  }

  /**
   * `export_mp3_with_size_limit`, written as the source's loop with its early
   * return, followed by the fallback encode.
   */
  method ExportMp3WithSizeLimit(
    audio: Audio, output: Path, maxSize: nat, files: Files, encode: (Audio, nat) -> Export
  ) returns (result: Result<Path, string>, files': Files, attempts: seq<nat>)
    ensures result == SizeLimitedExport(audio, output, maxSize, files, encode).result
    ensures files' == SizeLimitedExport(audio, output, maxSize, files, encode).files
    ensures attempts == SizeLimitedExport(audio, output, maxSize, files, encode).attempts
  {
    files' := files;
    attempts := [];
    var i := 0;
    while i < |BITRATES|
      invariant 0 <= i <= |BITRATES|
      invariant attempts == BITRATES[..i]
      invariant files' == files - TempPaths(output, i)
      invariant forall j :: 0 <= j < i ==> !Fits(encode(audio, BITRATES[j]), maxSize)
    {
      var bitrate := BITRATES[i];
      attempts := attempts + [bitrate];
      var accepted;
      accepted, files' := TryBitrate(audio, output, maxSize, files', encode, bitrate);
      DeleteNextTemp(files, output, i);
      if accepted {
        FirstFitAt(audio, maxSize, encode, BITRATES, i);
        SpecWhenAccepted(audio, output, maxSize, files, encode, i);
        return Success(output), files', attempts;
      }
      i := i + 1;
    }
    SpecWhenNoneFits(audio, output, maxSize, files, encode);
    attempts := attempts + [FALLBACK_BITRATE];
    match encode(audio, FALLBACK_BITRATE) {
      case Written(_) =>
        files' := files' + {output};
        result := Success(output);
      case Raised(_, partial) =>
        if partial {
          files' := files' + {output};
        }
        result := Failure(COMPRESSION_ERROR);
    }
  }

  // ---------------------------------------------------------------------------
  // What the search promises

  /**
   * Bitrates are tried in table order: the attempts are a prefix of the table,
   * followed by the fallback only once the whole table was tried. At most
   * eight exports run.
   */
  lemma AttemptsInOrder(audio: Audio, output: Path, budget: nat, files: Files, encode: (Audio, nat) -> Export)
    ensures var run := SizeLimitedExport(audio, output, budget, files, encode);
            && 1 <= |run.attempts| <= |BITRATES| + 1
            && (|run.attempts| <= |BITRATES| ==> run.attempts == BITRATES[..|run.attempts|])
            && (|run.attempts| == |BITRATES| + 1 ==> run.attempts == BITRATES + [FALLBACK_BITRATE])
  {
  }

  /**
   * A table bitrate is accepted exactly when it is the first that fits: every
   * earlier one was too large or failed, and no lower one is tried.
   */
  lemma AcceptsFirstFit(audio: Audio, output: Path, budget: nat, files: Files, encode: (Audio, nat) -> Export)
    ensures var run := SizeLimitedExport(audio, output, budget, files, encode);
            var n := |run.attempts|;
            && (n <= |BITRATES| ==>
                  run.result == Success(output)
                  && Fits(encode(audio, run.attempts[n - 1]), budget)
                  && forall j :: 0 <= j < n - 1 ==> !Fits(encode(audio, run.attempts[j]), budget))
            && (n > |BITRATES| ==> forall b :: b in BITRATES ==> !Fits(encode(audio, b), budget))
  {
    var run := SizeLimitedExport(audio, output, budget, files, encode);
    var n := |run.attempts|;
    if n > |BITRATES| {
      forall b | b in BITRATES ensures !Fits(encode(audio, b), budget) {
        var j :| 0 <= j < |BITRATES| && BITRATES[j] == b;
      }
    }
  }

  /** With a larger budget the search never settles on a lower bitrate. */
  lemma FirstFitMonotone(audio: Audio, small: nat, large: nat, encode: (Audio, nat) -> Export, rates: seq<nat>)
    requires small <= large
    requires FirstFit(audio, small, encode, rates).Some?
    ensures FirstFit(audio, large, encode, rates).Some?
    ensures FirstFit(audio, large, encode, rates).value <= FirstFit(audio, small, encode, rates).value
  {
    var k := FirstFit(audio, small, encode, rates).value;
    assert Fits(encode(audio, rates[k]), large);
  }

  /**
   * The call raises only when the 24 kbps fallback raised after every table
   * bitrate was tried, and then always with the same message.
   */
  lemma RaisesOnlyWhenFallbackFails(audio: Audio, output: Path, budget: nat, files: Files, encode: (Audio, nat) -> Export)
    ensures var run := SizeLimitedExport(audio, output, budget, files, encode);
            run.result.Failure? <==>
              (FirstFit(audio, budget, encode, BITRATES).None? && encode(audio, FALLBACK_BITRATE).Raised?)
    ensures var run := SizeLimitedExport(audio, output, budget, files, encode);
            run.result.Failure? ==>
              run.result.error == COMPRESSION_ERROR && run.attempts == BITRATES + [FALLBACK_BITRATE]
    ensures var run := SizeLimitedExport(audio, output, budget, files, encode);
            run.result.Success? ==> run.result.value == output && output in run.files
  {
  }

  /**
   * No temporary file of a tried bitrate is left behind, and no other file
   * than the output and those temporary files is created or removed.
   */
  lemma CleansUpTempFiles(audio: Audio, output: Path, budget: nat, files: Files, encode: (Audio, nat) -> Export)
    ensures var run := SizeLimitedExport(audio, output, budget, files, encode);
            forall i :: 0 <= i < |run.attempts| && i < |BITRATES| ==>
              TempPath(output, run.attempts[i]) !in run.files
    ensures var run := SizeLimitedExport(audio, output, budget, files, encode);
            forall p :: p != output && p !in TempPaths(output, |BITRATES|) ==>
              (p in run.files <==> p in files)
  {
    var run := SizeLimitedExport(audio, output, budget, files, encode);
    var n := if |run.attempts| <= |BITRATES| then |run.attempts| else |BITRATES|;
    forall i | 0 <= i < |run.attempts| && i < |BITRATES|
      ensures TempPath(output, run.attempts[i]) !in run.files
    {
      assert run.attempts[i] == BITRATES[i];
      TempPathsHas(output, n, i);
    }
    forall p | p != output && p !in TempPaths(output, |BITRATES|)
      ensures p in run.files <==> p in files
    {
      TempPathsGrow(output, n, |BITRATES|);
    }
  }
}
