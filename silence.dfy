/**
 * `cut_silence`: load a recording, split it on silence with the library's
 * splitter and glue the non-silent chunks back together in order. Decoding
 * and the splitter itself are library code and enter as function parameters.
 */
module Silence {
  import opened Wrappers
  import opened Storage

  type Sample = int
  type Audio = seq<Sample>

  /** The keyword arguments of `split_on_silence`, in milliseconds and dBFS. */
  datatype SilenceParams = SilenceParams(minSilenceLen: nat, silenceThresh: int, keepSilence: nat)

  /** The defaults of `cut_silence`, which every caller uses. */
  const DEFAULT_PARAMS := SilenceParams(45, -45, 30)

  /** The parameters the `/` endpoint reports (its keep_silence differs from the default). */
  const REPORTED_PARAMS := SilenceParams(45, -45, 23)

  /** The chunks laid end to end, first chunk first. */
  function Concat(chunks: seq<Audio>): Audio
    decreases |chunks|
  {
    if chunks == [] then [] else chunks[0] + Concat(chunks[1..])
  }

  function TotalLength(chunks: seq<Audio>): nat
    decreases |chunks|
  {
    if chunks == [] then 0 else |chunks[0]| + TotalLength(chunks[1..])
  }

  /** Where chunk `i` starts in the concatenation. */
  function Offset(chunks: seq<Audio>, i: nat): nat
    requires i <= |chunks|
  {
    TotalLength(chunks[..i])
  }

  /** Appending one more chunk appends its samples: what `result += chunk` does. */
  lemma {:induction false} ConcatSnoc(chunks: seq<Audio>, chunk: Audio)
    ensures Concat(chunks + [chunk]) == Concat(chunks) + chunk
    decreases |chunks|
  {
    if chunks != [] {
      assert (chunks + [chunk])[1..] == chunks[1..] + [chunk];
      ConcatSnoc(chunks[1..], chunk);
    } else {
      assert Concat([chunk]) == chunk + Concat([]);
    }
  }

  /** The result is exactly as long as all the chunks together. */
  lemma {:induction false} ConcatLength(chunks: seq<Audio>)
    ensures |Concat(chunks)| == TotalLength(chunks)
    decreases |chunks|
  {
    if chunks != [] {
      ConcatLength(chunks[1..]);
    }
  }

  /** Every chunk appears, unchanged, at its offset: the order of the chunks is kept. */
  lemma {:induction false} ChunkInPlace(chunks: seq<Audio>, i: nat)
    requires i < |chunks|
    ensures Offset(chunks, i) + |chunks[i]| <= |Concat(chunks)|
    ensures Concat(chunks)[Offset(chunks, i)..Offset(chunks, i) + |chunks[i]|] == chunks[i]
    decreases i
  {
    ConcatLength(chunks[1..]);
    if i > 0 {
      ChunkInPlace(chunks[1..], i - 1);
      assert chunks[..i][0] == chunks[0] && chunks[..i][1..] == chunks[1..][..i - 1];
      assert Offset(chunks, i) == |chunks[0]| + Offset(chunks[1..], i - 1);
    }
  }

  /** What `cut_silence` returns for a recording and the splitter's chunks. */
  function Reassembled(audio: Audio, chunks: seq<Audio>): Audio {
    if chunks == [] then audio else Concat(chunks)
  }

  /**
   * An empty split gives back the recording unchanged; otherwise the result is
   * as long as the chunks together and holds each chunk at its offset.
   */
  lemma ReassembledMeaning(audio: Audio, chunks: seq<Audio>)
    ensures chunks == [] ==> Reassembled(audio, chunks) == audio
    ensures chunks != [] ==> |Reassembled(audio, chunks)| == TotalLength(chunks)
    ensures forall i: nat :: i < |chunks| ==>
              Offset(chunks, i) + |chunks[i]| <= |Reassembled(audio, chunks)|
              && Reassembled(audio, chunks)[Offset(chunks, i)..Offset(chunks, i) + |chunks[i]|] == chunks[i]
  {
    ConcatLength(chunks);
    forall i: nat | i < |chunks|
      ensures Offset(chunks, i) + |chunks[i]| <= |Concat(chunks)|
      ensures Concat(chunks)[Offset(chunks, i)..Offset(chunks, i) + |chunks[i]|] == chunks[i]
    {
      ChunkInPlace(chunks, i);
    }
  }

  /**
   * `cut_silence(audio_path, ...)`. A load failure is re-raised with its
   * message; otherwise the chunks are accumulated one by one.
   */
  method CutSilence(
    audioPath: Path,
    params: SilenceParams,
    load: Path -> Result<Audio, string>,
    split: (Audio, SilenceParams) -> seq<Audio>
  ) returns (r: Result<Audio, string>)
    ensures load(audioPath).Failure? ==> r == Failure(load(audioPath).error)
    ensures load(audioPath).Success? ==>
              r == Success(Reassembled(load(audioPath).value, split(load(audioPath).value, params)))
  {
    var loaded := load(audioPath);
    if loaded.Failure? {
      return Failure(loaded.error);
    }
    var audio := loaded.value;
    var chunks := split(audio, params);
    if chunks == [] {
      return Success(audio);
    }
    var result: Audio := [];
    for i := 0 to |chunks|
      invariant result == Concat(chunks[..i])
    {
      ConcatSnoc(chunks[..i], chunks[i]);
      assert chunks[..i + 1] == chunks[..i] + [chunks[i]];
      result := result + chunks[i];
    }
    assert chunks[..|chunks|] == chunks;
    return Success(result);
  }
}
