/**
 * The string operations app.py uses to derive file names: `str(n)` for the
 * temporary file of each bitrate, `str.replace` for the output paths and
 * `str.rsplit(".", 1)` for the name of the download.
 */
module Naming {
  import opened Wrappers

  const WAV_EXT := ".wav"
  const MP3_EXT := ".mp3"
  const PROCESSED_WAV_SUFFIX := "_processed.wav"

  predicate EndsWith(s: string, suffix: string) {
    |suffix| <= |s| && s[|s| - |suffix|..] == suffix
  }

  // ---------------------------------------------------------------------------
  // str(n) for a non-negative integer

  predicate IsDigit(c: char) {
    '0' <= c <= '9'
  }

  function DigitChar(d: nat): (c: char)
    requires d < 10
    ensures IsDigit(c)
  {
    ('0' as int + d) as char
  }

  /** Python's `str(n)` for `n >= 0`: decimal digits, most significant first. */
  function NatToString(n: nat): (s: string)
    ensures |s| > 0
    ensures forall i :: 0 <= i < |s| ==> IsDigit(s[i])
    decreases n
  {
    if n < 10 then [DigitChar(n)] else NatToString(n / 10) + [DigitChar(n % 10)]
  }

  /** Python's `int(s)` on a string of decimal digits, the inverse of NatToString. */
  function ParseNat(s: string): nat
    requires forall i :: 0 <= i < |s| ==> IsDigit(s[i])
    decreases |s|
  {
    if s == [] then 0
    else ParseNat(s[..|s| - 1]) * 10 + DigitValue(s[|s| - 1])
  }

  function DigitValue(c: char): (d: nat)
    requires IsDigit(c)
    ensures d < 10
  {
    c as int - '0' as int
  }

  /** Reading back the digits of a number gives the number. */
  lemma {:induction false} ParseNatToString(n: nat)
    ensures ParseNat(NatToString(n)) == n
    decreases n
  {
    var s := NatToString(n);
    if n >= 10 {
      ParseNatToString(n / 10);
      assert s[..|s| - 1] == NatToString(n / 10);
    }
  }

  /** Distinct numbers have distinct decimal representations. */
  lemma NatToStringInjective(m: nat, n: nat)
    requires NatToString(m) == NatToString(n)
    ensures m == n
  {
    ParseNatToString(m);
    ParseNatToString(n);
  }

  // ---------------------------------------------------------------------------
  // str.replace(pat, rep): every non-overlapping occurrence, scanning left to right

  predicate OccursAt(s: string, pat: string, i: nat) {
    i + |pat| <= |s| && s[i..i + |pat|] == pat
  }

  /** An occurrence one place further on in `s` is an occurrence in `s[1..]`. */
  lemma OccursAtShift(s: string, pat: string, i: nat)
    requires s != []
    ensures OccursAt(s, pat, i + 1) <==> OccursAt(s[1..], pat, i)
  {
    if i + 1 + |pat| <= |s| {
      assert s[i + 1..i + 1 + |pat|] == s[1..][i..i + |pat|];
    }
  }

  /** Python's `s.replace(pat, rep)` for a non-empty `pat`. */
  function Replace(s: string, pat: string, rep: string): string
    requires pat != []
    decreases |s|
  {
    if |s| < |pat| then s
    else if s[..|pat|] == pat then rep + Replace(s[|pat|..], pat, rep)
    else [s[0]] + Replace(s[1..], pat, rep)
  }

  /** The number of occurrences `Replace` rewrites. */
  function Count(s: string, pat: string): nat
    requires pat != []
    decreases |s|
  {
    if |s| < |pat| then 0
    else if s[..|pat|] == pat then 1 + Count(s[|pat|..], pat)
    else Count(s[1..], pat)
  }

  /** `(c + 1) * k` split into `c * k + k`, kept apart so the step stays linear. */
  lemma MulSucc(c: nat, k: nat)
    ensures (c + 1) * k == c * k + k
  {
  }

  /** Each rewritten occurrence trades |pat| characters for |rep|. */
  lemma {:induction false} ReplaceLength(s: string, pat: string, rep: string)
    requires pat != []
    ensures |Replace(s, pat, rep)| + Count(s, pat) * |pat| == |s| + Count(s, pat) * |rep|
    decreases |s|
  {
    if |s| < |pat| {
    } else if s[..|pat|] == pat {
      var rest := s[|pat|..];
      ReplaceLength(rest, pat, rep);
      var c := Count(rest, pat);
      MulSucc(c, |pat|);
      MulSucc(c, |rep|);
    } else {
      ReplaceLength(s[1..], pat, rep);
    }
  }

  /** Some occurrence is rewritten exactly when `pat` occurs somewhere in `s`. */
  lemma {:induction false} CountPositiveIffOccurs(s: string, pat: string)
    requires pat != []
    ensures Count(s, pat) > 0 <==> exists i: nat :: OccursAt(s, pat, i)
    decreases |s|
  {
    if |s| < |pat| {
      forall i: nat ensures !OccursAt(s, pat, i) { }
    } else if s[..|pat|] == pat {
      assert OccursAt(s, pat, 0);
    } else {
      CountPositiveIffOccurs(s[1..], pat);
      if exists i: nat :: OccursAt(s, pat, i) {
        var i: nat :| OccursAt(s, pat, i);
        assert i != 0;
        OccursAtShift(s, pat, i - 1);
      }
      if exists i: nat :: OccursAt(s[1..], pat, i) {
        var i: nat :| OccursAt(s[1..], pat, i);
        OccursAtShift(s, pat, i);
      }
    }
  }

  /** Without an occurrence, replacing leaves the string as it is. */
  lemma {:induction false} ReplaceAbsent(s: string, pat: string, rep: string)
    requires pat != []
    requires Count(s, pat) == 0
    ensures Replace(s, pat, rep) == s
    decreases |s|
  {
    if |s| >= |pat| {
      ReplaceAbsent(s[1..], pat, rep);
    }
  }

  /**
   * A name that ends with `pat`, and has no other occurrence of it, has just
   * that suffix rewritten.
   */
  lemma {:induction false} ReplaceSuffix(stem: string, pat: string, rep: string)
    requires pat != []
    requires forall i: nat :: i < |stem| ==> !OccursAt(stem + pat, pat, i)
    ensures Replace(stem + pat, pat, rep) == stem + rep
    decreases |stem|
  {
    var s := stem + pat;
    if stem == [] {
      assert s[..|pat|] == pat && s[|pat|..] == [];
    } else {
      assert !OccursAt(s, pat, 0);
      assert s[1..] == stem[1..] + pat;
      forall i: nat | i < |stem[1..]|
        ensures !OccursAt(stem[1..] + pat, pat, i)
      {
        OccursAtShift(s, pat, i);
      }
      ReplaceSuffix(stem[1..], pat, rep);
    }
  }

  /** `output_path.replace('.wav', '.mp3')`: the background worker's MP3 name. */
  function Mp3Path(p: string): string {
    Replace(p, WAV_EXT, MP3_EXT)
  }

  /** `input_path.replace('.wav', '_processed.wav')`: the synchronous handler's output name. */
  function ProcessedWavPath(p: string): string {
    Replace(p, WAV_EXT, PROCESSED_WAV_SUFFIX)
  }

  /**
   * The input is a temporary file created with suffix ".wav", so its processed
   * name is strictly longer and never overwrites the input.
   */
  lemma ProcessedWavPathDiffers(p: string)
    requires EndsWith(p, WAV_EXT)
    ensures |ProcessedWavPath(p)| >= |p| + 10
    ensures ProcessedWavPath(p) != p
  {
    assert OccursAt(p, WAV_EXT, |p| - 4);
    CountPositiveIffOccurs(p, WAV_EXT);
    ReplaceLength(p, WAV_EXT, PROCESSED_WAV_SUFFIX);
  }

  /** A ".wav" name with no other ".wav" in it becomes the same name ending in ".mp3". */
  lemma Mp3PathOfWavName(stem: string)
    requires forall i: nat :: i < |stem| ==> !OccursAt(stem + WAV_EXT, WAV_EXT, i)
    ensures Mp3Path(stem + WAV_EXT) == stem + MP3_EXT
  {
    ReplaceSuffix(stem, WAV_EXT, MP3_EXT);
  }

  /** A path without ".wav" in it is its own MP3 name. */
  lemma Mp3PathWithoutWav(p: string)
    requires forall i: nat :: !OccursAt(p, WAV_EXT, i)
    ensures Mp3Path(p) == p
  {
    CountPositiveIffOccurs(p, WAV_EXT);
    ReplaceAbsent(p, WAV_EXT, MP3_EXT);
  }

  // ---------------------------------------------------------------------------
  // str.rsplit(".", 1) and the name of the download

  function LastIndexOf(s: string, c: char): (r: Option<nat>)
    ensures r.Some? ==> r.value < |s| && s[r.value] == c
    ensures r.Some? ==> forall j :: r.value < j < |s| ==> s[j] != c
    ensures r.None? ==> forall j :: 0 <= j < |s| ==> s[j] != c
    decreases |s|
  {
    if s == [] then None
    else if s[|s| - 1] == c then Some(|s| - 1)
    else LastIndexOf(s[..|s| - 1], c)
  }

  /** Python's `s.rsplit(".", 1)`: split at the last dot, if there is one. */
  function RSplitDot(s: string): (parts: seq<string>)
    ensures |parts| == 1 || |parts| == 2
  {
    match LastIndexOf(s, '.')
    case None => [s]
    case Some(i) => [s[..i], s[i + 1..]]
  }

  /** Python's `sep.join(parts)`. */
  function Join(sep: string, parts: seq<string>): string
    decreases |parts|
  {
    if parts == [] then []
    else if |parts| == 1 then parts[0]
    else parts[0] + sep + Join(sep, parts[1..])
  }

  /**
   * `".".join(s.rsplit(".", 1)) == s`; there are two pieces exactly when `s`
   * has a dot, and the last piece has none.
   */
  lemma RSplitDotJoin(s: string)
    ensures Join(".", RSplitDot(s)) == s
    ensures |RSplitDot(s)| == 2 <==> '.' in s
    ensures '.' !in RSplitDot(s)[|RSplitDot(s)| - 1]
  {
    var parts := RSplitDot(s);
    match LastIndexOf(s, '.')
    case None =>
    case Some(i) =>
      assert Join(".", parts[1..]) == s[i + 1..];
      assert s == s[..i] + "." + s[i + 1..];
  }

  /** `f"{filename.rsplit('.', 1)[0]}_processed.wav"`: the Content-Disposition name. */
  function DownloadName(filename: string): (name: string)
    ensures EndsWith(name, PROCESSED_WAV_SUFFIX)
  {
    RSplitDot(filename)[0] + PROCESSED_WAV_SUFFIX
  }

  /**
   * The download name is the uploaded name with its last extension (if any)
   * replaced by "_processed.wav".
   */
  lemma DownloadNameShape(filename: string)
    ensures var stem := DownloadName(filename)[..|DownloadName(filename)| - |PROCESSED_WAV_SUFFIX|];
            && ('.' !in filename ==> stem == filename)
            && ('.' in filename ==>
                  exists ext :: '.' !in ext && filename == stem + "." + ext)
  {
    RSplitDotJoin(filename);
    var parts := RSplitDot(filename);
    var stem := DownloadName(filename)[..|DownloadName(filename)| - |PROCESSED_WAV_SUFFIX|];
    assert stem == parts[0];
    if '.' in filename {
      assert Join(".", parts[1..]) == parts[1];
      assert filename == stem + "." + parts[1];
    }
  }
}
