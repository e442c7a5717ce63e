/**
 * `AudioMerger.merge`: concatenating the synthesized clips of a script into
 * one waveform, with a block of silence after each clip.
 *
 * Waveforms are sequences of an abstract sample type `S` with a zero value.
 * The disk is a map from path to decoded file (samples and sample rate), so
 * `os.path.exists` is membership, `sf.read` is lookup and `sf.write` is an
 * update of the map.
 */
module AudioMerger {
  import opened Wrappers

  /** A decoded audio file. */
  datatype Wave<S> = Wave(samples: seq<S>, rate: nat)

  /** The audio files on disk, by path. */
  type FileSystem<S> = map<string, Wave<S>>

  /** `np.zeros(n)`. */
  function Zeros<S>(zero: S, n: nat): (z: seq<S>)
    ensures |z| == n && forall i :: 0 <= i < n ==> z[i] == zero
  {
    seq(n, _ => zero)
  }

  /** `int(target_sr * silence_duration_ms / 1000)` for a positive duration. */
  function SilenceLen(rate: nat, ms: int): nat
    requires ms > 0
  {
    rate * ms / 1000
  }

  /**
   * The block inserted after a clip: `int(rate * ms / 1000)` zero samples
   * when the duration is positive, nothing otherwise.
   */
  function Gap<S>(zero: S, rate: nat, ms: int): (g: seq<S>)
    ensures |g| == if ms > 0 then rate * ms / 1000 else 0
    ensures forall i :: 0 <= i < |g| ==> g[i] == zero
  {
    if ms > 0 then Zeros(zero, SilenceLen(rate, ms)) else []
  }

  /** `np.concatenate`. */
  function Flatten<S>(bs: seq<seq<S>>): seq<S> {
    if bs == [] then [] else Flatten(bs[..|bs| - 1]) + bs[|bs| - 1]
  }

  lemma FlattenSnoc<S>(bs: seq<seq<S>>, b: seq<S>)
    ensures Flatten(bs + [b]) == Flatten(bs) + b
  {
    assert (bs + [b])[..|bs|] == bs;
  }

  // ---------------------------------------------------------------------------
  // The merge loop, as a fold over the list of paths
  // ---------------------------------------------------------------------------

  /** The rate of the first listed file that exists: `target_sr` after the loop. */
  function FirstRate<S>(files: seq<string>, fs: FileSystem<S>): Option<nat> {
    if files == [] then None
    else
      var n := |files| - 1;
      match FirstRate(files[..n], fs)
      case Some(r) => Some(r)
      case None => if files[n] in fs then Some(fs[files[n]].rate) else None
  }

  /**
   * The samples gathered by the first `k` turns of the loop, with silence
   * computed at `rate`: each existing file's samples, followed by a gap
   * unless the file sits at the last position of the list.
   */
  function Combined<S>(files: seq<string>, fs: FileSystem<S>, ms: int, zero: S, rate: nat, k: nat): seq<S>
    requires k <= |files|
  {
    if k == 0 then []
    else
      var i := k - 1;
      Combined(files, fs, ms, zero, rate, i) +
        if files[i] !in fs then []
        else fs[files[i]].samples + if i < |files| - 1 then Gap(zero, rate, ms) else []
  }

  /** What `merge` writes: `None` when no listed file exists. */
  function Merged<S>(files: seq<string>, fs: FileSystem<S>, ms: int, zero: S): Option<Wave<S>> {
    match FirstRate(files, fs)
    case None => None
    case Some(rate) => Some(Wave(Combined(files, fs, ms, zero, rate, |files|), rate))
  }

  /** Before the first existing file nothing has been gathered, whatever the rate. */
  lemma {:induction false} NothingBeforeFirst<S>(files: seq<string>, fs: FileSystem<S>, ms: int, zero: S, rate: nat, k: nat)
    requires k <= |files| && FirstRate(files[..k], fs).None?
    ensures Combined(files, fs, ms, zero, rate, k) == []
  {
    if k > 0 {
      assert files[..k][..k - 1] == files[..k - 1];
      NothingBeforeFirst(files, fs, ms, zero, rate, k - 1);
    }
  }

  /** One more turn of the loop fixes the target rate at the first existing file. */
  lemma FirstRateStep<S>(files: seq<string>, fs: FileSystem<S>, i: nat)
    requires i < |files|
    ensures FirstRate(files[..i + 1], fs) ==
      if FirstRate(files[..i], fs).Some? then FirstRate(files[..i], fs)
      else if files[i] in fs then Some(fs[files[i]].rate)
      else None
  {
    assert files[..i + 1][..i] == files[..i];
  }

  class AudioMerger {
    const silenceMs: int

    constructor (silenceMs: int := 500)
      ensures this.silenceMs == silenceMs
    {
      this.silenceMs := silenceMs;
    }

    /**
     * `merge`: read the listed files that exist, in order, with silence
     * after each one not in the last list position, and write the result
     * once at the first file's rate; write nothing when no file exists.
     * Only `outputPath` changes on disk.
     */
    method Merge<S>(files: seq<string>, fs: FileSystem<S>, zero: S, outputPath: string) returns (fsOut: FileSystem<S>)
      ensures Merged(files, fs, silenceMs, zero).None? ==> fsOut == fs
      ensures Merged(files, fs, silenceMs, zero).Some? ==> fsOut == fs[outputPath := Merged(files, fs, silenceMs, zero).value]
      ensures forall p :: p in fs && p != outputPath ==> p in fsOut && fsOut[p] == fs[p]
    {
      var combined: seq<seq<S>> := [];
      var targetSr: Option<nat> := None;
      for i := 0 to |files|
        invariant targetSr == FirstRate(files[..i], fs)
        invariant targetSr.None? <==> combined == []
        invariant targetSr.Some? ==> Flatten(combined) == Combined(files, fs, silenceMs, zero, targetSr.value, i)
      {
        FirstRateStep(files, fs, i);
        if files[i] !in fs {
          continue;
        }
        var wav := fs[files[i]];
        if targetSr.None? {
          NothingBeforeFirst(files, fs, silenceMs, zero, wav.rate, i);
          targetSr := Some(wav.rate);
        }
        FlattenSnoc(combined, wav.samples);
        combined := combined + [wav.samples];
        assert |combined| > 0;
        if i < |files| - 1 && silenceMs > 0 {
          var silence := Zeros(zero, SilenceLen(targetSr.value, silenceMs));
          FlattenSnoc(combined, silence);
          combined := combined + [silence];
        }
      }
      assert files[..|files|] == files;
      if combined != [] {
        fsOut := fs[outputPath := Wave(Flatten(combined), targetSr.value)];
      } else {
        fsOut := fs;
      }
    }

    /**
     * `merge` with silence only between the clips actually read: the gap
     * goes before every clip but the first, so none trails the last one.
     */
    method MergeIntended<S>(files: seq<string>, fs: FileSystem<S>, zero: S, outputPath: string) returns (fsOut: FileSystem<S>)
      ensures MergedIntended(files, fs, silenceMs, zero).None? ==> fsOut == fs
      ensures MergedIntended(files, fs, silenceMs, zero).Some? ==>
        fsOut == fs[outputPath := MergedIntended(files, fs, silenceMs, zero).value]
      ensures forall p :: p in fs && p != outputPath ==> p in fsOut && fsOut[p] == fs[p]
    {
      var combined: seq<seq<S>> := [];
      var targetSr: Option<nat> := None;
      for i := 0 to |files|
        invariant targetSr == FirstRate(files[..i], fs)
        invariant targetSr.None? <==> combined == []
        invariant Clips(files, fs, i) == [] <==> combined == []
        invariant targetSr.Some? ==>
          Flatten(combined) == Joined(Clips(files, fs, i), Gap(zero, targetSr.value, silenceMs))
      {
        FirstRateStep(files, fs, i);
        if files[i] !in fs {
          assert Clips(files, fs, i + 1) == Clips(files, fs, i) + [];
          assert Clips(files, fs, i + 1) == Clips(files, fs, i);
          continue;
        }
        var wav := fs[files[i]];
        assert Clips(files, fs, i + 1) == Clips(files, fs, i) + [wav.samples];
        if targetSr.None? {
          targetSr := Some(wav.rate);
          JoinedSnoc([], wav.samples, Gap(zero, wav.rate, silenceMs));
          FlattenSnoc([], wav.samples);
          assert [] + [wav.samples] == [wav.samples];
          combined := [wav.samples];
          assert Flatten(combined) == wav.samples;
          assert Clips(files, fs, i + 1) == [wav.samples];
        } else {
          var gap := Gap(zero, targetSr.value, silenceMs);
          JoinedSnoc(Clips(files, fs, i), wav.samples, gap);
          combined := AppendClip(combined, gap, wav.samples, silenceMs > 0);
          assert Flatten(combined) == Joined(Clips(files, fs, i + 1), gap);
        }
      }
      assert files[..|files|] == files;
      if combined != [] {
        fsOut := fs[outputPath := Wave(Flatten(combined), targetSr.value)];
      } else {
        fsOut := fs;
      }
    }
  }

  /** Append a clip, preceded by the silence block when there is one. */
  method AppendClip<S>(blocks: seq<seq<S>>, gap: seq<S>, clip: seq<S>, withGap: bool) returns (out: seq<seq<S>>)
    requires withGap || gap == []
    ensures out != []
    ensures Flatten(out) == Flatten(blocks) + gap + clip
  {
    out := blocks;
    if withGap {
      FlattenSnoc(out, gap);
      out := out + [gap];
    }
    FlattenSnoc(out, clip);
    out := out + [clip];
  }

  // ---------------------------------------------------------------------------
  // Properties of the merged waveform
  // ---------------------------------------------------------------------------

  /** The index of the first listed file that exists, or the number of files. */
  function FirstExisting<S>(files: seq<string>, fs: FileSystem<S>): (k: nat)
    ensures k <= |files|
    ensures forall i :: 0 <= i < k ==> files[i] !in fs
    ensures k < |files| ==> files[k] in fs
  {
    if files == [] then 0
    else
      var n := |files| - 1;
      var k := FirstExisting(files[..n], fs);
      assert forall i :: 0 <= i < k ==> files[..n][i] == files[i];
      if k < n then k else if files[n] in fs then n else n + 1
  }

  /**
   * The target rate is the rate of the first listed file that exists; later
   * files never change it, whatever their own rate.
   */
  lemma {:induction false} FirstRateIsFirstFile<S>(files: seq<string>, fs: FileSystem<S>)
    ensures var k := FirstExisting(files, fs);
      FirstRate(files, fs) == if k < |files| then Some(fs[files[k]].rate) else None
  {
    if files != [] {
      var n := |files| - 1;
      var pre := files[..n];
      FirstRateIsFirstFile(pre, fs);
      var k := FirstExisting(pre, fs);
      if k < n {
        assert pre[k] == files[k];
      }
    }
  }

  /** Total length of the existing files among the first `k`. */
  function ClipTotal<S>(files: seq<string>, fs: FileSystem<S>, k: nat): nat
    requires k <= |files|
  {
    if k == 0 then 0
    else ClipTotal(files, fs, k - 1) + if files[k - 1] in fs then |fs[files[k - 1]].samples| else 0
  }

  /** How many of the first `k` files exist and are not in the last list position. */
  function GapCount<S>(files: seq<string>, fs: FileSystem<S>, k: nat): nat
    requires k <= |files|
  {
    if k == 0 then 0
    else GapCount(files, fs, k - 1) + if files[k - 1] in fs && k - 1 < |files| - 1 then 1 else 0
  }

  /**
   * The output length is the total length of the clips read plus one
   * silence block per existing file that is not in the last position.
   */
  lemma {:induction false} CombinedLength<S>(files: seq<string>, fs: FileSystem<S>, ms: int, zero: S, rate: nat, k: nat)
    requires k <= |files|
    ensures |Combined(files, fs, ms, zero, rate, k)| ==
      ClipTotal(files, fs, k) + GapCount(files, fs, k) * |Gap(zero, rate, ms)|
  {
    if k > 0 {
      CombinedLength(files, fs, ms, zero, rate, k - 1);
      var g, n := |Gap(zero, rate, ms)|, GapCount(files, fs, k - 1);
      if files[k - 1] in fs && k - 1 < |files| - 1 {
        MulSucc(n, g);
      }
    }
  }

  lemma MulSucc(n: nat, g: nat)
    ensures (n + 1) * g == n * g + g
  {
  }

  lemma MergedLength<S>(files: seq<string>, fs: FileSystem<S>, ms: int, zero: S)
    requires Merged(files, fs, ms, zero).Some?
    ensures var w := Merged(files, fs, ms, zero).value;
      |w.samples| == ClipTotal(files, fs, |files|) +
        if ms > 0 then GapCount(files, fs, |files|) * SilenceLen(w.rate, ms) else 0
  {
    CombinedLength(files, fs, ms, zero, FirstRate(files, fs).value, |files|);
  }

  /** The existing files' samples among the first `k`, in list order. */
  function Clips<S>(files: seq<string>, fs: FileSystem<S>, k: nat): seq<seq<S>>
    requires k <= |files|
  {
    if k == 0 then []
    else Clips(files, fs, k - 1) + if files[k - 1] in fs then [fs[files[k - 1]].samples] else []
  }

  /** With a duration of zero or less the output is just the clips read, in order. */
  lemma {:induction false} NoSilenceJustClips<S>(files: seq<string>, fs: FileSystem<S>, ms: int, zero: S, rate: nat, k: nat)
    requires ms <= 0 && k <= |files|
    ensures Combined(files, fs, ms, zero, rate, k) == Flatten(Clips(files, fs, k))
  {
    if k > 0 {
      NoSilenceJustClips(files, fs, ms, zero, rate, k - 1);
      var prev := Clips(files, fs, k - 1);
      if files[k - 1] in fs {
        var clip := fs[files[k - 1]].samples;
        FlattenSnoc(prev, clip);
        assert Clips(files, fs, k) == prev + [clip];
        assert Combined(files, fs, ms, zero, rate, k) == Combined(files, fs, ms, zero, rate, k - 1) + clip;
      } else {
        assert Clips(files, fs, k) == prev;
      }
    }
  }

  /** Two existing files become the first, a silence block at the first's rate, and the second. */
  lemma TwoClips<S>(a: string, b: string, fs: FileSystem<S>, ms: int, zero: S)
    requires a in fs && b in fs && ms > 0
    ensures Merged([a, b], fs, ms, zero) ==
      Some(Wave(fs[a].samples + Zeros(zero, SilenceLen(fs[a].rate, ms)) + fs[b].samples, fs[a].rate))
  {
    var files := [a, b];
    FirstOfTwo(a, b, fs);
    var rate := fs[a].rate;
    var gap := Zeros(zero, SilenceLen(rate, ms));
    assert Combined(files, fs, ms, zero, rate, 1) == [] + (fs[a].samples + gap);
    assert Combined(files, fs, ms, zero, rate, 2) == Combined(files, fs, ms, zero, rate, 1) + (fs[b].samples + []);
    assert Combined(files, fs, ms, zero, rate, 2) == fs[a].samples + gap + fs[b].samples;
  }

  /** With the first of two files present, the target rate is its rate. */
  lemma FirstOfTwo<S>(a: string, b: string, fs: FileSystem<S>)
    requires a in fs
    ensures FirstRate([a, b], fs) == Some(fs[a].rate)
  {
    assert [a][..0] == [];
    assert FirstRate([a], fs) == Some(fs[a].rate);
    assert [a, b][..1] == [a];
  }

  /** Writing nothing: no listed file exists, the empty list included. */
  lemma NothingToMerge<S>(files: seq<string>, fs: FileSystem<S>, ms: int, zero: S)
    ensures Merged(files, fs, ms, zero).None? <==> forall i :: 0 <= i < |files| ==> files[i] !in fs
  {
    FirstRateIsFirstFile(files, fs);
    var k := FirstExisting(files, fs);
    if k < |files| {
      assert files[k] in fs;
    }
  }

  // ---------------------------------------------------------------------------
  // Silence only between clips
  // ---------------------------------------------------------------------------

  /** Clips joined with `gap` between consecutive ones and nowhere else. */
  function Joined<S>(clips: seq<seq<S>>, gap: seq<S>): seq<S> {
    if clips == [] then []
    else if |clips| == 1 then clips[0]
    else Joined(clips[..|clips| - 1], gap) + gap + clips[|clips| - 1]
  }

  lemma JoinedSnoc<S>(clips: seq<seq<S>>, clip: seq<S>, gap: seq<S>)
    ensures Joined(clips + [clip], gap) == if clips == [] then clip else Joined(clips, gap) + gap + clip
  {
    if clips == [] {
      assert [] + [clip] == [clip];
    } else {
      assert (clips + [clip])[..|clips|] == clips;
    }
  }

  /** The waveform the comment at the silence insertion describes: silence between clips, never after the last. */
  function MergedIntended<S>(files: seq<string>, fs: FileSystem<S>, ms: int, zero: S): Option<Wave<S>> {
    match FirstRate(files, fs)
    case None => None
    case Some(rate) => Some(Wave(Joined(Clips(files, fs, |files|), Gap(zero, rate, ms)), rate))
  }

  /**
   * A file missing from the last list position leaves a silence block after
   * the last clip: the output is the intended one followed by one gap.
   */
  lemma TrailingSilence<S>(files: seq<string>, fs: FileSystem<S>, ms: int, zero: S)
    requires files != [] && files[|files| - 1] !in fs && Merged(files, fs, ms, zero).Some?
    ensures MergedIntended(files, fs, ms, zero).Some?
    ensures var w := Merged(files, fs, ms, zero).value;
      w.rate == MergedIntended(files, fs, ms, zero).value.rate &&
      w.samples == MergedIntended(files, fs, ms, zero).value.samples + Gap(zero, w.rate, ms)
  {
    var n := |files| - 1;
    var rate := FirstRate(files, fs).value;
    FirstRateIsFirstFile(files, fs);
    var k := FirstExisting(files, fs);
    assert k < n;
    ClipsNonEmpty(files, fs, n, k);
    CombinedBeforeLast(files, fs, ms, zero, rate, n);
    var clips := Clips(files, fs, n);
    var gap := Gap(zero, rate, ms);
    assert clips != [];
    assert Combined(files, fs, ms, zero, rate, n) == Joined(clips, gap) + gap;
    assert Clips(files, fs, n + 1) == clips + [];
    assert clips + [] == clips;
    assert Combined(files, fs, ms, zero, rate, n + 1) == Combined(files, fs, ms, zero, rate, n) + [];
    assert Merged(files, fs, ms, zero).value.samples == Joined(clips, gap) + gap;
    assert MergedIntended(files, fs, ms, zero).value.samples == Joined(clips, gap);
  }

  /** The smallest case: `[a, b]` with `a` present and `b` missing gives `a` and then silence. */
  lemma TwoFilesLastMissing<S>(a: string, b: string, fs: FileSystem<S>, ms: int, zero: S)
    requires a in fs && b !in fs && ms > 0
    ensures Merged([a, b], fs, ms, zero) == Some(Wave(fs[a].samples + Zeros(zero, SilenceLen(fs[a].rate, ms)), fs[a].rate))
    ensures MergedIntended([a, b], fs, ms, zero) == Some(Wave(fs[a].samples, fs[a].rate))
    ensures SilenceLen(fs[a].rate, ms) > 0 ==> Merged([a, b], fs, ms, zero) != MergedIntended([a, b], fs, ms, zero)
  {
    var files := [a, b];
    FirstOfTwo(a, b, fs);
    var rate := fs[a].rate;
    var gap := Zeros(zero, SilenceLen(rate, ms));
    assert Combined(files, fs, ms, zero, rate, 1) == [] + (fs[a].samples + gap);
    assert Combined(files, fs, ms, zero, rate, 2) == Combined(files, fs, ms, zero, rate, 1) + [];
    assert Clips(files, fs, 1) == [] + [fs[a].samples];
    assert Clips(files, fs, 2) == Clips(files, fs, 1) + [];
    assert Combined(files, fs, ms, zero, rate, 2) == fs[a].samples + gap;
    assert Joined([fs[a].samples], gap) == fs[a].samples;
    if SilenceLen(rate, ms) > 0 {
      assert |fs[a].samples + gap| > |fs[a].samples|;
    }
  }

  lemma {:induction false} JoinedLength<S>(clips: seq<seq<S>>, gap: seq<S>, total: nat)
    requires total == |Flatten(clips)|
    ensures |Joined(clips, gap)| == total + (if clips == [] then 0 else (|clips| - 1) * |gap|)
  {
    if |clips| > 1 {
      var n := |clips| - 1;
      JoinedLength(clips[..n], gap, |Flatten(clips[..n])|);
    } else if |clips| == 1 {
      assert clips[..0] == [];
    }
  }

  /**
   * Before the last list position, the as-written loop has produced the
   * clips joined by gaps plus one gap after the latest clip.
   */
  lemma {:induction false} CombinedBeforeLast<S>(files: seq<string>, fs: FileSystem<S>, ms: int, zero: S, rate: nat, k: nat)
    requires k < |files|
    ensures BeforeLast(files, fs, ms, zero, rate, k)
  {
    if k > 0 {
      CombinedBeforeLast(files, fs, ms, zero, rate, k - 1);
      BeforeLastStep(files, fs, ms, zero, rate, k);
    }
  }

  /** The shape `CombinedBeforeLast` states for the first `k` positions. */
  ghost predicate BeforeLast<S>(files: seq<string>, fs: FileSystem<S>, ms: int, zero: S, rate: nat, k: nat)
    requires k <= |files|
  {
    var clips := Clips(files, fs, k);
    Combined(files, fs, ms, zero, rate, k) ==
      if clips == [] then [] else Joined(clips, Gap(zero, rate, ms)) + Gap(zero, rate, ms)
  }

  /** One position more keeps the shape, as long as it is not the last one. */
  lemma BeforeLastStep<S>(files: seq<string>, fs: FileSystem<S>, ms: int, zero: S, rate: nat, k: nat)
    requires 0 < k < |files| && BeforeLast(files, fs, ms, zero, rate, k - 1)
    ensures BeforeLast(files, fs, ms, zero, rate, k)
  {
    var clips := Clips(files, fs, k - 1);
    var gap := Gap(zero, rate, ms);
    var prev := Combined(files, fs, ms, zero, rate, k - 1);
    if files[k - 1] in fs {
      var clip := fs[files[k - 1]].samples;
      assert Clips(files, fs, k) == clips + [clip];
      assert Combined(files, fs, ms, zero, rate, k) == prev + (clip + gap);
      GapStep(prev, clips, clip, gap);
    } else {
      assert Clips(files, fs, k) == clips;
      assert Combined(files, fs, ms, zero, rate, k) == prev + [];
    }
  }

  /** One more clip, and the gap after it, extend the joined clips by one. */
  lemma GapStep<S>(prev: seq<S>, clips: seq<seq<S>>, clip: seq<S>, gap: seq<S>)
    requires prev == if clips == [] then [] else Joined(clips, gap) + gap
    ensures prev + (clip + gap) == Joined(clips + [clip], gap) + gap
  {
    JoinedSnoc(clips, clip, gap);
    if clips == [] {
      assert prev + (clip + gap) == clip + gap;
    } else {
      var j := Joined(clips, gap);
      assert Joined(clips + [clip], gap) == j + gap + clip;
      assert (j + gap) + (clip + gap) == ((j + gap) + clip) + gap;
    }
  }

  /** As soon as one listed file exists there is a target rate. */
  lemma RateWhenSomeExists<S>(files: seq<string>, fs: FileSystem<S>, j: nat)
    requires j < |files| && files[j] in fs
    ensures FirstRate(files, fs).Some?
  {
    FirstRateIsFirstFile(files, fs);
    var k := FirstExisting(files, fs);
    assert k <= j;
  }

  /** The as-written merge and the intended one agree whenever the last listed file exists. */
  lemma AgreeWhenLastExists<S>(files: seq<string>, fs: FileSystem<S>, ms: int, zero: S)
    requires files != [] && files[|files| - 1] in fs
    ensures Merged(files, fs, ms, zero) == MergedIntended(files, fs, ms, zero)
  {
    var n := |files| - 1;
    RateWhenSomeExists(files, fs, n);
    var rate := FirstRate(files, fs).value;
    CombinedBeforeLast(files, fs, ms, zero, rate, n);
    var clips := Clips(files, fs, n);
    var clip := fs[files[n]].samples;
    var gap := Gap(zero, rate, ms);
    assert Clips(files, fs, n + 1) == clips + [clip];
    assert Combined(files, fs, ms, zero, rate, n + 1) == Combined(files, fs, ms, zero, rate, n) + (clip + []);
    if clips == [] {
      assert [] + [clip] == [clip];
      assert Joined([clip], gap) == clip;
      assert Combined(files, fs, ms, zero, rate, n + 1) == clip;
    } else {
      assert (clips + [clip])[..|clips|] == clips;
      assert Joined(clips + [clip], gap) == Joined(clips, gap) + gap + clip;
      assert Combined(files, fs, ms, zero, rate, n + 1) == Joined(clips + [clip], gap);
    }
  }

  /**
   * The intended merge ends with the last clip read, and its length is the
   * clips' total plus one silence block per pair of consecutive clips.
   */
  lemma IntendedShape<S>(files: seq<string>, fs: FileSystem<S>, ms: int, zero: S)
    requires MergedIntended(files, fs, ms, zero).Some?
    ensures var w := MergedIntended(files, fs, ms, zero).value; var clips := Clips(files, fs, |files|);
      clips != [] &&
      |clips[|clips| - 1]| <= |w.samples| &&
      w.samples[|w.samples| - |clips[|clips| - 1]|..] == clips[|clips| - 1] &&
      |w.samples| == |Flatten(clips)| + (|clips| - 1) * |Gap(zero, w.rate, ms)|
  {
    FirstRateIsFirstFile(files, fs);
    var clips := Clips(files, fs, |files|);
    ClipsNonEmpty(files, fs, |files|, FirstExisting(files, fs));
    var w := MergedIntended(files, fs, ms, zero).value;
    JoinedLength(clips, Gap(zero, w.rate, ms), |Flatten(clips)|);
  }

  /** A file that exists among the first `k` contributes a clip, so the clips read are not empty. */
  lemma {:induction false} ClipsNonEmpty<S>(files: seq<string>, fs: FileSystem<S>, k: nat, j: nat)
    requires j < k <= |files| && files[j] in fs
    ensures |Clips(files, fs, k)| > 0
  {
    var prev := Clips(files, fs, k - 1);
    assert |Clips(files, fs, k)| >= |prev|;
    if j < k - 1 {
      ClipsNonEmpty(files, fs, k - 1, j);
    } else {
      assert Clips(files, fs, k) == prev + [fs[files[j]].samples];
    }
  }
}
