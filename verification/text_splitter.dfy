/**
 * The text segmenter (`TextSplitter` in text_splitter.py): cuts an over-long
 * dialogue text into chunks of at most `max_chars` characters, first at runs of
 * sentence terminators, then greedily packing sentences, and hard-cutting any
 * sentence that is still too long; then replaces each over-long dialogue line by
 * numbered segment copies.
 *
 * The splitter's only state is the constant `max_chars`, passed here as
 * `maxChars`. Python's `len` counts code points; a Dafny `string` is a sequence
 * of Unicode scalar values, so lengths agree.
 */
module TextSplitter {
  import opened Wrappers
  import opened PyText
  import opened JsonValues

  /** The boundary class `[。！？！？.!?]` (the full-width marks are listed twice in the source). */
  predicate IsTerminator(c: char) {
    c == '\U{3002}' || c == '\U{ff01}' || c == '\U{ff1f}' || c == '.' || c == '!' || c == '?'
  }

  function Concat(ss: seq<string>): string {
    if ss == [] then [] else ss[0] + Concat(ss[1..])
  }

  lemma {:induction false} ConcatAppend(a: seq<string>, b: seq<string>)
    ensures Concat(a + b) == Concat(a) + Concat(b)
  {
    if a == [] {
      assert a + b == b;
    } else {
      assert (a + b)[1..] == a[1..] + b;
      ConcatAppend(a[1..], b);
    }
  }

  // ---------------------------------------------------------------------------
  // Sentences: `boundary_pattern.split(text)` and the re-pairing loop
  // ---------------------------------------------------------------------------

  /** Index of the first terminator at or after `i`, or `|s|`. */
  function NextTerminator(s: string, i: nat): (t: nat)
    requires i <= |s|
    ensures i <= t <= |s|
    ensures forall k :: i <= k < t ==> !IsTerminator(s[k])
    ensures t < |s| ==> IsTerminator(s[t])
    decreases |s| - i
  {
    if i == |s| || IsTerminator(s[i]) then i else NextTerminator(s, i + 1)
  }

  /** End of the run of terminators that starts at `i` (the greedy `+`). */
  function RunEnd(s: string, i: nat): (e: nat)
    requires i <= |s|
    ensures i <= e <= |s|
    ensures forall k :: i <= k < e ==> IsTerminator(s[k])
    ensures e < |s| ==> !IsTerminator(s[e])
    decreases |s| - i
  {
    if i < |s| && IsTerminator(s[i]) then RunEnd(s, i + 1) else i
  }

  /**
   * The pieces `parts[i] + parts[i+1]` that the pairing loop builds from
   * `re.split('([。！？！？.!?]+)', text)`: the text cut right after every
   * maximal run of terminators. The last piece is the tail after the last run
   * (possibly empty), as `re.split` always ends with that tail.
   */
  function SplitPieces(text: string): (ps: seq<string>)
    ensures |ps| >= 1
    decreases |text|
  {
    var t := NextTerminator(text, 0);
    if t == |text| then [text]
    else
      var e := RunEnd(text, t);
      [text[..e]] + SplitPieces(text[e..])
  }

  /** A sentence closed by a run of terminators: inside it, terminators only form that final run. */
  predicate Terminated(p: string) {
    p != [] && IsTerminator(p[|p| - 1]) &&
    forall i :: 0 <= i < |p| - 1 && IsTerminator(p[i]) ==> IsTerminator(p[i + 1])
  }

  predicate NoTerminator(p: string) {
    forall i :: 0 <= i < |p| ==> !IsTerminator(p[i])
  }

  predicate StartsPlain(p: string) {
    p == [] || !IsTerminator(p[0])
  }

  /**
   * What makes a sequence of pieces the sentence split of a text: every piece
   * but the last is closed by its terminator run, that run is maximal (the
   * next piece does not start with a terminator), and the last piece, the
   * tail, holds no terminator.
   */
  predicate SentenceShaped(ps: seq<string>)
    requires |ps| >= 1
  {
    (forall k :: 0 <= k < |ps| - 1 ==> Terminated(ps[k])) &&
    (forall k :: 0 < k < |ps| ==> StartsPlain(ps[k])) &&
    NoTerminator(ps[|ps| - 1])
  }

  /**
   * The split loses nothing and keeps each sentence's terminator run attached
   * to it.
   */
  lemma SplitPiecesShape(text: string)
    ensures Concat(SplitPieces(text)) == text
    ensures SentenceShaped(SplitPieces(text))
  {
    SplitPiecesSpell(text);
    SplitPiecesShaped(text);
  }

  lemma {:induction false} SplitPiecesSpell(text: string)
    ensures Concat(SplitPieces(text)) == text
    decreases |text|
  {
    var ps := SplitPieces(text);
    var t := NextTerminator(text, 0);
    if t == |text| {
      assert ps == [text];
      assert Concat(ps) == text + Concat([]);
    } else {
      var e := RunEnd(text, t);
      var head := text[..e];
      var rest := SplitPieces(text[e..]);
      SplitPiecesSpell(text[e..]);
      assert ps[0] == head && ps[1..] == rest;
      assert Concat(ps) == head + Concat(rest);
      assert text == head + text[e..];
    }
  }

  lemma {:induction false} SplitPiecesShaped(text: string)
    ensures SentenceShaped(SplitPieces(text))
    decreases |text|
  {
    var t := NextTerminator(text, 0);
    if t < |text| {
      var e := RunEnd(text, t);
      var rest := SplitPieces(text[e..]);
      SplitPiecesShaped(text[e..]);
      RunTerminated(text, t, e);
      FirstPiecePrefix(text[e..]);
      if rest[0] != [] {
        assert rest[0][0] == text[e];
      }
      ShapedCons(text[..e], rest);
    }
  }

  /** The text up to the end of its first terminator run is a terminated sentence. */
  lemma RunTerminated(text: string, t: nat, e: nat)
    requires t == NextTerminator(text, 0) && t < |text| && e == RunEnd(text, t)
    ensures Terminated(text[..e])
  {
    var head := text[..e];
    forall i | 0 <= i < |head| - 1 && IsTerminator(head[i])
      ensures IsTerminator(head[i + 1])
    {
      assert i >= t;
    }
  }

  /** The first piece is a prefix of the text. */
  lemma FirstPiecePrefix(x: string)
    ensures |SplitPieces(x)[0]| <= |x| && SplitPieces(x)[0] == x[..|SplitPieces(x)[0]|]
  {
  }

  /** A terminated sentence followed by a split whose first piece starts plain is a split. */
  lemma ShapedCons(head: string, rest: seq<string>)
    requires Terminated(head) && |rest| >= 1 && SentenceShaped(rest) && StartsPlain(rest[0])
    ensures SentenceShaped([head] + rest)
  {
    var ps := [head] + rest;
    forall k | 0 <= k < |ps| - 1 ensures Terminated(ps[k]) {
      if k > 0 { assert ps[k] == rest[k - 1]; }
    }
    forall k | 0 < k < |ps| ensures StartsPlain(ps[k]) {
      assert ps[k] == rest[k - 1];
    }
    assert ps[|ps| - 1] == rest[|rest| - 1];
  }



  /** The `if sentence.strip()` filter of the pairing loop. */
  function KeepNonBlank(ps: seq<string>): (ss: seq<string>)
    ensures forall k :: 0 <= k < |ss| ==> Strip(ss[k]) != []
  {
    if ps == [] then []
    else (if Strip(ps[0]) != [] then [ps[0]] else []) + KeepNonBlank(ps[1..])
  }

  lemma {:induction false} KeepNonBlankAppend(a: seq<string>, b: seq<string>)
    ensures KeepNonBlank(a + b) == KeepNonBlank(a) + KeepNonBlank(b)
  {
    if a == [] {
      assert a + b == b;
    } else {
      assert (a + b)[1..] == a[1..] + b;
      KeepNonBlankAppend(a[1..], b);
    }
  }

  /** The `sentences` list that `split_text` packs. */
  function Sentences(text: string): seq<string> {
    KeepNonBlank(SplitPieces(text))
  }

  /** Start of the tail that follows the last terminator (0 if there is none). */
  function TailStart(s: string): (t: nat)
    ensures t <= |s|
    ensures forall k :: t <= k < |s| ==> !IsTerminator(s[k])
    ensures t > 0 ==> IsTerminator(s[t - 1])
  {
    if s == [] then 0
    else if IsTerminator(s[|s| - 1]) then |s|
    else TailStart(s[..|s| - 1])
  }

  /** The text without its tail when that tail is whitespace only: what the chunks spell out. */
  function KeptText(text: string): string {
    var t := TailStart(text);
    if IsBlank(text[t..]) then text[..t] else text
  }

  lemma {:induction false} TailStartAfter(s: string, e: nat)
    requires 1 <= e <= |s| && IsTerminator(s[e - 1])
    ensures TailStart(s) == e + TailStart(s[e..])
    decreases |s|
  {
    if |s| == e {
      assert s[e..] == [];
    } else if IsTerminator(s[|s| - 1]) {
      assert s[e..][|s[e..]| - 1] == s[|s| - 1];
    } else {
      var s' := s[..|s| - 1];
      TailStartAfter(s', e);
      assert s'[e..] == s[e..][..|s[e..]| - 1];
      assert s[e..][|s[e..]| - 1] == s[|s| - 1];
    }
  }

  lemma KeptTextAfter(text: string, e: nat)
    requires 1 <= e <= |text| && IsTerminator(text[e - 1])
    ensures KeptText(text) == text[..e] + KeptText(text[e..])
  {
    TailStartAfter(text, e);
    var u := text[e..];
    var t' := TailStart(u);
    KeptTextAt(text, e + t');
    KeptTextAt(u, t');
    SliceSplit(text, e, t');
  }

  /** Slicing at `a + b` is slicing at `a`, then at `b` in what follows. */
  lemma SliceSplit(x: string, a: nat, b: nat)
    requires a + b <= |x|
    ensures x[..a + b] == x[..a] + x[a..][..b]
    ensures x[a + b..] == x[a..][b..]
    ensures x == x[..a] + x[a..]
  {
  }

  lemma KeptTextAt(text: string, t: nat)
    requires t == TailStart(text)
    ensures KeptText(text) == if IsBlank(text[t..]) then text[..t] else text
  {
  }

  lemma KeptTextPlain(text: string)
    requires NextTerminator(text, 0) == |text|
    ensures KeptText(text) == if Strip(text) == [] then [] else text
  {
    assert TailStart(text) == 0 by {
      if TailStart(text) > 0 {
        assert IsTerminator(text[TailStart(text) - 1]);
      }
    }
    assert text[0..] == text && text[..0] == [];
    StripEmptyIffBlank(text);
  }

  /**
   * The sentences, joined, give back the text minus a whitespace-only tail
   * after the last terminator run.
   */
  lemma {:induction false} SentencesSpellKeptText(text: string)
    ensures Concat(Sentences(text)) == KeptText(text)
    decreases |text|
  {
    var t := NextTerminator(text, 0);
    if t == |text| {
      KeptTextPlain(text);
      assert SplitPieces(text) == [text];
      assert KeepNonBlank([text]) == (if Strip(text) != [] then [text] else []) + KeepNonBlank([]);
      assert Concat([text]) == text + Concat([]);
    } else {
      var e := RunEnd(text, t);
      var head := text[..e];
      var rest := SplitPieces(text[e..]);
      assert SplitPieces(text) == [head] + rest;
      assert Strip(head) != [] by {
        StripEmptyIffBlank(head);
        assert !IsSpace(head[e - 1]);
      }
      KeepNonBlankAppend([head], rest);
      assert KeepNonBlank([head]) == [head] + KeepNonBlank([]);
      SentencesSpellKeptText(text[e..]);
      ConcatAppend([head], KeepNonBlank(rest));
      assert Concat([head]) == head + Concat([]);
      KeptTextAfter(text, e);
    }
  }

  // ---------------------------------------------------------------------------
  // Packing sentences into chunks
  // ---------------------------------------------------------------------------

  /** The pieces the inner `while len(s) > max_chars` loop appends: all but the remainder. */
  function HardCut(s: string, maxChars: nat): seq<string>
    requires maxChars > 0
    decreases |s|
  {
    if |s| > maxChars then [s[..maxChars]] + HardCut(s[maxChars..], maxChars) else []
  }

  /** What is left of `s` when the hard-cut loop stops. */
  function Remainder(s: string, maxChars: nat): string
    requires maxChars > 0
    decreases |s|
  {
    if |s| > maxChars then Remainder(s[maxChars..], maxChars) else s
  }

  lemma {:induction false} HardCutShape(s: string, maxChars: nat)
    requires maxChars > 0
    ensures Concat(HardCut(s, maxChars)) + Remainder(s, maxChars) == s
    ensures |Remainder(s, maxChars)| <= maxChars
    ensures |s| > maxChars ==> HardCut(s, maxChars) != []
    ensures forall k :: 0 <= k < |HardCut(s, maxChars)| ==> |HardCut(s, maxChars)[k]| == maxChars
  {
    HardCutSpells(s, maxChars);
    HardCutSizes(s, maxChars);
  }

  /** The cut pieces followed by the remainder spell the sentence. */
  lemma {:induction false} HardCutSpells(s: string, maxChars: nat)
    requires maxChars > 0
    ensures Concat(HardCut(s, maxChars)) + Remainder(s, maxChars) == s
    decreases |s|
  {
    if |s| > maxChars {
      var head, tl := s[..maxChars], s[maxChars..];
      assert s == head + tl;
      HardCutSpells(tl, maxChars);
      var cut, rest := HardCut(s, maxChars), HardCut(tl, maxChars);
      var c, r := Concat(rest), Remainder(tl, maxChars);
      assert Remainder(s, maxChars) == r;
      assert cut[0] == head && cut[1..] == rest;
      assert Concat(cut) == head + c;
      SpellStep(s, head, tl, c, r);
    } else {
      assert Concat([]) + s == s;
    }
  }

  lemma AppendAssoc<T>(x: seq<T>, y: seq<T>, z: seq<T>)
    ensures (x + y) + z == x + (y + z)
  {
  }

  lemma SpellStep(s: string, head: string, tl: string, c: string, r: string)
    requires s == head + tl && c + r == tl
    ensures (head + c) + r == s
  {
    assert (head + c) + r == head + (c + r);
  }

  /** Every cut piece is exactly `maxChars` long, and what remains is no longer. */
  lemma {:induction false} HardCutSizes(s: string, maxChars: nat)
    requires maxChars > 0
    ensures |Remainder(s, maxChars)| <= maxChars
    ensures |s| > maxChars ==> HardCut(s, maxChars) != []
    ensures forall k :: 0 <= k < |HardCut(s, maxChars)| ==> |HardCut(s, maxChars)[k]| == maxChars
    decreases |s|
  {
    if |s| > maxChars {
      var tl := s[maxChars..];
      HardCutSizes(tl, maxChars);
      var cut, rest := HardCut(s, maxChars), HardCut(tl, maxChars);
      assert cut == [s[..maxChars]] + rest;
      forall k | 0 <= k < |cut| ensures |cut[k]| == maxChars {
        if k > 0 {
          assert cut[k] == rest[k - 1];
        }
      }
    }
  }

  /**
   * The sentence loop of `split_text`, folded over the remaining sentences
   * `ss` from the loop state (`chunks`, `current_chunk`).
   */
  function Pack(ss: seq<string>, chunks: seq<string>, cur: string, maxChars: nat): seq<string>
    requires maxChars > 0
    decreases |ss|
  {
    if ss == [] then Closed(chunks, cur)
    else
      var s := ss[0];
      if |cur| + |s| <= maxChars then Pack(ss[1..], chunks, cur + s, maxChars)
      else
        if |s| > maxChars then Pack(ss[1..], Closed(chunks, cur) + HardCut(s, maxChars), Remainder(s, maxChars), maxChars)
        else Pack(ss[1..], Closed(chunks, cur), s, maxChars)
  }

  /** What `split_text` returns. */
  function SplitSpec(text: string, maxChars: nat): seq<string>
    requires maxChars > 0
  {
    if |text| <= maxChars then [text] else Pack(Sentences(text), [], [], maxChars)
  }

  /**
   * Chunks that are non-empty, within the bound, and such that no two
   * neighbours fit together in one chunk. Where the cuts fall is stated by
   * `CutAt` and `SplitCuts`.
   */
  predicate Packed(chunks: seq<string>, maxChars: nat) {
    (forall k :: 0 <= k < |chunks| ==> 0 < |chunks[k]| <= maxChars) &&
    (forall k :: 0 <= k < |chunks| - 1 ==> |chunks[k]| + |chunks[k + 1]| > maxChars)
  }

  /** The loop invariant of the packing loop on its state. */
  predicate PackState(chunks: seq<string>, cur: string, maxChars: nat) {
    Packed(chunks, maxChars) && |cur| <= maxChars &&
    (chunks != [] && cur != [] ==> |chunks[|chunks| - 1]| + |cur| > maxChars) &&
    (chunks != [] && cur == [] ==> |chunks[|chunks| - 1]| == maxChars)
  }

  lemma PackedAppend(a: seq<string>, b: seq<string>, maxChars: nat)
    requires Packed(a, maxChars) && Packed(b, maxChars)
    requires a != [] && b != [] ==> |a[|a| - 1]| + |b[0]| > maxChars
    ensures Packed(a + b, maxChars)
  {
    forall k | 0 <= k < |a + b| - 1
      ensures |(a + b)[k]| + |(a + b)[k + 1]| > maxChars
    {
      if k < |a| - 1 {
      } else if k == |a| - 1 {
      } else {
        assert (a + b)[k] == b[k - |a|];
        assert (a + b)[k + 1] == b[k - |a| + 1];
      }
    }
  }

  lemma HardCutPacked(s: string, maxChars: nat)
    requires maxChars > 0
    ensures Packed(HardCut(s, maxChars), maxChars)
  {
    HardCutShape(s, maxChars);
  }

  /** Closing the current chunk keeps the chunk list packed. */
  lemma CloseChunk(chunks: seq<string>, cur: string, maxChars: nat)
    requires PackState(chunks, cur, maxChars) && cur != []
    ensures Packed(chunks + [cur], maxChars)
  {
    PackedAppend(chunks, [cur], maxChars);
  }

  /** `if current_chunk: chunks.append(current_chunk)`. */
  function Closed(chunks: seq<string>, cur: string): seq<string> {
    if cur != [] then chunks + [cur] else chunks
  }

  lemma ClosedSpells(chunks: seq<string>, cur: string)
    ensures Concat(Closed(chunks, cur)) == Concat(chunks) + cur
  {
    if cur != [] {
      ConcatAppend(chunks, [cur]);
      assert Concat([cur]) == cur + Concat([]);
    }
  }

  /** A sentence that fits the current chunk is appended to it. */
  lemma StepFits(chunks: seq<string>, cur: string, s: string, maxChars: nat)
    requires PackState(chunks, cur, maxChars) && s != [] && |cur| + |s| <= maxChars
    ensures PackState(chunks, cur + s, maxChars)
  {
  }

  /** A sentence that does not fit, but is within the bound, starts a new chunk. */
  lemma StepStarts(chunks: seq<string>, cur: string, s: string, maxChars: nat)
    requires PackState(chunks, cur, maxChars) && s != [] && |cur| + |s| > maxChars && |s| <= maxChars
    ensures PackState(Closed(chunks, cur), s, maxChars)
  {
    if cur != [] { CloseChunk(chunks, cur, maxChars); }
  }

  /** A sentence beyond the bound is hard-cut after the current chunk is closed. */
  lemma StepCuts(chunks: seq<string>, cur: string, s: string, maxChars: nat)
    requires maxChars > 0 && PackState(chunks, cur, maxChars) && |s| > maxChars
    ensures PackState(Closed(chunks, cur) + HardCut(s, maxChars), Remainder(s, maxChars), maxChars)
  {
    var closed := Closed(chunks, cur);
    var cut := HardCut(s, maxChars);
    if cur != [] { CloseChunk(chunks, cur, maxChars); }
    HardCutShape(s, maxChars);
    HardCutPacked(s, maxChars);
    PackedAppend(closed, cut, maxChars);
    assert (closed + cut)[|closed + cut| - 1] == cut[|cut| - 1];
  }

  predicate AllNonEmpty(ss: seq<string>) {
    forall k :: 0 <= k < |ss| ==> ss[k] != []
  }

  /** From any state the loop can be in, the packing produces packed chunks. */
  lemma {:induction false} PackPacked(ss: seq<string>, chunks: seq<string>, cur: string, maxChars: nat)
    requires maxChars > 0 && PackState(chunks, cur, maxChars) && AllNonEmpty(ss)
    ensures Packed(Pack(ss, chunks, cur, maxChars), maxChars)
    decreases |ss|
  {
    if ss == [] {
      if cur != [] { CloseChunk(chunks, cur, maxChars); }
    } else {
      var s := ss[0];
      assert s != [];
      assert AllNonEmpty(ss[1..]);
      if |cur| + |s| <= maxChars {
        StepFits(chunks, cur, s, maxChars);
        PackPacked(ss[1..], chunks, cur + s, maxChars);
      } else if |s| > maxChars {
        StepCuts(chunks, cur, s, maxChars);
        PackPacked(ss[1..], Closed(chunks, cur) + HardCut(s, maxChars), Remainder(s, maxChars), maxChars);
      } else {
        StepStarts(chunks, cur, s, maxChars);
        PackPacked(ss[1..], Closed(chunks, cur), s, maxChars);
      }
    }
  }

  /**
   * The packing spells out, in order, the chunks so far, the current chunk
   * and the remaining sentences.
   */
  lemma {:induction false} PackSpells(ss: seq<string>, chunks: seq<string>, cur: string, maxChars: nat)
    requires maxChars > 0
    ensures Concat(Pack(ss, chunks, cur, maxChars)) == Concat(chunks) + cur + Concat(ss)
    decreases |ss|
  {
    if ss == [] {
      ClosedSpells(chunks, cur);
    } else {
      var s, rest := ss[0], ss[1..];
      var a, d := Concat(chunks), Concat(rest);
      assert Concat(ss) == s + d;
      if |cur| + |s| <= maxChars {
        PackSpells(rest, chunks, cur + s, maxChars);
        AppendAssoc(a, cur, s);
        AppendAssoc(a + cur, s, d);
      } else if |s| > maxChars {
        var next := Closed(chunks, cur) + HardCut(s, maxChars);
        CutSpells(chunks, cur, s, maxChars);
        PackSpells(rest, next, Remainder(s, maxChars), maxChars);
        AppendAssoc(a + cur, s, d);
      } else {
        ClosedSpells(chunks, cur);
        PackSpells(rest, Closed(chunks, cur), s, maxChars);
        AppendAssoc(a + cur, s, d);
      }
    }
  }

  /** Closing the current chunk and hard-cutting a long sentence loses no character. */
  lemma CutSpells(chunks: seq<string>, cur: string, s: string, maxChars: nat)
    requires maxChars > 0
    ensures Concat(Closed(chunks, cur) + HardCut(s, maxChars)) + Remainder(s, maxChars) == Concat(chunks) + cur + s
  {
    var cut := HardCut(s, maxChars);
    HardCutShape(s, maxChars);
    ConcatAppend(Closed(chunks, cur), cut);
    ClosedSpells(chunks, cur);
    assert Concat(Closed(chunks, cur)) + Concat(cut) + Remainder(s, maxChars) ==
      Concat(chunks) + cur + (Concat(cut) + Remainder(s, maxChars));
  }

  /** Every sentence is non-empty: its strip is not. */
  lemma SentencesNonEmpty(text: string)
    ensures AllNonEmpty(Sentences(text))
  {
    var ss := Sentences(text);
    forall k | 0 <= k < |ss| ensures ss[k] != [] {
      assert Strip(ss[k]) != [];
    }
  }

  /**
   * `split_text`: a text within the bound is returned whole; a longer one is
   * cut into non-empty chunks of at most `maxChars` characters, no two
   * neighbours of which would fit together, that spell out the text minus a
   * whitespace-only tail after its last terminator run.
   */
  lemma SplitSpecCorrect(text: string, maxChars: nat)
    requires maxChars > 0
    ensures |text| <= maxChars ==> SplitSpec(text, maxChars) == [text]
    ensures |text| > maxChars ==> Packed(SplitSpec(text, maxChars), maxChars)
    ensures |text| > maxChars ==> Concat(SplitSpec(text, maxChars)) == KeptText(text)
  {
    if |text| > maxChars {
      SentencesNonEmpty(text);
      PackPacked(Sentences(text), [], [], maxChars);
      PackSpells(Sentences(text), [], [], maxChars);
      SentencesSpellKeptText(text);
      assert Concat([]) + [] + Concat(Sentences(text)) == Concat(Sentences(text));
    }
  }

  /** A whitespace-only text longer than the bound yields no chunk at all. */
  lemma {:induction false} BlankTextVanishes(text: string, maxChars: nat)
    requires maxChars > 0 && |text| > maxChars && IsBlank(text)
    ensures SplitSpec(text, maxChars) == []
  {
    SplitSpecCorrect(text, maxChars);
    var t := TailStart(text);
    assert t == 0;
    assert IsBlank(text[t..]);
  }

  // ---------------------------------------------------------------------------
  // Where the chunks are cut
  // ---------------------------------------------------------------------------

  /** Where sentence `j` starts in the text the sentences spell: the length of those before it. */
  function Offset(ss: seq<string>, j: nat): (p: nat)
    requires j <= |ss|
    ensures j == 0 ==> p == 0
  {
    |Concat(ss[..j])|
  }

  /**
   * A chunk boundary at position `p`, closing the chunk `prev`, is one the
   * packing may make: either at the start of a sentence `j`, which `prev`
   * could not take in without passing the bound, or strictly inside a
   * sentence longer than the bound, a whole number of `maxChars` characters
   * after its start.
   */
  ghost predicate CutAt(ss: seq<string>, p: nat, prev: string, maxChars: nat) {
    maxChars > 0 &&
    ((exists j :: 0 < j < |ss| && p == Offset(ss, j) && |prev| + |ss[j]| > maxChars) ||
     (exists j :: 0 <= j < |ss| && Offset(ss, j) < p < Offset(ss, j) + |ss[j]| &&
                  |ss[j]| > maxChars && (p - Offset(ss, j)) % maxChars == 0))
  }

  /** Every boundary between neighbouring chunks is one the packing may make. */
  ghost predicate GoodCuts(ss: seq<string>, chunks: seq<string>, maxChars: nat) {
    forall k :: 0 < k < |chunks| ==> CutAt(ss, |Concat(chunks[..k])|, chunks[k - 1], maxChars)
  }

  /**
   * The invariant of the packing loop after `i` sentences: the chunks and the
   * current chunk spell those sentences, every boundary so far is a good one,
   * and so is the end of the chunks, where the current chunk starts.
   */
  ghost predicate CutState(ss: seq<string>, i: nat, chunks: seq<string>, cur: string, maxChars: nat)
    requires i <= |ss|
  {
    Concat(chunks) + cur == Concat(ss[..i]) && GoodCuts(ss, chunks, maxChars) &&
    (chunks != [] ==> cur != [] && CutAt(ss, |Concat(chunks)|, chunks[|chunks| - 1], maxChars))
  }

  lemma OffsetStep(ss: seq<string>, j: nat)
    requires j < |ss|
    ensures Concat(ss[..j + 1]) == Concat(ss[..j]) + ss[j]
    ensures Offset(ss, j + 1) == Offset(ss, j) + |ss[j]|
  {
    assert ss[..j + 1] == ss[..j] + [ss[j]];
    ConcatAppend(ss[..j], [ss[j]]);
    assert Concat([ss[j]]) == ss[j] + Concat([]);
  }

  /** Appending a chunk after a good boundary keeps every boundary good. */
  lemma GoodCutsSnoc(ss: seq<string>, chunks: seq<string>, c: string, maxChars: nat)
    requires GoodCuts(ss, chunks, maxChars)
    requires chunks != [] ==> CutAt(ss, |Concat(chunks)|, chunks[|chunks| - 1], maxChars)
    ensures GoodCuts(ss, chunks + [c], maxChars)
  {
    var out := chunks + [c];
    forall k | 0 < k < |out| ensures CutAt(ss, |Concat(out[..k])|, out[k - 1], maxChars) {
      assert out[..k] == chunks[..k] && out[k - 1] == chunks[k - 1];
      if k < |chunks| {
        assert CutAt(ss, |Concat(chunks[..k])|, chunks[k - 1], maxChars);
      } else {
        assert chunks[..k] == chunks;
      }
    }
  }

  lemma MultipleMod(m: nat, n: nat)
    requires n > 0
    ensures (m * n) % n == 0
  {
    var q, r := m * n / n, m * n % n;
    assert m * n == q * n + r && 0 <= r < n;
    assert (m - q) * n == r;
    MultipleBounds(m - q, n);
  }

  lemma MultipleBounds(d: int, n: int)
    requires n >= 0
    ensures d >= 1 ==> d * n >= n
    ensures d <= -1 ==> d * n <= -n
  {
  }

  /**
   * Hard-cutting what is left of a long sentence `j` after `m` cuts: every
   * new boundary lies `maxChars` further inside the sentence.
   */
  lemma {:induction false} HardCutCuts(ss: seq<string>, j: nat, chunks: seq<string>, m: nat, maxChars: nat)
    requires maxChars > 0 && j < |ss| && m * maxChars <= |ss[j]|
    requires |Concat(chunks)| == Offset(ss, j) + m * maxChars
    requires GoodCuts(ss, chunks, maxChars)
    requires chunks != [] ==> CutAt(ss, |Concat(chunks)|, chunks[|chunks| - 1], maxChars)
    ensures var out := chunks + HardCut(ss[j][m * maxChars..], maxChars);
      GoodCuts(ss, out, maxChars) &&
      (out != [] ==> CutAt(ss, |Concat(out)|, out[|out| - 1], maxChars))
    decreases |ss[j]| - m * maxChars
  {
    var t := ss[j][m * maxChars..];
    if |t| > maxChars {
      var piece := t[..maxChars];
      var next := chunks + [piece];
      GoodCutsSnoc(ss, chunks, piece, maxChars);
      InnerCut(ss, j, chunks, m, piece, maxChars);
      assert next[|next| - 1] == piece;
      assert t[maxChars..] == ss[j][(m + 1) * maxChars..];
      HardCutCuts(ss, j, next, m + 1, maxChars);
      var rest := HardCut(t[maxChars..], maxChars);
      assert HardCut(t, maxChars) == [piece] + rest;
      AppendAssoc(chunks, [piece], rest);
      assert chunks + HardCut(t, maxChars) == next + rest;
    } else {
      assert chunks + HardCut(t, maxChars) == chunks;
    }
  }

  /** The boundary after the `m + 1`-th cut of sentence `j` lies strictly inside it. */
  lemma InnerCut(ss: seq<string>, j: nat, chunks: seq<string>, m: nat, piece: string, maxChars: nat)
    requires maxChars > 0 && j < |ss| && |piece| == maxChars && (m + 1) * maxChars < |ss[j]|
    requires |Concat(chunks)| == Offset(ss, j) + m * maxChars
    ensures |Concat(chunks + [piece])| == Offset(ss, j) + (m + 1) * maxChars
    ensures CutAt(ss, |Concat(chunks + [piece])|, piece, maxChars)
  {
    ConcatAppend(chunks, [piece]);
    assert Concat([piece]) == piece + Concat([]);
    var p := |Concat(chunks + [piece])|;
    assert p == Offset(ss, j) + (m + 1) * maxChars;
    MultipleMod(m + 1, maxChars);
  }

  lemma {:induction false} RemainderNonEmpty(s: string, maxChars: nat)
    requires maxChars > 0 && |s| > maxChars
    ensures Remainder(s, maxChars) != []
    decreases |s|
  {
    if |s[maxChars..]| > maxChars {
      RemainderNonEmpty(s[maxChars..], maxChars);
    }
  }

  /**
   * Closing the current chunk before sentence `i`, when that sentence does not
   * fit it, leaves a good boundary at the sentence's start.
   */
  lemma CloseCuts(ss: seq<string>, i: nat, chunks: seq<string>, cur: string, maxChars: nat)
    requires maxChars > 0 && i < |ss| && CutState(ss, i, chunks, cur, maxChars)
    requires |cur| + |ss[i]| > maxChars
    ensures var c := Closed(chunks, cur);
      Concat(c) == Concat(ss[..i]) && GoodCuts(ss, c, maxChars) &&
      (c != [] ==> CutAt(ss, |Concat(c)|, c[|c| - 1], maxChars))
  {
    ClosedSpells(chunks, cur);
    if cur != [] {
      GoodCutsSnoc(ss, chunks, cur, maxChars);
      assert |Concat(ss[..i])| > 0;
      assert i > 0;
      assert |Concat(chunks + [cur])| == Offset(ss, i);
      assert (chunks + [cur])[|chunks|] == cur;
    }
  }

  /** One turn of the packing loop keeps the cut invariant. */
  /** A sentence that fits is appended to the current chunk: no boundary is made. */
  lemma FitsKeepsCuts(ss: seq<string>, i: nat, chunks: seq<string>, cur: string, maxChars: nat)
    requires i < |ss| && CutState(ss, i, chunks, cur, maxChars)
    ensures CutState(ss, i + 1, chunks, cur + ss[i], maxChars)
  {
    OffsetStep(ss, i);
    AppendAssoc(Concat(chunks), cur, ss[i]);
  }

  /** A sentence that does not fit but is within the bound starts the next chunk. */
  lemma StartsKeepsCuts(ss: seq<string>, i: nat, chunks: seq<string>, cur: string, maxChars: nat)
    requires maxChars > 0 && i < |ss| && AllNonEmpty(ss) && CutState(ss, i, chunks, cur, maxChars)
    requires |cur| + |ss[i]| > maxChars
    ensures CutState(ss, i + 1, Closed(chunks, cur), ss[i], maxChars)
  {
    OffsetStep(ss, i);
    CloseCuts(ss, i, chunks, cur, maxChars);
    assert ss[i] != [];
  }

  /** A sentence beyond the bound is hard-cut: its new boundaries lie inside it. */
  lemma CutsKeepCuts(ss: seq<string>, i: nat, chunks: seq<string>, cur: string, maxChars: nat)
    requires maxChars > 0 && i < |ss| && CutState(ss, i, chunks, cur, maxChars)
    requires |ss[i]| > maxChars
    ensures CutState(ss, i + 1, Closed(chunks, cur) + HardCut(ss[i], maxChars), Remainder(ss[i], maxChars), maxChars)
  {
    var s := ss[i];
    OffsetStep(ss, i);
    CloseCuts(ss, i, chunks, cur, maxChars);
    assert s[0 * maxChars..] == s;
    HardCutCuts(ss, i, Closed(chunks, cur), 0, maxChars);
    CutSpells(chunks, cur, s, maxChars);
    RemainderNonEmpty(s, maxChars);
  }

  /** From any state the loop can be in, every boundary the packing makes is a good one. */
  lemma {:induction false} PackCuts(ss: seq<string>, i: nat, chunks: seq<string>, cur: string, maxChars: nat)
    requires maxChars > 0 && i <= |ss| && AllNonEmpty(ss) && CutState(ss, i, chunks, cur, maxChars)
    ensures GoodCuts(ss, Pack(ss[i..], chunks, cur, maxChars), maxChars)
    decreases |ss| - i
  {
    if i == |ss| {
      assert ss[i..] == [];
      if cur != [] { GoodCutsSnoc(ss, chunks, cur, maxChars); }
    } else {
      var s := ss[i];
      assert ss[i..][0] == s && ss[i..][1..] == ss[i + 1..];
      if |cur| + |s| <= maxChars {
        FitsKeepsCuts(ss, i, chunks, cur, maxChars);
        PackCuts(ss, i + 1, chunks, cur + s, maxChars);
      } else if |s| > maxChars {
        CutsKeepCuts(ss, i, chunks, cur, maxChars);
        PackCuts(ss, i + 1, Closed(chunks, cur) + HardCut(s, maxChars), Remainder(s, maxChars), maxChars);
      } else {
        StartsKeepsCuts(ss, i, chunks, cur, maxChars);
        PackCuts(ss, i + 1, Closed(chunks, cur), s, maxChars);
      }
    }
  }

  /**
   * Where `split_text` cuts a text longer than the bound. With `S` its
   * sentences, the end of every chunk but the last is either the start of a
   * sentence `S[j]` that the chunk closed there could not take in, or lies
   * strictly inside a sentence longer than `maxChars`, a multiple of
   * `maxChars` after that sentence's start.
   */
  lemma SplitCuts(text: string, maxChars: nat)
    requires maxChars > 0 && |text| > maxChars
    ensures var ss, cs := Sentences(text), SplitSpec(text, maxChars);
      forall k :: 0 < k < |cs| ==> CutAt(ss, |Concat(cs[..k])|, cs[k - 1], maxChars)
  {
    var ss := Sentences(text);
    SentencesNonEmpty(text);
    assert ss[..0] == [] && ss[0..] == ss;
    PackCuts(ss, 0, [], [], maxChars);
  }

  /** The pairing loop of `split_text`: keep the pieces whose strip is not empty. */
  method CollectSentences(parts: seq<string>) returns (sentences: seq<string>)
    ensures sentences == KeepNonBlank(parts)
  {
    sentences := [];
    for i := 0 to |parts|
      invariant sentences == KeepNonBlank(parts[..i])
    {
      assert parts[..i + 1] == parts[..i] + [parts[i]];
      KeepNonBlankAppend(parts[..i], [parts[i]]);
      assert KeepNonBlank([parts[i]]) == (if Strip(parts[i]) != [] then [parts[i]] else []) + KeepNonBlank([]);
      if Strip(parts[i]) != [] {
        sentences := sentences + [parts[i]];
      }
    }
    assert parts[..|parts|] == parts;
  }

  /** The inner `while len(s) > max_chars` loop: append `max_chars`-long cuts, keep the rest. */
  method CutLong(chunks: seq<string>, s: string, maxChars: nat) returns (chunks': seq<string>, rest: string)
    requires maxChars > 0
    ensures chunks' == chunks + HardCut(s, maxChars) && rest == Remainder(s, maxChars)
  {
    chunks', rest := chunks, s;
    while |rest| > maxChars
      invariant chunks' + HardCut(rest, maxChars) == chunks + HardCut(s, maxChars)
      invariant Remainder(rest, maxChars) == Remainder(s, maxChars)
      decreases |rest|
    {
      chunks' := chunks' + [rest[..maxChars]];
      rest := rest[maxChars..];
    }
  }

  /**
   * `split_text`, as the source runs it: the sentences are collected, then
   * the packing loop appends to `chunks` and updates `current_chunk`, hard-cutting an
   * over-long sentence.
   */
  method SplitText(text: string, maxChars: nat) returns (chunks: seq<string>)
    requires maxChars > 0
    ensures chunks == SplitSpec(text, maxChars)
    ensures |text| <= maxChars ==> chunks == [text]
    ensures |text| > maxChars ==> Packed(chunks, maxChars) && Concat(chunks) == KeptText(text)
  {
    SplitSpecCorrect(text, maxChars);
    if |text| <= maxChars {
      return [text];
    }
    var sentences := CollectSentences(SplitPieces(text));
    chunks := [];
    var cur: string := [];
    for i := 0 to |sentences|
      invariant Pack(sentences[i..], chunks, cur, maxChars) == SplitSpec(text, maxChars)
    {
      var s := sentences[i];
      assert sentences[i..][1..] == sentences[i + 1..];
      if |cur| + |s| <= maxChars {
        cur := cur + s;
      } else {
        if cur != [] {
          chunks := chunks + [cur];
        }
        if |s| > maxChars {
          chunks, cur := CutLong(chunks, s, maxChars);
        } else {
          cur := s;
        }
      }
    }
    if cur != [] {
      chunks := chunks + [cur];
    }
  }

  // ---------------------------------------------------------------------------
  // process_dialogues
  // ---------------------------------------------------------------------------

  /** Why `line["text"]` / `len(text)` raises. */
  datatype LineError = MissingText(index: nat) | TextNotString(index: nat)

  /**
   * The copies `line.copy()` with `text`, `is_segment` and `segment_idx`
   * overwritten, one per chunk, in chunk order.
   */
  function SegmentCopies(line: Record, chunks: seq<string>): (r: seq<Record>)
    ensures |r| == |chunks|
  {
    seq(|chunks|, i requires 0 <= i < |chunks| =>
      line["text" := JStr(chunks[i])]["is_segment" := JBool(true)]["segment_idx" := JNum(i)])
  }

  /** What one dialogue line becomes. */
  function Expand(line: Record, text: string, maxChars: nat): seq<Record>
    requires maxChars > 0
  {
    if |text| > maxChars then SegmentCopies(line, SplitSpec(text, maxChars)) else [line]
  }

  /** `line["text"]` exists and `len` of it is a string length. */
  predicate HasText(line: Record) {
    "text" in line && line["text"].JStr?
  }

  function TextOf(line: Record): string
    requires HasText(line)
  {
    line["text"].s
  }

  predicate AllHaveText(lines: seq<Record>) {
    forall i :: 0 <= i < |lines| ==> HasText(lines[i])
  }

  /** Index of the first line whose text is missing or not a string, or `|lines|`. */
  function FirstBadText(lines: seq<Record>): (k: nat)
    ensures k <= |lines|
    ensures forall i :: 0 <= i < k ==> HasText(lines[i])
    ensures k < |lines| ==> !HasText(lines[k])
  {
    if lines == [] || !HasText(lines[0]) then 0
    else
      var k := FirstBadText(lines[1..]);
      assert forall i :: 1 <= i < k + 1 ==> lines[i] == lines[1..][i - 1];
      k + 1
  }

  /** The first bad line is the one after a prefix of good lines that is itself bad. */
  lemma FirstBadTextAt(lines: seq<Record>, i: nat)
    requires i <= |lines| && AllHaveText(lines[..i])
    requires i < |lines| ==> !HasText(lines[i])
    ensures FirstBadText(lines) == i
  {
    assert forall j :: 0 <= j < i ==> lines[..i][j] == lines[j];
  }

  /** The exception `line["text"]` / `len(text)` raises for the line at index `i`. */
  function TextError(line: Record, i: nat): LineError {
    if "text" !in line then MissingText(i) else TextNotString(i)
  }

  /** Every line expanded, in order: what the loop has appended after `|lines|` iterations. */
  function Expanded(lines: seq<Record>, maxChars: nat): seq<Record>
    requires maxChars > 0 && AllHaveText(lines)
  {
    if lines == [] then []
    else
      var n := |lines| - 1;
      assert HasText(lines[n]);
      Expanded(lines[..n], maxChars) + Expand(lines[n], TextOf(lines[n]), maxChars)
  }

  /** What `process_dialogues` returns, or the error it raises at the first bad line. */
  function Processed(lines: seq<Record>, maxChars: nat): Result<seq<Record>, LineError>
    requires maxChars > 0
  {
    var k := FirstBadText(lines);
    if k < |lines| then Err(TextError(lines[k], k)) else Ok(Expanded(lines, maxChars))
  }

  /** The segment copies of one line, as the inner loop appends them. */
  method AppendSegments(processed: seq<Record>, line: Record, chunks: seq<string>) returns (out: seq<Record>)
    ensures out == processed + SegmentCopies(line, chunks)
  {
    out := processed;
    for j := 0 to |chunks|
      invariant out == processed + SegmentCopies(line, chunks[..j])
    {
      var newLine := line["text" := JStr(chunks[j])]["is_segment" := JBool(true)]["segment_idx" := JNum(j)];
      assert SegmentCopies(line, chunks[..j + 1]) == SegmentCopies(line, chunks[..j]) + [newLine];
      out := out + [newLine];
    }
    assert chunks[..|chunks|] == chunks;
  }

  /**
   * `process_dialogues`: the output is built by appending, for each input
   * line, either the line itself or its segment copies; a line without a
   * string text raises.
   */
  method ProcessDialogues(lines: seq<Record>, maxChars: nat) returns (r: Result<seq<Record>, LineError>)
    requires maxChars > 0
    ensures r == Processed(lines, maxChars)
  {
    var processed: seq<Record> := [];
    for i := 0 to |lines|
      invariant AllHaveText(lines[..i])
      invariant processed == Expanded(lines[..i], maxChars)
    {
      var line := lines[i];
      if "text" !in line {
        FirstBadTextAt(lines, i);
        return Err(MissingText(i));
      }
      if !line["text"].JStr? {
        FirstBadTextAt(lines, i);
        return Err(TextNotString(i));
      }
      var text := line["text"].s;
      ghost var next := lines[..i + 1];
      assert next[..i] == lines[..i] && next[i] == line;
      assert AllHaveText(next) by {
        forall j | 0 <= j < i + 1 ensures HasText(next[j]) {
          if j < i { assert next[j] == lines[..i][j]; }
        }
      }
      ExpandedLast(next, maxChars);
      if |text| > maxChars {
        var chunks := SplitText(text, maxChars);
        processed := AppendSegments(processed, line, chunks);
      } else {
        processed := processed + [line];
      }
      assert processed == Expanded(next, maxChars);
    }
    assert lines[..|lines|] == lines;
    FirstBadTextAt(lines, |lines|);
    r := Ok(processed);
  }

  /** A string text of at most `maxChars` characters. */
  predicate TextFits(line: Record, maxChars: nat) {
    HasText(line) && |TextOf(line)| <= maxChars
  }

  /** When every line already fits, `process_dialogues` returns the lines themselves. */
  lemma {:induction false} ShortLinesPassThrough(lines: seq<Record>, maxChars: nat)
    requires maxChars > 0
    requires forall i :: 0 <= i < |lines| ==> TextFits(lines[i], maxChars)
    ensures Processed(lines, maxChars) == Ok(lines)
  {
    ExpandedShort(lines, maxChars);
  }

  lemma {:induction false} ExpandedShort(lines: seq<Record>, maxChars: nat)
    requires maxChars > 0
    requires forall i :: 0 <= i < |lines| ==> TextFits(lines[i], maxChars)
    ensures AllHaveText(lines) && Expanded(lines, maxChars) == lines
    decreases |lines|
  {
    if lines != [] {
      var n := |lines| - 1;
      ExpandedShort(lines[..n], maxChars);
      assert lines[..n] + [lines[n]] == lines;
    }
  }

  /** After `process_dialogues`, every line's text is a string within `maxChars` characters. */
  lemma ProcessedLinesFit(lines: seq<Record>, maxChars: nat)
    requires maxChars > 0 && Processed(lines, maxChars).Ok?
    ensures forall j :: 0 <= j < |Processed(lines, maxChars).value| ==>
      TextFits(Processed(lines, maxChars).value[j], maxChars)
  {
    ExpandedFit(lines, maxChars);
  }

  lemma {:induction false} ExpandedFit(lines: seq<Record>, maxChars: nat)
    requires maxChars > 0 && AllHaveText(lines)
    ensures forall j :: 0 <= j < |Expanded(lines, maxChars)| ==> TextFits(Expanded(lines, maxChars)[j], maxChars)
    decreases |lines|
  {
    if lines != [] {
      var n := |lines| - 1;
      var line := lines[n];
      ExpandedFit(lines[..n], maxChars);
      var text := TextOf(line);
      var prefix := Expanded(lines[..n], maxChars);
      var block := Expand(line, text, maxChars);
      assert forall j :: 0 <= j < |block| ==> TextFits(block[j], maxChars) by {
        if |text| > maxChars {
          LongLineSegments(line, text, maxChars);
        }
      }
      var out := prefix + block;
      forall j | 0 <= j < |out| ensures TextFits(out[j], maxChars) {
        if j >= |prefix| {
          assert out[j] == block[j - |prefix|];
        }
      }
    }
  }

  /** One unfolding of `Expanded`, kept out of the callers' contexts. */
  lemma ExpandedLast(lines: seq<Record>, maxChars: nat)
    requires maxChars > 0 && AllHaveText(lines) && lines != []
    ensures AllHaveText(lines[..|lines| - 1])
    ensures Expanded(lines, maxChars) == Expanded(lines[..|lines| - 1], maxChars) + Expand(lines[|lines| - 1], TextOf(lines[|lines| - 1]), maxChars)
  {
  }

  lemma AllHaveTextAppend(a: seq<Record>, b: seq<Record>)
    requires AllHaveText(a) && AllHaveText(b)
    ensures AllHaveText(a + b)
  {
    forall i | 0 <= i < |a + b| ensures HasText((a + b)[i]) {
      if i < |a| { assert (a + b)[i] == a[i]; } else { assert (a + b)[i] == b[i - |a|]; }
    }
  }

  lemma {:induction false} ExpandedAppend(a: seq<Record>, b: seq<Record>, maxChars: nat)
    requires maxChars > 0 && AllHaveText(a) && AllHaveText(b)
    ensures AllHaveText(a + b)
    ensures Expanded(a + b, maxChars) == Expanded(a, maxChars) + Expanded(b, maxChars)
    decreases |b|
  {
    AllHaveTextAppend(a, b);
    if b == [] {
      assert a + b == a;
    } else {
      var n := |b| - 1;
      SnocSplit(a, b);
      ExpandedAppend(a, b[..n], maxChars);
      ExpandedLast(a + b, maxChars);
      ExpandedLast(b, maxChars);
      AppendAssoc(Expanded(a, maxChars), Expanded(b[..n], maxChars), Expand(b[n], TextOf(b[n]), maxChars));
    }
  }

  /** Dropping the last element of `a + b` drops the last element of `b`. */
  lemma SnocSplit<T>(a: seq<T>, b: seq<T>)
    requires b != []
    ensures (a + b)[..|a + b| - 1] == a + b[..|b| - 1]
    ensures (a + b)[|a + b| - 1] == b[|b| - 1]
  {
    assert (a + b)[..|a + b| - 1] == a + b[..|b| - 1];
  }

  /**
   * Each line is replaced at its own position: processing a concatenation
   * processes the two parts independently.
   */
  lemma ProcessedAppend(a: seq<Record>, b: seq<Record>, maxChars: nat)
    requires maxChars > 0 && Processed(a, maxChars).Ok? && Processed(b, maxChars).Ok?
    ensures Processed(a + b, maxChars) == Ok(Processed(a, maxChars).value + Processed(b, maxChars).value)
  {
    ExpandedAppend(a, b, maxChars);
  }

  /** The texts of a record list, concatenated (records whose text is not a string contribute nothing). */
  function JoinedTexts(rs: seq<Record>): string {
    if rs == [] then []
    else (if "text" in rs[0] && rs[0]["text"].JStr? then rs[0]["text"].s else []) + JoinedTexts(rs[1..])
  }

  lemma {:induction false} JoinedTextsOf(rs: seq<Record>, cs: seq<string>)
    requires |rs| == |cs|
    requires forall i :: 0 <= i < |rs| ==> "text" in rs[i] && rs[i]["text"] == JStr(cs[i])
    ensures JoinedTexts(rs) == Concat(cs)
    decreases |rs|
  {
    if rs != [] {
      JoinedTextsOf(rs[1..], cs[1..]);
    }
  }

  /** Copy `i` of a line: its fields with `text`, `is_segment` and `segment_idx` overwritten. */
  lemma SegmentCopyFields(line: Record, chunks: seq<string>, i: nat)
    requires i < |chunks|
    ensures var c := SegmentCopies(line, chunks)[i];
      c.Keys == line.Keys + {"text", "is_segment", "segment_idx"} &&
      c["text"] == JStr(chunks[i]) && c["is_segment"] == JBool(true) && c["segment_idx"] == JNum(i) &&
      forall k :: k in line && k != "text" && k != "is_segment" && k != "segment_idx" ==> c[k] == line[k]
  {
  }

  /**
   * An over-long line becomes one copy per chunk, in chunk order: copy `i` is
   * marked `is_segment` with `segment_idx` equal to `i`, keeps every other field of
   * the line (no original-line index is added), its text is a non-empty chunk
   * within the bound, and the copies' texts spell out the line's text minus
   * a whitespace-only tail.
   */
  lemma LongLineSegments(line: Record, text: string, maxChars: nat)
    requires maxChars > 0 && |text| > maxChars
    ensures var r := Expand(line, text, maxChars);
      (forall i :: 0 <= i < |r| ==>
        r[i].Keys == line.Keys + {"text", "is_segment", "segment_idx"} &&
        r[i]["is_segment"] == JBool(true) && r[i]["segment_idx"] == JNum(i) &&
        r[i]["text"].JStr? && 0 < |r[i]["text"].s| <= maxChars &&
        (forall k :: k in line && k != "text" && k != "is_segment" && k != "segment_idx" ==> r[i][k] == line[k])) &&
      JoinedTexts(r) == KeptText(text)
  {
    var chunks := SplitSpec(text, maxChars);
    var r := Expand(line, text, maxChars);
    assert r == SegmentCopies(line, chunks);
    SplitSpecCorrect(text, maxChars);
    forall i | 0 <= i < |r|
      ensures r[i].Keys == line.Keys + {"text", "is_segment", "segment_idx"} &&
        r[i]["is_segment"] == JBool(true) && r[i]["segment_idx"] == JNum(i) &&
        r[i]["text"].JStr? && 0 < |r[i]["text"].s| <= maxChars &&
        (forall k :: k in line && k != "text" && k != "is_segment" && k != "segment_idx" ==> r[i][k] == line[k])
    {
      SegmentCopyFields(line, chunks, i);
    }
    forall i | 0 <= i < |r| ensures "text" in r[i] && r[i]["text"] == JStr(chunks[i]) {
      SegmentCopyFields(line, chunks, i);
    }
    JoinedTextsOf(r, chunks);
  }
}
