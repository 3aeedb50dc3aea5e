/** The text helpers of utils.py: the fixed-window splitter `chunk_text`
    and the truncating `preview_text`.

    `chunk_text` strips the text, then walks a window `[start, end)` of at
    most `max_chars` characters over it; each window's stripped contents is
    kept when non-empty, and the next window starts `overlap` characters
    before the current end, unless that would not move forward, in which
    case it starts at the current end. `ChunksFrom` is the chunks the walk
    yields from a given start, `ChunkWindowsFrom` the windows they come
    from; `ChunkText` is the loop itself, proved to return `Chunks`. */
module Utils {
  import opened Text

  /** The default overlap of `chunk_text` (utils.py:1). */
  const DefaultOverlap := 100

  /** One window `[start, end)` over the stripped text. */
  datatype Window = Window(start: nat, end: nat)

  function Min(a: int, b: int): int {
    if a <= b then a else b
  }

  /** End of the window that begins at `start`: `min(start + max_chars, len(text))`. */
  function WindowEnd(start: nat, maxChars: int, n: nat): (e: nat)
    requires maxChars > 0 && start < n
    ensures start < e <= n && e - start <= maxChars
    ensures e == n || e == start + maxChars
  {
    Min(start + maxChars, n)
  }

  /** Start of the next window, with the progress guard: `end - overlap`,
      or `end` when `end - overlap` does not pass `start`. Whatever the
      overlap, a non-empty window is followed by a later start, and the
      next window never begins more than `overlap` before this one ends. */
  function NextStart(start: int, end: int, overlap: int): (r: int)
    ensures end > start ==> r > start
    ensures overlap >= 0 ==> r <= end
    ensures end >= start ==> r >= end - overlap
  {
    if end - overlap <= start then end else end - overlap
  }

  /** The stripped slice a window contributes (utils.py:23). */
  function Chunk(t: string, w: Window): string
    requires w.start <= w.end <= |t|
  {
    Strip(t[w.start..w.end])
  }

  /** The chunks the loop appends once `start` has been reached. */
  function ChunksFrom(t: string, maxChars: int, overlap: int, start: nat): seq<string>
    requires maxChars > 0
    decreases |t| - start
  {
    if start >= |t| then []
    else
      var end := WindowEnd(start, maxChars, |t|);
      var c := Chunk(t, Window(start, end));
      (if c != "" then [c] else []) + ChunksFrom(t, maxChars, overlap, NextStart(start, end, overlap))
  }

  /** The windows whose chunk `ChunksFrom` keeps, in the same order. */
  function ChunkWindowsFrom(t: string, maxChars: int, overlap: int, start: nat): seq<Window>
    requires maxChars > 0
    decreases |t| - start
  {
    if start >= |t| then []
    else
      var end := WindowEnd(start, maxChars, |t|);
      (if Chunk(t, Window(start, end)) != "" then [Window(start, end)] else [])
        + ChunkWindowsFrom(t, maxChars, overlap, NextStart(start, end, overlap))
  }

  /** What `chunk_text(text, max_chars, overlap)` returns (utils.py:14-32). */
  function Chunks(text: string, maxChars: int, overlap: int): seq<string>
    requires maxChars > 0
  {
    var t := Strip(text);
    if t == "" then [] else ChunksFrom(t, maxChars, overlap, 0)
  }

  /** The windows the chunks of `chunk_text(text, max_chars, overlap)` come from. */
  function ChunkWindows(text: string, maxChars: int, overlap: int): seq<Window>
    requires maxChars > 0
  {
    var t := Strip(text);
    if t == "" then [] else ChunkWindowsFrom(t, maxChars, overlap, 0)
  }

  /** `chunk_text` (utils.py:1-32). The loop terminates for every `overlap`,
      including one at least `max_chars`, because `start` strictly increases. */
  method ChunkText(text: string, maxChars: int, overlap: int) returns (chunks: seq<string>)
    requires maxChars > 0
    ensures chunks == Chunks(text, maxChars, overlap)
  {
    if Strip(text) == "" {
      return [];
    }
    var t := Strip(text);
    chunks := [];
    var start: nat := 0;
    while start < |t|
      invariant ChunksFrom(t, maxChars, overlap, 0) == chunks + ChunksFrom(t, maxChars, overlap, start)
      decreases |t| - start
    {
      var end := Min(start + maxChars, |t|);
      var chunk := Strip(t[start..end]);
      var nextStart := end - overlap;
      if nextStart <= start {
        nextStart := end;
      }
      assert end == WindowEnd(start, maxChars, |t|);
      assert chunk == Chunk(t, Window(start, end));
      assert nextStart == NextStart(start, end, overlap);
      ghost var rest := ChunksFrom(t, maxChars, overlap, nextStart);
      if chunk != "" {
        assert ChunksFrom(t, maxChars, overlap, start) == [chunk] + rest;
        assert chunks + ([chunk] + rest) == (chunks + [chunk]) + rest;
        chunks := chunks + [chunk];
      } else {
        assert ChunksFrom(t, maxChars, overlap, start) == rest;
      }
      start := nextStart;
    }
  }

  /** Every window starts at or after `start`, is non-empty, lies inside a
      text of length `n` and ends where `WindowEnd` puts it. */
  predicate WindowsInText(ws: seq<Window>, start: nat, n: nat, maxChars: int) {
    maxChars > 0 && forall k :: 0 <= k < |ws| ==>
      start <= ws[k].start < ws[k].end <= n && ws[k].end == WindowEnd(ws[k].start, maxChars, n)
  }

  /** Window starts strictly increase and window ends never decrease. */
  predicate Ordered(ws: seq<Window>) {
    forall j, k :: 0 <= j < k < |ws| ==> ws[j].start < ws[k].start && ws[j].end <= ws[k].end
  }

  /** Each window begins at most `overlap` characters before the previous one ends. */
  predicate OverlapAtMost(ws: seq<Window>, overlap: int) {
    forall k :: 0 <= k < |ws| - 1 ==> ws[k + 1].start >= ws[k].end - overlap
  }

  /** `cs` holds, one for one, the non-empty chunks of the windows `ws`. */
  predicate ChunksMatch(t: string, cs: seq<string>, ws: seq<Window>) {
    |cs| == |ws| && forall k :: 0 <= k < |ws| ==>
      ws[k].start <= ws[k].end <= |t| && cs[k] == Chunk(t, ws[k]) && cs[k] != ""
  }

  lemma {:induction false} KeptWindowsInText(t: string, maxChars: int, overlap: int, start: nat)
    requires maxChars > 0
    ensures WindowsInText(ChunkWindowsFrom(t, maxChars, overlap, start), start, |t|, maxChars)
    decreases |t| - start
  {
    if start < |t| {
      var end := WindowEnd(start, maxChars, |t|);
      var next := NextStart(start, end, overlap);
      KeptWindowsInText(t, maxChars, overlap, next);
      var ws, ws' := ChunkWindowsFrom(t, maxChars, overlap, start), ChunkWindowsFrom(t, maxChars, overlap, next);
      if Chunk(t, Window(start, end)) != "" {
        assert ws == [Window(start, end)] + ws';
        forall k | 0 < k < |ws|
          ensures start <= ws[k].start < ws[k].end <= |t| && ws[k].end == WindowEnd(ws[k].start, maxChars, |t|)
        {
          assert ws[k] == ws'[k - 1];
        }
      } else {
        assert ws == ws';
      }
    }
  }

  lemma {:induction false} KeptWindowsOrdered(t: string, maxChars: int, overlap: int, start: nat)
    requires maxChars > 0
    ensures Ordered(ChunkWindowsFrom(t, maxChars, overlap, start))
    ensures OverlapAtMost(ChunkWindowsFrom(t, maxChars, overlap, start), overlap)
    decreases |t| - start
  {
    if start < |t| {
      var end := WindowEnd(start, maxChars, |t|);
      var next := NextStart(start, end, overlap);
      KeptWindowsOrdered(t, maxChars, overlap, next);
      KeptWindowsInText(t, maxChars, overlap, next);
      var ws, ws' := ChunkWindowsFrom(t, maxChars, overlap, start), ChunkWindowsFrom(t, maxChars, overlap, next);
      if Chunk(t, Window(start, end)) != "" {
        assert ws == [Window(start, end)] + ws';
        forall j, k | 0 <= j < k < |ws| ensures ws[j].start < ws[k].start && ws[j].end <= ws[k].end {
          assert ws[k] == ws'[k - 1];
          if j > 0 {
            assert ws[j] == ws'[j - 1];
          }
        }
        forall k | 0 <= k < |ws| - 1 ensures ws[k + 1].start >= ws[k].end - overlap {
          assert ws[k + 1] == ws'[k];
          if k > 0 {
            assert ws[k] == ws'[k - 1];
          }
        }
      } else {
        assert ws == ws';
      }
    }
  }

  lemma {:induction false} KeptChunksMatch(t: string, maxChars: int, overlap: int, start: nat)
    requires maxChars > 0
    ensures ChunksMatch(t, ChunksFrom(t, maxChars, overlap, start), ChunkWindowsFrom(t, maxChars, overlap, start))
    decreases |t| - start
  {
    if start < |t| {
      var end := WindowEnd(start, maxChars, |t|);
      var next := NextStart(start, end, overlap);
      KeptChunksMatch(t, maxChars, overlap, next);
      var cs, cs' := ChunksFrom(t, maxChars, overlap, start), ChunksFrom(t, maxChars, overlap, next);
      var ws, ws' := ChunkWindowsFrom(t, maxChars, overlap, start), ChunkWindowsFrom(t, maxChars, overlap, next);
      if Chunk(t, Window(start, end)) != "" {
        assert cs == [Chunk(t, Window(start, end))] + cs';
        assert ws == [Window(start, end)] + ws';
        forall k | 0 < k < |ws|
          ensures ws[k].start <= ws[k].end <= |t| && cs[k] == Chunk(t, ws[k]) && cs[k] != ""
        {
          assert ws[k] == ws'[k - 1] && cs[k] == cs'[k - 1];
        }
      } else {
        assert cs == cs' && ws == ws';
      }
    }
  }

  /** A slice of a slice is a slice of the whole. */
  lemma SliceOfSlice(t: string, i: nat, j: nat, a: nat, b: nat)
    requires i <= j <= |t| && a <= b <= j - i
    ensures t[i..j][a..b] == t[i + a..i + b]
  {
    forall k | 0 <= k < b - a ensures t[i..j][a..b][k] == t[i + a..i + b][k] {
      assert t[i..j][a..b][k] == t[i..j][a + k];
    }
  }

  /** The chunk of one window is the window's slice after its leading
      whitespace, with nothing left to strip. */
  lemma ChunkInWindow(t: string, w: Window)
    requires w.start <= w.end <= |t|
    ensures |Chunk(t, w)| <= w.end - w.start
    ensures Strip(Chunk(t, w)) == Chunk(t, w)
    ensures w.start + LeadingCount(t[w.start..w.end], IsSpace) + |Chunk(t, w)| <= w.end
    ensures OccursAt(t, Chunk(t, w), w.start + LeadingCount(t[w.start..w.end], IsSpace))
  {
    var s := t[w.start..w.end];
    StripByShape(s, IsSpace);
    var c := StripBy(s, IsSpace);
    StripBySpec(c, IsSpace);
    SliceOfSlice(t, w.start, w.end, LeadingCount(s, IsSpace), LeadingCount(s, IsSpace) + |c|);
  }

  /** Every chunk is non-empty, at most `max_chars` long, equal to its own
      `strip()`, and occurs in `text.strip()` inside the window it comes
      from (utils.py:22-25). */
  lemma ChunksWellFormed(text: string, maxChars: int, overlap: int, k: nat)
    requires maxChars > 0 && k < |Chunks(text, maxChars, overlap)|
    ensures k < |ChunkWindows(text, maxChars, overlap)|
    ensures 0 < |Chunks(text, maxChars, overlap)[k]| <= maxChars
    ensures Strip(Chunks(text, maxChars, overlap)[k]) == Chunks(text, maxChars, overlap)[k]
    ensures ChunkWindows(text, maxChars, overlap)[k].start <= ChunkPosition(text, maxChars, overlap, k)
    ensures ChunkPosition(text, maxChars, overlap, k) + |Chunks(text, maxChars, overlap)[k]|
              <= ChunkWindows(text, maxChars, overlap)[k].end <= |Strip(text)|
    ensures OccursAt(Strip(text), Chunks(text, maxChars, overlap)[k], ChunkPosition(text, maxChars, overlap, k))
  {
    var t := Strip(text);
    KeptChunksMatch(t, maxChars, overlap, 0);
    KeptWindowsInText(t, maxChars, overlap, 0);
    var cs, ws := ChunksFrom(t, maxChars, overlap, 0), ChunkWindowsFrom(t, maxChars, overlap, 0);
    assert cs == Chunks(text, maxChars, overlap) && ws == ChunkWindows(text, maxChars, overlap);
    assert cs[k] == Chunk(t, ws[k]);
    ChunkInWindow(t, ws[k]);
  }

  /** Where in `text.strip()` the k-th chunk begins: its window's start
      plus the whitespace stripped from the front of the window. */
  function ChunkPosition(text: string, maxChars: int, overlap: int, k: nat): nat
    requires maxChars > 0 && k < |ChunkWindows(text, maxChars, overlap)|
  {
    var ws := ChunkWindows(text, maxChars, overlap);
    var t := Strip(text);
    // The bounds always hold (`KeptWindowsInText`); the test only lets the
    // slice be written without a lemma call, so the `else` is never taken.
    if ws[k].start <= ws[k].end <= |t| then ws[k].start + LeadingCount(t[ws[k].start..ws[k].end], IsSpace)
    else ws[k].start
  }

  /** Chunks come out in document order: the windows they come from start
      strictly later and end no earlier, one after the other, and each
      begins at most `overlap` characters before the previous one ends
      (utils.py:21-30). */
  lemma ChunksInDocumentOrder(text: string, maxChars: int, overlap: int)
    requires maxChars > 0
    ensures Ordered(ChunkWindows(text, maxChars, overlap))
    ensures OverlapAtMost(ChunkWindows(text, maxChars, overlap), overlap)
  {
    var t := Strip(text);
    if t != "" {
      KeptWindowsOrdered(t, maxChars, overlap, 0);
    }
  }

  /** `chunk_text` returns `[]` exactly when the text is empty or
      whitespace-only (utils.py:14-15): a non-blank text always yields a
      first chunk, because the stripped text begins with a non-space. */
  lemma ChunksEmptyIff(text: string, maxChars: int, overlap: int)
    requires maxChars > 0
    ensures Chunks(text, maxChars, overlap) == [] <==> Strip(text) == ""
  {
    var t := Strip(text);
    if t != "" {
      StripBySpec(text, IsSpace);
      var end := WindowEnd(0, maxChars, |t|);
      var s := t[0..end];
      assert s[0] == t[0];
      StripBySpec(s, IsSpace);
      assert Chunk(t, Window(0, end)) != "";
    }
  }

  /** A window holding a non-space character has a non-empty chunk. */
  lemma NonBlankWindow(t: string, w: Window, i: nat)
    requires w.start <= i < w.end <= |t| && !IsSpace(t[i])
    ensures Chunk(t, w) != ""
  {
    var s := t[w.start..w.end];
    assert s[i - w.start] == t[i];
    StripBySpec(s, IsSpace);
  }

  /** With `overlap >= 0`, a non-space character of `t` at or after `start`
      lies inside one of the windows whose chunk is kept. */
  lemma {:induction false} ChunkWindowsCover(t: string, maxChars: int, overlap: int, start: nat, i: nat)
    requires maxChars > 0 && overlap >= 0 && start <= i < |t| && !IsSpace(t[i])
    ensures exists k :: (0 <= k < |ChunkWindowsFrom(t, maxChars, overlap, start)|
      && ChunkWindowsFrom(t, maxChars, overlap, start)[k].start <= i < ChunkWindowsFrom(t, maxChars, overlap, start)[k].end)
    decreases |t| - start
  {
    var end := WindowEnd(start, maxChars, |t|);
    var next := NextStart(start, end, overlap);
    var ws, ws' := ChunkWindowsFrom(t, maxChars, overlap, start), ChunkWindowsFrom(t, maxChars, overlap, next);
    if i < end {
      NonBlankWindow(t, Window(start, end), i);
      assert ws[0] == Window(start, end);
    } else {
      ChunkWindowsCover(t, maxChars, overlap, next, i);
      var k :| 0 <= k < |ws'| && ws'[k].start <= i < ws'[k].end;
      if Chunk(t, Window(start, end)) != "" {
        assert ws[k + 1] == ws'[k];
      } else {
        assert ws[k] == ws'[k];
      }
    }
  }

  /** With `overlap >= 0` nothing is lost: every non-whitespace character of
      `text.strip()` lies inside one of the returned chunks, at the place
      where that chunk occurs (utils.py:21-30). */
  lemma ChunksCoverContent(text: string, maxChars: int, overlap: int, i: nat)
    requires maxChars > 0 && overlap >= 0
    requires i < |Strip(text)| && !IsSpace(Strip(text)[i])
    ensures exists k :: (0 <= k < |Chunks(text, maxChars, overlap)|
      && k < |ChunkWindows(text, maxChars, overlap)|
      && ChunkPosition(text, maxChars, overlap, k) <= i
         < ChunkPosition(text, maxChars, overlap, k) + |Chunks(text, maxChars, overlap)[k]|
      && OccursAt(Strip(text), Chunks(text, maxChars, overlap)[k], ChunkPosition(text, maxChars, overlap, k)))
  {
    var t := Strip(text);
    ChunkWindowsCover(t, maxChars, overlap, 0, i);
    KeptChunksMatch(t, maxChars, overlap, 0);
    var ws := ChunkWindowsFrom(t, maxChars, overlap, 0);
    assert ws == ChunkWindows(text, maxChars, overlap);
    var k :| 0 <= k < |ws| && ws[k].start <= i < ws[k].end;
    ChunksWellFormed(text, maxChars, overlap, k);
    var s := t[ws[k].start..ws[k].end];
    assert s[i - ws[k].start] == t[i];
    KeptCharInStrip(s, IsSpace, i - ws[k].start);
  }

  /** `a` is a suffix of `b`. */
  predicate IsSuffix(a: string, b: string) {
    |a| <= |b| && b[|b| - |a|..] == a
  }

  /** In a text that ends with a non-space, the stripped suffix from `q` is
      non-empty and is the text from the first non-space at or after `q`. */
  lemma StripOfSuffix(t: string, q: nat)
    requires q < |t| && !IsSpace(t[|t| - 1])
    ensures q + LeadingCount(t[q..], IsSpace) < |t|
    ensures Strip(t[q..]) == t[q + LeadingCount(t[q..], IsSpace)..]
  {
    var s := t[q..];
    assert s[|s| - 1] == t[|t| - 1];
    StripBySpec(s, IsSpace);
    var a := LeadingCount(s, IsSpace);
    var c := StripBy(s, IsSpace);
    assert a + |c| == |s|;
    assert s[a..a + |c|] == t[q + a..];
  }

  /** In such a text, a stripped suffix starting later is a suffix of one
      starting earlier. */
  lemma LaterStripIsSuffix(t: string, p: nat, q: nat)
    requires p <= q < |t| && !IsSpace(t[|t| - 1])
    ensures IsSuffix(Strip(t[q..]), Strip(t[p..]))
  {
    StripOfSuffix(t, p);
    StripOfSuffix(t, q);
    var ap, aq := LeadingCount(t[p..], IsSpace), LeadingCount(t[q..], IsSpace);
    assert t[q..][aq] == t[q + aq];
    assert p + ap <= q + aq;
  }

  /** One step of the walk from a window that reaches the end of a text
      ending with a non-space: its chunk is the stripped suffix, and is kept. */
  lemma FinalWindowStep(t: string, maxChars: int, overlap: int, start: nat)
    requires maxChars > 0 && start < |t| <= start + maxChars && !IsSpace(t[|t| - 1])
    ensures Strip(t[start..]) != ""
    ensures ChunksFrom(t, maxChars, overlap, start)
         == [Strip(t[start..])] + ChunksFrom(t, maxChars, overlap, NextStart(start, |t|, overlap))
  {
    StripOfSuffix(t, start);
    assert WindowEnd(start, maxChars, |t|) == |t|;
    assert t[start..|t|] == t[start..];
  }

  /** The tail of the walk. Once a window reaches the end of the stripped
      text, one more window, `[len - overlap, len)`, follows it exactly when
      `overlap > 0` and `len - overlap` lies after the current start; its
      chunk is a suffix of the previous chunk, which the source keeps as a
      repeated tail (utils.py:22-30). */
  lemma WindowsTail(t: string, maxChars: int, overlap: int, start: nat)
    requires maxChars > 0 && IsStripped(t) && start < |t| <= start + maxChars
    ensures Strip(t[start..]) != ""
    ensures overlap > 0 && |t| - overlap > start ==>
      ChunksFrom(t, maxChars, overlap, start) == [Strip(t[start..]), Strip(t[|t| - overlap..])]
    ensures overlap > 0 && |t| - overlap > start ==>
      Strip(t[|t| - overlap..]) != "" && IsSuffix(Strip(t[|t| - overlap..]), Strip(t[start..]))
    ensures !(overlap > 0 && |t| - overlap > start) ==>
      ChunksFrom(t, maxChars, overlap, start) == [Strip(t[start..])]
  {
    var n := |t|;
    assert !IsSpace(t[n - 1]);
    FinalWindowStep(t, maxChars, overlap, start);
    var next := NextStart(start, n, overlap);
    if overlap > 0 && n - overlap > start {
      FinalWindowStep(t, maxChars, overlap, next);
      LaterStripIsSuffix(t, start, next);
      assert NextStart(next, n, overlap) == n;
    } else {
      assert next >= n;
    }
  }

  /** A six-letter text with windows of four and an overlap of two yields
      the windows [0,4), [2,6) and then the repeated tail [4,6). */
  lemma TailExample()
    ensures Chunks("abcdef", 4, 2) == ["abcd", "cdef", "ef"]
  {
    var t := "abcdef";
    assert IsStripped(t);
    StripBySpec(t, IsSpace);
    assert Strip(t[0..4]) == "abcd" by {
      assert IsStrippedBy(t[0..4], IsSpace);
      StripBySpec(t[0..4], IsSpace);
    }
    assert NextStart(0, 4, 2) == 2;
    WindowsTail(t, 4, 2, 2);
    assert Strip(t[2..]) == "cdef" by {
      assert IsStrippedBy(t[2..], IsSpace);
      StripBySpec(t[2..], IsSpace);
    }
    assert Strip(t[4..]) == "ef" by {
      assert IsStrippedBy(t[4..], IsSpace);
      StripBySpec(t[4..], IsSpace);
    }
  }

  /** Python's `s[:length]`: the first `length` characters, or for a
      negative `length` all but the last `-length` characters. */
  function PrefixSlice(s: string, length: int): string {
    if length >= 0 then s[..Min(length, |s|)]
    else if |s| + length >= 0 then s[..|s| + length] else []
  }

  /** `preview_text(text, length)` (utils.py:35-48): empty text stays
      empty, text that fits is returned unchanged, and longer text is cut
      to `length` characters and marked with "...". */
  function PreviewText(text: string, length: int): (r: string)
    ensures text == "" ==> r == ""
    ensures |text| <= length ==> r == text
    ensures text != "" && |text| > length ==>
      |r| >= 3 && r[|r| - 3..] == "..." && r[..|r| - 3] == PrefixSlice(text, length)
    ensures 0 <= length < |text| ==> |r| == length + 3 && r[..length] == text[..length]
    ensures length < 0 && text != "" ==> |r| == (if |text| + length >= 0 then |text| + length else 0) + 3
  {
    if text == "" then "" else if |text| > length then PrefixSlice(text, length) + "..." else text
  }
}
