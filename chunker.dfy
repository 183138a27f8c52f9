/** `chunkText` of Backend/utils/textChunker.js: normalise the white space of
    a document's text, cut it into paragraphs, and emit word-window chunks
    with consecutive indices.

    The normalisation collapses every run of white space, newlines included,
    to one space, so the text that reaches the paragraph loop never holds a
    newline: it is always exactly one paragraph. `ChunkText` follows the
    general algorithm line by line; `ChunkContentsShape` proves that its
    output is therefore one chunk (the whole normalised text) or, for more
    than `chunkSize` words, the sliding windows. */
module Chunker {
  import opened Text
  import opened JsMath

  datatype Chunk = Chunk(content: string, chunkIndex: int)

  // ---------------------------------------------------------------------
  // Normalisation (textChunker.js lines 6-11)

  /** `.replace(/\r\n/g, '\n')` */
  function ReplaceCrlf(s: string): string
    decreases |s|
  {
    if |s| >= 2 && s[0] == '\r' && s[1] == '\n' then "\n" + ReplaceCrlf(s[2..])
    else if s == [] then []
    else [s[0]] + ReplaceCrlf(s[1..])
  }

  /** `.replace(/\s+/g, ' ')`: every maximal run of white space becomes one space. */
  function CollapseWhitespace(s: string): (r: string)
    ensures forall i :: 0 <= i < |r| ==> (IsSpace(r[i]) ==> r[i] == ' ')
    decreases |s|
  {
    if s == [] then []
    else if IsSpace(s[0]) then " " + CollapseWhitespace(TrimStart(s[1..]))
    else [s[0]] + CollapseWhitespace(s[1..])
  }

  /** `.replace(/\n /g, '\n')` */
  function DropSpaceAfterNewline(s: string): string
    decreases |s|
  {
    if |s| >= 2 && s[0] == '\n' && s[1] == ' ' then "\n" + DropSpaceAfterNewline(s[2..])
    else if s == [] then []
    else [s[0]] + DropSpaceAfterNewline(s[1..])
  }

  /** `.replace(/ \n/g, '\n')` */
  function DropSpaceBeforeNewline(s: string): string
    decreases |s|
  {
    if |s| >= 2 && s[0] == ' ' && s[1] == '\n' then "\n" + DropSpaceBeforeNewline(s[2..])
    else if s == [] then []
    else [s[0]] + DropSpaceBeforeNewline(s[1..])
  }

  /** The text after the whole replace chain and the final `trim`. */
  function Normalise(text: string): string {
    Trim(DropSpaceBeforeNewline(DropSpaceAfterNewline(CollapseWhitespace(ReplaceCrlf(text)))))
  }

  predicate NoNewline(s: string) {
    forall i :: 0 <= i < |s| ==> s[i] != '\n'
  }

  /** The paragraphs: the pieces between newlines that are not blank. */
  function Paragraphs(cleaned: string): seq<string> {
    NonBlank(Split(cleaned, "\n"))
  }

  /** The words of the normalised text. */
  function Words(text: string): seq<string> {
    SplitWs(Normalise(text))
  }

  // ---------------------------------------------------------------------
  // Sliding windows (textChunker.js lines 27-45)

  /** The distance between the starts of consecutive windows:
      `chunkSize - Math.min(overlap, chunkSize - 1)`, never below 1. */
  function WindowStep(chunkSize: int, overlap: int): (step: nat)
    requires chunkSize > 0
    ensures step >= 1
    ensures overlap >= 0 ==> step <= chunkSize
    ensures overlap < chunkSize ==> step == chunkSize - overlap
    ensures overlap >= chunkSize ==> step == 1
  {
    chunkSize - Min(overlap, chunkSize - 1)
  }

  /** The word slices `words.slice(start, start + size)` for start = `from`,
      `from + step`, ..., while the start is below the word count. */
  function WindowsFrom(words: seq<string>, size: nat, step: nat, from: nat): seq<seq<string>>
    requires size > 0 && step > 0
    decreases |words| - from
  {
    if from >= |words| then []
    else [words[from..Min(from + size, |words|)]] + WindowsFrom(words, size, step, from + step)
  }

  /** The content of each window: its words joined by single spaces. */
  function JoinAll(windows: seq<seq<string>>): (r: seq<string>)
    ensures |r| == |windows|
    ensures forall k :: 0 <= k < |r| ==> r[k] == Join(windows[k], " ")
  {
    seq(|windows|, k requires 0 <= k < |windows| => Join(windows[k], " "))
  }

  lemma JoinAllCons(w: seq<string>, rest: seq<seq<string>>)
    ensures JoinAll([w] + rest) == [Join(w, " ")] + JoinAll(rest)
  {
  }

  /** The contents of emitted chunks, in order. */
  function Contents(chunks: seq<Chunk>): (r: seq<string>)
    ensures |r| == |chunks|
    ensures forall k :: 0 <= k < |r| ==> r[k] == chunks[k].content
  {
    seq(|chunks|, k requires 0 <= k < |chunks| => chunks[k].content)
  }

  // ---------------------------------------------------------------------
  // The paragraph loop as a fold (textChunker.js lines 17-82)

  /** The loop's state: contents emitted so far, `currentChunk`, `currentWordCount`. */
  datatype Acc = Acc(emitted: seq<string>, current: seq<string>, count: int)

  /** `arr.slice(-n)` for n > 0: the last n elements, or all of them. */
  function LastN<T>(s: seq<T>, n: int): seq<T>
    requires n > 0
  {
    s[Max(0, |s| - n)..]
  }

  /** Closing the accumulator when the next paragraph would overflow it: its
      paragraphs joined by newlines become a chunk, and the accumulator is
      reseeded with the last `overlap` words (lines 50-69). */
  function Flush(acc: Acc, overlap: int): Acc {
    if overlap > 0 then
      var overlapWords := LastN(SplitWs(Join(acc.current, " ")), overlap);
      Acc(acc.emitted + [Join(acc.current, "\n")], [Join(overlapWords, " ")], |overlapWords|)
    else
      Acc(acc.emitted + [Join(acc.current, "\n")], [], 0)
  }

  /** One iteration of the paragraph loop. */
  function Step(acc: Acc, paragraph: string, chunkSize: int, overlap: int): Acc
    requires chunkSize > 0
  {
    var words := SplitWs(Trim(paragraph));
    if |words| > chunkSize then
      Acc(acc.emitted + JoinAll(WindowsFrom(words, chunkSize, WindowStep(chunkSize, overlap), 0)), acc.current, acc.count)
    else
      var flushed := if acc.count + |words| > chunkSize then Flush(acc, overlap) else acc;
      Acc(flushed.emitted, flushed.current + [paragraph], flushed.count + |words|)
  }

  function Fold(paragraphs: seq<string>, chunkSize: int, overlap: int): Acc
    requires chunkSize > 0
  {
    if paragraphs == [] then Acc([], [], 0)
    else Step(Fold(paragraphs[..|paragraphs| - 1], chunkSize, overlap), paragraphs[|paragraphs| - 1], chunkSize, overlap)
  }

  /** The contents the paragraph loop and the final flush emit. */
  function FoldContents(paragraphs: seq<string>, chunkSize: int, overlap: int): seq<string>
    requires chunkSize > 0
  {
    var acc := Fold(paragraphs, chunkSize, overlap);
    acc.emitted + (if |acc.current| > 0 then [Join(acc.current, "\n")] else [])
  }

  /** The contents `chunkText` emits before its fallback (which is never reached). */
  function ChunkContents(text: string, chunkSize: int, overlap: int): seq<string>
    requires chunkSize > 0
  {
    if Trim(text) == [] then [] else FoldContents(Paragraphs(Normalise(text)), chunkSize, overlap)
  }

  /** Chunks numbered by their position. */
  predicate Numbered(chunks: seq<Chunk>) {
    forall k :: 0 <= k < |chunks| ==> chunks[k].chunkIndex == k
  }

  /** `chunkText(text, chunkSize, overlap)`. */
  method ChunkText(text: string, chunkSize: int, overlap: int) returns (chunks: seq<Chunk>)
    requires chunkSize > 0
    ensures chunks == [] <==> Trim(text) == []
    ensures Numbered(chunks)
    ensures Contents(chunks) == ChunkContents(text, chunkSize, overlap)
    ensures Trim(text) != [] && |Words(text)| <= chunkSize ==> chunks == [Chunk(Normalise(text), 0)]
    ensures Trim(text) != [] && |Words(text)| > chunkSize ==>
              Contents(chunks) == JoinAll(WindowsFrom(Words(text), chunkSize, WindowStep(chunkSize, overlap), 0))
  {
    if Trim(text) == [] {
      return [];
    }
    var cleaned := Normalise(text);
    var paragraphs := Paragraphs(cleaned);
    chunks := ChunkParagraphs(paragraphs, chunkSize, overlap);
    ChunkContentsShape(text, chunkSize, overlap);
    assert Contents(chunks) == ChunkContents(text, chunkSize, overlap);
    if |chunks| == 0 {
      // The word-split fallback (textChunker.js lines 85-97) is never reached.
      assert false;
    }
    if |Words(text)| <= chunkSize {
      SingleChunk(chunks, cleaned);
    }
  }

  lemma SingleChunk(chunks: seq<Chunk>, c: string)
    requires Numbered(chunks) && Contents(chunks) == [c]
    ensures chunks == [Chunk(c, 0)]
  {
    assert Contents(chunks)[0] == chunks[0].content;
  }

  /** The paragraph loop of `chunkText` and its final flush (lines 17-82). */
  method ChunkParagraphs(paragraphs: seq<string>, chunkSize: int, overlap: int) returns (chunks: seq<Chunk>)
    requires chunkSize > 0
    ensures Numbered(chunks)
    ensures Contents(chunks) == FoldContents(paragraphs, chunkSize, overlap)
  {
    chunks := [];
    var currentChunk: seq<string> := [];
    var currentWordCount := 0;
    var i := 0;
    while i < |paragraphs|
      invariant 0 <= i <= |paragraphs|
      invariant Acc(Contents(chunks), currentChunk, currentWordCount) == Fold(paragraphs[..i], chunkSize, overlap)
      invariant Numbered(chunks)
    {
      FoldSnoc(paragraphs, i, chunkSize, overlap);
      chunks, currentChunk, currentWordCount :=
        ParagraphStep(chunks, currentChunk, currentWordCount, paragraphs[i], chunkSize, overlap);
      i := i + 1;
    }
    assert paragraphs[..i] == paragraphs;
    chunks := FinalFlush(chunks, currentChunk);
  }

  /** The flush after the loop (lines 79-82). */
  method FinalFlush(chunks: seq<Chunk>, currentChunk: seq<string>) returns (out: seq<Chunk>)
    requires Numbered(chunks)
    ensures Numbered(out)
    ensures Contents(out) == Contents(chunks) + (if |currentChunk| > 0 then [Join(currentChunk, "\n")] else [])
  {
    out := chunks;
    if |currentChunk| > 0 {
      out := Push(chunks, Join(currentChunk, "\n"));
    }
  }

  /** One pass of the paragraph loop (lines 18-77): an oversized paragraph
      is emitted as windows; any other joins the accumulator, which is
      flushed first when the paragraph would overflow it. */
  method ParagraphStep(chunks: seq<Chunk>, currentChunk: seq<string>, currentWordCount: int,
                       paragraph: string, chunkSize: int, overlap: int)
    returns (outChunks: seq<Chunk>, outCurrent: seq<string>, outCount: int)
    requires chunkSize > 0 && Numbered(chunks)
    ensures Numbered(outChunks)
    ensures Acc(Contents(outChunks), outCurrent, outCount)
            == Step(Acc(Contents(chunks), currentChunk, currentWordCount), paragraph, chunkSize, overlap)
  {
    ghost var acc := Acc(Contents(chunks), currentChunk, currentWordCount);
    var paragraphWords := SplitWs(Trim(paragraph));
    var paragraphWordCount := |paragraphWords|;
    if paragraphWordCount > chunkSize {
      outChunks := EmitWindows(chunks, paragraphWords, chunkSize, overlap);
      outCurrent, outCount := currentChunk, currentWordCount;
      StepWindows(acc, paragraph, chunkSize, overlap);
    } else {
      StepAccumulate(acc, paragraph, chunkSize, overlap);
      ghost var flushed := if currentWordCount + paragraphWordCount > chunkSize then Flush(acc, overlap) else acc;
      outChunks, outCurrent, outCount := chunks, currentChunk, currentWordCount;
      if currentWordCount + paragraphWordCount > chunkSize {
        outChunks, outCurrent, outCount := FlushChunk(chunks, currentChunk, currentWordCount, overlap);
      }
      assert Acc(Contents(outChunks), outCurrent, outCount) == flushed;
      outCurrent := outCurrent + [paragraph];
      outCount := outCount + paragraphWordCount;
    }
  }

  /** Closing the accumulator (lines 50-69). */
  method FlushChunk(chunks: seq<Chunk>, currentChunk: seq<string>, currentWordCount: int, overlap: int)
    returns (outChunks: seq<Chunk>, outCurrent: seq<string>, outCount: int)
    requires Numbered(chunks)
    ensures Numbered(outChunks)
    ensures Acc(Contents(outChunks), outCurrent, outCount)
            == Flush(Acc(Contents(chunks), currentChunk, currentWordCount), overlap)
  {
    outChunks := Push(chunks, Join(currentChunk, "\n"));
    if overlap > 0 {
      var overlapWords := LastN(SplitWs(Join(currentChunk, " ")), overlap);
      outCurrent := [Join(overlapWords, " ")];
      outCount := |overlapWords|;
    } else {
      outCurrent := [];
      outCount := 0;
    }
  }

  lemma FoldSnoc(ps: seq<string>, i: nat, chunkSize: int, overlap: int)
    requires chunkSize > 0 && i < |ps|
    ensures Fold(ps[..i + 1], chunkSize, overlap) == Step(Fold(ps[..i], chunkSize, overlap), ps[i], chunkSize, overlap)
  {
    assert ps[..i + 1][..i] == ps[..i];
  }

  /** The window branch of one step. */
  lemma StepWindows(acc: Acc, paragraph: string, chunkSize: int, overlap: int)
    requires chunkSize > 0 && |SplitWs(Trim(paragraph))| > chunkSize
    ensures Step(acc, paragraph, chunkSize, overlap)
            == Acc(acc.emitted + JoinAll(WindowsFrom(SplitWs(Trim(paragraph)), chunkSize, WindowStep(chunkSize, overlap), 0)),
                   acc.current, acc.count)
  {
  }

  /** The accumulating branch of one step. */
  lemma StepAccumulate(acc: Acc, paragraph: string, chunkSize: int, overlap: int)
    requires chunkSize > 0 && |SplitWs(Trim(paragraph))| <= chunkSize
    ensures var n := |SplitWs(Trim(paragraph))|;
            var flushed := if acc.count + n > chunkSize then Flush(acc, overlap) else acc;
            Step(acc, paragraph, chunkSize, overlap) == Acc(flushed.emitted, flushed.current + [paragraph], flushed.count + n)
  {
  }

  /** `chunks.push({ content, chunkIndex: chunkIndex++ })`, the counter being
      the number of chunks pushed so far. */
  method Push(chunks: seq<Chunk>, content: string) returns (out: seq<Chunk>)
    requires Numbered(chunks)
    ensures Numbered(out)
    ensures out == chunks + [Chunk(content, |chunks|)]
    ensures Contents(out) == Contents(chunks) + [content]
  {
    out := chunks + [Chunk(content, |chunks|)];
  }

  /** The sliding-window loop for a paragraph of more than `chunkSize` words
      (lines 29-45). */
  method EmitWindows(chunks: seq<Chunk>, paragraphWords: seq<string>, chunkSize: int, overlap: int)
    returns (out: seq<Chunk>)
    requires chunkSize > 0 && Numbered(chunks)
    ensures Numbered(out)
    ensures Contents(out) == Contents(chunks) + JoinAll(WindowsFrom(paragraphWords, chunkSize, WindowStep(chunkSize, overlap), 0))
  {
    var safeOverlap := Min(overlap, chunkSize - 1);
    var step := chunkSize - safeOverlap;
    assert step == WindowStep(chunkSize, overlap);
    out := chunks;
    var start: nat := 0;
    while start < |paragraphWords|
      invariant Numbered(out)
      invariant Contents(out) + JoinAll(WindowsFrom(paragraphWords, chunkSize, step, start))
                == Contents(chunks) + JoinAll(WindowsFrom(paragraphWords, chunkSize, step, 0))
      decreases |paragraphWords| - start
    {
      out := EmitWindow(out, paragraphWords, chunkSize, step, start);
      start := start + step;
    }
  }

  /** One window: `paragraphWords.slice(start, start + chunkSize)` joined by
      spaces becomes the next chunk (lines 32-40). */
  method EmitWindow(chunks: seq<Chunk>, paragraphWords: seq<string>, chunkSize: nat, step: nat, start: nat)
    returns (out: seq<Chunk>)
    requires chunkSize > 0 && step > 0 && start < |paragraphWords| && Numbered(chunks)
    ensures Numbered(out)
    ensures Contents(out) + JoinAll(WindowsFrom(paragraphWords, chunkSize, step, start + step))
            == Contents(chunks) + JoinAll(WindowsFrom(paragraphWords, chunkSize, step, start))
  {
    var end := start + chunkSize;
    var slice := paragraphWords[start..Min(end, |paragraphWords|)];
    ghost var rest := WindowsFrom(paragraphWords, chunkSize, step, start + step);
    assert WindowsFrom(paragraphWords, chunkSize, step, start) == [slice] + rest;
    JoinAllCons(slice, rest);
    out := Push(chunks, Join(slice, " "));
    assert Contents(out) + JoinAll(rest) == Contents(chunks) + JoinAll([slice] + rest);
  }

  // ---------------------------------------------------------------------
  // What the normalisation guarantees

  lemma {:induction false} ReplaceCrlfKeepsNonSpace(s: string)
    ensures AllSpace(ReplaceCrlf(s)) ==> AllSpace(s)
    decreases |s|
  {
    if |s| >= 2 && s[0] == '\r' && s[1] == '\n' {
      ReplaceCrlfKeepsNonSpace(s[2..]);
      if AllSpace(ReplaceCrlf(s)) {
        assert ReplaceCrlf(s)[1..] == ReplaceCrlf(s[2..]);
        assert s == s[..2] + s[2..];
      }
    } else if s != [] {
      ReplaceCrlfKeepsNonSpace(s[1..]);
      if AllSpace(ReplaceCrlf(s)) {
        assert ReplaceCrlf(s)[0] == s[0];
        assert ReplaceCrlf(s)[1..] == ReplaceCrlf(s[1..]);
        assert s == [s[0]] + s[1..];
      }
    }
  }

  lemma {:induction false} CollapseKeepsNonSpace(s: string)
    ensures AllSpace(CollapseWhitespace(s)) ==> AllSpace(s)
    decreases |s|
  {
    if s != [] {
      if IsSpace(s[0]) {
        var t := TrimStart(s[1..]);
        TrimStartSuffix(s[1..]);
        CollapseKeepsNonSpace(t);
        if AllSpace(CollapseWhitespace(s)) {
          assert CollapseWhitespace(s)[1..] == CollapseWhitespace(t);
          assert s[1..] == s[1..][..|s| - 1 - |t|] + t;
          assert s == [s[0]] + s[1..];
        }
      } else {
        CollapseKeepsNonSpace(s[1..]);
        assert CollapseWhitespace(s)[0] == s[0];
      }
    }
  }

  lemma {:induction false} DropAfterIdentity(s: string)
    requires NoNewline(s)
    ensures DropSpaceAfterNewline(s) == s
  {
    if s != [] {
      DropAfterIdentity(s[1..]);
    }
  }

  lemma {:induction false} DropBeforeIdentity(s: string)
    requires NoNewline(s)
    ensures DropSpaceBeforeNewline(s) == s
  {
    if s != [] {
      if |s| >= 2 {
        assert s[1] != '\n';
      }
      DropBeforeIdentity(s[1..]);
    }
  }

  /** The collapsed text, before the newline rules and the final trim. */
  function Collapsed(text: string): (r: string)
    ensures forall i :: 0 <= i < |r| ==> (IsSpace(r[i]) ==> r[i] == ' ')
  {
    CollapseWhitespace(ReplaceCrlf(text))
  }

  lemma CollapsedNoNewline(text: string)
    ensures NoNewline(Collapsed(text))
  {
    var c := Collapsed(text);
    forall i | 0 <= i < |c|
      ensures c[i] != '\n'
    {
      assert IsSpace('\n');
    }
  }

  /** The newline rules change nothing once newlines are gone, so the
      normalised text is the trimmed collapsed text. */
  lemma NormaliseIsTrimCollapsed(text: string)
    ensures Normalise(text) == Trim(Collapsed(text))
  {
    CollapsedNoNewline(text);
    DropAfterIdentity(Collapsed(text));
    DropBeforeIdentity(Collapsed(text));
  }

  lemma TrimNoNewline(s: string)
    requires NoNewline(s)
    ensures NoNewline(Trim(s))
  {
    var t := TrimStart(s);
    TrimStartSuffix(s);
    NoNewlineSuffix(s, |s| - |t|);
    var r := TrimEnd(t);
    TrimEndPrefix(t);
    NoNewlinePrefix(t, |r|);
    assert Trim(s) == r;
  }

  lemma NoNewlineSuffix(s: string, lo: nat)
    requires NoNewline(s) && lo <= |s|
    ensures NoNewline(s[lo..])
  {
    forall i | 0 <= i < |s| - lo
      ensures s[lo..][i] != '\n'
    {
      assert s[lo..][i] == s[lo + i];
    }
  }

  lemma NoNewlinePrefix(s: string, hi: nat)
    requires NoNewline(s) && hi <= |s|
    ensures NoNewline(s[..hi])
  {
    forall i | 0 <= i < hi
      ensures s[..hi][i] != '\n'
    {
      assert s[..hi][i] == s[i];
    }
  }

  /** The collapsed text is blank exactly when the input is. */
  lemma CollapsedBlankIff(text: string)
    ensures AllSpace(Collapsed(text)) <==> AllSpace(text)
  {
    ReplaceCrlfKeepsNonSpace(text);
    CollapseKeepsNonSpace(ReplaceCrlf(text));
    if AllSpace(text) {
      AllSpaceReplaceCrlf(text);
      AllSpaceCollapse(ReplaceCrlf(text));
    }
  }

  /** The normalised text has no newline and no white space at its ends, and
      it is empty only when the input is blank. */
  lemma NormaliseShape(text: string)
    ensures NoNewline(Normalise(text)) && IsTrimmed(Normalise(text))
    ensures Normalise(text) == [] <==> Trim(text) == []
  {
    NormaliseIsTrimCollapsed(text);
    CollapsedNoNewline(text);
    TrimNoNewline(Collapsed(text));
    TrimEmptyIff(Collapsed(text));
    TrimEmptyIff(text);
    CollapsedBlankIff(text);
  }

  lemma {:induction false} AllSpaceReplaceCrlf(s: string)
    requires AllSpace(s)
    ensures AllSpace(ReplaceCrlf(s))
    decreases |s|
  {
    if |s| >= 2 && s[0] == '\r' && s[1] == '\n' {
      AllSpaceReplaceCrlf(s[2..]);
    } else if s != [] {
      AllSpaceReplaceCrlf(s[1..]);
    }
  }

  lemma {:induction false} AllSpaceCollapse(s: string)
    ensures AllSpace(s) ==> AllSpace(CollapseWhitespace(s))
    decreases |s|
  {
    if s != [] {
      if IsSpace(s[0]) {
        TrimStartSuffix(s[1..]);
        AllSpaceCollapse(TrimStart(s[1..]));
      } else {
        AllSpaceCollapse(s[1..]);
      }
    }
  }

  /** However many newlines the input holds, a non-blank text is one paragraph:
      the normalised text itself. */
  lemma SingleParagraph(text: string)
    requires Trim(text) != []
    ensures Paragraphs(Normalise(text)) == [Normalise(text)]
  {
    var cleaned := Normalise(text);
    NormaliseShape(text);
    SplitAbsent(cleaned, '\n');
    TrimTrimmed(cleaned);
    NonBlankSingle(cleaned);
  }

  lemma NonBlankSingle(s: string)
    requires Trim(s) != []
    ensures NonBlank([s]) == [s]
  {
    assert [s][1..] == [];
  }

  /** What `chunkText` emits for a non-blank text: the normalised text as one
      chunk when it has at most `chunkSize` words, and otherwise the sliding
      windows over its words; so it never emits nothing, and the fallback is
      dead code. */
  lemma ChunkContentsShape(text: string, chunkSize: int, overlap: int)
    requires chunkSize > 0
    ensures Trim(text) == [] ==> ChunkContents(text, chunkSize, overlap) == []
    ensures Trim(text) != [] && |Words(text)| <= chunkSize ==>
              ChunkContents(text, chunkSize, overlap) == [Normalise(text)]
    ensures Trim(text) != [] && |Words(text)| > chunkSize ==>
              ChunkContents(text, chunkSize, overlap)
              == JoinAll(WindowsFrom(Words(text), chunkSize, WindowStep(chunkSize, overlap), 0))
    ensures Trim(text) != [] ==> |ChunkContents(text, chunkSize, overlap)| > 0
  {
    if Trim(text) != [] {
      var cleaned := Normalise(text);
      SingleParagraph(text);
      NormaliseShape(text);
      TrimTrimmed(cleaned);
      FoldContentsSingle(cleaned, chunkSize, overlap);
      assert ChunkContents(text, chunkSize, overlap) == FoldContents([cleaned], chunkSize, overlap);
      assert Words(text) == SplitWs(cleaned);
    }
  }

  /** The paragraph loop over a single trimmed paragraph. */
  lemma FoldContentsSingle(p: string, chunkSize: int, overlap: int)
    requires chunkSize > 0 && Trim(p) == p
    ensures |SplitWs(p)| <= chunkSize ==> FoldContents([p], chunkSize, overlap) == [p]
    ensures |SplitWs(p)| > chunkSize ==>
              FoldContents([p], chunkSize, overlap) == JoinAll(WindowsFrom(SplitWs(p), chunkSize, WindowStep(chunkSize, overlap), 0))
  {
    FoldSingle(p, chunkSize, overlap);
    if |SplitWs(p)| <= chunkSize {
      assert Join([p], "\n") == p;
    }
  }

  lemma FoldSingle(p: string, chunkSize: int, overlap: int)
    requires chunkSize > 0 && Trim(p) == p
    ensures |SplitWs(p)| <= chunkSize ==> Fold([p], chunkSize, overlap) == Acc([], [p], |SplitWs(p)|)
    ensures |SplitWs(p)| > chunkSize ==>
              Fold([p], chunkSize, overlap) == Acc(JoinAll(WindowsFrom(SplitWs(p), chunkSize, WindowStep(chunkSize, overlap), 0)), [], 0)
  {
    assert [p][..0] == [];
    assert Fold([p], chunkSize, overlap) == Step(Acc([], [], 0), p, chunkSize, overlap);
  }

  // ---------------------------------------------------------------------
  // The sliding windows

  /** Window k starts at word `from + k * step`, and there is a window k
      exactly when that start is below the word count. */
  lemma {:induction false} WindowAt(words: seq<string>, size: nat, step: nat, from: nat, k: nat)
    requires size > 0 && step > 0
    ensures k < |WindowsFrom(words, size, step, from)| <==> from + k * step < |words|
    ensures k < |WindowsFrom(words, size, step, from)| ==>
              WindowsFrom(words, size, step, from)[k] == words[from + k * step..Min(from + k * step + size, |words|)]
    decreases k
  {
    if from < |words| && k > 0 {
      WindowAt(words, size, step, from + step, k - 1);
      StepShift(from, step, k);
    } else if from >= |words| {
      ProductNonNegative(k, step);
    }
  }

  lemma StepShift(from: nat, step: nat, k: nat)
    requires k > 0
    ensures from + step + (k - 1) * step == from + k * step
  {
  }

  lemma ProductNonNegative(k: nat, step: nat)
    ensures k * step >= 0
  {
  }

  /** Every window holds at most `size` words, and every word lies in the
      window `j / step`, as long as windows overlap or touch (`step <= size`). */
  lemma WindowsCover(words: seq<string>, size: nat, step: nat, j: nat)
    requires size > 0 && 0 < step <= size && j < |words|
    ensures var ws := WindowsFrom(words, size, step, 0);
            var k := j / step;
            k < |ws| && k * step <= j < k * step + |ws[k]| && ws[k][j - k * step] == words[j]
  {
    var k := j / step;
    var base := k * step;
    DivBounds(j, step);
    WindowAt(words, size, step, 0, k);
    var ws := WindowsFrom(words, size, step, 0);
    assert ws[k] == words[base..Min(base + size, |words|)];
    assert j - base < Min(base + size, |words|) - base;
  }

  lemma DivBounds(j: nat, step: nat)
    requires step > 0
    ensures (j / step) * step <= j < (j / step) * step + step
  {
    assert j == step * (j / step) + j % step;
  }

  lemma WindowsBounded(words: seq<string>, size: nat, step: nat, k: nat)
    requires size > 0 && step > 0
    requires k < |WindowsFrom(words, size, step, 0)|
    ensures 1 <= |WindowsFrom(words, size, step, 0)[k]| <= size
  {
    WindowAt(words, size, step, 0, k);
  }

  /** Each chunk of an oversized text, split into words again, gives exactly
      its window's words, so it has at most `chunkSize` words; and together
      the windows cover every word when the overlap is not negative. */
  lemma OversizedChunks(text: string, chunkSize: int, overlap: int, k: nat)
    requires chunkSize > 0 && Trim(text) != [] && |Words(text)| > chunkSize
    requires k < |ChunkContents(text, chunkSize, overlap)|
    ensures var ws := WindowsFrom(Words(text), chunkSize, WindowStep(chunkSize, overlap), 0);
            k < |ws| && SplitWs(ChunkContents(text, chunkSize, overlap)[k]) == ws[k]
    ensures |SplitWs(ChunkContents(text, chunkSize, overlap)[k])| <= chunkSize
  {
    var step := WindowStep(chunkSize, overlap);
    var words := Words(text);
    var ws := WindowsFrom(words, chunkSize, step, 0);
    ChunkContentsShape(text, chunkSize, overlap);
    assert ChunkContents(text, chunkSize, overlap)[k] == Join(ws[k], " ");
    NormaliseShape(text);
    SplitWsTrimmedWords(Normalise(text));
    WindowWords(words, chunkSize, step, k);
    WindowsBounded(words, chunkSize, step, k);
  }

  /** A window over non-empty, space-free words, joined and split again,
      gives its words back. */
  lemma WindowWords(words: seq<string>, size: nat, step: nat, k: nat)
    requires size > 0 && step > 0
    requires forall i :: 0 <= i < |words| ==> words[i] != [] && NoSpace(words[i])
    requires k < |WindowsFrom(words, size, step, 0)|
    ensures k * step < |words|
    ensures var w := WindowsFrom(words, size, step, 0)[k];
            && w == words[k * step..Min(k * step + size, |words|)]
            && SplitWs(Join(w, " ")) == w
  {
    WindowSlice(words, size, step, k);
    SliceWords(words, k * step, Min(k * step + size, |words|));
  }

  lemma WindowSlice(words: seq<string>, size: nat, step: nat, k: nat)
    requires size > 0 && step > 0
    requires k < |WindowsFrom(words, size, step, 0)|
    ensures k * step < |words|
    ensures WindowsFrom(words, size, step, 0)[k] == words[k * step..Min(k * step + size, |words|)]
  {
    WindowAt(words, size, step, 0, k);
  }

  lemma SliceWords(words: seq<string>, lo: nat, hi: nat)
    requires lo < hi <= |words|
    requires forall i :: 0 <= i < |words| ==> words[i] != [] && NoSpace(words[i])
    ensures SplitWs(Join(words[lo..hi], " ")) == words[lo..hi]
  {
    var w := words[lo..hi];
    assert forall i :: 0 <= i < |w| ==> w[i] == words[lo + i];
    SplitWsJoin(w);
  }
}
