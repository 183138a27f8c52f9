/** `findRelevantChunks` of Backend/utils/textChunker.js: turn a query into
    keywords, score every chunk by word matches, keep the chunks that scored,
    rank them by score, matched-keyword count and chunk index, and return the
    first `maxChunks`.

    The floating-point score is `rawScore / sqrt(wordCount) * (1 + 1/(i+1))`.
    The position bonus is rational and written out; the reciprocal square
    root is a parameter `invSqrt`, of which only positivity is assumed. */
module Ranker {
  import opened Text
  import opened Chunker

  // ---------------------------------------------------------------------
  // Query keywords (textChunker.js lines 106-118)

  predicate IsStopword(w: string) {
    w in {"the", "is", "at", "which", "on", "a", "an", "and", "but", "or",
          "in", "with", "to", "for", "of", "as", "by", "this", "that", "it"}
  }

  /** A character of the regular-expression class `\w` (ASCII letters, digits, `_`). */
  predicate IsWordChar(c: char) {
    ('a' <= c <= 'z') || ('A' <= c <= 'Z') || ('0' <= c <= '9') || c == '_'
  }

  /** `.replace(/[^\w\s]/g, '')` */
  function StripPunctuation(s: string): (r: string)
    ensures forall i :: 0 <= i < |r| ==> IsWordChar(r[i]) || IsSpace(r[i])
    ensures |r| <= |s|
  {
    if s == [] then []
    else (if IsWordChar(s[0]) || IsSpace(s[0]) then [s[0]] else []) + StripPunctuation(s[1..])
  }

  /** `.filter(word => word.length > 1 && !stopwords.has(word))`. The pieces
      hold only ASCII word characters, so their UTF-16 length is `|w|`. */
  function Keep(ws: seq<string>): seq<string> {
    if ws == [] then []
    else (if |ws[0]| > 1 && !IsStopword(ws[0]) then [ws[0]] else []) + Keep(ws[1..])
  }

  /** The kept pieces are exactly the long enough non-stopwords. */
  lemma {:induction false} KeepMembers(ws: seq<string>)
    ensures forall w :: w in Keep(ws) <==> w in ws && |w| > 1 && !IsStopword(w)
  {
    if ws != [] {
      KeepMembers(ws[1..]);
      assert ws == [ws[0]] + ws[1..];
    }
  }

  function QueryWords(query: string): seq<string> {
    Keep(SplitWs(StripPunctuation(ToLower(query))))
  }

  /** The keywords are longer than one character, are no stopwords, and are
      made of lower-case ASCII letters, digits and `_` only. */
  lemma QueryWordsShape(query: string)
    ensures forall w :: w in QueryWords(query) ==>
              |w| > 1 && !IsStopword(w) && Utf16Length(w) == |w|
              && forall i :: 0 <= i < |w| ==> IsWordChar(w[i]) && !('A' <= w[i] <= 'Z')
  {
    var lowered := ToLower(query);
    var stripped := StripPunctuation(lowered);
    StripKeepsLower(lowered);
    var pieces := SplitWs(stripped);
    KeepMembers(pieces);
    forall w | w in QueryWords(query)
      ensures Utf16Length(w) == |w|
      ensures forall i :: 0 <= i < |w| ==> IsWordChar(w[i]) && !('A' <= w[i] <= 'Z')
    {
      SplitWsPiecesFrom(stripped, w);
      AsciiUtf16(w);
    }
  }

  /** Stripping a lower-cased string keeps it free of upper-case letters. */
  lemma {:induction false} StripKeepsLower(s: string)
    requires forall i :: 0 <= i < |s| ==> !('A' <= s[i] <= 'Z')
    ensures forall i :: 0 <= i < |StripPunctuation(s)| ==> !('A' <= StripPunctuation(s)[i] <= 'Z')
  {
    if s != [] {
      StripKeepsLower(s[1..]);
    }
  }

  /** Every character of a piece of `SplitWs(s)` is a non-space character of `s`. */
  lemma {:induction false} SplitWsPiecesFrom(s: string, w: string)
    requires w in SplitWs(s)
    ensures forall i :: 0 <= i < |w| ==> w[i] in s && !IsSpace(w[i])
    decreases |s|
  {
    var t := TakeWord(s);
    TakeWordShape(s);
    if w != t {
      assert |t| != |s|;
      var x := s[|t| + 1..];
      var rest := TrimStart(x);
      TrimStartSuffix(x);
      assert SplitWs(s) == [t] + SplitWs(rest);
      SplitWsPiecesFrom(rest, w);
      forall i | 0 <= i < |w|
        ensures w[i] in s
      {
        var k :| 0 <= k < |rest| && rest[k] == w[i];
        var kx := |x| - |rest| + k;
        assert x[kx] == rest[k];
        assert s[|t| + 1 + kx] == x[kx];
      }
    } else {
      forall i | 0 <= i < |w|
        ensures w[i] in s
      {
        assert s[i] == w[i];
      }
    }
  }

  lemma {:induction false} AsciiUtf16(w: string)
    requires forall i :: 0 <= i < |w| ==> IsWordChar(w[i])
    ensures Utf16Length(w) == |w|
    decreases |w|
  {
    if w != [] {
      AsciiUtf16(w[..|w| - 1]);
    }
  }

  /** A query has no keywords exactly when each of its pieces is at most one
      character long or a stopword; the empty query is one of them. */
  lemma NoKeywordsIff(query: string)
    ensures var pieces := SplitWs(StripPunctuation(ToLower(query)));
            QueryWords(query) == [] <==> forall w :: w in pieces ==> |w| <= 1 || IsStopword(w)
    ensures QueryWords("") == []
  {
    var pieces := SplitWs(StripPunctuation(ToLower(query)));
    KeepMembers(pieces);
    if QueryWords(query) != [] {
      assert QueryWords(query)[0] in QueryWords(query);
    }
    assert StripPunctuation(ToLower("")) == "";
    assert TakeWord("") == "";
    assert SplitWs("") == [""];
    assert Keep([""]) == [] by { assert [""][1..] == []; }
  }

  // ---------------------------------------------------------------------
  // Scoring one chunk (textChunker.js lines 122-144)

  /** What one (chunk word, keyword) pair adds: 3 for equality, 1 when one
      contains the other. */
  function PairScore(word: string, q: string): nat {
    if word == q then 3 else if Includes(word, q) || Includes(q, word) then 1 else 0
  }

  /** The score keyword `q` collects over `words`. */
  function RowScore(q: string, words: seq<string>): nat {
    if words == [] then 0 else RowScore(q, words[..|words| - 1]) + PairScore(words[|words| - 1], q)
  }

  /** The score all keywords collect, before the bonus. */
  function PairSum(qs: seq<string>, words: seq<string>): nat {
    if qs == [] then 0 else PairSum(qs[..|qs| - 1], words) + RowScore(qs[|qs| - 1], words)
  }

  /** Whether keyword `q` matches some word. */
  predicate Hits(q: string, words: seq<string>) {
    exists j :: 0 <= j < |words| && PairScore(words[j], q) > 0
  }

  /** `matchedWords.add(q)` on a set kept in insertion order. */
  function AddIf(m: seq<string>, q: string, hit: bool): seq<string> {
    if hit && q !in m then m + [q] else m
  }

  /** `Array.from(matchedWords)`: the keywords that matched, in the order
      they first matched. */
  function MatchedWords(qs: seq<string>, words: seq<string>): seq<string> {
    if qs == [] then []
    else AddIf(MatchedWords(qs[..|qs| - 1], words), qs[|qs| - 1], Hits(qs[|qs| - 1], words))
  }

  /** `rawScore`: the pair scores plus twice the matched-keyword count when
      more than one keyword matched. */
  function RawScore(qs: seq<string>, words: seq<string>): nat {
    var m := MatchedWords(qs, words);
    PairSum(qs, words) + (if |m| > 1 then 2 * |m| else 0)
  }

  /** The nested scoring loops. */
  method ScoreChunk(qs: seq<string>, words: seq<string>) returns (score: nat, matched: seq<string>)
    ensures score == RawScore(qs, words)
    ensures matched == MatchedWords(qs, words)
  {
    score := 0;
    matched := [];
    var i := 0;
    while i < |qs|
      invariant 0 <= i <= |qs|
      invariant score == PairSum(qs[..i], words)
      invariant matched == MatchedWords(qs[..i], words)
    {
      assert qs[..i + 1][..i] == qs[..i];
      score, matched := ScoreKeyword(qs[i], words, score, matched);
      i := i + 1;
    }
    assert qs[..i] == qs;
    if |matched| > 1 {
      score := score + |matched| * 2;
    }
  }

  /** The inner loop: keyword `q` against every chunk word. */
  method ScoreKeyword(q: string, words: seq<string>, score0: nat, matched0: seq<string>)
    returns (score: nat, matched: seq<string>)
    ensures score == score0 + RowScore(q, words)
    ensures matched == AddIf(matched0, q, Hits(q, words))
  {
    score := score0;
    matched := matched0;
    var j := 0;
    while j < |words|
      invariant 0 <= j <= |words|
      invariant score == score0 + RowScore(q, words[..j])
      invariant matched == AddIf(matched0, q, Hits(q, words[..j]))
    {
      assert words[..j + 1][..j] == words[..j];
      var word := words[j];
      if word == q {
        score := score + 3;
        matched := AddIf(matched, q, true);
      } else if Includes(word, q) || Includes(q, word) {
        score := score + 1;
        matched := AddIf(matched, q, true);
      }
      HitsSnoc(q, words[..j + 1]);
      j := j + 1;
    }
    assert words[..j] == words;
  }

  lemma HitsSnoc(q: string, ws: seq<string>)
    requires ws != []
    ensures Hits(q, ws) <==> Hits(q, ws[..|ws| - 1]) || PairScore(ws[|ws| - 1], q) > 0
  {
    var init := ws[..|ws| - 1];
    if Hits(q, init) {
      var j :| 0 <= j < |init| && PairScore(init[j], q) > 0;
      assert ws[j] == init[j];
    }
    if Hits(q, ws) && PairScore(ws[|ws| - 1], q) == 0 {
      var j :| 0 <= j < |ws| && PairScore(ws[j], q) > 0;
      assert init[j] == ws[j];
    }
  }

  /** A keyword's row score is positive exactly when it hits some word. */
  lemma {:induction false} RowScorePositive(q: string, words: seq<string>)
    ensures RowScore(q, words) > 0 <==> Hits(q, words)
  {
    if words != [] {
      RowScorePositive(q, words[..|words| - 1]);
      HitsSnoc(q, words);
    }
  }

  /** The matched keywords are exactly the keywords that hit a word, each once. */
  lemma {:induction false} MatchedWordsIff(qs: seq<string>, words: seq<string>)
    ensures forall q :: q in MatchedWords(qs, words) <==> q in qs && Hits(q, words)
    ensures forall a, b :: 0 <= a < b < |MatchedWords(qs, words)| ==>
              MatchedWords(qs, words)[a] != MatchedWords(qs, words)[b]
  {
    if qs != [] {
      var init := qs[..|qs| - 1];
      MatchedWordsIff(init, words);
      assert qs == init + [qs[|qs| - 1]];
    }
  }

  /** The pair sum is positive exactly when some keyword hits some word. */
  lemma {:induction false} PairSumPositive(qs: seq<string>, words: seq<string>)
    ensures PairSum(qs, words) > 0 <==> exists q :: q in qs && Hits(q, words)
  {
    if qs != [] {
      var init := qs[..|qs| - 1];
      PairSumPositive(init, words);
      RowScorePositive(qs[|qs| - 1], words);
      assert qs == init + [qs[|qs| - 1]];
      if exists q :: q in qs && Hits(q, words) {
        var q :| q in qs && Hits(q, words);
        if q != qs[|qs| - 1] {
          assert q in init;
        }
      }
    }
  }

  /** A chunk's raw score is positive exactly when some keyword matches some
      of its words (the bonus never applies on its own). */
  lemma RawScorePositive(qs: seq<string>, words: seq<string>)
    ensures RawScore(qs, words) > 0 <==> exists q :: q in qs && Hits(q, words)
  {
    PairSumPositive(qs, words);
    MatchedWordsIff(qs, words);
    var m := MatchedWords(qs, words);
    if |m| > 1 {
      assert m[0] in m;
    }
  }

  /** A chunk whose text starts with white space, or is empty, has an empty
      first word, which every keyword contains: it scores for any query. */
  lemma EmptyWordMatchesEverything(qs: seq<string>, words: seq<string>)
    requires qs != [] && words != [] && words[0] == ""
    ensures RawScore(qs, words) > 0
  {
    assert OccursAt(qs[0], "", 0);
    assert PairScore(words[0], qs[0]) > 0;
    assert Hits(qs[0], words);
    RawScorePositive(qs, words);
  }

  // ---------------------------------------------------------------------
  // Scored chunks (textChunker.js lines 146-161)

  datatype ScoredChunk = ScoredChunk(content: string, chunkIndex: int, score: real,
                                     rawScore: nat, matchedWords: seq<string>)

  /** `1 + (1 / (index + 1))` */
  function PositionBonus(index: nat): (r: real)
    ensures 1.0 < r <= 2.0
  {
    1.0 + 1.0 / ((index + 1) as real)
  }

  /** `normalizedScore * positionBonus` for a chunk of `wordCount` words at
      array position `index`, with `invSqrt(n)` standing for `1 / Math.sqrt(n)`. */
  function ScoreValue(raw: nat, wordCount: nat, index: nat, invSqrt: nat -> real): real {
    (raw as real) * invSqrt(if wordCount == 0 then 1 else wordCount) * PositionBonus(index)
  }

  /** The chunk words: `chunk.content.toLowerCase().split(/\s+/)`. */
  function ChunkWords(c: Chunk): seq<string> {
    SplitWs(ToLower(c.content))
  }

  /** The record built for the chunk at array position `index`. */
  function ScoreOf(c: Chunk, index: nat, qs: seq<string>, invSqrt: nat -> real): ScoredChunk {
    var words := ChunkWords(c);
    var raw := RawScore(qs, words);
    ScoredChunk(c.content, c.chunkIndex, ScoreValue(raw, |words|, index, invSqrt), raw, MatchedWords(qs, words))
  }

  /** `chunks.map(...)` */
  function ScoreAll(chunks: seq<Chunk>, qs: seq<string>, invSqrt: nat -> real): (r: seq<ScoredChunk>)
    ensures |r| == |chunks|
    ensures forall p :: 0 <= p < |r| ==> r[p] == ScoreOf(chunks[p], p, qs, invSqrt)
  {
    seq(|chunks|, p requires 0 <= p < |chunks| => ScoreOf(chunks[p], p, qs, invSqrt))
  }

  /** The score is positive exactly when the raw score is, since the length
      normaliser and the position bonus are. */
  lemma ScorePositiveIff(c: Chunk, index: nat, qs: seq<string>, invSqrt: nat -> real)
    requires forall n: nat :: invSqrt(n) > 0.0
    ensures ScoreOf(c, index, qs, invSqrt).score > 0.0 <==> ScoreOf(c, index, qs, invSqrt).rawScore > 0
  {
    var words := ChunkWords(c);
    ScoreValuePositive(RawScore(qs, words), |words|, index, invSqrt);
  }

  lemma ScoreValuePositive(raw: nat, wordCount: nat, index: nat, invSqrt: nat -> real)
    requires forall n: nat :: invSqrt(n) > 0.0
    ensures ScoreValue(raw, wordCount, index, invSqrt) > 0.0 <==> raw > 0
  {
    var a := invSqrt(if wordCount == 0 then 1 else wordCount);
    var b := PositionBonus(index);
    if raw > 0 {
      assert (raw as real) * a > 0.0;
      assert (raw as real) * a * b > 0.0;
    } else {
      assert (raw as real) * a * b == 0.0;
    }
  }

  // ---------------------------------------------------------------------
  // Filtering, ranking and truncation (textChunker.js lines 163-179)

  /** `.filter(c => c.score > 0)` */
  function Positive(s: seq<ScoredChunk>): (r: seq<ScoredChunk>)
    ensures forall x :: x in r <==> x in s && x.score > 0.0
  {
    if s == [] then []
    else (if s[0].score > 0.0 then [s[0]] else []) + Positive(s[1..])
  }

  /** The sort comparator is negative: `a` comes strictly before `b`. */
  predicate Before(a: ScoredChunk, b: ScoredChunk) {
    || a.score > b.score
    || (a.score == b.score && |a.matchedWords| > |b.matchedWords|)
    || (a.score == b.score && |a.matchedWords| == |b.matchedWords| && a.chunkIndex < b.chunkIndex)
  }

  /** Ranked: no element comes strictly before an earlier one. */
  predicate Ranked(s: seq<ScoredChunk>) {
    forall i, j :: 0 <= i < j < |s| ==> !Before(s[j], s[i])
  }

  /** Inserting after every element that `x` does not come strictly before,
      as a stable sort does. */
  function Insert(x: ScoredChunk, s: seq<ScoredChunk>): (r: seq<ScoredChunk>)
    ensures multiset(r) == multiset(s) + multiset{x}
  {
    if s == [] || Before(x, s[0]) then [x] + s
    else
      assert s == [s[0]] + s[1..];
      [s[0]] + Insert(x, s[1..])
  }

  /** `Array.prototype.sort` with the three-key comparator; it is stable. */
  function SortByRank(s: seq<ScoredChunk>): (r: seq<ScoredChunk>)
    ensures multiset(r) == multiset(s)
  {
    if s == [] then []
    else
      assert s == s[..|s| - 1] + [s[|s| - 1]];
      Insert(s[|s| - 1], SortByRank(s[..|s| - 1]))
  }

  lemma {:induction false} InsertRanked(x: ScoredChunk, s: seq<ScoredChunk>)
    requires Ranked(s)
    ensures Ranked(Insert(x, s))
  {
    if s != [] && !Before(x, s[0]) {
      InsertRanked(x, s[1..]);
      var r := Insert(x, s);
      forall j | 0 < j < |r|
        ensures !Before(r[j], r[0])
      {
        assert r[j] in multiset(Insert(x, s[1..]));
        assert r[j] == x || r[j] in multiset(s[1..]);
        if r[j] != x {
          var k :| 0 <= k < |s[1..]| && s[1..][k] == r[j];
          assert s[k + 1] == r[j];
        }
      }
    }
  }

  /** The sorted chunks are ranked and a permutation of the input. */
  lemma {:induction false} SortByRankRanked(s: seq<ScoredChunk>)
    ensures Ranked(SortByRank(s))
    ensures multiset(SortByRank(s)) == multiset(s)
  {
    if s != [] {
      SortByRankRanked(s[..|s| - 1]);
      InsertRanked(s[|s| - 1], SortByRank(s[..|s| - 1]));
    }
  }

  lemma RankedPrefix(s: seq<ScoredChunk>, n: int)
    requires Ranked(s)
    ensures Ranked(SliceTo(s, n))
  {
  }

  /** The strictly-before relation is a strict order (irreflexive and
      transitive), so the comparator is consistent. */
  lemma BeforeStrictOrder(a: ScoredChunk, b: ScoredChunk, c: ScoredChunk)
    ensures !Before(a, a)
    ensures Before(a, b) && Before(b, c) ==> Before(a, c)
    ensures Before(a, b) ==> !Before(b, a)
  {
  }

  /** The ranked list `findRelevantChunks` returns once it has keywords. */
  function Rank(chunks: seq<Chunk>, qs: seq<string>, maxChunks: int, invSqrt: nat -> real): seq<ScoredChunk> {
    SliceTo(SortByRank(Positive(ScoreAll(chunks, qs, invSqrt))), maxChunks)
  }

  /** `findRelevantChunks(chunks, query, maxChunks)`. */
  method FindRelevantChunks(chunks: seq<Chunk>, query: string, maxChunks: int, invSqrt: nat -> real)
    returns (result: seq<ScoredChunk>)
    requires forall n: nat :: invSqrt(n) > 0.0
    ensures chunks == [] || query == [] || QueryWords(query) == [] ==> result == []
    ensures chunks != [] && query != [] && QueryWords(query) != [] ==>
              result == Rank(chunks, QueryWords(query), maxChunks, invSqrt)
    ensures maxChunks >= 0 ==> |result| <= maxChunks
    ensures Ranked(result)
    ensures forall r :: r in result ==>
              r.score > 0.0 && r.rawScore > 0
              && exists p :: 0 <= p < |chunks| && r == ScoreOf(chunks[p], p, QueryWords(query), invSqrt)
  {
    if |chunks| == 0 || query == [] {
      return [];
    }
    var queryWords := QueryWords(query);
    if |queryWords| == 0 {
      return [];
    }
    var scored := ScoreChunks(chunks, queryWords, invSqrt);
    result := SliceTo(SortByRank(Positive(scored)), maxChunks);
    RankShape(chunks, queryWords, maxChunks, invSqrt);
  }

  /** The scoring loop of `findRelevantChunks` (the `chunks.map`). */
  method ScoreChunks(chunks: seq<Chunk>, queryWords: seq<string>, invSqrt: nat -> real)
    returns (scored: seq<ScoredChunk>)
    ensures scored == ScoreAll(chunks, queryWords, invSqrt)
  {
    scored := [];
    var index := 0;
    while index < |chunks|
      invariant 0 <= index <= |chunks|
      invariant |scored| == index
      invariant forall p :: 0 <= p < index ==> scored[p] == ScoreOf(chunks[p], p, queryWords, invSqrt)
    {
      var chunk := chunks[index];
      var words := SplitWs(ToLower(chunk.content));
      var score, matchedWords := ScoreChunk(queryWords, words);
      var entry := ScoredChunk(chunk.content, chunk.chunkIndex, ScoreValue(score, |words|, index, invSqrt),
                               score, matchedWords);
      scored := scored + [entry];
      index := index + 1;
    }
  }

  /** The ranked list is in rank order, holds at most `maxChunks` entries,
      and every entry is the positive score of one of the chunks. */
  lemma RankShape(chunks: seq<Chunk>, qs: seq<string>, maxChunks: int, invSqrt: nat -> real)
    requires forall n: nat :: invSqrt(n) > 0.0
    ensures maxChunks >= 0 ==> |Rank(chunks, qs, maxChunks, invSqrt)| <= maxChunks
    ensures Ranked(Rank(chunks, qs, maxChunks, invSqrt))
    ensures forall r :: r in Rank(chunks, qs, maxChunks, invSqrt) ==>
              r.score > 0.0 && r.rawScore > 0
              && exists p :: 0 <= p < |chunks| && r == ScoreOf(chunks[p], p, qs, invSqrt)
  {
    var scored := ScoreAll(chunks, qs, invSqrt);
    var sorted := SortByRank(Positive(scored));
    SortByRankRanked(Positive(scored));
    RankedPrefix(sorted, maxChunks);
    forall r | r in Rank(chunks, qs, maxChunks, invSqrt)
      ensures r.score > 0.0 && r.rawScore > 0
      ensures exists p :: 0 <= p < |chunks| && r == ScoreOf(chunks[p], p, qs, invSqrt)
    {
      SliceToPrefix(sorted, maxChunks, r);
      assert r in multiset(sorted);
      assert r in Positive(scored);
      var p :| 0 <= p < |scored| && scored[p] == r;
      ScorePositiveIff(chunks[p], p, qs, invSqrt);
    }
  }

  /** Worked example: for the query "cats", "cats chase mice" scores 3 (one
      exact match) and "category theory basics" scores nothing, so only the
      first chunk is returned. */
  lemma CatsExample()
    ensures QueryWords("cats") == ["cats"]
    ensures RawScore(["cats"], ["cats", "chase", "mice"]) == 3
    ensures RawScore(["cats"], ["category", "theory", "basics"]) == 0
  {
    CatsQuery();
    CatsFirstChunk();
    CatsSecondChunk();
  }

  lemma CatsQuery()
    ensures QueryWords("cats") == ["cats"]
  {
    CatsCleaned();
    CatsSplit();
    CatsKept();
  }

  lemma CatsCleaned()
    ensures StripPunctuation(ToLower("cats")) == "cats"
  {
    assert ToLower("cats") == "cats";
    assert StripPunctuation("cats") == "cats";
  }

  lemma CatsSplit()
    ensures SplitWs("cats") == ["cats"]
  {
    assert ["cats"][0] == "cats";
    SplitWsJoin(["cats"]);
    assert Join(["cats"], " ") == "cats";
  }

  lemma CatsKept()
    ensures Keep(["cats"]) == ["cats"]
  {
    assert !IsStopword("cats");
    assert ["cats"][1..] == [];
  }

  lemma CatsFirstChunk()
    ensures RawScore(["cats"], ["cats", "chase", "mice"]) == 3
  {
    var w := ["cats", "chase", "mice"];
    ChaseMiceMiss();
    assert RowScore("cats", w[..1]) == 3 by { assert w[..1][..0] == []; }
    assert RowScore("cats", w[..2]) == 3 by { assert w[..2][..1] == w[..1]; }
    assert RowScore("cats", w) == 3 by { assert w[..2] == w[..|w| - 1]; }
    assert ["cats"][..0] == [];
    assert PairSum(["cats"], w) == 3;
    assert Hits("cats", w) by { assert PairScore(w[0], "cats") > 0; }
    assert MatchedWords(["cats"], w) == ["cats"];
  }

  lemma CatsSecondChunk()
    ensures RawScore(["cats"], ["category", "theory", "basics"]) == 0
  {
    var w := ["category", "theory", "basics"];
    CategoryTheoryBasicsMiss();
    assert RowScore("cats", w[..1]) == 0 by { assert w[..1][..0] == []; }
    assert RowScore("cats", w[..2]) == 0 by { assert w[..2][..1] == w[..1]; }
    assert RowScore("cats", w) == 0 by { assert w[..2] == w[..|w| - 1]; }
    RowScorePositive("cats", w);
    assert ["cats"][..0] == [];
    assert PairSum(["cats"], w) == 0;
    assert MatchedWords(["cats"], w) == [];
  }

  lemma ChaseMiceMiss()
    ensures PairScore("chase", "cats") == 0 && PairScore("mice", "cats") == 0
  {
    var s := "chase";
    assert s[0..4][1] == 'h';
    assert s[1..5][0] == 'h';
    assert FindFrom(s, "cats", 2) == -1;
    assert FindFrom("mice", "cats", 1) == -1;
    assert "mice"[0..4][0] == 'm';
    assert FindFrom("cats", "mice", 1) == -1;
    assert "cats"[0..4][0] == 'c';
  }

  lemma CategoryTheoryBasicsMiss()
    ensures PairScore("category", "cats") == 0 && PairScore("theory", "cats") == 0
    ensures PairScore("basics", "cats") == 0
  {
    var s := "category";
    assert s[0..4][3] == 'e';
    assert s[1..5][0] == 'a';
    assert s[2..6][0] == 't';
    assert s[3..7][0] == 'e';
    assert s[4..8][0] == 'g';
    assert FindFrom(s, "cats", 5) == -1;
    var t := "theory";
    assert t[0..4][0] == 't';
    assert t[1..5][0] == 'h';
    assert t[2..6][0] == 'e';
    assert FindFrom(t, "cats", 3) == -1;
    var b := "basics";
    assert b[0..4][0] == 'b';
    assert b[1..5][1] == 's';
    assert b[2..6][0] == 's';
    assert FindFrom(b, "cats", 3) == -1;
  }
}
