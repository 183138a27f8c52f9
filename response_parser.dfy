/** The tagged-text decoders inside `generateFlashcards` and `generateQuiz`
    of Backend/utils/geminiService.js: the model's reply is cut into records
    at `---`, blank records are dropped, and each record is read line by line,
    every line trimmed first. A flashcard record knows the tags `Q`, `A` and
    `D`, each written `X:` or `X :`; a quiz record knows `Q:`, `O1:`..`O4:`,
    `C:`, `E:` and `D:`, with no space before the colon. */
module ResponseParser {
  import opened Wrappers
  import opened Text

  datatype Difficulty = Easy | Medium | Hard

  /** `['easy', 'medium', 'hard'].includes(s)`, with the level it names. */
  function DifficultyOf(s: string): (r: Option<Difficulty>)
    ensures r == Some(Easy) <==> s == "easy"
    ensures r == Some(Medium) <==> s == "medium"
    ensures r == Some(Hard) <==> s == "hard"
  {
    if s == "easy" then Some(Easy)
    else if s == "medium" then Some(Medium)
    else if s == "hard" then Some(Hard)
    else None
  }

  /** `text.split('---').filter(b => b.trim())` */
  function Blocks(text: string): seq<string> {
    NonBlank(Split(text, "---"))
  }

  /** `block.trim().split('\n')`; the loops trim every line again. */
  function Lines(block: string): seq<string> {
    Split(Trim(block), "\n")
  }

  /** The records are the non-blank pieces between separators, and joining
      all pieces with the separator gives the reply back. */
  lemma BlocksShape(text: string)
    ensures forall b :: b in Blocks(text) <==> b in Split(text, "---") && Trim(b) != []
    ensures Join(Split(text, "---"), "---") == text
  {
    NonBlankMembers(Split(text, "---"));
    JoinSplit(text, "---");
  }

  // ---------------------------------------------------------------------
  // Flashcards (geminiService.js lines 33-85)

  datatype Flashcard = Flashcard(question: string, answer: string, difficulty: Difficulty)

  /** The loop variables `question`, `answer`, `difficulty`. */
  datatype CardDraft = CardDraft(question: string, answer: string, difficulty: Difficulty)

  /** `t.startsWith('X:') || t.startsWith('X :')` */
  predicate Tagged(t: string, tag: char) {
    StartsWith(t, [tag, ':']) || StartsWith(t, [tag, ' ', ':'])
  }

  /** `t.includes(':') ? t.substring(t.indexOf(':') + 1).trim() : ''` */
  function AfterColon(t: string): string {
    var i := IndexOf(t, ":");
    if i == -1 then "" else Trim(t[i + 1..])
  }

  /** The difficulty text of a `D` line, lower-cased; `medium` without a colon. */
  function DifficultyText(t: string): string {
    if IndexOf(t, ":") == -1 then "medium" else ToLower(AfterColon(t))
  }

  /** One (trimmed) line of a flashcard record. */
  function CardStep(d: CardDraft, t: string): CardDraft {
    if Tagged(t, 'Q') then d.(question := AfterColon(t))
    else if Tagged(t, 'A') then d.(answer := AfterColon(t))
    else if Tagged(t, 'D') then
      (match DifficultyOf(DifficultyText(t))
       case Some(level) => d.(difficulty := level)
       case None => d)
    else d
  }

  /** The line loop of one flashcard record. */
  function CardFold(lines: seq<string>): CardDraft {
    if lines == [] then CardDraft("", "", Medium)
    else CardStep(CardFold(lines[..|lines| - 1]), Trim(lines[|lines| - 1]))
  }

  /** `if (question && answer) flashcards.push(...)` */
  function ParseCard(block: string): Option<Flashcard> {
    var d := CardFold(Lines(block));
    if d.question != "" && d.answer != "" then Some(Flashcard(d.question, d.answer, d.difficulty)) else None
  }

  /** What a record loop pushes: the decoded value of each record that
      decodes, in record order. */
  function Decoded<T>(blocks: seq<string>, parse: string -> Option<T>): seq<T> {
    if blocks == [] then []
    else
      Decoded(blocks[..|blocks| - 1], parse)
      + (match parse(blocks[|blocks| - 1]) case Some(x) => [x] case None => [])
  }

  /** One more record adds its value when it decodes. */
  lemma DecodedSnoc<T>(blocks: seq<string>, i: nat, parse: string -> Option<T>)
    requires i < |blocks|
    ensures Decoded(blocks[..i + 1], parse)
            == Decoded(blocks[..i], parse) + (match parse(blocks[i]) case Some(x) => [x] case None => [])
  {
    assert blocks[..i + 1][..i] == blocks[..i];
  }

  /** The values of two runs of records are those of the first followed by
      those of the second. */
  lemma {:induction false} DecodedAppend<T>(b1: seq<string>, b2: seq<string>, parse: string -> Option<T>)
    ensures Decoded(b1 + b2, parse) == Decoded(b1, parse) + Decoded(b2, parse)
    decreases |b2|
  {
    if b2 != [] {
      var init := b2[..|b2| - 1];
      assert (b1 + b2)[..|b1 + b2| - 1] == b1 + init;
      assert (b1 + b2)[|b1 + b2| - 1] == b2[|b2| - 1];
      DecodedAppend(b1, init, parse);
    } else {
      assert b1 + b2 == b1;
    }
  }

  /** Every value comes from a record that decodes to it. */
  lemma {:induction false} DecodedFrom<T>(blocks: seq<string>, parse: string -> Option<T>, x: T)
    requires x in Decoded(blocks, parse)
    ensures exists b :: b in blocks && parse(b) == Some(x)
  {
    var init := blocks[..|blocks| - 1];
    var last := blocks[|blocks| - 1];
    if x in Decoded(init, parse) {
      DecodedFrom(init, parse, x);
      var b :| b in init && parse(b) == Some(x);
      assert b in blocks;
    } else {
      assert parse(last) == Some(x);
      assert last in blocks;
    }
  }

  /** The flashcards of a sequence of records, before the final `slice`. */
  function FlashcardsOf(blocks: seq<string>): seq<Flashcard> {
    Decoded(blocks, ParseCard)
  }

  /** The flashcard decoder. */
  method ParseFlashcards(generatedText: string, count: int) returns (flashcards: seq<Flashcard>)
    ensures flashcards == SliceTo(FlashcardsOf(Blocks(generatedText)), count)
    ensures count >= 0 ==> |flashcards| <= count
    ensures forall c :: c in flashcards ==> c.question != "" && c.answer != ""
  {
    var all: seq<Flashcard> := [];
    var cards := Blocks(generatedText);
    var i := 0;
    while i < |cards|
      invariant 0 <= i <= |cards|
      invariant all == FlashcardsOf(cards[..i])
    {
      DecodedSnoc(cards, i, ParseCard);
      var card := ReadCard(cards[i]);
      if card.Some? {
        all := all + [card.value];
      }
      i := i + 1;
    }
    assert cards[..i] == cards;
    flashcards := SliceTo(all, count);
    forall c | c in flashcards
      ensures c.question != "" && c.answer != ""
    {
      SliceToPrefix(all, count, c);
      FlashcardsNonEmpty(cards, c);
    }
  }

  /** The line loop and the emission test for one flashcard record. */
  method ReadCard(card: string) returns (r: Option<Flashcard>)
    ensures r == ParseCard(card)
  {
    var lines := Lines(card);
    var question, answer, difficulty := "", "", Medium;
    var j := 0;
    while j < |lines|
      invariant 0 <= j <= |lines|
      invariant CardDraft(question, answer, difficulty) == CardFold(lines[..j])
    {
      CardFoldSnoc(lines, j);
      question, answer, difficulty := ReadCardLine(question, answer, difficulty, Trim(lines[j]));
      j := j + 1;
    }
    assert lines[..j] == lines;
    if question != "" && answer != "" {
      r := Some(Flashcard(question, answer, difficulty));
    } else {
      r := None;
    }
  }

  /** The body of the line loop: one trimmed line updates the variables. */
  method ReadCardLine(question0: string, answer0: string, difficulty0: Difficulty, trimmedLine: string)
    returns (question: string, answer: string, difficulty: Difficulty)
    ensures CardDraft(question, answer, difficulty) == CardStep(CardDraft(question0, answer0, difficulty0), trimmedLine)
  {
    question, answer, difficulty := question0, answer0, difficulty0;
    if StartsWith(trimmedLine, "Q:") || StartsWith(trimmedLine, "Q :") {
      question := AfterColon(trimmedLine);
    } else if StartsWith(trimmedLine, "A:") || StartsWith(trimmedLine, "A :") {
      answer := AfterColon(trimmedLine);
    } else if StartsWith(trimmedLine, "D:") || StartsWith(trimmedLine, "D :") {
      var diffText := DifficultyText(trimmedLine);
      var level := DifficultyOf(diffText);
      if level.Some? {
        difficulty := level.value;
      }
    }
  }

  lemma CardFoldSnoc(lines: seq<string>, j: nat)
    requires j < |lines|
    ensures CardFold(lines[..j + 1]) == CardStep(CardFold(lines[..j]), Trim(lines[j]))
  {
    assert lines[..j + 1][..j] == lines[..j];
  }

  /** Every flashcard comes from a record whose question and answer are set. */
  lemma {:induction false} FlashcardsNonEmpty(blocks: seq<string>, c: Flashcard)
    requires c in FlashcardsOf(blocks)
    ensures c.question != "" && c.answer != ""
    ensures exists b :: b in blocks && ParseCard(b) == Some(c)
  {
    DecodedFrom(blocks, ParseCard, c);
  }

  /** Decoding preserves record order: the flashcards of two runs of
      records are those of the first followed by those of the second. */
  lemma FlashcardsAppend(b1: seq<string>, b2: seq<string>)
    ensures FlashcardsOf(b1 + b2) == FlashcardsOf(b1) + FlashcardsOf(b2)
  {
    DecodedAppend(b1, b2, ParseCard);
  }

  /** At most one tag matches a line: they differ in the first character. */
  lemma TagsExclusive(t: string, a: char, b: char)
    requires Tagged(t, a) && a != b
    ensures !Tagged(t, b)
  {
    assert t[0] == a;
  }

  /** What a `Q`, `A` or `D` line does, one branch at a time. */
  lemma StepQuestion(d: CardDraft, t: string)
    requires Tagged(t, 'Q')
    ensures CardStep(d, t) == d.(question := AfterColon(t))
  {
  }

  lemma StepAnswer(d: CardDraft, t: string)
    requires Tagged(t, 'A')
    ensures CardStep(d, t) == d.(answer := AfterColon(t))
  {
    TagsExclusive(t, 'A', 'Q');
  }

  lemma StepDifficulty(d: CardDraft, t: string)
    requires Tagged(t, 'D')
    ensures CardStep(d, t) == match DifficultyOf(DifficultyText(t)) case Some(level) => d.(difficulty := level) case None => d
  {
    TagsExclusive(t, 'D', 'Q');
    TagsExclusive(t, 'D', 'A');
  }

  /** `indexOf(':')` finds the first colon. */
  lemma FirstColon(s: string, p: nat)
    requires OccursAt(s, ":", p)
    requires forall i :: 0 <= i < p ==> !OccursAt(s, ":", i)
    ensures IndexOf(s, ":") == p
  {
  }

  lemma ColonAfterTag(tag: char, rest: string)
    requires tag != ':'
    ensures IndexOf([tag, ':'] + rest, ":") == 1
  {
    var s := [tag, ':'] + rest;
    assert s[1..2] == ":";
    assert s[0..1] == [tag];
    FirstColon(s, 1);
  }

  lemma ColonAfterSpacedTag(tag: char, rest: string)
    requires tag != ':'
    ensures IndexOf([tag, ' ', ':'] + rest, ":") == 2
  {
    var s := [tag, ' ', ':'] + rest;
    assert s[2..3] == ":";
    assert s[0..1] == [tag] && s[1..2] == " ";
    FirstColon(s, 2);
  }

  /** `Q :` reads exactly like `Q:` (and so for `A` and `D`): the value is
      what follows the first colon. */
  lemma TagSpaceColon(d: CardDraft, tag: char, rest: string)
    requires tag == 'Q' || tag == 'A' || tag == 'D'
    ensures CardStep(d, [tag, ' ', ':'] + rest) == CardStep(d, [tag, ':'] + rest)
  {
    var spaced := [tag, ' ', ':'] + rest;
    var plain := [tag, ':'] + rest;
    ColonAfterSpacedTag(tag, rest);
    ColonAfterTag(tag, rest);
    assert spaced[3..] == rest && plain[2..] == rest;
    assert AfterColon(spaced) == AfterColon(plain);
    assert DifficultyText(spaced) == DifficultyText(plain);
    assert spaced[..3] == [tag, ' ', ':'] && plain[..2] == [tag, ':'];
    assert Tagged(spaced, tag) && Tagged(plain, tag);
    if tag == 'Q' {
      StepQuestion(d, spaced);
      StepQuestion(d, plain);
    } else if tag == 'A' {
      StepAnswer(d, spaced);
      StepAnswer(d, plain);
    } else {
      StepDifficulty(d, spaced);
      StepDifficulty(d, plain);
    }
  }

  /** A line without a tag leaves the field of that tag alone. */
  lemma KeepsQuestion(d: CardDraft, t: string)
    requires !Tagged(t, 'Q')
    ensures CardStep(d, t).question == d.question
  {
  }

  lemma KeepsAnswer(d: CardDraft, t: string)
    requires !Tagged(t, 'A')
    ensures CardStep(d, t).answer == d.answer
  {
  }

  lemma KeepsDifficulty(d: CardDraft, t: string)
    requires !Tagged(t, 'D')
    ensures CardStep(d, t).difficulty == d.difficulty
  {
  }

  /** The question of a flashcard record (`tag` Q) or its answer (`tag` A). */
  function CardField(d: CardDraft, tag: char): string {
    if tag == 'Q' then d.question else d.answer
  }

  /** A later line with the same tag overwrites an earlier one: the field
      holds the value of the last line that carries its tag. */
  lemma {:induction false} LastWriteWins(lines: seq<string>, l: string, rest: seq<string>, tag: char)
    requires tag == 'Q' || tag == 'A'
    requires Tagged(Trim(l), tag)
    requires forall k :: 0 <= k < |rest| ==> !Tagged(Trim(rest[k]), tag)
    ensures CardField(CardFold(lines + [l] + rest), tag) == AfterColon(Trim(l))
    decreases |rest|
  {
    if rest == [] {
      assert lines + [l] + rest == lines + [l];
      CardFoldPush(lines, l);
      if tag == 'Q' {
        StepQuestion(CardFold(lines), Trim(l));
      } else {
        StepAnswer(CardFold(lines), Trim(l));
      }
    } else {
      var init := rest[..|rest| - 1];
      var x := rest[|rest| - 1];
      var prev := lines + [l] + init;
      assert lines + [l] + rest == prev + [x];
      LastWriteWins(lines, l, init, tag);
      CardFoldPush(prev, x);
      if tag == 'Q' {
        KeepsQuestion(CardFold(prev), Trim(x));
      } else {
        KeepsAnswer(CardFold(prev), Trim(x));
      }
    }
  }

  lemma CardFoldPush(prev: seq<string>, x: string)
    ensures CardFold(prev + [x]) == CardStep(CardFold(prev), Trim(x))
  {
    assert (prev + [x])[..|prev|] == prev;
  }

  /** Without a `D` line the difficulty stays `medium`; a `D` line whose
      value is not a known level leaves it as it was. */
  lemma {:induction false} DefaultDifficulty(lines: seq<string>)
    requires forall k :: 0 <= k < |lines| ==> !Tagged(Trim(lines[k]), 'D')
    ensures CardFold(lines).difficulty == Medium
  {
    if lines != [] {
      var init := lines[..|lines| - 1];
      assert forall k :: 0 <= k < |init| ==> init[k] == lines[k];
      DefaultDifficulty(init);
      KeepsDifficulty(CardFold(init), Trim(lines[|lines| - 1]));
    }
  }

  lemma UnknownDifficultyIgnored(d: CardDraft, t: string)
    requires Tagged(t, 'D') && DifficultyOf(DifficultyText(t)) == None
    ensures CardStep(d, t) == d
  {
    StepDifficulty(d, t);
  }

  // ---------------------------------------------------------------------
  // Quiz questions (geminiService.js lines 120-185)

  /** The four option slots of a question: `None` is a slot never assigned,
      a hole of the sparse array `options`. */
  type Slots = s: seq<Option<string>> | |s| == 4 witness [None, None, None, None]

  datatype QuizQuestion = QuizQuestion(question: string, options: Slots, correctAnswer: string,
                                       explanation: string, difficulty: Difficulty)

  /** The loop variables; an `undefined` correctAnswer is `""`, which is
      just as falsy and is never emitted. */
  datatype QuizDraft = QuizDraft(question: string, options: Slots, correctAnswer: string,
                                 explanation: string, difficulty: Difficulty)

  /** `options.length` of the sparse array: one past the highest assigned slot. */
  function JsLength(options: Slots): nat {
    if options[3].Some? then 4 else if options[2].Some? then 3
    else if options[1].Some? then 2 else if options[0].Some? then 1 else 0
  }

  /** `options.every(Boolean)`, which skips holes. */
  predicate EveryAssignedNonEmpty(options: Slots) {
    forall k :: 0 <= k < 4 && options[k].Some? ==> options[k].value != ""
  }

  /** The validation gate of lines 169-174. */
  predicate Accepted(d: QuizDraft) {
    d.question != "" && JsLength(d.options) == 4 && EveryAssignedNonEmpty(d.options) && d.correctAnswer != ""
  }

  /** `{ O1: 0, O2: 1, O3: 2, O4: 3 }[key]` for the four own keys. */
  function KeyIndex(key: string): (r: Option<nat>)
    ensures r.Some? ==> r.value < 4
  {
    if key == "O1" then Some(0) else if key == "O2" then Some(1)
    else if key == "O3" then Some(2) else if key == "O4" then Some(3) else None
  }

  /** The names an object literal inherits from `Object.prototype`: looking
      one of them up in `indexMap` is not `undefined`, and then indexing
      `options` with it gives `undefined`. */
  predicate IsPrototypeName(key: string) {
    key in {"constructor", "__proto__", "toString", "toLocaleString", "valueOf", "hasOwnProperty",
            "isPrototypeOf", "propertyIsEnumerable", "__defineGetter__", "__defineSetter__",
            "__lookupGetter__", "__lookupSetter__"}
  }

  /** `trimmed.substring(n).trim()` */
  function ValueAfter(t: string, n: nat): string {
    if n <= |t| then Trim(t[n..]) else ""
  }

  /** The option slot an `O1:`..`O4:` line writes. */
  function OptionTag(t: string): (r: Option<nat>)
    ensures r.Some? ==> r.value < 4
  {
    if StartsWith(t, "O1:") then Some(0) else if StartsWith(t, "O2:") then Some(1)
    else if StartsWith(t, "O3:") then Some(2) else if StartsWith(t, "O4:") then Some(3) else None
  }

  /** `C:` with `key`: the value of the slot it names as it is now (or
      `undefined` for a slot not yet assigned or a prototype name). */
  function Resolve(d: QuizDraft, key: string): QuizDraft {
    match KeyIndex(key)
    case Some(k) => d.(correctAnswer := d.options[k].GetOr(""))
    case None => if IsPrototypeName(key) then d.(correctAnswer := "") else d
  }

  /** One (trimmed) line of a quiz record. */
  function QuizStep(d: QuizDraft, t: string): QuizDraft {
    if StartsWith(t, "Q:") then d.(question := ValueAfter(t, 2))
    else if OptionTag(t).Some? then d.(options := d.options[OptionTag(t).value := Some(ValueAfter(t, 3))])
    else if StartsWith(t, "C:") then Resolve(d, ValueAfter(t, 2))
    else if StartsWith(t, "E:") then d.(explanation := ValueAfter(t, 2))
    else if StartsWith(t, "D:") then
      (match DifficultyOf(ToLower(ValueAfter(t, 2)))
       case Some(level) => d.(difficulty := level)
       case None => d)
    else d
  }

  const EmptyDraft := QuizDraft("", [None, None, None, None], "", "", Medium)

  /** The line loop of one quiz record. */
  function QuizFold(lines: seq<string>): QuizDraft {
    if lines == [] then EmptyDraft
    else QuizStep(QuizFold(lines[..|lines| - 1]), Trim(lines[|lines| - 1]))
  }

  function Emit(d: QuizDraft): Option<QuizQuestion> {
    if Accepted(d) then Some(QuizQuestion(d.question, d.options, d.correctAnswer, d.explanation, d.difficulty))
    else None
  }

  function ParseQuestion(block: string): Option<QuizQuestion> {
    Emit(QuizFold(Lines(block)))
  }

  function QuestionsOf(blocks: seq<string>): seq<QuizQuestion> {
    Decoded(blocks, ParseQuestion)
  }

  /** The quiz decoder. */
  method ParseQuiz(generatedText: string, numQuestions: int) returns (questions: seq<QuizQuestion>)
    ensures questions == SliceTo(QuestionsOf(Blocks(generatedText)), numQuestions)
    ensures numQuestions >= 0 ==> |questions| <= numQuestions
    ensures forall q :: q in questions ==>
              q.question != "" && q.options[3].Some? && EveryAssignedNonEmpty(q.options) && q.correctAnswer != ""
  {
    var all: seq<QuizQuestion> := [];
    var questionBlocks := Blocks(generatedText);
    var i := 0;
    while i < |questionBlocks|
      invariant 0 <= i <= |questionBlocks|
      invariant all == QuestionsOf(questionBlocks[..i])
    {
      var q := ReadQuestion(questionBlocks[i]);
      DecodedSnoc(questionBlocks, i, ParseQuestion);
      if q.Some? {
        all := all + [q.value];
      }
      i := i + 1;
    }
    assert questionBlocks[..i] == questionBlocks;
    questions := SliceTo(all, numQuestions);
    forall q | q in questions
      ensures q.question != "" && q.options[3].Some? && EveryAssignedNonEmpty(q.options) && q.correctAnswer != ""
    {
      SliceToPrefix(all, numQuestions, q);
      QuestionsAccepted(questionBlocks, q);
    }
  }

  /** The line loop and the validation gate for one quiz record. */
  method ReadQuestion(block: string) returns (r: Option<QuizQuestion>)
    ensures r == ParseQuestion(block)
  {
    var lines := Lines(block);
    var question := "";
    var options: Slots := [None, None, None, None];
    var correctAnswer := "";
    var explanation := "";
    var difficulty := Medium;
    var j := 0;
    while j < |lines|
      invariant 0 <= j <= |lines|
      invariant QuizDraft(question, options, correctAnswer, explanation, difficulty) == QuizFold(lines[..j])
    {
      QuizFoldSnoc(lines, j);
      var d := ReadQuizLine(QuizDraft(question, options, correctAnswer, explanation, difficulty), Trim(lines[j]));
      question, options, correctAnswer, explanation, difficulty := d.question, d.options, d.correctAnswer, d.explanation, d.difficulty;
      j := j + 1;
    }
    assert lines[..j] == lines;
    if question != "" && JsLength(options) == 4 && EveryAssignedNonEmpty(options) && correctAnswer != "" {
      r := Some(QuizQuestion(question, options, correctAnswer, explanation, difficulty));
    } else {
      r := None;
    }
  }

  /** The body of the line loop: one trimmed line updates the variables. */
  method ReadQuizLine(d0: QuizDraft, trimmed: string) returns (d: QuizDraft)
    ensures d == QuizStep(d0, trimmed)
  {
    d := d0;
    var slot := OptionTag(trimmed);
    if StartsWith(trimmed, "Q:") {
      d := d.(question := ValueAfter(trimmed, 2));
    } else if slot.Some? {
      d := d.(options := d.options[slot.value := Some(ValueAfter(trimmed, 3))]);
    } else if StartsWith(trimmed, "C:") {
      d := Resolve(d, ValueAfter(trimmed, 2));
    } else if StartsWith(trimmed, "E:") {
      d := d.(explanation := ValueAfter(trimmed, 2));
    } else if StartsWith(trimmed, "D:") {
      var level := DifficultyOf(ToLower(ValueAfter(trimmed, 2)));
      if level.Some? {
        d := d.(difficulty := level.value);
      }
    }
  }

  /** The sparse array has length 4 exactly when its last slot was assigned. */
  lemma JsLengthFour(options: Slots)
    ensures JsLength(options) == 4 <==> options[3].Some?
    ensures JsLength(options) <= 4
  {
  }

  /** Every emitted question passed the gate and comes from some record. */
  lemma {:induction false} QuestionsAccepted(blocks: seq<string>, q: QuizQuestion)
    requires q in QuestionsOf(blocks)
    ensures q.question != "" && q.options[3].Some? && EveryAssignedNonEmpty(q.options) && q.correctAnswer != ""
    ensures exists b :: b in blocks && ParseQuestion(b) == Some(q)
  {
    DecodedFrom(blocks, ParseQuestion, q);
    var b :| b in blocks && ParseQuestion(b) == Some(q);
    EmittedAccepted(b, q);
  }

  lemma EmittedAccepted(block: string, q: QuizQuestion)
    requires ParseQuestion(block) == Some(q)
    ensures q.question != "" && q.options[3].Some? && EveryAssignedNonEmpty(q.options) && q.correctAnswer != ""
  {
  }

  /** Decoding preserves record order. */
  lemma QuestionsAppend(b1: seq<string>, b2: seq<string>)
    ensures QuestionsOf(b1 + b2) == QuestionsOf(b1) + QuestionsOf(b2)
  {
    DecodedAppend(b1, b2, ParseQuestion);
  }

  /** `C:` copies the slot it names as that slot is when the line is read:
      a correct answer set this way survives any later option line. */
  lemma ResolveNow(d: QuizDraft, k: nat)
    requires k < 4
    ensures Resolve(d, ["O1", "O2", "O3", "O4"][k]).correctAnswer == d.options[k].GetOr("")
    ensures Resolve(d, ["O1", "O2", "O3", "O4"][k]).options == d.options
  {
  }

  /** An unknown key leaves the correct answer alone; a name such as
      `constructor` clears it. */
  lemma ResolveOtherKeys(d: QuizDraft, key: string)
    requires KeyIndex(key) == None
    ensures !IsPrototypeName(key) ==> Resolve(d, key) == d
    ensures IsPrototypeName(key) ==> Resolve(d, key) == d.(correctAnswer := "")
    ensures Resolve(d, "constructor").correctAnswer == ""
  {
  }

  /** A later option line for a slot overwrites it and leaves the correct
      answer as resolved before. */
  lemma OptionOverwrite(d: QuizDraft, t: string)
    requires OptionTag(t).Some? && !StartsWith(t, "Q:")
    ensures QuizStep(d, t).options[OptionTag(t).value] == Some(ValueAfter(t, 3))
    ensures QuizStep(d, t).correctAnswer == d.correctAnswer
  {
  }

  /** What a `Q:`, `Ok:` or `C:` line does, one branch at a time. */
  lemma StepQuestionLine(d: QuizDraft, t: string)
    requires StartsWith(t, "Q:")
    ensures QuizStep(d, t) == d.(question := ValueAfter(t, 2))
  {
  }

  lemma StepOptionLine(d: QuizDraft, t: string, k: nat)
    requires k < 4 && !StartsWith(t, "Q:") && OptionTag(t) == Some(k)
    ensures QuizStep(d, t) == d.(options := d.options[k := Some(ValueAfter(t, 3))])
  {
  }

  lemma StepCorrectLine(d: QuizDraft, t: string)
    requires StartsWith(t, "C:")
    ensures QuizStep(d, t) == Resolve(d, ValueAfter(t, 2))
  {
    PrefixesDiffer(t, "C:", "Q:");
    NoOptionTag(t, 'C');
  }

  /** Without an `E:` line the explanation stays empty, and without a `D:`
      line the difficulty stays `medium`. */
  lemma {:induction false} QuizDefaults(lines: seq<string>)
    ensures (forall k :: 0 <= k < |lines| ==> !StartsWith(Trim(lines[k]), "E:")) ==> QuizFold(lines).explanation == ""
    ensures (forall k :: 0 <= k < |lines| ==> !StartsWith(Trim(lines[k]), "D:")) ==> QuizFold(lines).difficulty == Medium
  {
    if lines != [] {
      var init := lines[..|lines| - 1];
      assert forall k :: 0 <= k < |init| ==> init[k] == lines[k];
      QuizDefaults(init);
      var t := Trim(lines[|lines| - 1]);
      assert QuizFold(lines) == QuizStep(QuizFold(init), t);
      StepKeepsDefaults(QuizFold(init), t);
    }
  }

  /** Only an `E:` line sets the explanation and only a `D:` line the
      difficulty. */
  lemma StepKeepsDefaults(d: QuizDraft, t: string)
    ensures !StartsWith(t, "E:") ==> QuizStep(d, t).explanation == d.explanation
    ensures !StartsWith(t, "D:") ==> QuizStep(d, t).difficulty == d.difficulty
  {
    ResolveKeepsDefaults(d, ValueAfter(t, 2));
  }

  lemma ResolveKeepsDefaults(d: QuizDraft, key: string)
    ensures Resolve(d, key).explanation == d.explanation && Resolve(d, key).difficulty == d.difficulty
  {
  }

  /** Unlike the flashcard grammar, the quiz grammar needs the colon right
      after the tag: `Q : x`, `O1 : x` and the like are ignored. */
  lemma SpacedQuizTagIgnored(d: QuizDraft, tag: string, rest: string)
    requires tag in {"Q", "C", "E", "D", "O1", "O2", "O3", "O4"}
    ensures QuizStep(d, tag + " :" + rest) == d
  {
    var t := tag + " :" + rest;
    assert t[|tag|] == ' ';
    assert !StartsWith(t, "Q:") && !StartsWith(t, "C:") && !StartsWith(t, "E:") && !StartsWith(t, "D:");
    assert !StartsWith(t, "O1:") && !StartsWith(t, "O2:") && !StartsWith(t, "O3:") && !StartsWith(t, "O4:");
  }

  lemma PrefixesDiffer(t: string, p: string, q: string)
    requires StartsWith(t, p) && p != [] && q != [] && p[0] != q[0]
    ensures !StartsWith(t, q)
  {
    assert t[0] == p[0];
  }

  lemma NoOptionTag(t: string, c: char)
    requires t != [] && t[0] == c && c != 'O'
    ensures OptionTag(t) == None
  {
    assert !StartsWith(t, "O1:") && !StartsWith(t, "O2:") && !StartsWith(t, "O3:") && !StartsWith(t, "O4:");
  }

  /** The option line prefixes, as the worked examples write them. */
  function OptionPrefix(k: nat): string
    requires k < 4
  {
    ["O1: ", "O2: ", "O3: ", "O4: "][k]
  }

  lemma OptionPrefixShape(k: nat)
    requires k < 4
    ensures |OptionPrefix(k)| == 4 && OptionPrefix(k)[0] == 'O' && OptionPrefix(k)[3] == ' '
  {
  }

  lemma OptionPrefixTag(k: nat, v: string)
    requires k < 4
    ensures OptionTag(OptionPrefix(k) + v) == Some(k) && !StartsWith(OptionPrefix(k) + v, "Q:")
  {
    var t := OptionPrefix(k) + v;
    var digit := ['1', '2', '3', '4'][k];
    assert OptionPrefix(k)[..3] == ['O', digit, ':'];
    assert t[..3] == ['O', digit, ':'];
    assert t[0] == 'O' && t[1] == digit;
  }

  /** A value as the model writes it after a tag: non-empty and trimmed. */
  predicate Value(v: string) {
    v != [] && IsTrimmed(v)
  }

  /** What one more line `Q: v`, `Ok: v` or `C: key` does to the fold. */
  lemma QuestionLine(prefix: seq<string>, v: string)
    requires Value(v)
    ensures QuizFold(prefix + ["Q: " + v]) == QuizFold(prefix).(question := v)
  {
    assert "Q: "[..2] == "Q:";
    TaggedValue("Q: ", v);
    StepQuestionLine(QuizFold(prefix), "Q: " + v);
    QuizFoldPush(prefix, "Q: " + v);
  }

  lemma OptionLine(prefix: seq<string>, k: nat, v: string)
    requires k < 4 && Value(v)
    ensures QuizFold(prefix + [OptionPrefix(k) + v]) == QuizFold(prefix).(options := QuizFold(prefix).options[k := Some(v)])
  {
    OptionPrefixShape(k);
    TaggedValue(OptionPrefix(k), v);
    OptionPrefixTag(k, v);
    StepOptionLine(QuizFold(prefix), OptionPrefix(k) + v, k);
    QuizFoldPush(prefix, OptionPrefix(k) + v);
  }

  lemma CorrectLine(prefix: seq<string>, key: string)
    requires Value(key)
    ensures QuizFold(prefix + ["C: " + key]) == Resolve(QuizFold(prefix), key)
  {
    assert "C: "[..2] == "C:";
    TaggedValue("C: ", key);
    StepCorrectLine(QuizFold(prefix), "C: " + key);
    QuizFoldPush(prefix, "C: " + key);
  }

  lemma QuizFoldPush(prefix: seq<string>, x: string)
    ensures QuizFold(prefix + [x]) == QuizStep(QuizFold(prefix), Trim(x))
  {
    assert (prefix + [x])[..|prefix|] == prefix;
  }

  /** `C: O1` followed by a new `O1:` line: the record keeps the old text
      of option 1 as its correct answer while its options now hold the new
      one, so the correct answer need not be among the options. */
  lemma StaleCorrectAnswer(prefix: seq<string>, a2: string)
    requires Value(a2) && QuizFold(prefix).options[0].Some?
    ensures QuizFold(prefix + ["C: O1", OptionPrefix(0) + a2]).correctAnswer == QuizFold(prefix).options[0].value
    ensures QuizFold(prefix + ["C: O1", OptionPrefix(0) + a2]).options
            == QuizFold(prefix).options[0 := Some(a2)]
  {
    KeyO1();
    var p1 := prefix + ["C: O1"];
    CorrectLine(prefix, "O1");
    ResolveNow(QuizFold(prefix), 0);
    OptionLine(p1, 0, a2);
    PushTwo(prefix, "C: O1", OptionPrefix(0) + a2);
  }

  lemma KeyO1()
    ensures Value("O1") && "C: " + "O1" == "C: O1" && ["O1", "O2", "O3", "O4"][0] == "O1"
  {
    assert "O1"[0] == 'O' && "O1"[1] == '1';
  }

  lemma PushTwo(p: seq<string>, x: string, y: string)
    ensures p + [x, y] == (p + [x]) + [y]
  {
  }

  /** Only an `O4:` line assigns the last slot: a record without one is
      never emitted, whatever else it holds. */
  lemma MissingLastOptionDropped(lines: seq<string>)
    requires forall k :: 0 <= k < |lines| ==> !StartsWith(Trim(lines[k]), "O4:")
    ensures QuizFold(lines).options[3] == None && !Accepted(QuizFold(lines))
  {
    LastSlotUnassigned(lines);
    JsLengthFour(QuizFold(lines).options);
  }

  lemma {:induction false} LastSlotUnassigned(lines: seq<string>)
    requires forall k :: 0 <= k < |lines| ==> !StartsWith(Trim(lines[k]), "O4:")
    ensures QuizFold(lines).options[3] == None
  {
    if lines != [] {
      var init := lines[..|lines| - 1];
      var x := lines[|lines| - 1];
      assert lines == init + [x];
      assert forall k :: 0 <= k < |init| ==> init[k] == lines[k];
      LastSlotUnassigned(init);
      QuizFoldPush(init, x);
      KeepsLastSlot(QuizFold(init), Trim(x));
    }
  }

  /** After an `O4:` line the gate no longer looks at holes: the O1 to O3
      slots may be unassigned and the record is still emitted. */
  lemma SparseOptionsAccepted(prefix: seq<string>, v: string)
    requires Value(v)
    ensures Accepted(QuizFold(prefix + [OptionPrefix(3) + v])) <==>
              QuizFold(prefix).question != "" && QuizFold(prefix).correctAnswer != ""
              && forall k :: 0 <= k < 3 && QuizFold(prefix).options[k].Some? ==> QuizFold(prefix).options[k].value != ""
  {
    OptionLine(prefix, 3, v);
    var d := QuizFold(prefix + [OptionPrefix(3) + v]);
    assert d.options[3] == Some(v);
    assert forall k :: 0 <= k < 3 ==> d.options[k] == QuizFold(prefix).options[k];
  }

  lemma KeepsLastSlot(d: QuizDraft, t: string)
    requires !StartsWith(t, "O4:")
    ensures QuizStep(d, t).options[3] == d.options[3]
  {
    var tag := OptionTag(t);
    if tag.None? {
      StepKeepsOptions(d, t);
    } else if StartsWith(t, "Q:") {
      StepQuestionLine(d, t);
    } else {
      StepOptionLine(d, t, tag.value);
    }
  }

  /** Only option lines change the options. */
  lemma StepKeepsOptions(d: QuizDraft, t: string)
    requires OptionTag(t).None?
    ensures QuizStep(d, t).options == d.options
  {
    if !StartsWith(t, "Q:") && StartsWith(t, "C:") {
      ResolveKeepsOptions(d, ValueAfter(t, 2));
    }
  }

  lemma ResolveKeepsOptions(d: QuizDraft, key: string)
    ensures Resolve(d, key).options == d.options
  {
  }

  /** A tag ending in a space, followed by a trimmed value: the line is
      trimmed, starts with the tag, and the value after it is `v`. */
  lemma TaggedValue(tag: string, v: string)
    requires |tag| >= 2 && tag[|tag| - 1] == ' ' && !IsSpace(tag[0]) && Value(v)
    ensures Trim(tag + v) == tag + v
    ensures StartsWith(tag + v, tag[..|tag| - 1])
    ensures ValueAfter(tag + v, |tag| - 1) == v
  {
    var t := tag + v;
    assert t[..|tag| - 1] == tag[..|tag| - 1];
    assert t[|tag| - 1..] == " " + v;
    TrimPrefixed(tag, v);
    TrimSpaceBefore(v);
  }

  lemma QuizFoldSnoc(lines: seq<string>, j: nat)
    requires j < |lines|
    ensures QuizFold(lines[..j + 1]) == QuizStep(QuizFold(lines[..j]), Trim(lines[j]))
  {
    assert lines[..j + 1][..j] == lines[..j];
  }

  /** A tag followed by a trimmed value is a trimmed line. */
  lemma TrimPrefixed(tag: string, v: string)
    requires tag != [] && !IsSpace(tag[0]) && v != [] && IsTrimmed(v)
    ensures Trim(tag + v) == tag + v
  {
    var t := tag + v;
    assert t[0] == tag[0] && t[|t| - 1] == v[|v| - 1];
    TrimTrimmed(t);
  }

  lemma TrimSpaceBefore(v: string)
    requires v != [] && IsTrimmed(v)
    ensures Trim(" " + v) == v
  {
    assert (" " + v)[1..] == v;
    assert TrimStart(" " + v) == TrimStart(v);
    TrimTrimmed(v);
  }
}
