# StudyForge core, modelled in Dafny

StudyForge is a document study assistant. The backend cuts a document's
text into chunks. It ranks those chunks against a question to build the
context for a text-generation call. It also decodes the generated text back
into flashcards and quiz questions. Quizzes are graded on the server, and
the dashboard derives progress metrics from activity dates. The client
scores password strength at registration. It also runs the quiz-taking page
and two flashcard study views.

This project models those rules and proves what they promise:

- `chunker.dfy` models `chunkText`. It is the paragraph loop as the source
  writes it: accumulate paragraphs, flush with an overlap, and slide word
  windows over an oversized paragraph. Every method is proved against a fold
  of that loop. The white-space normalisation turns every newline into a
  space, so the proofs show that the output is always one chunk or the
  sliding windows.
- `ranker.dfy` models `findRelevantChunks`:
  - query keywords;
  - the nested scoring loops;
  - the positive-score filter;
  - the three-key stable sort;
  - the final slice.
- `response_parser.dfy` models the record and line loops that decode
  `generateFlashcards` and `generateQuiz` output. The two tag grammars are
  modelled separately, including the quirks of the quiz grammar.
- `quiz_grading.dfy` models `submitQuiz` (grading and submit-once) and
  `getQuizResults` (joining questions with stored answers).
- `progress.dfy` models:
  - the dashboard helpers for streak, study time, most productive day,
    consistency, studied-today and weekly activity;
  - the average-score and completion-rate arithmetic.
- `password_strength.dfy` models the registration page's strength meter,
  its checklist and the submit gate.
- `quiz_take.dfy` models the quiz-taking page as a class, holding the
  question cursor, the answers map and the countdown. It also covers the
  clock display and the answer payload.
- `flashcard_study.dfy` models the flashcard page as a class.
- `flashcard_manager.dfy` models the document page's flashcard panel as a
  class.
- `flashcard_cards.dfy` holds the card records and the two list updates
  both views share: the star toggle and the starred filter.
- `text.dfy`, `jsmath.dfy`, `indices.dfy` and `wrappers.dfy` hold the
  JavaScript string operations, `Math.round` of a quotient, a counting fact
  about sets of indices, and `Option`/`Result`.

JavaScript semantics are written out where they matter:

- `trim` and `\s` use one white-space predicate.
- `split` keeps empty pieces.
- `indexOf` finds the first occurrence.
- `includes("")` is true.
- `slice` takes negative bounds from the end.
- `.length` counts UTF-16 code units.
- `Math.round(n / d)` rounds halves up.
- A sparse array's length is one past its highest assigned slot.

Instants are integer milliseconds in local time. The current time is a
parameter. A day is `t / 86400000`, and its weekday is `(day + 4) % 7`.

Two behaviours of the quiz decoder differ from what its own generation
prompt asks for (Backend/utils/geminiService.js:95-106):

- The prompt asks that `C:` name one of O1..O4, as if `correctAnswer` were
  always one of the four options. The parser copies the option slot named
  by `C:` at the moment that line is read. A later line for the same slot
  then changes the option but not the answer (`StaleCorrectAnswer`).
- The prompt asks for all four option lines. The gate accepts a record
  whose O1 to O3 slots are holes in the sparse array, as long as `O4:` was
  given (`SparseOptionsAccepted`).

## Model

| member | source | states |
|---|---|---|
| Chunker.ChunkText | Backend/utils/textChunker.js:3-99 | no chunks exactly for blank text; indices 0..N-1; at most `chunkSize` words give the one normalised text as chunk 0, more give the sliding windows |
| Chunker.ChunkContentsShape | Backend/utils/textChunker.js:4-82 | the emitted contents are the single normalised text or the windows, and never empty for non-blank text, so the word-split fallback is unreachable |
| Chunker.SingleParagraph | Backend/utils/textChunker.js:6-15 | after normalisation a non-blank text is exactly one paragraph, whatever newlines it held |
| Chunker.NormaliseShape | Backend/utils/textChunker.js:6-11 | the normalised text has no newline and no white space at either end, and is empty exactly when the input is blank |
| Chunker.NormaliseIsTrimCollapsed | Backend/utils/textChunker.js:6-11 | the two newline rewrites change nothing after the collapse, so normalising is trimming the collapsed text |
| Chunker.CollapsedBlankIff | Backend/utils/textChunker.js:6-8 | the collapsed text is blank exactly when the input is |
| Chunker.CollapseWhitespace | Backend/utils/textChunker.js:8 | the only white space left is a plain space |
| Chunker.ChunkParagraphs | Backend/utils/textChunker.js:17-82 | the paragraph loop and final flush emit numbered chunks whose contents are the fold of the loop's steps |
| Chunker.ParagraphStep | Backend/utils/textChunker.js:22-74 | one pass of the loop keeps the numbering and moves the state by exactly one fold step |
| Chunker.FlushChunk | Backend/utils/textChunker.js:50-69 | closing the current chunk appends its paragraphs joined by newlines and reseeds it with the last `overlap` words, or empties it |
| Chunker.FinalFlush | Backend/utils/textChunker.js:77-82 | a non-empty last accumulator becomes one more chunk |
| Chunker.EmitWindows | Backend/utils/textChunker.js:27-45 | the window loop appends the windows of the oversized paragraph, numbered on |
| Chunker.EmitWindow | Backend/utils/textChunker.js:33-44 | one window pushed leaves exactly the windows from the next start to go |
| Chunker.Push | Backend/utils/textChunker.js:37-40 | a push numbers the new chunk with the running index |
| Chunker.WindowStep | Backend/utils/textChunker.js:30-43 | the guarded step is `chunkSize - overlap` for a smaller overlap and 1 otherwise, so the loop always advances |
| Chunker.WindowAt | Backend/utils/textChunker.js:33-35 | window k exists exactly when `k * step` is below the word count, and starts at word `k * step` |
| Chunker.WindowSlice | Backend/utils/textChunker.js:34-35 | window k is `words.slice(k*step, k*step + chunkSize)` |
| Chunker.WindowsBounded | Backend/utils/textChunker.js:34-35 | every window holds between 1 and `chunkSize` words |
| Chunker.WindowsCover | Backend/utils/textChunker.js:33-44 | every word lies in some window |
| Chunker.OversizedChunks | Backend/utils/textChunker.js:27-45 | each chunk of an oversized text splits back into exactly its window's words, at most `chunkSize` |
| Chunker.SliceWords | Backend/utils/textChunker.js:35-38 | joining space-free words with spaces and splitting again gives the words back |
| Chunker.FoldSnoc | Backend/utils/textChunker.js:22-74 | the fold over one more paragraph is one more loop step |
| Ranker.FindRelevantChunks | Backend/utils/textChunker.js:103-180 | [] for no chunks, an empty query or no keyword; otherwise at most `maxChunks` entries, ranked, each with positive score and positive raw score, each the unchanged record of some chunk |
| Ranker.RankShape | Backend/utils/textChunker.js:163-179 | filter, stable sort and slice give at most `maxChunks` ranked records with positive scores, each the record of some chunk |
| Ranker.ScoreChunks | Backend/utils/textChunker.js:121-161 | the map scores each chunk at its position |
| Ranker.ScoreChunk | Backend/utils/textChunker.js:122-144 | the nested loops compute the raw score and the matched keywords |
| Ranker.ScoreKeyword | Backend/utils/textChunker.js:128-139 | one keyword's pass adds its row score and records it once when it matched |
| Ranker.KeepMembers | Backend/utils/textChunker.js:116 | the keyword filter keeps exactly the pieces longer than one character that are not stopwords |
| Ranker.QueryWordsShape | Backend/utils/textChunker.js:112-116 | every keyword is a lower-case run of word characters, longer than one and not a stopword |
| Ranker.NoKeywordsIff | Backend/utils/textChunker.js:112-118 | there are no keywords exactly when every piece of the cleaned query is short or a stopword; an empty query has none |
| Ranker.StripPunctuation | Backend/utils/textChunker.js:114 | only word characters and white space survive |
| Ranker.RowScorePositive | Backend/utils/textChunker.js:128-139 | a keyword scores exactly when some word equals or contains it, or is contained in it |
| Ranker.MatchedWordsIff | Backend/utils/textChunker.js:126-159 | the matched list holds exactly the keywords that hit, without repeats |
| Ranker.PairSumPositive | Backend/utils/textChunker.js:128-139 | the pair scores add up to a positive sum exactly when some keyword hits |
| Ranker.RawScorePositive | Backend/utils/textChunker.js:128-144 | the raw score is positive exactly when some keyword hits |
| Ranker.EmptyWordMatchesEverything | Backend/utils/textChunker.js:123-139 | a chunk with an empty first word scores for any query, since every keyword includes "" |
| Ranker.ScorePositiveIff | Backend/utils/textChunker.js:147-164 | the final score is positive exactly when the raw score is |
| Ranker.ScoreValuePositive | Backend/utils/textChunker.js:147-150 | the normaliser and position bonus never change the sign |
| Ranker.PositionBonus | Backend/utils/textChunker.js:150 | the bonus lies in (1, 2] |
| Ranker.ScoreAll | Backend/utils/textChunker.js:121-161 | one record per chunk, the one for its position |
| Ranker.Positive | Backend/utils/textChunker.js:164 | the filter keeps exactly the records with positive score |
| Ranker.SortByRankRanked | Backend/utils/textChunker.js:165-178 | the sort output is ranked by score, matched count and chunk index, and is a permutation |
| Ranker.InsertRanked | Backend/utils/textChunker.js:165-178 | inserting into a ranked list keeps it ranked |
| Ranker.Insert | Backend/utils/textChunker.js:165-178 | insertion adds exactly the one record |
| Ranker.RankedPrefix | Backend/utils/textChunker.js:179 | a slice of a ranked list is ranked |
| Ranker.BeforeStrictOrder | Backend/utils/textChunker.js:165-178 | the comparator is a strict order |
| Ranker.CatsExample | Backend/utils/textChunker.js:112-144 | the query "cats" is one keyword; it scores 3 on "cats chase mice" and 0 on "category theory basics" |
| ResponseParser.ParseFlashcards | Backend/utils/geminiService.js:33-85 | the flashcards of the non-blank `---` records, in record order, cut to `count`; each has a question and an answer |
| ResponseParser.ReadCard | Backend/utils/geminiService.js:39-79 | the line loop and the emission test decode one record |
| ResponseParser.ReadCardLine | Backend/utils/geminiService.js:42-67 | one trimmed line updates the variables as one step |
| ResponseParser.BlocksShape | Backend/utils/geminiService.js:34 | the records are exactly the non-blank pieces between separators, and the pieces join back to the text |
| ResponseParser.FlashcardsNonEmpty | Backend/utils/geminiService.js:70-79 | every flashcard comes from a record and has a non-empty question and answer |
| ResponseParser.FlashcardsAppend | Backend/utils/geminiService.js:38-80 | decoding preserves record order |
| ResponseParser.DecodedAppend | Backend/utils/geminiService.js:33-185 | the output for two lists of records is the first list's followed by the second's |
| ResponseParser.DecodedFrom | Backend/utils/geminiService.js:70-79 | every output record decoded from some input record |
| ResponseParser.DecodedSnoc | Backend/utils/geminiService.js:38-80 | one more record pushes its value when it decodes |
| ResponseParser.StepQuestion | Backend/utils/geminiService.js:46-51 | a `Q` line sets the question to the trimmed text after the first colon |
| ResponseParser.StepAnswer | Backend/utils/geminiService.js:53-57 | an `A` line sets the answer to the trimmed text after the first colon |
| ResponseParser.StepDifficulty | Backend/utils/geminiService.js:59-67 | a `D` line sets the difficulty only to easy, medium or hard |
| ResponseParser.TagSpaceColon | Backend/utils/geminiService.js:46-59 | `Q :` reads exactly like `Q:`, and the same holds for `A` and `D` |
| ResponseParser.TagsExclusive | Backend/utils/geminiService.js:46-67 | at most one tag matches a line |
| ResponseParser.KeepsQuestion | Backend/utils/geminiService.js:46-67 | a line without the `Q` tag leaves the question alone |
| ResponseParser.KeepsAnswer | Backend/utils/geminiService.js:46-67 | a line without the `A` tag leaves the answer alone |
| ResponseParser.KeepsDifficulty | Backend/utils/geminiService.js:46-67 | a line without the `D` tag leaves the difficulty alone |
| ResponseParser.LastWriteWins | Backend/utils/geminiService.js:42-68 | the last `Q` (or `A`) line decides the question (or answer) |
| ResponseParser.DefaultDifficulty | Backend/utils/geminiService.js:40-67 | without a `D` line the difficulty is medium |
| ResponseParser.UnknownDifficultyIgnored | Backend/utils/geminiService.js:64-66 | a `D` value outside easy/medium/hard changes nothing |
| ResponseParser.DifficultyOf | Backend/utils/geminiService.js:64 | recognises exactly the three level names |
| ResponseParser.FirstColon | Backend/utils/geminiService.js:46-61 | `indexOf(':')` is the first colon |
| ResponseParser.ParseQuiz | Backend/utils/geminiService.js:120-185 | the questions of the records, in record order, cut to `numQuestions`; each passed the gate |
| ResponseParser.ReadQuestion | Backend/utils/geminiService.js:124-182 | the line loop and the gate decode one record |
| ResponseParser.ReadQuizLine | Backend/utils/geminiService.js:132-166 | one trimmed line updates the variables as one step |
| ResponseParser.QuestionsAccepted | Backend/utils/geminiService.js:169-182 | every question has a question, an assigned last slot, non-empty assigned slots and a correct answer, and comes from some record |
| ResponseParser.EmittedAccepted | Backend/utils/geminiService.js:169-182 | a record decodes only past the gate |
| ResponseParser.QuestionsAppend | Backend/utils/geminiService.js:123-183 | decoding preserves record order |
| ResponseParser.JsLengthFour | Backend/utils/geminiService.js:171 | `options.length === 4` exactly when slot 3 was assigned |
| ResponseParser.StepQuestionLine | Backend/utils/geminiService.js:135-137 | `Q:` sets the question |
| ResponseParser.StepOptionLine | Backend/utils/geminiService.js:138-149 | `O1:`..`O4:` write slots 0..3 and nothing else |
| ResponseParser.OptionOverwrite | Backend/utils/geminiService.js:138-149 | a later option line overwrites its slot and leaves the correct answer alone |
| ResponseParser.StepCorrectLine | Backend/utils/geminiService.js:150-156 | `C:` resolves its key against the current slots |
| ResponseParser.ResolveNow | Backend/utils/geminiService.js:150-156 | `C: Ok` copies slot k as it is when the line is read, or "" for a hole |
| ResponseParser.ResolveOtherKeys | Backend/utils/geminiService.js:152-155 | an unknown key leaves the correct answer alone; an inherited name such as `constructor` clears it |
| ResponseParser.StaleCorrectAnswer | Backend/utils/geminiService.js:138-156 | `C: O1` followed by a new `O1:` line keeps the old text as the correct answer |
| ResponseParser.SparseOptionsAccepted | Backend/utils/geminiService.js:169-174 | after an `O4:` line the gate ignores holes in the O1 to O3 slots |
| ResponseParser.MissingLastOptionDropped | Backend/utils/geminiService.js:147-171 | a record without an `O4:` line is never emitted |
| ResponseParser.SpacedQuizTagIgnored | Backend/utils/geminiService.js:135-165 | the quiz grammar ignores a tag with a space before its colon |
| ResponseParser.QuizDefaults | Backend/utils/geminiService.js:129-165 | without an `E:` line the explanation is "", and without a `D:` line the difficulty is medium |
| ResponseParser.QuestionLine | Backend/utils/geminiService.js:133-137 | appending a `Q: v` line sets the question to v |
| ResponseParser.OptionLine | Backend/utils/geminiService.js:133-149 | appending an option line sets that slot to its value |
| ResponseParser.CorrectLine | Backend/utils/geminiService.js:133-156 | appending a `C:` line resolves its key |
| ResponseParser.StepKeepsOptions | Backend/utils/geminiService.js:132-166 | only option lines change the slots |
| QuizGrading.SubmitQuiz | Backend/controllers/quizController.js:49-129 | a missing or empty answer list fails before the lookup; success marks the quiz completed now |
| QuizGrading.GradeAnswers | Backend/controllers/quizController.js:82-103 | the forEach records the in-range answers and counts the correct ones, or fails on a negative index |
| QuizGrading.SubmitOnce | Backend/controllers/quizController.js:74-109 | a submitted quiz can never be submitted again |
| QuizGrading.SubmitChanges | Backend/controllers/quizController.js:105-109 | a submit replaces exactly the answers, the score and the completion time |
| QuizGrading.GradedIsFilter | Backend/controllers/quizController.js:85-103 | the recorded answers are the in-range answers, in input order |
| QuizGrading.OutOfRangeIgnored | Backend/controllers/quizController.js:88 | an answer past the last question adds nothing |
| QuizGrading.NegativeStops | Backend/controllers/quizController.js:85-128 | a negative index fails the request |
| QuizGrading.NonNegativeGraded | Backend/controllers/quizController.js:85-103 | answers with non-negative indices always grade |
| QuizGrading.GradedPush | Backend/controllers/quizController.js:88-101 | an in-range answer appends its record |
| QuizGrading.CountCorrectBound | Backend/controllers/quizController.js:90-94 | the count is at most the recorded answers, and equal exactly when all are correct |
| QuizGrading.ScoreAtMost100 | Backend/controllers/quizController.js:105 | with distinct indices the score lies in 0..100 |
| QuizGrading.DistinctKept | Backend/controllers/quizController.js:88-101 | the filter keeps indices distinct |
| QuizGrading.DistinctBound | Backend/controllers/quizController.js:88-105 | distinct in-range indices are no more than the questions |
| QuizGrading.DuplicateIndexOverflow | Backend/controllers/quizController.js:85-105 | two correct answers for the one question of a one-question quiz give a score of 200 |
| QuizGrading.QuizResults | Backend/controllers/quizController.js:132-187 | not found and not submitted are refused; one result per question, in order, with its correct answer, never correct without an answer |
| QuizGrading.ResultsAfterSubmit | Backend/controllers/quizController.js:155-166 | after a submit, a question's result is the first recorded answer for it, correct exactly when it equals the correct answer, or null |
| QuizGrading.FindAnswer | Backend/controllers/quizController.js:156 | the answer found has the index, and none is found only when no answer has it |
| QuizGrading.FindAnswerFirst | Backend/controllers/quizController.js:156 | `find` returns the first answer with the index |
| Progress.CalculateStudyStreak | Backend/controllers/progressController.js:6-50 | the loop computes the streak, which is 0 without activity |
| Progress.CountConsecutive | Backend/controllers/progressController.js:31-47 | the walk over the distinct days |
| Progress.StreakBounds | Backend/controllers/progressController.js:6-50 | 0 without activity or when the last day is before yesterday; never more than the distinct days |
| Progress.StreakCountsConsecutiveDays | Backend/controllers/progressController.js:31-47 | k consecutive active days ending today give a streak of at least k |
| Progress.YesterdayNotCounted | Backend/controllers/progressController.js:37-43 | activity yesterday and the day before, but not today, gives a streak of 1 |
| Progress.UniqueDescSpec | Backend/controllers/progressController.js:10-14 | the days reduce to distinct days in descending order |
| Progress.InsertDescSpec | Backend/controllers/progressController.js:10-14 | inserting a day keeps the list strictly descending with one more member |
| Progress.DescendingCard | Backend/controllers/progressController.js:10-14 | a strictly descending list has no repeats |
| Progress.WalkBound | Backend/controllers/progressController.js:33-47 | the walk counts at most one per day |
| Progress.CalculateTotalStudyTime | Backend/controllers/progressController.js:53-72 | the text for the total minutes |
| Progress.CountCompletedDocs | Backend/controllers/progressController.js:58-60 | counts the completed or processed documents |
| Progress.AddQuizMinutes | Backend/controllers/progressController.js:64-66 | adds two minutes per question, five questions when unknown or 0 |
| Progress.QuizMinutesBounds | Backend/controllers/progressController.js:64-66 | at least two minutes per quiz, always even |
| Progress.StudyTimeRoundTrip | Backend/controllers/progressController.js:68-71 | the text "Hh Mm" reads back as the minutes |
| Progress.GetMostProductiveDay | Backend/controllers/progressController.js:75-91 | Monday without activity; otherwise a weekday with the largest count, ties going to the later weekday |
| Progress.ReduceMax | Backend/controllers/progressController.js:86-88 | the reduce picks the last index with the largest count |
| Progress.WeekdayCountsSum | Backend/controllers/progressController.js:81-84 | the weekday counts add up to the number of instants |
| Progress.Consistency | Backend/controllers/progressController.js:94-112 | lies in 0..100 |
| Progress.ConsistencyFull | Backend/controllers/progressController.js:100-111 | 100 exactly when there are at least thirty active days in the window |
| Progress.WeeklyActivities | Backend/controllers/progressController.js:130-138 | never more than the instants |
| Progress.StudiedTodayCounts | Backend/controllers/progressController.js:115-138 | activity today counts in the week's activity and, without future instants, keeps a streak |
| Progress.CompletedQuizzes | Backend/controllers/progressController.js:174 | the completed quizzes are exactly those with a completion time |
| Progress.RatesInRange | Backend/controllers/progressController.js:174-208 | average score and completion rate lie in 0..100 |
| Progress.AllCompleted | Backend/controllers/progressController.js:206-208 | every quiz completed gives a completion rate of 100 |
| Progress.ScoreSumBounds | Backend/controllers/progressController.js:176 | the score sum lies between 0 and 100 per quiz |
| JsMath.RoundDiv | Backend/controllers/progressController.js:206-208 | `Math.round(n / d)`: the nearest integer, halves up |
| JsMath.RoundDivBounds | Backend/controllers/quizController.js:105 | a rounded share of at most k parts lies in 0..k |
| PasswordStrength.CalculatePasswordStrength | Frontend/src/pages/Auth/RegisterPage.jsx:21-38 | empty gives score 0 and no label; otherwise the rating of the criteria count, at most 6 |
| PasswordStrength.Rating | Frontend/src/pages/Auth/RegisterPage.jsx:35-37 | Weak exactly for 0..2, Medium for 3..4, Strong for 5 up |
| PasswordStrength.ScoreMonotone | Frontend/src/pages/Auth/RegisterPage.jsx:26-33 | typing one more character never lowers the score |
| PasswordStrength.StrongNeedsLength | Frontend/src/pages/Auth/RegisterPage.jsx:26-37 | a strong password has at least eight code units |
| PasswordStrength.SingleCharacter | Frontend/src/pages/Auth/RegisterPage.jsx:26-33 | a one-character password scores exactly 1 |
| PasswordStrength.ZeroScoreIffEmpty | Frontend/src/pages/Auth/RegisterPage.jsx:21-33 | the score is 0 exactly for the empty password; any other password meets at least one criterion |
| PasswordStrength.RequirementsAreCriteria | Frontend/src/pages/Auth/RegisterPage.jsx:43-48 | the checklist flags are the strength criteria of the same password |
| PasswordStrength.RequirementsMeetGate | Frontend/src/pages/Auth/RegisterPage.jsx:43-65 | a fully met checklist scores at least 4 |
| PasswordStrength.SubmitGate | Frontend/src/pages/Auth/RegisterPage.jsx:55-65 | a mismatch is reported first; a score below 3 is refused; otherwise registration proceeds |
| PasswordStrength.GateAllowsOnlyMedium | Frontend/src/pages/Auth/RegisterPage.jsx:55-65 | only Medium or Strong passwords register, never an empty one |
| QuizTake.FormatTimeRoundTrip | Frontend/src/pages/Quizzes/QuizTakePage.jsx:112-116 | minutes, a colon, two digits below 60, reading back as the seconds |
| QuizTake.TwoDigitSeconds | Frontend/src/pages/Quizzes/QuizTakePage.jsx:115 | seconds pad to two digits that read back |
| QuizTake.FormatAnswers | Frontend/src/pages/Quizzes/QuizTakePage.jsx:94-97 | one entry per question, indexed by position, with the recorded answer or "" |
| QuizTake.FormattedAnswersGrade | Frontend/src/pages/Quizzes/QuizTakePage.jsx:94-100 | the payload grades every question once, with a score in 0..100 |
| QuizTake.QuizTakePage.Load | Frontend/src/pages/Quizzes/QuizTakePage.jsx:40-63 | a completed quiz with answers redirects; any other is shown with 120 seconds per question |
| QuizTake.QuizTakePage.SelectAnswer | Frontend/src/pages/Quizzes/QuizTakePage.jsx:65-70 | records the chosen option under the current index only |
| QuizTake.QuizTakePage.Next | Frontend/src/pages/Quizzes/QuizTakePage.jsx:72-76 | one question on, never past the last |
| QuizTake.QuizTakePage.Previous | Frontend/src/pages/Quizzes/QuizTakePage.jsx:78-82 | one question back, never before the first |
| QuizTake.QuizTakePage.Tick | Frontend/src/pages/Quizzes/QuizTakePage.jsx:27-35 | one second off the clock; submits at the last second |
| QuizTake.QuizTakePage.ConfirmationIffUnanswered | Frontend/src/pages/Quizzes/QuizTakePage.jsx:85-90 | confirmation is asked exactly when some question has no answer |
| QuizTake.QuizTakePage.SubmitPayload | Frontend/src/pages/Quizzes/QuizTakePage.jsx:84-97 | nothing is sent when the user declines; otherwise the formatted answers |
| FlashcardStudy.FlashcardPage.DisplayCards | Frontend/src/pages/Flashcards/FlashcardPage.jsx:120-126 | none without a set, the starred ones with starred-only, else all |
| FlashcardStudy.DisplayedStarred | Frontend/src/pages/Flashcards/FlashcardPage.jsx:122-124 | with starred-only the displayed cards are exactly the starred cards |
| FlashcardStudy.FlashcardPage.Load | Frontend/src/pages/Flashcards/FlashcardPage.jsx:36-59 | the requested set when present, else the first, else the selection unchanged |
| FlashcardStudy.FlashcardPage.LoadFailed | Frontend/src/pages/Flashcards/FlashcardPage.jsx:53-58 | a failed fetch only ends loading |
| FlashcardStudy.FlashcardPage.NextCard | Frontend/src/pages/Flashcards/FlashcardPage.jsx:91-97 | marks the card reviewed and moves to (i+1) mod n |
| FlashcardStudy.FlashcardPage.PrevCard | Frontend/src/pages/Flashcards/FlashcardPage.jsx:99-104 | 0 wraps to n-1, else i-1, staying in range |
| FlashcardStudy.FlashcardPage.Reset | Frontend/src/pages/Flashcards/FlashcardPage.jsx:114-118 | no reviewed cards and the first card |
| FlashcardStudy.FlashcardPage.ToggleStarredOnly | Frontend/src/pages/Flashcards/FlashcardPage.jsx:201 | flips the switch only |
| FlashcardStudy.FlashcardPage.ToggleStar | Frontend/src/pages/Flashcards/FlashcardPage.jsx:61-89 | on success the star flips in every set and in the selected set |
| FlashcardCards.ToggleCard | Frontend/src/pages/Flashcards/FlashcardPage.jsx:70 | only the star changes, and only for the matching id |
| FlashcardCards.ToggleCards | Frontend/src/pages/Flashcards/FlashcardPage.jsx:69-71 | each card is toggled in place |
| FlashcardCards.ToggleOnlyMatching | Frontend/src/pages/Flashcards/FlashcardPage.jsx:66-82 | cards with another id are unchanged, cards with the id flip |
| FlashcardCards.ToggleTwice | Frontend/src/components/flashcards/FlashcardManager.jsx:110-126 | toggling twice restores every card |
| FlashcardCards.ToggleSetsTwice | Frontend/src/components/flashcards/FlashcardManager.jsx:110-117 | toggling twice restores every set |
| FlashcardCards.ToggleUnknownId | Frontend/src/components/flashcards/FlashcardManager.jsx:113-115 | an id no card carries changes nothing |
| FlashcardCards.ToggleSets | Frontend/src/components/flashcards/FlashcardManager.jsx:110-117 | each set is toggled in place |
| FlashcardCards.StarredMembers | Frontend/src/pages/Flashcards/FlashcardPage.jsx:123 | the filter keeps exactly the starred cards |
| FlashcardCards.StarredAppend | Frontend/src/pages/Flashcards/FlashcardPage.jsx:123 | the filter keeps card order |
| FlashcardCards.StarredAll | Frontend/src/pages/Flashcards/FlashcardPage.jsx:123 | all starred means nothing is dropped |
| FlashcardCards.FindSet | Frontend/src/pages/Flashcards/FlashcardPage.jsx:46 | a set with the id, or none when no set has it |
| FlashcardCards.FindSetFirst | Frontend/src/pages/Flashcards/FlashcardPage.jsx:46 | `find` returns the first set with the id |
| FlashcardPanel.FlashcardManager.FetchSets | Frontend/src/components/flashcards/FlashcardManager.jsx:33-47 | the fetched sets, or none after an error or a non-array |
| FlashcardPanel.FlashcardManager.NextCard | Frontend/src/components/flashcards/FlashcardManager.jsx:69-74 | marks the card reviewed and moves to (i+1) mod n, keeping the index and the reviewed set in range |
| FlashcardPanel.FlashcardManager.PrevCard | Frontend/src/components/flashcards/FlashcardManager.jsx:76-82 | 0 wraps to n-1, else i-1, staying in range |
| FlashcardPanel.FlashcardManager.Review | Frontend/src/components/flashcards/FlashcardManager.jsx:91-103 | the current card counts as reviewed only when it exists and the call succeeded |
| FlashcardPanel.FlashcardManager.ToggleStar | Frontend/src/components/flashcards/FlashcardManager.jsx:105-133 | on success the star flips in every set and in the selected set; nothing else changes |
| FlashcardPanel.FlashcardManager.SelectSet | Frontend/src/components/flashcards/FlashcardManager.jsx:156-160 | the set, the first card, no reviewed cards |
| FlashcardPanel.FlashcardManager.BackToList | Frontend/src/components/flashcards/FlashcardManager.jsx:162-166 | no set, the first card, no reviewed cards |
| FlashcardPanel.FlashcardManager.ReviewedAtMostCards | Frontend/src/components/flashcards/FlashcardManager.jsx:69-103 | no more cards are reviewed than the set holds |
| Indices.FullRange | Frontend/src/pages/Quizzes/QuizTakePage.jsx:85 | a set of indices below n has at most n members, and n exactly when it holds all of them |

## Left out

- The generation calls, prompts and API-key checks in
  Backend/utils/geminiService.js are foreign SDK and network calls. The
  parsers take the generated text as input.
- The database, HTTP responses and authentication around the controllers
  are left out. A quiz is a plain record. "Not found" is an absent record.
  A thrown error is a `Failure` value.
- Ranker.ScoreValue: the float score is modelled with real numbers. `1 /
  Math.sqrt(n)` is a parameter `invSqrt`, and the proofs use only that it
  is positive. IEEE rounding, and ties between floats that differ only by
  rounding, are not modelled.
- JsMath.RoundDiv: `Math.round` of a float quotient is modelled as exact
  rational rounding, halves up. A quotient whose float value rounds across
  a half is not modelled.
- Text.ToLower: only ASCII letters are lower-cased. Unicode case mapping is
  not modelled.
- Ranker.SortByRank: `Array.prototype.sort` is modelled as a stable
  insertion sort. Only the ordering and the permutation are stated, not
  the engine's algorithm.
- Clock, time zone and daylight-saving handling (`new Date()`, `setHours`,
  `getDay`, `setDate`) are replaced by integer milliseconds in local time
  and a `now` parameter.
- Progress.Consistency: the window starts exactly 30 days of
  milliseconds before `now`. `setDate(getDate() - 30)` goes back 30
  calendar days, which differs from that only across a daylight-saving
  change.
- The other dashboard fields (counts, flashcard statistics, the recent
  lists, the sessions per week) are plain counts and sorts over database
  results, so they are left out.
- The `setInterval` timer, `window.confirm`, `toast`, navigation and the
  asynchronous service calls of the three pages are left out. Their
  outcomes are parameters: the fetched data, `succeeded`, `confirmed`.
  `Tick` is one timer callback.
- The `Math.random` shuffle buttons are non-deterministic and left out.
- Chunker.ChunkText: the word-split fallback (Backend/utils/textChunker.js:85-97)
  is proved unreachable and has no model. It would not terminate for an
  overlap of at least `chunkSize`.
- QuizGrading.Submit: non-array answers and answers missing fields are
  modelled as `None` or typed answers. A quiz with zero `totalQuestions`
  gets a NaN or infinite score, modelled as `None`.
- QuizTake.FormatTime: takes a natural number of seconds. The clock never
  goes below 0.
- QuizTake.QuizTakePage.Load: models the first fetch only. A refetch after
  the quiz id changes keeps the old cursor and answers, and that is not
  modelled.
- The quiz page's "quiz not found" view, shown when questions are missing
  or empty, has no handlers and is left out. The handlers require
  `Showing()`.
- FlashcardStudy.FlashcardPage.ToggleStarredOnly: keeps the card index as
  the source does. An index past the starred cards is then out of range,
  and the page's cursor methods require `Viewing()` rather than an index
  invariant.
- The answers map of the quiz page keeps answers across re-renders. A stale
  entry after a quiz change is not modelled.
- The delete and generate handlers of FlashcardManager.jsx call the server
  and refetch. They are left out.
