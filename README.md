# NeuroLearn text pipelines in Dafny

NeuroLearn is a reading aid for neurodivergent learners. It extracts text from a PDF,
asks a language model for a simplified bullet-point version and for a quiz, and
tracks points, streaks and badges. This project models the deterministic logic
around the model calls and proves what that logic guarantees. That logic covers:

- **Input normaliser** (`clean_input_text`). It drops invisible characters, unifies
  line breaks, caps blank-line runs, collapses spaces, strips every line, replaces
  tabs, trims, and caps the length at 10000 characters (quiz) or 8000 (simplification).
  Module `Normalizer` models it, with the regular expressions written out in
  `Substitutions` and the string methods in `Strings`.
- **Quiz side.** `clean_json_output`, `repair_json` and the four-strategy fallback
  of `extract_json_safely` are in `JsonRecovery`. The schema validator
  `_validate_quiz` is in `QuizValidator`. The walk over the reply envelope is in
  `Envelope`, and the early exits and routing of `generate_quiz` are in `QuizGenerator`.
- **Simplification side.** `clean_output_text`, which turns a reply into at most ten
  "- " bullets of at most twelve words, and the acceptance checks of
  `simplify_text` are in `Simplify`.
- **Rule modules.** `award_points`, `calculate_streak` and `get_badges` are in
  `Gamification`, and `get_next_level` is in `Adaptivity`.
- **PDF cleaner.** The line filter and whitespace collapse of `_clean_text` are in
  `PdfText`.

Some inputs become parameters of the model:

- The network exchange is a function `respond` from request to reply. A reply is
  either a delivered body or one of the transport failures.
- `json.loads` is a partial function `parse: string -> Option<Json>`. The recovery
  engine is then specified by which candidate strings it hands to `parse`, and in
  which order.
- Unicode NFKD normalisation is a function `normalize`.
- Dates are integer day numbers.

Loops in the source are methods with loop invariants:

- the brace scan (`ScanBraces`);
- the strategy cascade (`TryStrategies`);
- the validator loops (`CollectValid`, called twice by `ValidateQuiz`);
- the bullet loops (`CanonicalizeLines`, `CleanBullets`);
- the streak loop (`CalculateStreak`);
- the badge list (`GetBadges`);
- the PDF line loop (`CleanText`).

Each of these methods is proved equal to a specification function. The properties
are then lemmas about those functions.

Several quirks of the code are modelled as written:

- `repair_json` returns only the missing `}` characters when the braces never
  balance, and its truncation branch for a negative count is unreachable.
- An MCQ answer is checked against all of its options, but only the first four
  options are kept.
- `simplify_text` counts "- " anywhere in the text, not only at line starts.
- `calculate_streak` returns the longest run of consecutive days overall.

The system's specification differs from the code in five places, and the model
follows the code each time:

- **Streak.** The specification (and the docstring at
  modules/gamification.py:21-22) says the streak is the run "ending today".
  The code computes the longest run anywhere, which is what `Streak` states.
- **Normalised text.** The specification describes it as free of double spaces and
  of runs of three or more newlines. The code does not guarantee either:
  - tabs become spaces after spaces were collapsed;
  - lines are stripped after blank lines were capped.

  `Normalized` and `CleanInput` therefore make no claim about double spaces or
  newline runs.
- **MCQ options.** The specification requires non-empty options and the answer
  among the kept options. The code checks neither, as
  `AnswerMayFallOutsideKeptOptions` exhibits.
- **Invisible characters.** The specification says the normalised text keeps no
  non-printable character except newlines. Step 1 of the code
  (modules/quiz_generator.py:70) keeps every character for which `isspace` holds,
  so a vertical tab, a form feed, '\x1c' or a no-break space survive.
  `VerticalTabKept` shows that "a\x0bb" is returned unchanged.
- **Bullet count.** The specification says the simplified text has exactly ten
  bullets. The code keeps at most ten and accepts five occurrences of "- " anywhere.

## Model

| member | source | states |
|---|---|---|
| Adaptivity.Name | modules/adaptivity.py:9-13 | every level is reported as "simpler", "same" or "harder" |
| Adaptivity.NextLevel | modules/adaptivity.py:8-14 | simpler exactly when reading time > 30 or score < 50; harder exactly when reading time <= 30 and score >= 80; same exactly when reading time <= 30 and 50 <= score < 80 (a zero reading time is never "too long") |
| Adaptivity.GetNextLevel | modules/adaptivity.py:4-14 | the result is one of the three labels, and it is "simpler" exactly when reading time > 30 or score < 50 |
| Adaptivity.NameInjective | modules/adaptivity.py:9-13 | distinct levels have distinct labels |
| Adaptivity.MonotoneInScore | modules/adaptivity.py:8-14 | for a fixed reading time, a higher score never gives a simpler level (simpler < same < harder) |
| Adaptivity.AntitoneInReadingTime | modules/adaptivity.py:8-14 | for a fixed score, a longer reading time never gives a harder level |
| Gamification.Truncate | modules/gamification.py:11 | `int(score)` truncates toward zero: for x >= 0 the result is the floor, for x < 0 the ceiling |
| Gamification.ReadingBonus | modules/gamification.py:12-15 | the bonus is 10 exactly when 0 < reading time < 20, 5 exactly when reading time >= 20, 0 exactly when reading time <= 0 |
| Gamification.AwardPoints | modules/gamification.py:7-16 | returns `Points(score, readingTime)`, and the points are never negative |
| Gamification.PointsOfScore | modules/gamification.py:11 | the score part is >= 0, is 0 for a score below 1, and is the integer part of a non-negative score |
| Gamification.PointsMonotone | modules/gamification.py:11-15 | with the reading time fixed, a higher score never earns fewer points |
| Gamification.Insert | modules/gamification.py:26 | inserting a day into a strictly increasing list keeps it strictly increasing, adds exactly that day, and grows it by at most one |
| Gamification.SortedDays | modules/gamification.py:26 | `sorted({...})` is strictly increasing, holds exactly the input's days, and is no longer than the input |
| Gamification.IncreasingUnique | modules/gamification.py:26 | two strictly increasing lists with the same members are equal, so the sorted set is determined by the set of days |
| Gamification.CalculateStreak | modules/gamification.py:19-36 | the loop over consecutive pairs returns `Streak(days)`, the longest run of the sorted distinct days |
| Gamification.StreakBounds | modules/gamification.py:24-36 | the streak of no dates is 0; otherwise it is between 1 and the number of distinct dates |
| Gamification.SameDaysSameStreak | modules/gamification.py:26-36 | input order and duplicates do not change the streak: lists with the same days have the same streak |
| Gamification.LongestRunIsLongest | modules/gamification.py:27-35 | the loop's result is the length of some run of consecutive entries, and no run of consecutive entries is longer |
| Gamification.StreakAchieved | modules/gamification.py:19-36 | for non-empty input there is a first day x such that x, x+1, ..., x+streak-1 all occur in the input |
| Gamification.StreakMaximal | modules/gamification.py:19-36 | every run of consecutive days that occurs in the input is no longer than the streak |
| Gamification.PointsBadge | modules/gamification.py:41-46 | "Master Reader" exactly at >= 500, "Focused Scholar" exactly in 200..499, "Learning Champ" exactly in 100..199, none below 100 |
| Gamification.StreakBadge | modules/gamification.py:48-51 | "14-day streak" exactly at >= 14, "7-day streak" exactly in 7..13, none below 7 |
| Gamification.GetBadges | modules/gamification.py:39-53 | the appended list joined with ", " is `BadgeText(totalPoints, streakDays)` |
| Gamification.BadgeTextCases | modules/gamification.py:53 | the badge text is empty exactly when points < 100 and streak < 7; otherwise it is the points badge, then ", " and the streak badge, each present only when awarded |
| Substitutions.NormalizeLineBreaks | modules/quiz_generator.py:73 | no '\r' is left, and every character is an input character or '\n' |
| Substitutions.NormalizeLineBreaksKeepsText | modules/quiz_generator.py:73 | apart from line breaks, the text is kept exactly, in order |
| Substitutions.NormalizeLineBreaksFixed | modules/quiz_generator.py:73 | a text without '\r' is left unchanged |
| Substitutions.CapBlankLines | modules/quiz_generator.py:76 | every character of the result comes from the input |
| Substitutions.CapBlankLinesFixed | modules/quiz_generator.py:76 | a text without three newlines in a row is left unchanged |
| Substitutions.CollapseSpaces | modules/quiz_generator.py:79 | the result is empty exactly when the input is, keeps the first character and a non-space last character, holds only input characters, and has no two adjacent spaces |
| Substitutions.CollapseSpacesKeepsText | modules/quiz_generator.py:79 | apart from spaces, the text is kept exactly, in order |
| Substitutions.CollapseSpacesFixed | modules/quiz_generator.py:79 | a text without two adjacent spaces is left unchanged |
| Substitutions.CollapseSpacesIdempotent | modules/quiz_generator.py:79 | collapsing twice is collapsing once |
| Substitutions.CollapseWhitespace | modules/pdf_utils.py:26 | every whitespace run becomes one ' ': the result is empty exactly when the input is, starts with whitespace exactly when the input does, ends with non-whitespace when the input does, its only whitespace is ' ', never two adjacent, and its other characters come from the input |
| Substitutions.WordsCollapse | modules/pdf_utils.py:26 | collapsing whitespace keeps the words (`str.split()`) of the text unchanged |
| Substitutions.RemoveJsonFences | modules/quiz_generator.py:117 | removing the fences never lengthens the text or adds characters |
| Substitutions.RemoveFencesAndSpace | modules/quiz_generator.py:118 | removing the fences never lengthens the text or adds characters |
| Substitutions.RemoveTaggedFences | modules/simplify_text.py:110 | removing the fences never lengthens the text or adds characters |
| Substitutions.RemoveFences | modules/simplify_text.py:111 | removing the fences never lengthens the text or adds characters |
| Substitutions.Unwrap | modules/quiz_generator.py:121-122 | unwrapping bold, italic or inline code never lengthens the text or adds characters |
| Substitutions.RemoveHeaders | modules/quiz_generator.py:123 | removing header marks never lengthens the text or adds characters |
| Substitutions.StripMarkdown | modules/quiz_generator.py:121-124 | the four markdown rewrites never lengthen the text or add characters |
| Substitutions.QuoteKeys | modules/quiz_generator.py:206 | a text without ':' is left unchanged |
| Substitutions.DoubleQuote | modules/quiz_generator.py:209 | a text without a single quote is left unchanged |
| Substitutions.CloseGap | modules/quiz_generator.py:212-217 | a text lacking either the opening or the closing character of the rule is left unchanged |
| Normalizer.StripLinesChars | modules/quiz_generator.py:82-83 | stripping every line adds no character except '\n' |
| Normalizer.EarlySteps | modules/quiz_generator.py:70-79 | after steps 1 to 4 no '\r' is left and every character is printable or whitespace |
| Normalizer.LateSteps | modules/quiz_generator.py:82-89 | steps 5 to 7 on a text without '\r' whose characters are printable or whitespace leave neither '\r' nor '\t', no whitespace at either end, and only printable or whitespace characters |
| Normalizer.StepsFacts | modules/quiz_generator.py:70-89 | the four facts of `Normalized` hold for steps 2 to 7 applied to the output of step 1 |
| Normalizer.StripWithout | modules/quiz_generator.py:89 | the final trim keeps the text free of '\r' and '\t' and of invisible characters, and leaves no whitespace at either end |
| Normalizer.Normalized | modules/quiz_generator.py:70-89 | steps 1 to 7 leave no '\r', no '\t', no whitespace at either end, and only characters that are printable or whitespace |
| Normalizer.StripLinesFixed | modules/quiz_generator.py:82-83 | a single non-empty line without whitespace at either end is unchanged by the line strip |
| Normalizer.ReplaceCharFixed | modules/quiz_generator.py:86 | a text without the replaced character is unchanged |
| Normalizer.NormalizedFixed | modules/quiz_generator.py:70-89 | a non-empty one-line text of printable or whitespace characters, with no '\r' or '\t', no two adjacent spaces and no whitespace at either end, is already normalised |
| Normalizer.VerticalTabKept | modules/quiz_generator.py:70 | "a\x0bb" is normalised to itself: the vertical tab survives step 1 |
| Normalizer.CleanInput | modules/quiz_generator.py:66-95 | empty input gives ""; the output has no '\r' or '\t', and only printable or whitespace characters besides the '.' of the ellipsis; it is at most cap + 3 long; a normalised text longer than the cap becomes its first cap characters followed by "..."; a shorter one is returned whole (the cap is 10000 here and 8000 in the identical copy at modules/simplify_text.py:58-88) |
| Envelope.FirstPartText | modules/quiz_generator.py:357-361 | no text exactly when no part has non-empty text; otherwise the text of the first part that has some |
| Envelope.FirstGeminiText | modules/quiz_generator.py:354-363 | no text exactly when every candidate is silent; otherwise the first non-empty part text of the first candidate that has one |
| Envelope.FirstOpenAIText | modules/quiz_generator.py:428-436 | no text exactly when no choice has non-empty content; otherwise the content of the first choice that has some |
| Envelope.ExtractText | modules/simplify_text.py:199-207 | "" when there is no first text; otherwise the first text stripped; so "" exactly when there is no first text or it is all whitespace, and never whitespace at either end |
| Envelope.BlankFirstPartHidesLaterText | modules/simplify_text.py:203-206 | a whitespace-only first part yields "" even when a later part has text |
| JsonRecovery.BraceSpan | modules/quiz_generator.py:145-147 | the span of `\{.*\}` starts with '{', ends with '}' and holds only characters of the text |
| JsonRecovery.BraceSpanExists | modules/quiz_generator.py:145-147 | the span exists exactly when some '{' occurs before some '}' |
| JsonRecovery.KeepableIsPrintable | modules/quiz_generator.py:136-137 | every allowed character is printable, '\n' or '\t' |
| JsonRecovery.KeepAndTrim | modules/quiz_generator.py:134-140 | the kept characters are printable, '\n' or '\t', and an object-shaped text keeps its outer braces |
| JsonRecovery.SliceObject | modules/quiz_generator.py:128-132 | when a '{' precedes a '}', the slice starts with '{' and ends with '}' |
| JsonRecovery.CleanJsonOutput | modules/quiz_generator.py:113-149 | empty input gives ""; every output character is printable, '\n' or '\t'; when a '{' precedes a '}' after fence and markdown removal, the output starts with '{' and ends with '}' |
| JsonRecovery.MatchingClose | modules/quiz_generator.py:176-186 | the end found is where the brace count first returns to zero, with the count positive before it; none exactly when the count stays positive to the end |
| JsonRecovery.ScanBraces | modules/quiz_generator.py:176-186 | the count never goes below zero; it is zero exactly when a matching close exists, and then the end is that close; otherwise the end is still the start and the count is the final depth |
| JsonRecovery.FixCommonErrors | modules/quiz_generator.py:203-219 | a candidate made only of '}' passes the rewrites unchanged |
| JsonRecovery.RepairJson | modules/quiz_generator.py:156-219 | the method returns `Repaired(text)`, with the negative-count branch shown unreachable |
| JsonRecovery.RepairWithoutBrace | modules/quiz_generator.py:167-173 | "{}" for empty text and for text without '{' |
| JsonRecovery.RepairBalanced | modules/quiz_generator.py:176-201 | when the braces balance, the rewritten candidate is the span from the first '{' to where the count first returns to zero |
| JsonRecovery.RepairUnbalanced | modules/quiz_generator.py:188-201 | when the braces never balance, the result is exactly k '}' characters, k > 0 being the final count |
| JsonRecovery.Candidates | modules/quiz_generator.py:238-277 | two to four candidates: the cleaned text first, the repaired text last |
| JsonRecovery.FirstParse | modules/quiz_generator.py:238-277 | a result exactly when some candidate parses, and then it is the parse of the first candidate that parses |
| JsonRecovery.FirstParseIsCascade | modules/quiz_generator.py:238-277 | the first parse over the candidate list equals the source's chain of four tries |
| JsonRecovery.Sample | modules/quiz_generator.py:281 | the error's sample is a prefix of the text of at most 500 characters |
| JsonRecovery.TryStrategies | modules/quiz_generator.py:238-277 | the four strategies return the first parse, in the order cleaned, `\{.*\}` span, balanced span, repaired |
| JsonRecovery.ExtractJsonSafely | modules/quiz_generator.py:235-282 | empty text raises; otherwise the first candidate that parses wins, and total failure raises with the 500-character sample |
| QuizValidator.Listed | modules/quiz_generator.py:457-462 | a missing list reads as empty, an array yields its items, a string or object yields nothing, and null, booleans and numbers cannot be iterated |
| QuizValidator.StrField | modules/quiz_generator.py:466-468 | a missing field reads as ""; a string field reads as its stripped value; the read fails exactly when the field is present and not a string |
| QuizValidator.McqValid | modules/quiz_generator.py:466-475 | the MCQ test: non-empty stripped question and answer, an options list of at least two, and the answer among the options |
| QuizValidator.ShortValid | modules/quiz_generator.py:488-492 | the short-answer test: non-empty stripped question and answer |
| QuizValidator.CheckMcq | modules/quiz_generator.py:462-480 | non-objects are skipped; an object raises exactly when its `q` or `answer` is present and not a string; it is kept exactly when it passes the MCQ test; a kept MCQ carries the stripped question and answer and only the first four options |
| QuizValidator.CheckShort | modules/quiz_generator.py:484-496 | non-objects are skipped; an object raises exactly when its `q` or `answer` is present and not a string; it is kept exactly when both stripped fields are non-empty, and then carries them |
| QuizValidator.KeptItems | modules/quiz_generator.py:462-496 | the items kept, in input order, are no more than the entries |
| QuizValidator.KeptItemsOrigin | modules/quiz_generator.py:462-496 | every entry that is kept contributes its item, and every kept item is the verdict of some entry |
| QuizValidator.Accepted | modules/quiz_generator.py:462-496 | the loop fails exactly when some entry raises; otherwise it returns the items of the kept entries in input order, no more than the entries, each the verdict of some entry |
| QuizValidator.AcceptedSingle | modules/quiz_generator.py:462-496 | one entry gives [item] when it is kept, [] when it is skipped, and a failure when it raises |
| QuizValidator.AcceptedSnoc | modules/quiz_generator.py:462-496 | one more entry: a skipped one leaves the list as it is, a kept one is appended |
| QuizValidator.KeptItemsAppend | modules/quiz_generator.py:462-496 | the items kept from a + b are those kept from a followed by those kept from b |
| QuizValidator.CollectValid | modules/quiz_generator.py:462-496 | the loop returns exactly `Accepted(entries, check)` |
| QuizValidator.AcceptedAppend | modules/quiz_generator.py:462-496 | filtering distributes over concatenation, so the kept entries stay in input order |
| QuizValidator.ValidMcqKept | modules/quiz_generator.py:462-480 | an entry that passes the MCQ test is kept, with its stripped question and answer and its first four options |
| QuizValidator.AcceptedRaises | modules/quiz_generator.py:462-496 | one raising entry makes the whole loop fail |
| QuizValidator.MistypedFieldFails | modules/quiz_generator.py:466-468 | an object entry whose `q` or `answer` is present but not a string makes either loop fail, wherever it stands |
| QuizValidator.NumericAnswerRejected | modules/quiz_generator.py:466-468 | a quiz whose only MCQ has a numeric answer is rejected with an AttributeError |
| QuizValidator.Validated | modules/quiz_generator.py:443-512 | a non-object quiz fails with an AttributeError; a validated quiz has exactly 3 MCQs and 2 short answers |
| QuizValidator.ValidateQuiz | modules/quiz_generator.py:443-512 | both loops and the count checks return `Validated(quiz)`, and success means exactly 3 MCQs and 2 short answers |
| QuizValidator.ValidatedCardinality | modules/quiz_generator.py:457-512 | for any quiz object whose two lists (a missing key read as empty, a string or object as no entries) raise nothing: success exactly when at least 3 MCQs and 2 short answers are kept; the error names which count fell short; success returns the first 3 and first 2 of the kept items in input order |
| QuizValidator.ValidatedCounts | modules/quiz_generator.py:457-512 | for any quiz object whose two lists raise nothing, only the two count checks decide the result |
| QuizValidator.NoMcqRejected | modules/quiz_generator.py:457-502 | a quiz with no MCQ entries (key missing, empty list, or a string or object in its place) is rejected with "Expected at least 3 MCQs, got 0" once its short answers raise nothing |
| QuizValidator.ValidatedMcqWellFormed | modules/quiz_generator.py:462-480 | every returned MCQ has a non-empty question and answer, 2 to 4 options, and comes from one of the quiz's own MCQ entries whose full option list holds the answer |
| QuizValidator.ValidatedMcqEntries | modules/quiz_generator.py:457-503 | the entries are those the quiz's `mcq` value yields, and the validated MCQs are the first three kept from them |
| QuizValidator.KeptFrom | modules/quiz_generator.py:462-496 | every kept item is the verdict of some entry |
| QuizValidator.KeptMcqWellFormed | modules/quiz_generator.py:471-480 | a kept MCQ has a non-empty question and answer, 2 to 4 options, and its answer among the entry's options |
| QuizValidator.AnswerMayFallOutsideKeptOptions | modules/quiz_generator.py:475-478 | an MCQ whose answer is its fifth option is accepted with that answer missing from the kept options |
| QuizGenerator.ProviderFor | modules/quiz_generator.py:554 | OpenAI exactly when the key starts with "sk-" |
| QuizGenerator.Outcome | modules/quiz_generator.py:289-437 | a transport failure is reported as such; a delivered reply without text is "no quiz content"; a successful outcome has exactly 3 MCQs and 2 short answers |
| QuizGenerator.GenerateQuiz | modules/quiz_generator.py:542-567 | an empty key raises `ValueError` without a request; blank text or empty cleaned input gives an empty quiz without a request; otherwise one request with the cleaned input is sent, and the result is what the reply yields; a non-empty result holds exactly 3 MCQs and 2 short answers |
| QuizGenerator.RoutingByKey | modules/quiz_generator.py:548-557 | a request goes to OpenAI for "sk-" keys and to Gemini otherwise, and carries non-empty cleaned input of at most 10003 characters without '\r' or '\t' |
| QuizGenerator.SilentReplyFails | modules/quiz_generator.py:354-363 | a delivered reply without any text raises "returned no quiz content" |
| Simplify.Visible | modules/simplify_text.py:109-120 | after fences, markdown and the character filter, every character is printable or '\n' |
| Simplify.VisibleLines | modules/simplify_text.py:119-124 | every line of the visible text is printable |
| Simplify.NonBlank | modules/simplify_text.py:124-127 | the stripped non-blank lines are non-empty with no whitespace at either end |
| Simplify.NonBlankAppend | modules/simplify_text.py:124-127 | the blank-line filter distributes over concatenation, so the lines keep their order |
| Simplify.Canonical | modules/simplify_text.py:129-137 | a canonical line starts with "- ", then a non-space character, and does not end in whitespace |
| Simplify.CanonicalMarker | modules/simplify_text.py:130-131 | "- foo", "* foo" and "• foo" become "- foo" |
| Simplify.CanonicalNumbered | modules/simplify_text.py:132-134 | "1. foo" and "2) foo" become "- foo" |
| Simplify.CanonicalPlain | modules/simplify_text.py:135-137 | a line without a marker, "foo", becomes "- foo" |
| Simplify.CanonicalIsBullet | modules/simplify_text.py:129-139 | every canonical printable line is a well-formed bullet |
| Simplify.CanonicalizeLines | modules/simplify_text.py:123-139 | the loop returns `BulletLines(raw)` |
| Simplify.BulletLinesLength | modules/simplify_text.py:123-139 | one bullet line per non-blank line |
| Simplify.BulletLinesAt | modules/simplify_text.py:123-139 | bullet line k is the k-th non-blank line made canonical |
| Simplify.BulletLineIsBullet | modules/simplify_text.py:123-139 | every bullet line of printable input is a well-formed bullet |
| Simplify.DashLines | modules/simplify_text.py:142 | the filter keeps only lines starting with "- ", and keeps a list of such lines whole |
| Simplify.CanonicalLinesKept | modules/simplify_text.py:142 | step 5 drops no canonical line |
| Simplify.FirstPoints | modules/simplify_text.py:144-146 | the first min(10, n) bullets |
| Simplify.ContentShape | modules/simplify_text.py:156-159 | the content of a bullet is non-empty, trimmed, printable, with no two spaces in a row |
| Simplify.TruncatedShape | modules/simplify_text.py:162-167 | the first n <= 12 words joined by spaces form a well-formed body whose words are exactly those n words |
| Simplify.BodyShape | modules/simplify_text.py:156-167 | every body is well formed; a content of more than 12 words becomes exactly its first 12 words; a shorter one is kept as is |
| Simplify.BulletOfBody | modules/simplify_text.py:173-174 | "- " and a well-formed body is a well-formed bullet whose body reads back unchanged |
| Simplify.BodiesNonEmpty | modules/simplify_text.py:173 | no body of a well-formed bullet is empty, so the guard drops nothing |
| Simplify.BulletedKeepsAll | modules/simplify_text.py:173-174 | with no empty body, every body is kept as "- " and the body, in order |
| Simplify.CleanBullets | modules/simplify_text.py:152-174 | the loop returns the bodies of the bullets, each behind "- ", the empty ones dropped |
| Simplify.Points | modules/simplify_text.py:123-174 | there are at most ten bullets, and no more than the non-blank lines |
| Simplify.LinesKept | modules/simplify_text.py:142-174 | on printable lines, there are min(10, non-blank lines) bullets, and bullet k is "- " and the body of the k-th canonical line |
| Simplify.PointsCount | modules/simplify_text.py:124-146 | exactly min(10, number of non-blank lines) bullets |
| Simplify.PointAt | modules/simplify_text.py:123-174 | bullet k is the k-th non-blank line, made canonical and cut to twelve words |
| Simplify.PointWellFormed | modules/simplify_text.py:152-174 | every bullet is "- " and a body of at most 12 words that is printable, trimmed and has no double space |
| Simplify.RenderedPoints | modules/simplify_text.py:177-182 | the final filter and strip leave the joined bullets unchanged |
| Simplify.OutputLines | modules/simplify_text.py:177 | splitting the output at '\n' gives back exactly the bullets, so lines are separated by single newlines |
| Simplify.CleanOutputText | modules/simplify_text.py:95-182 | empty input gives ""; otherwise the bullets joined by '\n' |
| Simplify.Outcome | modules/simplify_text.py:275-304 | a transport failure is reported as such; a successful outcome is non-empty, at least 10 characters after strip, and holds at least five "- " |
| Simplify.SimplifyText | modules/simplify_text.py:229-304 | an empty key raises `ValueError` without a request; blank text gives "" without a request; otherwise the cleaned input is sent once, and a non-empty result is at least 10 characters after strip and holds "- " at least 5 times |
| Simplify.CountBulletWord | modules/simplify_text.py:300 | a one-letter item "- c " adds exactly one to the count of "- " |
| Simplify.OneLinePassesBulletCount | modules/simplify_text.py:299-302 | a single line of five one-letter items passes both checks although it is one line |
| PdfText.SplitLines | modules/pdf_utils.py:18 | `splitlines()` gives no line for empty text, and no line holds a line boundary |
| PdfText.SplitLinesChars | modules/pdf_utils.py:18 | every character of a line comes from the text |
| PdfText.PageNumberDigits | modules/pdf_utils.py:10 | on a stripped line the page-number pattern matches exactly the all-digit lines |
| PdfText.Kept | modules/pdf_utils.py:19-24 | a line contributes nothing exactly when it is blank or digits alone; otherwise it contributes its stripped text |
| PdfText.KeptLines | modules/pdf_utils.py:17-24 | the filter keeps no more lines than it reads |
| PdfText.KeptLinesAppend | modules/pdf_utils.py:18-24 | the filter distributes over concatenation, so surviving lines keep their order |
| PdfText.KeptAround | modules/pdf_utils.py:18-24 | each line is kept or dropped on its own, between what the lines before and after it give |
| PdfText.KeptLinesChars | modules/pdf_utils.py:18-24 | every character of a kept line comes from some line |
| PdfText.WordsOfJoinedLines | modules/pdf_utils.py:25 | the words of the lines joined by spaces are the words of each line, in order |
| PdfText.AsciiOnly | modules/pdf_utils.py:16 | the result is all ASCII and holds exactly the ASCII characters of the input; an all-ASCII input is unchanged |
| PdfText.AsciiOnlyAppend | modules/pdf_utils.py:16 | the ASCII filter distributes over concatenation, so order is kept |
| PdfText.AsciiOnlyChar | modules/pdf_utils.py:16 | one character is kept exactly when it is ASCII |
| PdfText.CleanedSpacing | modules/pdf_utils.py:25-26 | the output has no whitespace at either end and its only whitespace is single spaces, so it has no newline |
| PdfText.CleanedIsWords | modules/pdf_utils.py:18-26 | the output is the words of the surviving lines, in their order, separated by single spaces |
| PdfText.CleanedChars | modules/pdf_utils.py:18-26 | every output character is a space or a character of the text |
| PdfText.CleanedAscii | modules/pdf_utils.py:16-26 | ASCII input gives ASCII output |
| PdfText.CleanText | modules/pdf_utils.py:14-26 | the loop and the collapse give `Cleaned` of the ASCII text, which is the surviving lines' words joined by single spaces, and is ASCII |
| Chars.IsSpace | modules/quiz_generator.py:70 | `str.isspace()` for one character: the ASCII whitespace, the information separators and the Unicode spaces and line separators |
| Chars.IsPrintable | modules/quiz_generator.py:70 | `str.isprintable()` for one character: not a control, format, private-use or non-space separator character |
| Strings.Strip | modules/quiz_generator.py:89 | `str.strip()`: no longer, only input characters, empty exactly for all-whitespace input, no whitespace at either end, identity on trimmed text |
| Strings.Split | modules/quiz_generator.py:82 | `str.split(sep)`: at least one piece, and no piece holds the separator |
| Strings.Join | modules/simplify_text.py:177 | `sep.join(parts)`; `JoinSplit`, `SplitJoin` and `WordsOfJoin` pair it with the two splits |
| Strings.JoinSplit | modules/quiz_generator.py:82-83 | joining the pieces of a split with the separator gives the text back |
| Strings.SplitJoin | modules/simplify_text.py:177 | splitting pieces joined by a separator they do not hold gives the pieces back |
| Strings.Words | modules/simplify_text.py:162 | `str.split()`: every piece is a non-empty run of non-whitespace characters |
| Strings.WordsOfJoin | modules/simplify_text.py:162-167 | splitting words joined by single spaces gives the words back |
| Strings.Count | modules/simplify_text.py:300 | `str.count(pat)` for a non-empty pattern: never more than the text's length |
| Strings.Find | modules/quiz_generator.py:171 | `find`: -1 exactly when the character is absent, otherwise its first index |
| Strings.RFind | modules/quiz_generator.py:129 | `rfind`: -1 exactly when the character is absent, otherwise its last index |

## Left out

- Python's Unicode tables: `isspace`, `isprintable` and the `\s` class are
  approximated. They are exact on ASCII, and list the Unicode spaces, line
  separators, format characters and private-use area explicitly. `\d` and `\w` are
  taken as ASCII.
- The HTTP exchanges and their parameters (endpoints, prompt templates,
  temperature, token limits, timeouts): the reply is a parameter. HTTP errors,
  unreachable hosts and undecodable bodies are reply values that become errors.
  The error messages' wording and the error chaining (`from err`) are not modelled.
- `json.loads` is a parameter, and its error message in the final RuntimeError is
  not modelled: only the 500-character sample is.
- `unicodedata.normalize("NFKD", ...)` is a parameter of `PdfText.CleanText`.
- `PdfReader` and `extract_text_from_pdf` (page extraction, joining pages, the
  RuntimeError wrapper) are file I/O outside the modelled core.
- `datetime.fromisoformat` and the current date: dates are day numbers. An
  unparsable date string, which raises in the source, is not modelled.
- Floating point: scores and reading times are reals. NaN, infinities and
  rounding are not modelled.
- A `null` value in a reply envelope is read as a missing one. For `content` and
  `parts` of a Gemini candidate and `message` of an OpenAI choice this differs in
  the quiz walk: `.get(key, {})` returns `None` there, and the next `.get` or
  loop raises (modules/quiz_generator.py:356 and 430-431). The simplification
  walk tolerates it with `or {}` and `or []` (modules/simplify_text.py:201-202).
  The model has no `null` in its envelope, so that exception is not modelled.
- A decoded reply that is not a JSON object, and an envelope field of the wrong
  type, are not modelled: `Body` holds only lists of candidates and choices
  whose parts and contents are texts. In the source such a reply raises an
  uncaught AttributeError. `result.get` fails on a non-object reply
  (modules/quiz_generator.py:354 and 428, modules/simplify_text.py:199). `.get`
  fails on the characters of a string in place of a list, as with
  `"candidates": "x"` (modules/quiz_generator.py:356 and 430,
  modules/simplify_text.py:201).
- `_validate_quiz` mutates its argument with `setdefault`. The model reads a
  missing key as an empty list and does not model the caller-visible insertion.
- Non-string truthy values in a reply's text fields (which would reach
  `extract_json_safely` or `.strip()` as non-strings) are not modelled: texts are
  strings or absent.
- Substitutions.RemoveJsonFences: the contract states only that the text does not
  grow and gains no character; the full rewrite is the function body.
- Substitutions.RemoveFencesAndSpace: as above, only length and characters are
  stated.
- Substitutions.RemoveTaggedFences: as above, only length and characters are stated.
- Substitutions.RemoveFences: as above, only length and characters are stated.
- Substitutions.Unwrap: as above, only length and characters are stated.
- Substitutions.RemoveHeaders: as above, only length and characters are stated.
- Substitutions.StripMarkdown: as above, only length and characters are stated.
- Substitutions.CapBlankLines: the contract states the origin of the characters,
  and `CapBlankLinesFixed` the text it leaves alone. The exact rewrite of a run
  of three or more newlines into two is the function body.
- Substitutions.QuoteKeys, Substitutions.DoubleQuote, Substitutions.CloseGap: only
  the cases where the rule cannot fire are stated. A single pass does not remove
  every trailing comma, so no claim of that kind is made.
- Normalizer.Normalized: the output is not claimed free of double spaces or
  triple newlines, because the code does not guarantee either.
- Gamification.CalculateStreak: integer day numbers stand for dates. The
  one-day `timedelta` comparison is a difference of 1.
- Strings.Count: only the bound is in its contract. Its uses are stated by
  `Simplify.CountBulletWord`.
