# Cyberbullying awareness site and detector: a Dafny model of the decision cores

This project models the pure decision logic behind two cooperating code bases: the
cyberbullying-awareness web site and its detector API. It also proves properties of that logic.

- **Infographic** (`Infographic`): the view-model hook `useInfographicViewModel` and its component.
  - A population of 10..200 student icons.
  - The victim quotas `ceil(0.3·count)` split 60/40 into girls and boys.
  - The victim sampler.
  - The five-stage narrative sequencer, modelled as a step machine with one step per timed pause.
  - The icon size, the icon asset path, the input and submit handlers, and the per-step captions.
- **Quiz grading** (`QuizGrading`): the result lambda of the quiz.
  - Matching submitted answers against the fetched rows, and the like/dislike correctness rule.
  - Where an unmatched answer makes the lambda fail. A like or dislike with no row fails the
    matching loop. Any other unmatched answer is graded incorrect and fails only at the tally
    loop, unless the client sent a `comment_status` with it (`sentStatus`).
  - The mistakes list and the clamped score.
  - Per-status tallies, and the "weakest category" selection with first-seen tie breaking.
  - The feedback message, and the relabelling of mistakes for display.
- **Comment batching** (`CommentBatching`): the comment-fetching lambda.
  - The positive/other split.
  - Blocks of exactly 4 positive and 6 other comments.
  - The leftovers.
  - The response body.
- **Severity** (`Severity`): the detector's `is_bullying` rule and its Red/Orange/Yellow/Green
  zone with labels, in both the API endpoint and the Gradio handler.
- **Toxicity rules** (`ToxicityRules`): the non-ML parts of the text model.
  - Whole-word, case-insensitive matching of custom phrases and "modifier phrase" patterns.
  - The "refers to someone else" predicate over a token list.
  - The sentiment label rule.
- **Util** (`Util`): shared definitions.
  - `Option`/`Result`.
  - Counting and filtering of sequences.
  - `Shuffle`.

Randomness is an input everywhere. A shuffle (`random.shuffle`, or a `sort` with a random
comparator) is `Shuffle(xs, picks)`. It decodes an arbitrary `seq<nat>` Fisher–Yates style, so
every input gives a permutation and every permutation can be reached. The random gender of each
icon is a function `genderOf: nat -> Gender`. The uuid of an icon is its index, which keeps ids
unique as the uuids are meant to be.

The machine-learning scores, the token list of the parser and the paraphrase are inputs
(`tox`, `cb`, `seq<Token>`, `paraphrase: string -> string`). The characters that count as
regular-expression word characters are a parameter `w: char -> bool`.

Where the documentation and the code disagree, the code is followed. For example, the icon for
10 students is 60 pixels, as `Math.max(24, 60 - (count - 10) * 0.2)` gives.

## Model

| member | source | states |
|---|---|---|
| Infographic.CalculateIconSize | cyberbullying-team-project-web/src/hooks/useInfoGraphic.ts:71-73 | the size is never below 24; it is exactly 24 iff count ≥ 190; for accepted counts it is at most 60, and exactly 60 only for 10 students |
| Infographic.IconSizeNonIncreasing | cyberbullying-team-project-web/src/hooks/useInfoGraphic.ts:71-73 | more students never give larger icons |
| Infographic.GetIconSrc | cyberbullying-team-project-web/src/hooks/useInfoGraphic.ts:269-283 | every look maps to an `.svg` asset under `/quizPage/` |
| Infographic.GetIconSrcInjective | cyberbullying-team-project-web/src/hooks/useInfoGraphic.ts:269-283 | distinct (gender, tier) looks get distinct assets |
| Infographic.ResetInfographic | cyberbullying-team-project-web/src/hooks/useInfoGraphic.ts:289-297 | reset leaves no icons, count 0, step 0, not animating, captions hidden |
| Infographic.HandleStudentCountChange | cyberbullying-team-project-web/src/hooks/useInfoGraphic.ts:58-63 | the count becomes the given value and nothing else in the view changes |
| Infographic.HandleInputChange | cyberbullying-team-project-web/src/components/infographic/Infographic.tsx:58-61 | only the count changes; a non-numeric input becomes 0, a number is taken as is |
| Infographic.BulliedCount | cyberbullying-team-project-web/src/hooks/useInfoGraphic.ts:114 | the victim count is the least b with 10b ≥ 3·count, i.e. `ceil(0.3·count)` |
| Infographic.NumGirls | cyberbullying-team-project-web/src/hooks/useInfoGraphic.ts:115 | the girl quota is the nearest integer to 0.6·b, never a tie, and at most b |
| Infographic.NumBoys | cyberbullying-team-project-web/src/hooks/useInfoGraphic.ts:116 | girls + boys = the victim count |
| Infographic.QuotaBounds | cyberbullying-team-project-web/src/hooks/useInfoGraphic.ts:114-116 | for 10..200 students: 3..60 victims, at least 2 girls and 1 boy, quotas summing to the victim count |
| Infographic.QuotaExamples | cyberbullying-team-project-web/src/hooks/useInfoGraphic.ts:114-116 | 10 students give 3/2/1; 200 give 60/36/24 |
| Infographic.IndicesOf | cyberbullying-team-project-web/src/hooks/useInfoGraphic.ts:119-128 | the collected indices are exactly those of the given gender, distinct and in range |
| Infographic.ShuffledIndicesOf | cyberbullying-team-project-web/src/hooks/useInfoGraphic.ts:131-132 | a shuffled index list keeps its gender and its distinctness |
| Infographic.TakeOfGender | cyberbullying-team-project-web/src/hooks/useInfoGraphic.ts:135-136 | takes min(quota, available) distinct indices, all of that gender, with no fallback when too few |
| Infographic.SelectVictims | cyberbullying-team-project-web/src/hooks/useInfoGraphic.ts:119-140 | girls only girls, boys only boys, each at most its quota; the reveal order is a permutation of both, distinct, in range, at most `ceil(0.3·count)` |
| Infographic.DisjointGendersDistinct | cyberbullying-team-project-web/src/hooks/useInfoGraphic.ts:137 | joining girl and boy indices never repeats an index |
| Infographic.Paint | cyberbullying-team-project-web/src/hooks/useInfoGraphic.ts:146-173 | painting a list changes the tier of exactly the listed icons and nothing else |
| Infographic.EmphasisTargets | cyberbullying-team-project-web/src/hooks/useInfoGraphic.ts:185-187 | exactly the victims that are orange girls |
| Infographic.Emphasise | cyberbullying-team-project-web/src/hooks/useInfoGraphic.ts:185-197 | tiers, ids and genders kept; an icon ends highlighted iff it was, or is an orange victim girl |
| Infographic.ClearHighlights | cyberbullying-team-project-web/src/hooks/useInfoGraphic.ts:202-207 | no icon is highlighted afterwards; tiers, ids and genders kept |
| Infographic.DiscloseCount | cyberbullying-team-project-web/src/hooks/useInfoGraphic.ts:219 | 1 for fewer than 3 victims, otherwise the nearest integer to n/5 (never a tie) |
| Infographic.OrangeVictims | cyberbullying-team-project-web/src/hooks/useInfoGraphic.ts:216 | only orange victims, distinct when the victims are; all of them when every victim is orange |
| Infographic.OrangeVictimsReadsTiers | cyberbullying-team-project-web/src/hooks/useInfoGraphic.ts:216 | the filter depends on the tiers alone |
| Infographic.ChooseDisclosed | cyberbullying-team-project-web/src/hooks/useInfoGraphic.ts:216-220 | `min(max(1, round(n/5)), n)` distinct orange victims |
| Infographic.Stage1Effect | cyberbullying-team-project-web/src/hooks/useInfoGraphic.ts:146-173 | stage one makes exactly the victims orange; every other icon, and every id and gender, unchanged |
| Infographic.Stage2Effect | cyberbullying-team-project-web/src/hooks/useInfoGraphic.ts:185-207 | stage two highlights exactly the victim girls; afterwards nothing is highlighted and tiers are as after stage one |
| Infographic.ClearedVictimsOrange | cyberbullying-team-project-web/src/hooks/useInfoGraphic.ts:216 | before stage three every victim is orange |
| Infographic.ChosenFacts | cyberbullying-team-project-web/src/hooks/useInfoGraphic.ts:216-220 | stage three discloses `min(max(1, round(n/5)), n)` distinct victims |
| Infographic.Stage3Effect | cyberbullying-team-project-web/src/hooks/useInfoGraphic.ts:216-249 | disclosed victims maroon, other victims orange, everyone else normal, nobody highlighted; no icon goes straight from normal to maroon |
| Infographic.NextAdvances | cyberbullying-team-project-web/src/hooks/useInfoGraphic.ts:168-259 | one step keeps step counter and phase in agreement, never lowers the step, never exceeds 5, and makes progress |
| Infographic.Next | cyberbullying-team-project-web/src/hooks/useInfoGraphic.ts:142-259 | one pause keeps the count, captions flag and shuffle input; a finished run stays put and only a finished run does |
| Infographic.Execute | cyberbullying-team-project-web/src/hooks/useInfoGraphic.ts:112-260 | the sequencer always finishes, at step 5 and no longer animating |
| Infographic.Trace | cyberbullying-team-project-web/src/hooks/useInfoGraphic.ts:168-259 | the published step counter stays within 0..5 and never decreases over a run |
| Infographic.FlaggingStep | cyberbullying-team-project-web/src/hooks/useInfoGraphic.ts:146-173 | a flagging step keeps the run invariant, ids and genders, and creates no maroon icon |
| Infographic.ClearingStep | cyberbullying-team-project-web/src/hooks/useInfoGraphic.ts:199-220 | the clearing step keeps the invariant, ids and genders, and creates no maroon icon |
| Infographic.DiscloseOne | cyberbullying-team-project-web/src/hooks/useInfoGraphic.ts:223-249 | one disclosure keeps the invariant; every maroon icon is a disclosed victim |
| Infographic.DisclosingStep | cyberbullying-team-project-web/src/hooks/useInfoGraphic.ts:223-253 | a disclosing step keeps the invariant; every maroon icon is a disclosed victim |
| Infographic.NextKeepsInv | cyberbullying-team-project-web/src/hooks/useInfoGraphic.ts:146-259 | every step keeps the run invariant, every id and gender; maroon only on disclosed victims |
| Infographic.ExecuteKeepsInv | cyberbullying-team-project-web/src/hooks/useInfoGraphic.ts:146-259 | the invariant holds at the end of a run |
| Infographic.AnimationOutcome | cyberbullying-team-project-web/src/hooks/useInfoGraphic.ts:112-260 | a run ends at step 5, not animating, nobody highlighted, with exactly the stage-three picture |
| Infographic.NewIcons | cyberbullying-team-project-web/src/hooks/useInfoGraphic.ts:44-51 | `count` icons, all normal and unhighlighted, distinct ids, the drawn genders |
| Infographic.GenerateIcons | cyberbullying-team-project-web/src/hooks/useInfoGraphic.ts:80-104 | rejected iff NaN or outside 10..200; otherwise `count` fresh icons with distinct ids, step 0, animating, captions shown, at most `ceil(0.3·count)` distinct in-range victims |
| Infographic.GeneratedRunCompletes | cyberbullying-team-project-web/src/hooks/useInfoGraphic.ts:80-260 | a started run ends at step 5 with nothing highlighted and every non-normal icon a sampled victim |
| Infographic.HandleSubmit | cyberbullying-team-project-web/src/components/infographic/Infographic.tsx:67-76 | ignored iff animating; alerts iff idle with a count outside 10..200; otherwise exactly one `generateIcons` on the count |
| Infographic.NonNumericInputRejected | cyberbullying-team-project-web/src/components/infographic/Infographic.tsx:58-73 | non-numeric input becomes 0 and the submit guard rejects it |
| Infographic.ResetThenSubmitAlerts | cyberbullying-team-project-web/src/components/infographic/Infographic.tsx:67-76 | after a reset the button is enabled and submitting alerts |
| Infographic.ShownCaptions | cyberbullying-team-project-web/src/components/infographic/Infographic.tsx:370-388 | steps 1..5 show exactly their own caption; any other step shows none |
| Infographic.CaptionClass | cyberbullying-team-project-web/src/components/infographic/Infographic.tsx:370-388 | a caption is hidden exactly when it is not the current step's, and otherwise shows one of the three colours |
| Infographic.CaptionColours | cyberbullying-team-project-web/src/components/infographic/Infographic.tsx:370-388 | the shown caption is orange for steps 1–2, maroon for 3, blue for 4–5 |
| QuizGrading.Strip | cyberbullying-team-project-web/src/api/post_result_lambda_function.py:62-64 | `strip()` removes whitespace only from both ends: the result is an infix with whitespace around it and none at its edges |
| QuizGrading.StripIdempotent | cyberbullying-team-project-web/src/api/post_result_lambda_function.py:62-64 | stripping twice is stripping once |
| QuizGrading.CorrectnessRule | cyberbullying-team-project-web/src/api/post_result_lambda_function.py:62-68 | exactly one of like/dislike is correct for any status; like is correct iff the stripped status is `positive`; any other response is incorrect |
| QuizGrading.IsCorrect | cyberbullying-team-project-web/src/api/post_result_lambda_function.py:62-68 | only a like or a dislike can be correct, and it is correct exactly when "it is a like" agrees with "the stripped status is `positive`" |
| QuizGrading.LastIndex | cyberbullying-team-project-web/src/api/post_result_lambda_function.py:55-59 | the matching loop keeps the last fetched row with the id; none iff no row has it |
| QuizGrading.FirstCrash | cyberbullying-team-project-web/src/api/post_result_lambda_function.py:54-64 | every earlier entry gets through the grading loop; this one (if any) is a like or dislike with no matching row |
| QuizGrading.FirstUnstatused | cyberbullying-team-project-web/src/api/post_result_lambda_function.py:54-59 | every earlier entry carries a `comment_status` after the grading loop; this one (if any) carries none |
| QuizGrading.GradeOne | cyberbullying-team-project-web/src/api/post_result_lambda_function.py:62-68 | a graded answer keeps the answer's comment id and the stored status, and is marked correct exactly when the like/dislike rule accepts the response for that status |
| QuizGrading.MatchOne | cyberbullying-team-project-web/src/api/post_result_lambda_function.py:54-68 | one iteration raises exactly for a like or dislike with no row, reporting its id; otherwise the entry keeps the last row's status (or the status the client sent) and is correct only if a row matched and the rule accepts |
| QuizGrading.MatchLoop | cyberbullying-team-project-web/src/api/post_result_lambda_function.py:54-68 | the loop raises iff some entry crashes, with the id of the first such entry; otherwise one result per entry, each the single iteration's |
| QuizGrading.ReadStatuses | cyberbullying-team-project-web/src/api/post_result_lambda_function.py:99-100 | the reads of `comment_status` raise iff some entry has none, with the id of the first such entry; otherwise every entry keeps its id, status and verdict |
| QuizGrading.GradeAll | cyberbullying-team-project-web/src/api/post_result_lambda_function.py:54-68 | succeeds iff every entry has a row or is a non-vote with a client-sent status; otherwise fails on the first unmatched like/dislike if there is one, else on the first entry without a status; on success each entry is graded against the status it carries |
| QuizGrading.UnmatchedExamples | cyberbullying-team-project-web/src/api/post_result_lambda_function.py:54-68 | an unmatched skip fails only at the tally loop; a later unmatched like fails the grading loop first; a skip with a client-sent status is graded incorrect under that status |
| QuizGrading.RightPlusWrong | cyberbullying-team-project-web/src/api/post_result_lambda_function.py:86-89 | right and wrong answers together are all answers |
| QuizGrading.Mistakes | cyberbullying-team-project-web/src/api/post_result_lambda_function.py:51-68 | the ids of the incorrect answers in submission order, one per incorrect answer |
| QuizGrading.Score | cyberbullying-team-project-web/src/api/post_result_lambda_function.py:92-93 | never above 10·answered, equal to it iff all are correct, and 0 once fewer than a third are correct |
| QuizGrading.ScoreMonotone | cyberbullying-team-project-web/src/api/post_result_lambda_function.py:92-93 | one more correct answer never lowers the score |
| QuizGrading.WrongAtMostAll | cyberbullying-team-project-web/src/api/post_result_lambda_function.py:99-108 | per status, incorrect never exceeds total |
| QuizGrading.KeyIndex | cyberbullying-team-project-web/src/api/post_result_lambda_function.py:103 | finds the tally for a status; none iff no tally has it |
| QuizGrading.Record | cyberbullying-team-project-web/src/api/post_result_lambda_function.py:99-108 | after one iteration the answer's status has a tally, every existing key stays in place, and at most one key is added |
| QuizGrading.RecordKeysDistinct | cyberbullying-team-project-web/src/api/post_result_lambda_function.py:103-108 | one loop iteration never duplicates a key |
| QuizGrading.RecordCounts | cyberbullying-team-project-web/src/api/post_result_lambda_function.py:103-108 | one loop iteration keeps each tally equal to the counts of its status |
| QuizGrading.RecordCovers | cyberbullying-team-project-web/src/api/post_result_lambda_function.py:103-108 | every seen status keeps a tally |
| QuizGrading.RecordOrdered | cyberbullying-team-project-web/src/api/post_result_lambda_function.py:103-104 | keys stay in order of first appearance |
| QuizGrading.RecordSums | cyberbullying-team-project-web/src/api/post_result_lambda_function.py:106-108 | totals keep summing to the answers, incorrect counts to the wrong answers |
| QuizGrading.Tallies | cyberbullying-team-project-web/src/api/post_result_lambda_function.py:97-108 | one tally per distinct (unstripped) status in first-seen order, each with its total and incorrect count; totals sum to answered, incorrect counts to answered − correct |
| QuizGrading.TallyBounds | cyberbullying-team-project-web/src/api/post_result_lambda_function.py:97-108 | each tally counts at least one answer and incorrect ≤ total |
| QuizGrading.RatioChain | cyberbullying-team-project-web/src/api/post_result_lambda_function.py:118-119 | the cross-multiplied ratio comparison chains like the division it replaces |
| QuizGrading.Scan | cyberbullying-team-project-web/src/api/post_result_lambda_function.py:111-121 | once a status is chosen the loop never returns to none; a newly chosen status is one of the remaining ones and has a wrong answer |
| QuizGrading.ScanCorrect | cyberbullying-team-project-web/src/api/post_result_lambda_function.py:111-121 | the selection loop keeps its invariant to the end |
| QuizGrading.WeakestIndex | cyberbullying-team-project-web/src/api/post_result_lambda_function.py:111-121 | none iff no status has a wrong answer; otherwise one with a wrong answer and a maximal wrong/total ratio, strictly above every earlier candidate, so the first wins ties |
| QuizGrading.WeakestNoneIffAllRight | cyberbullying-team-project-web/src/api/post_result_lambda_function.py:97-124 | there is no weakest status iff every answer was correct |
| QuizGrading.Message | cyberbullying-team-project-web/src/api/post_result_lambda_function.py:123-182 | the message is never empty and starts with the congratulation's `C` exactly when there is no weak status |
| QuizGrading.MessageKinds | cyberbullying-team-project-web/src/api/post_result_lambda_function.py:124-182 | none gives the congratulation; a named category gives its own growth-area text; any other status gives the generic text embedding its name |
| QuizGrading.CategoryInjective | cyberbullying-team-project-web/src/api/post_result_lambda_function.py:130-177 | the eight named categories have eight distinct advice texts |
| QuizGrading.MessageDeterminesStatus | cyberbullying-team-project-web/src/api/post_result_lambda_function.py:124-182 | different weakest statuses never give the same message |
| QuizGrading.RelabelMistakes | cyberbullying-team-project-web/src/api/post_result_lambda_function.py:79-82 | texts kept; a status shows as `positive` iff it is `positive`, otherwise `bullying` |
| QuizGrading.RelabelIdempotent | cyberbullying-team-project-web/src/api/post_result_lambda_function.py:79-82 | relabelling twice is relabelling once |
| QuizGrading.Summarise | cyberbullying-team-project-web/src/api/post_result_lambda_function.py:70-182 | answered and correct counts, wrong = mistakes; the score is `max(10·correct − 5·wrong, 0)`; the weak status is the tallies' weakest, none iff all correct; the summary is its message; the mistake rows are relabelled when there are mistakes and empty otherwise |
| QuizGrading.Grade | cyberbullying-team-project-web/src/api/post_result_lambda_function.py:40-182 | an empty submission fails (first query's empty `IN ()`); otherwise it succeeds iff every entry is ready, fails with the grading error, and on success reports the summary of the graded submission |
| CommentBatching.SplitIsPartition | cyberbullying-team-project-web/src/api/get_comments_lambda_function.py:40-41 | every row lands in exactly one group; one group is all positive, the other has none; each group keeps the rows' order (a subsequence at increasing positions) |
| CommentBatching.NumBlocks | cyberbullying-team-project-web/src/api/get_comments_lambda_function.py:47 | blocks use at most the available rows, and on exit fewer than 4 positives or fewer than 6 others remain |
| CommentBatching.NumBlocksClosedForm | cyberbullying-team-project-web/src/api/get_comments_lambda_function.py:47 | the block count is `min(#positive div 4, #other div 6)` |
| CommentBatching.BuildBlocksPermutes | cyberbullying-team-project-web/src/api/get_comments_lambda_function.py:44-65 | the blocks and leftovers rearrange the two groups |
| CommentBatching.BlocksLeaveRemainder | cyberbullying-team-project-web/src/api/get_comments_lambda_function.py:64-65 | after the blocks come the leftover positives, then the leftover others |
| CommentBatching.BlockBalanced | cyberbullying-team-project-web/src/api/get_comments_lambda_function.py:47-61 | every emitted block has exactly 4 positive (and so 6 other) comments |
| CommentBatching.BalancedOrder | cyberbullying-team-project-web/src/api/get_comments_lambda_function.py:37-65 | the balanced list is a permutation of the fetched rows |
| CommentBatching.BalancedOrderBlocks | cyberbullying-team-project-web/src/api/get_comments_lambda_function.py:37-65 | the balanced list starts with `min(#positive div 4, #other div 6)` blocks of 4 positive comments each |
| CommentBatching.GetComments | cyberbullying-team-project-web/src/api/get_comments_lambda_function.py:71-87 | the response as written: the shuffled `results` in order, each entry id, text and fake name, no status |
| CommentBatching.ResponseIgnoresBlocks | cyberbullying-team-project-web/src/api/get_comments_lambda_function.py:81-86 | a table the balanced list starts with 4 positives in the first 10, whose response starts with 10 non-positive comments |
| CommentBatching.GetBalancedComments | cyberbullying-team-project-web/src/api/get_comments_lambda_function.py:44-86 | the response built from the balanced list, entry by entry |
| CommentBatching.BalancedResponse | cyberbullying-team-project-web/src/api/get_comments_lambda_function.py:44-86 | the corrected response serves every row once, in blocks of 4 positive comments |
| Severity.ZoneOf | ml-cyberbullying-detector-api/src/app.py:147-166 | Red iff custom flag, tox ≥ 0.7 or cb ≥ 0.7; Green iff no flag and both scores below 0.2 |
| Severity.IsBullying | ml-cyberbullying-detector-api/src/app.py:144 | bullying iff the zone is Red, or Orange through toxicity ≥ 0.4 or a classifier score ≥ 0.5 |
| Severity.ZoneIsWorstSignal | ml-cyberbullying-detector-api/src/app.py:147-166 | the first-match chain equals the most severe of the flag's, the toxicity's and the classifier's bands |
| Severity.ZonesPartition | ml-cyberbullying-detector-api/src/app.py:147-166 | the custom flag alone forces Red; Orange and Yellow are exactly their bands under the earlier tests |
| Severity.BullyingIsRedOrOrange | ml-cyberbullying-detector-api/src/app.py:144-166 | bullying implies Red or Orange; Yellow and Green imply not bullying |
| Severity.OrangeWithoutBullying | ml-cyberbullying-detector-api/src/app.py:144-156 | Orange does not imply bullying: cb = 0.45, tox = 0, no flag |
| Severity.ZoneMonotone | ml-cyberbullying-detector-api/src/app.py:144-166 | raising a score or setting the flag never lowers the zone or clears the bullying verdict |
| Severity.LabelsDistinguishZones | ml-cyberbullying-detector-api/src/app.py:148-164 | the database zone names tell the zones apart |
| Severity.AnalyzeApi | ml-cyberbullying-detector-api/src/app.py:139-188 | the zone's labels; the paraphrase for bullying text, the string "None" otherwise |
| Severity.AnalyzeUi | ml-cyberbullying-detector-api/src/app.py:72-107 | the verdict as "True"/"False", a suggestion iff bullying, the zone's labels |
| Severity.AnalyzePathsAgree | ml-cyberbullying-detector-api/src/app.py:80-103 | the Gradio handler and the endpoint apply the same thresholds and labels |
| ToxicityRules.Lower | ml-cyberbullying-detector-api/src/toxicity_model.py:65 | lower-casing keeps the length, maps each letter, and leaves no capital |
| ToxicityRules.Patterns | ml-cyberbullying-detector-api/src/toxicity_model.py:68-70 | the base itself, then "m base" for every modifier m in order |
| ToxicityRules.Search | ml-cyberbullying-detector-api/src/toxicity_model.py:72 | found iff the pattern occurs literally with a word boundary on both sides |
| ToxicityRules.IsCustomToxic | ml-cyberbullying-detector-api/src/toxicity_model.py:54-74 | true iff some pattern of some lower-cased phrase occurs as a whole word in the lower-cased text; no phrases give false |
| ToxicityRules.CaseInsensitive | ml-cyberbullying-detector-api/src/toxicity_model.py:65 | the verdict does not depend on the text's letter case |
| ToxicityRules.NoMatchInsideWord | ml-cyberbullying-detector-api/src/toxicity_model.py:72 | a phrase embedded inside a longer word does not match |
| ToxicityRules.UppercaseModifierNeverMatches | ml-cyberbullying-detector-api/src/toxicity_model.py:65-72 | a modifier with a capital letter can never match the lower-cased text |
| ToxicityRules.IsPersonOrPronoun | ml-cyberbullying-detector-api/src/toxicity_model.py:172-192 | true iff some token is a non-first-person pronoun, a PERSON entity, or starts with `@`; no tokens give false |
| ToxicityRules.PronounExamples | ml-cyberbullying-detector-api/src/toxicity_model.py:170-187 | first-person pronouns in any case never count; "you" does |
| ToxicityRules.CheckSentiment | ml-cyberbullying-detector-api/src/toxicity_model.py:86-89 | the model's score for a NEGATIVE label, 0 for any other; a non-negative score bounds the result from above and below by itself and 0; a non-zero result comes only from a NEGATIVE label |

## Left out

- Database access is not modelled: connections, queries, commits and `log_to_rds`. The fetched rows are inputs, and so are the rows fetched for the mistakes.
- The `analyze` handler calls `log_to_rds` with eight arguments for ten parameters (app.py:106), so it would raise before returning. That call is database I/O and is left out; the handler's decision logic is modelled as `AnalyzeUi`.
- The machine-learning calls are inputs: Detoxify, the sentiment pipeline, the RoBERTa classifier, spaCy and the paraphrasers (Gemini and the local BART model). These are foreign libraries.
- `paraphrase_text` has a `return None` after a commented-out `except`, which is unreachable. The paraphrase is an input function.
- The rounding of the toxicity score to two decimals happens before the thresholds, so `tox` is that rounded value. Floating-point rounding is not modelled.
- `percent` and the database-based `comparison` in the result lambda are not modelled. `percent` is a float division by the number answered; an empty submission never reaches it, since the first query with an empty `IN ()` list fails first (`EmptySubmission`).
- The `NaN` ratio comparisons cannot arise, because every tally counts at least one answer (`TallyBounds`).
- Python's `str.lower` is modelled on ASCII letters only. The regular-expression word-character class is a parameter. Both are Unicode-wide in the source.
- Timers, audio playback, React state batching and the particle animation are not modelled. The sequencer is a step machine with one step per `await sleep`.
- Randomness (`Math.random` comparator sorts, `random.shuffle`, coin flips) is modelled as supplied picks and a gender function, not as a distribution. The comparator sort is taken to produce some permutation.
- The quiz pages (`Quiz.tsx`, `SocialMediaQuestion.tsx`), styling and layout are UI glue and are not modelled.
- FastAPI, Gradio, CORS and uvicorn set-up are not modelled.
- Severity.Labels: the zone texts are data and carry no contract of their own. `LabelsDistinguishZones` and `AnalyzePathsAgree` state what matters about them.
- ToxicityRules.CheckSentiment: the source returns the integer 0 for a non-negative label; the model returns the real 0.0.
- The JSON data file of custom phrases and modifiers is an input: `phrases` and `modifiers`.

## Findings

| source | as written | input that shows it | evidently intended | confidence | as-written member | corrected member |
|---|---|---|---|---|---|---|
| cyberbullying-team-project-web/src/api/get_comments_lambda_function.py:81-86 | the response maps `results`, the shuffled table, so the balanced `shuffled_comments` built at lines 44-65 is never served | 12 non-positive rows followed by 8 positive ones, with the identity shuffle: the response starts with 10 non-positive comments, while the balanced list's first block holds 4 positive ones | serve `shuffled_comments`, so every block of ten carries 4 positive comments | medium, not executed | CommentBatching.GetComments, CommentBatching.ResponseIgnoresBlocks | CommentBatching.GetBalancedComments, CommentBatching.BalancedResponse |
