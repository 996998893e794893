# Adaptive interview practice: a verified model of the two views

The application is a small Django site for practising interview questions.
Questions belong to skills, and a user records a self-assessed score for
each attempt. Two views carry its logic:

- **`home`** lists up to 25 questions in key order, optionally filtered by a
  `skill` query parameter, and offers the first one as the start of a session.
  It reads the user's 50 most recent attempts and reports:
  - how many attempts there are and their mean score;
  - the best and the weakest skill by mean score;
  - a recommended question: the lowest-key question of the weakest skill.
- **`question_detail`** shows one question together with the next question
  of its skill. That is the next higher key, wrapping round to the lowest.
  A POST either asks an external feedback service about the user's notes,
  or records the posted score as a new Attempt and moves on.

The model keeps the decisions and leaves out the web framework:

- A table is a sequence of records in primary-key order.
- The attempt table is an object (`Models.AttemptStore`) that the session
  view appends to.
- Each Python builtin the views depend on is written out: `str.strip()`,
  `int()`, slicing, `sum`/`len`, and `max`/`min` over an insertion-ordered
  dict.

Modules:

- `Basics`: `Option`, the slice `s[:n]`, and sums and exact means.
- `PyText`: `str.strip()`, a decimal `int()` and `str()` for integers.
- `Models`: the three tables, `__str__`, key lookups and the attempt table
  object.
- `Adaptive`: the summary of the recent attempts.
  - The grouping by skill is the loop method `GroupBySkill`, proved equal to
    the function `Group`; `ComputeStats` calls it and is proved equal to the
    function `Summarize`.
  - The best and weakest skill come from `ArgMax` and `ArgMin`.
  - The recommendation is `Recommend`.
- `Home`: the `home` view. It covers the `skill` parameter, the question
  list and the recent-attempt window.
- `Session`: the `question_detail` view.
  - `Step` says what a request does.
  - `QuestionDetail` runs it against the attempt table.

A `skill` parameter that is not an integer makes
`Skill.objects.filter(pk=...)` raise `ValueError`, and the request fails;
`Home.ActiveSkill` yields `InvalidId` and `Home.HomeView` yields
`ServerError`.

## Model

| member | source | states |
|---|---|---|
| Models.SkillLabel | core/models.py:8-9 | a skill prints as exactly its name |
| Models.QuestionLabel | core/models.py:16-17 | a question prints as a prefix of its text of length min(50, length of text), and as the whole text when that has at most 50 characters |
| Models.FindSkill | core/views.py:27 | lookup by key: a result is a skill of the table with that key; no result means no skill has that key |
| Models.FindQuestion | core/views.py:117 | lookup by key: a result is a question of the table with that key; no result (the 404 case) means no question has that key |
| Models.AttemptStore.Create | core/views.py:188 | appends exactly one row with the next key, the user, the question, the score and the creation time; keeps keys ascending, creation times non-decreasing and every score present |
| Basics.Take | core/views.py:32 | `s[:n]`: a prefix of `s` of length n, or all of `s` when it is shorter |
| Basics.MeanBounds | core/views.py:62 | an average lies between any lower and upper bound of the scores |
| PyText.Strip | core/views.py:130 | `strip()`: the result is the text between the leading and the trailing whitespace; it is empty exactly when the text is all whitespace; otherwise it begins and ends with a non-whitespace character |
| PyText.StripUnpadded | core/views.py:130 | text that neither begins nor ends with whitespace is unchanged by `strip()` |
| PyText.StripPadded | core/views.py:130 | `strip()` of text padded with whitespace on both sides gives the unpadded text back |
| PyText.ParseIntToString | core/views.py:171-175 | `int(str(n)) == n` for every integer n |
| PyText.ParseIntNeedsDigit | core/views.py:171-175 | text with no decimal digit (empty, blank, words) does not parse |
| PyText.ParseIntPadded | core/views.py:171-175 | `int()` ignores whitespace around a number, ASCII or not, as long as it holds no information separator: the padded text reads as the bare sign and digits |
| PyText.SeparatorPadding | core/views.py:171-175 | `strip()` removes a leading U+001C, but `int()` refuses the same text |
| Adaptive.JoinRow | core/views.py:67-69 | an attempt's score is kept; its skill, when known, is the skill of its question; with foreign keys that resolve, the skill is always known |
| Adaptive.Join | core/views.py:66-67 | one joined row per attempt of the window, in window order |
| Adaptive.JoinComplete | core/models.py:13-22 | with non-null foreign keys and the non-null score column, every joined row has a score and a skill, so the `is not None` filters and the `if not skill` skip drop nothing |
| Adaptive.Scored | core/views.py:59-60 | the scored attempts: none exactly when no attempt has a score; all of them when every attempt has one |
| Adaptive.ScoredContents | core/views.py:59-60 | the scored entries are exactly the rows with a score, in window order, each with its score and skill; their number is the count of scored rows and their scores add up to the sum of the scores present |
| Adaptive.ScoresOf | core/views.py:65-71 | a skill's scores are empty exactly when no scored attempt has that skill |
| Adaptive.Group | core/views.py:65-71 | the `by_skill` dict: every bucket is non-empty and no skill has two buckets |
| Adaptive.GroupBucket | core/views.py:65-71 | a skill has a bucket exactly when some scored attempt has that skill, and the bucket holds exactly that skill's scores, newest first |
| Adaptive.InsertBucket | core/views.py:70-71 | one `setdefault(...).append(...)`: a skill has a bucket afterwards exactly when it had one or is the skill inserted, and only the inserted skill's bucket gains the score, at its end |
| Adaptive.GroupCovers | core/views.py:66-71 | every scored attempt with a known skill lands in its skill's bucket |
| Adaptive.GroupKeyedByFirst | core/views.py:70 | each bucket's key is the skill object of the first attempt met with that skill |
| Adaptive.GroupOrder | core/views.py:70 | buckets are in the order their skills are first met (dict insertion order) |
| Adaptive.GroupSizes | core/views.py:65-71 | bucket sizes add up to the number of scored attempts with a known skill |
| Adaptive.BucketSizesAddUp | core/views.py:65-71 | with every skill known, bucket sizes add up to the number of scored attempts |
| Adaptive.Means | core/views.py:75-78 | one mean per bucket: the bucket's sum over its size |
| Adaptive.EntryBucket | core/views.py:75-78 | every scored attempt's skill has a bucket whose mean is that skill's mean |
| Adaptive.BucketMean | core/views.py:75-78 | each bucket's mean is its skill's mean over all scored attempts of that skill |
| Adaptive.ArgMax | core/views.py:80 | `max` over the means: the position of a largest mean, with every earlier mean strictly smaller (the first maximum wins) |
| Adaptive.ArgMin | core/views.py:81 | `min` over the means: the position of a smallest mean, with every earlier mean strictly larger (the first minimum wins) |
| Adaptive.Summarize | core/views.py:53-83 | total is the window size; the average is absent exactly when no attempt is scored, and otherwise is the sum of the scores present over the number of scored attempts (both counted independently of the filter); best and weakest are both present or both absent, and present only with an average |
| Adaptive.SkillsExistWhenScored | core/views.py:58-83 | when every skill is known, best and weakest skill exist exactly when some attempt is scored |
| Adaptive.BestSkill | core/views.py:80-82 | the best skill's mean is at least every skill's mean, and strictly above that of every skill met before it (ties go to the newest skill) |
| Adaptive.WeakestSkill | core/views.py:81-83 | the weakest skill's mean is at most every skill's mean, and strictly below that of every skill met before it (ties go to the newest skill) |
| Adaptive.SingleSkill | core/views.py:80-83 | when all scored attempts share one skill, best and weakest are that same skill |
| Adaptive.GroupBySkill | core/views.py:65-71 | the loop that fills `by_skill` ends with exactly the grouping `Group` |
| Adaptive.ComputeStats | core/views.py:53-83 | the statistics block, with `by_skill` filled by the loop, computes exactly `Summarize` |
| Adaptive.FirstSkillNamed | core/views.py:89 | the first skill with the given name: absent exactly when none has that name, otherwise the one with the lowest key |
| Adaptive.FirstQuestionOf | core/views.py:91-93 | absent exactly when the skill has no question, otherwise the lowest-key question of that skill |
| Adaptive.Recommend | core/views.py:85-93 | nothing is recommended without a non-empty weakest-skill name; otherwise the skill is the lowest-key skill of that name, if any, and the question is that skill's lowest-key question, if any |
| Adaptive.WeakestExample | core/views.py:58-83 | scores 90 for skill A and 60 for skill B give average 75, best A and weakest B |
| Home.ActiveSkill | core/views.py:22-29 | the parameter fails exactly when it is non-empty and not an integer; a filter is a skill of the table whose key is the parameter's value; no filter means the parameter is absent, empty or names no skill |
| Home.SkillLinkFilters | core/views.py:26-29 | the parameter `str(skill.pk)` filters by exactly that skill |
| Home.OfSkill | core/views.py:29 | the questions of one skill, all of them and only them |
| Home.OfSkillInPkOrder | core/views.py:25-29 | filtering a key-ordered table by skill keeps key order |
| Home.SelectQuestionsSpec | core/views.py:25-32 | at most 25 questions of the table, in key order, all passing the filter, and a passing question is left out only when 25 lower-key ones are listed |
| Home.FirstOf | core/views.py:35 | the first question is absent exactly when the list is empty, else the list's head |
| Home.OfUser | core/views.py:48 | the user's attempts, all of them and only them |
| Home.OfUserChronological | core/views.py:47-50 | a user's attempts keep the table's chronological order |
| Home.RecentWindow | core/views.py:47-51 | min(50, n) of the user's n attempts, newest first |
| Home.RecentWindowOwn | core/views.py:48 | every attempt in the window is one of the user's |
| Home.RecentWindowNewestFirst | core/views.py:50 | along the window, creation time never increases |
| Home.RecentWindowNewest | core/views.py:47-51 | an attempt of the user is left out only when the window is full, and it is no newer than every attempt kept |
| Home.HomeView | core/views.py:16-110 | a server error exactly for a non-integer parameter; otherwise at most 25 questions whose head is the first question; the total is the window size (at most 50); with a filter, every listed question has its skill; without one, the list is the first 25 questions |
| Home.HomeSummaryComplete | core/views.py:53-83 | with the foreign keys and scores the schema guarantees, the average and the weakest skill exist exactly when the user has an attempt |
| Home.HomeRecommendation | core/views.py:85-93 | no weakest skill gives no suggestion; the suggested skill has the weakest skill's name and the lowest key among skills of that name; the suggested question is that skill's lowest-key question |
| Session.OrEmpty | core/views.py:130 | `field or ""`: the posted text, or empty when absent |
| Session.DefaultActionIsNext | core/views.py:126 | a missing or empty action means "next" |
| Session.ParseScoreValid | core/views.py:171-175 | a score posted as `str(n)` is read as n |
| Session.ParseScoreInvalid | core/views.py:171-175 | a missing score, or one with no digit, is read as no score |
| Session.AiFeedback | core/views.py:130-166 | an unconfigured service gives the "not configured" message whatever the notes; configured with blank notes gives the "type your answer" message |
| Session.AiGatewayConsultedOnlyWhenReady | core/views.py:133-139 | when unconfigured or with blank notes, the feedback is the same whatever the service would answer |
| Session.AiGatewayPassThrough | core/views.py:140-166 | the service gets the question text, skill name, difficulty and stripped notes; its reply is shown unchanged; a failure is shown as the fixed prefix followed by the cause |
| Session.After | core/views.py:121 | the questions with a key above the current one, all of them and only them |
| Session.NextQuestion | core/views.py:120-121 | the next question always exists, is in the table and has the current question's skill |
| Session.NextQuestionSpec | core/views.py:120-121 | the next question is the lowest-key question of the skill above the current key; when there is none it is the skill's lowest-key question, and no question of the skill has a higher key than the current one |
| Session.NextIsSelf | core/views.py:191-193 | the next question is the current one exactly when it is the only question of its skill |
| Session.NextWrapsExample | core/views.py:120-121 | in a skill with questions 1, 2, 3: after 3 comes 1, after 1 comes 2 |
| Session.Step | core/views.py:117 | an unknown question key gives the not-found response and records nothing |
| Session.RecordsOnlyOnAdvance | core/views.py:124-188 | an Attempt is recorded only for a known question, on a POST whose action is not `ai` |
| Session.NonPostRendersPage | core/views.py:195-203 | a request that is not a POST records nothing and shows the page without feedback |
| Session.AiBranch | core/views.py:128-139 | the `ai` action records nothing and shows the same question again; the "not configured" message is chosen before the blank-notes check |
| Session.AdvanceBranch | core/views.py:168-193 | any other action records the parsed score, if any; it redirects home exactly when the question is alone in its skill, and otherwise to the next question |
| Session.QuestionDetail | core/views.py:113-203 | the view's response is that of `Step`; the attempt table gains exactly one row with the next key, the user, the question, the parsed score and the time when a score is recorded, and is otherwise unchanged |

## Left out

- The feedback service call is not modelled: the client object, the prompt text and `chat.completions.create`. It is a parameter mapping a request (question text, skill name, difficulty, notes) to a reply or a failure cause.
- The environment variable `OPENAI_API_KEY` and the optional import of the client library are not read. Both are fields of an `Env` input.
- The ORM, `get_object_or_404`, `render`, `redirect` and the templates are replaced by sequences and by response datatypes.
- The demo-user `get_or_create` fallback for anonymous visitors is left out. The user is a parameter of both views.
- The `skills` context entry of the home page is left out. It is the skills ordered by name, depends on database collation and drives no decision.
- Summarize: averages are exact rationals, whereas the application computes them in floating point. Rounding could in principle change which of two nearly equal means counts as larger.
- PyText.ParseInt: no limit on the number of digits. Python 3.11 and later refuse decimal text of more than 4300 digits with `ValueError`, so the view records no Attempt there, whereas the model reads the number.
- PyText.ParseInt: only surrounding whitespace (ASCII whitespace other than the four information separators U+001C to U+001F, and non-ASCII whitespace), an optional sign and ASCII digits are accepted. Python's `int()` also accepts underscores between digits and non-ASCII decimal digits.
- Models.AttemptStore.Create: the creation time is a parameter. The clock is required never to run backwards, so table order is creation order. Attempts with the same creation time are ordered by key.
- Session.QuestionDetail: the score is an unbounded integer. The `score` column is a bounded database integer, so for a score outside its range `Attempt.objects.create` raises, the request fails and no row is written, whereas the model appends the row.
- Session.Step: the score is recorded for a user given as a parameter; who that user is (signed in or the demo user) is not modelled.
- Sample-data seeding (core/management/commands/seed_data.py) is not part of this model.
- URL routing (core/urls.py) is not part of this model.
