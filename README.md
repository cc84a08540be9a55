# ai-teacher: a verified model of the exercise parser and the session state

ai-teacher is a Next.js English tutor. A learner fills in a setup form
(API key, name, level, goal), then chats with a language model or asks it
for multiple-choice exercises. Progress counters and an accuracy figure are
kept on the page.

The centre of this model is the exercise endpoint's parser. The model's
free-form reply is matched against four regular expressions: QUESTION, the
lettered options A) to D), CORRECT and EXPLANATION. The result is either an
exercise record or the single "Failed to parse exercise format" error. Each
pattern is modelled as a dedicated scan over the string, following ECMAScript
RegExp semantics. That includes the backtracking of `\s*` where it changes
the result, and the `lastIndex` resumption of the global options search.

Around the parser sit small state machines, each modelled as a class whose
methods update its fields:
- the exercise panel, where an exercise can be answered once;
- the chat panel, with its ten-message request window;
- the setup form and its submit check;
- the page's session, with its four counters.

Modules, one per source file plus a helper:
- `Text` (`text.dfy`): JavaScript's white space, `trim`, and blank strings.
- `Types` (`types.dfy`): the records of `types/index.ts`.
- `ExerciseRoute` (`exercise_route.dfy`): the API-key guard and the parser.
- `ExerciseTemplate` (`exercise_template.dfy`): the reply layout the prompt
  asks for, proved to parse back to the exercise it was written from. It also
  holds the stricter checks the parser does not make.
- `Exercises` (`exercises.dfy`): the exercise panel.
- `Chat` (`chat.dfy`): the conversation panel.
- `Setup` (`setup.dfy`): the setup form.
- `Page` (`page.dfy`): the session and its counters.

Outside I/O is replaced by parameters:
- the request body is a `Request` value, or none when it is not JSON;
- the upstream completion is an `UpstreamReply` value;
- the endpoint's answer to the panels is a `Response` value;
- the chat endpoint's reply is an `Option<string>`;
- clock readings are `nat` milliseconds;
- the hour is an `int`.

## Model

| member | source | states |
|---|---|---|
| ExerciseRoute.SkipWhite | app/api/exercise/route.ts:62-65 | `\s*` at full length: the run it skips is all white space, and the next character, if any, is not |
| ExerciseRoute.LazyQuestion | app/api/exercise/route.ts:62 | the lazy `(.+?)(?=\n[A-D]\))` after the marker, with `\s*` giving back characters: it matches exactly when a `\n[A-D])` lies after the first character past the marker |
| ExerciseRoute.QuestionAt | app/api/exercise/route.ts:62 | the attempt at p succeeds exactly when `QUESTION:` occurs at p and a `\n[A-D])` begins after the first character past the marker |
| ExerciseRoute.SearchQuestion | app/api/exercise/route.ts:62 | the search from i succeeds exactly when the attempt at some position at or after i does |
| ExerciseRoute.QuestionFoundIff | app/api/exercise/route.ts:62 | the question pattern matches exactly when some `QUESTION:` is followed, later, by a line break before an `[A-D])` label |
| ExerciseRoute.QuestionIsTextBeforeFirstLabel | app/api/exercise/route.ts:62 | the question group is the text after the first marker and its white space, up to the first line break that precedes a label |
| ExerciseRoute.QuestionFallbackIsBlank | app/api/exercise/route.ts:62-75 | when no label follows the white space after the marker, the search either fails or yields white space only, which `trim()` turns into the empty string |
| ExerciseRoute.SearchQuestionSkipsFailure | app/api/exercise/route.ts:62 | when the attempt at a marker fails, every later attempt fails too |
| ExerciseRoute.LazyFallback | app/api/exercise/route.ts:62 | in the give-back case the captured text is white space only |
| ExerciseRoute.OptionMatchEnd | app/api/exercise/route.ts:63 | a match starting at a label fails only when the label ends the input; when text follows the white space after the label, the match takes at least one character of it and ends at the first `\n[A-D])`, `CORRECT:` or end of input after that, and at no earlier such point; when only white space follows, it ends at the end of input |
| ExerciseRoute.OptionSpans | app/api/exercise/route.ts:63 | the global search's matches are in order, start at labels, do not overlap, and each ends where the single-match attempt at its label ends |
| ExerciseRoute.OptionSpansComplete | app/api/exercise/route.ts:63 | no match is skipped: before the first span, between consecutive spans and after the last one, no label starts a match, so every `X)` outside the spans that is not the end of input, including one in the CORRECT or EXPLANATION line, begins an option |
| ExerciseRoute.MatchOptions | app/api/exercise/route.ts:63 | `match` with the g flag returns a list exactly when some label is not the last thing in the input, and every entry starts with its `[A-D])` label |
| ExerciseRoute.OptionsFoundIff | app/api/exercise/route.ts:63 | the global search from position i finds a match exactly when some label at or after i is not the last thing in the input |
| ExerciseRoute.CleanLabelled | app/api/exercise/route.ts:76 | trimming and then stripping the `X)` label and the white space after it is trimming the text after the label |
| ExerciseRoute.CleanOption | app/api/exercise/route.ts:76 | a cleaned option has no white space at either end and is never longer than the raw match |
| ExerciseRoute.OptionsAreTrimmedSpans | app/api/exercise/route.ts:63-76 | each parsed option is the trimmed text between its label and the end of its match |
| ExerciseRoute.SearchCorrect | app/api/exercise/route.ts:64 | the CORRECT search only ever yields an upper-case A-D |
| ExerciseRoute.CorrectFoundIff | app/api/exercise/route.ts:64 | the CORRECT search succeeds exactly when `CORRECT:`, optional white space and an upper-case A-D occur at some position; a lower-case letter does not count |
| ExerciseRoute.CorrectAnswerIsFirstLetter | app/api/exercise/route.ts:64-77 | the answer index is the code of the letter at the leftmost full match minus 65 |
| ExerciseRoute.LetterIndex | app/api/exercise/route.ts:77 | `charCodeAt(0) - 65` lies in 0..3 exactly when the character is an upper-case A-D |
| ExerciseRoute.SearchCorrectSkips | app/api/exercise/route.ts:64 | the search returns the letter of the first position where the whole pattern matches |
| ExerciseRoute.ExplanationIsRest | app/api/exercise/route.ts:65-78 | the explanation is the trimmed text after the first `EXPLANATION:` up to the end of input |
| ExerciseRoute.ExplanationAbsent | app/api/exercise/route.ts:65-78 | without the marker the explanation is `""` |
| ExerciseRoute.ExplanationAtIsRest | app/api/exercise/route.ts:65-78 | whatever `\s*` gives back, the trimmed group is the trimmed rest of the input |
| ExerciseRoute.SearchExplanationNone | app/api/exercise/route.ts:65 | no marker, no match |
| ExerciseRoute.SearchExplanation | app/api/exercise/route.ts:65 | the explanation search from i succeeds exactly when the attempt at some position at or after i does |
| ExerciseRoute.ExplanationText | app/api/exercise/route.ts:78 | the explanation field is always trimmed, and is non-empty only when `EXPLANATION:` occurs in the reply |
| ExerciseRoute.ParseExercise | app/api/exercise/route.ts:61-79 | the result is a record exactly when the question, options and CORRECT patterns all match (a missing explanation never fails it), and then the answer index lies in 0..3 |
| ExerciseRoute.HandlePost | app/api/exercise/route.ts:3-89 | a body that is not JSON gives 500 "Internal server error"; otherwise a missing or empty key, and only that, gives 400 "API key is required", checked before the profile is read; a missing or null profile then gives 500; past these guards an upstream error passes its status through with "Groq API error: " and its text, an unreadable reply gives 500 "Internal server error", a reply that does not parse gives 500 "Failed to parse exercise format", and a reply that parses returns exactly the parsed exercise |
| ExerciseRoute.MissingKeyIgnoresUpstream | app/api/exercise/route.ts:7-14 | with a missing or empty key the answer depends neither on the profile nor on the upstream reply: nothing is read, called or parsed |
| ExerciseTemplate.RenderParseRoundTrip | app/api/exercise/route.ts:16-79 | a reply laid out as the prompt asks, with texts free of the markers, parses to exactly the exercise it was written from |
| ExerciseTemplate.RenderedQuestion | app/api/exercise/route.ts:62 | the QUESTION line of such a reply reads back as its question |
| ExerciseTemplate.RenderedOptions | app/api/exercise/route.ts:63-76 | its option lines read back as the options, in order |
| ExerciseTemplate.ScanBlocks | app/api/exercise/route.ts:63-76 | consecutive option lines followed by the CORRECT line clean to their texts, in order |
| ExerciseTemplate.BlockStep | app/api/exercise/route.ts:63-76 | one option line's match ends where the next option line or the CORRECT line begins, and cleans to the option text |
| ExerciseTemplate.RenderedCorrect | app/api/exercise/route.ts:64 | the CORRECT line reads back as its letter |
| ExerciseTemplate.RenderedExplanation | app/api/exercise/route.ts:65-78 | the EXPLANATION line reads back as the explanation |
| ExerciseTemplate.ParserAcceptsIncomplete | app/api/exercise/route.ts:67-79 | a reply with one option and answer D parses, to an exercise whose answer names no option: the parser checks neither the option count nor the answer's range |
| Exercises.OptionLabel | components/Exercises.tsx:119 | the label of position i is the character of code 65+i; it is an A-D letter exactly for i < 4 and reads back through the parser's `charCodeAt(0) - 65` as i |
| Exercises.LetterLabelRoundTrip | app/api/exercise/route.ts:77 | every letter the parser accepts is the label of the index it yields |
| Exercises.FeedbackMarksAnswer | components/Exercises.tsx:94-109 | once the result is shown, exactly the correct option is marked correct, and an option is marked wrong exactly when it is the learner's wrong pick, so at most one is |
| Exercises.ExercisePanel.constructor | components/Exercises.tsx:14-17 | the panel starts with no exercise, nothing selected, no result shown and not loading |
| Exercises.ExercisePanel.StartRequest | components/Exercises.tsx:19-23 | the exercise, the selection and the result flag are cleared and loading starts before the request |
| Exercises.ExercisePanel.CompleteRequest | components/Exercises.tsx:32-41 | the exercise is taken only from a response that carries one; loading ends whatever the outcome |
| Exercises.ExercisePanel.GenerateExercise | components/Exercises.tsx:19-42 | after a request the panel holds the response's exercise or none, nothing selected, no result shown, not loading |
| Exercises.ExercisePanel.CheckAnswer | components/Exercises.tsx:44-52 | with the result already shown nothing changes and nothing is reported; otherwise the pick is stored, the result shown, and correctness reported as `index == correctAnswer` (false with no exercise); at most one report per generated exercise |
| Chat.MapWire | components/Chat.tsx:79-81 | request entries carry only the role and content of each message, in order |
| Chat.Payload | components/Chat.tsx:79-82 | the request holds the last min(n, 10) messages, oldest first |
| Chat.WindowOfSend | components/Chat.tsx:79-82 | a send after history h carries the last min(\|h\|, 9) messages of h, in order, then the new message |
| Chat.Decimal | components/Chat.tsx:64 | a message id is a non-empty string of decimal digits |
| Chat.DecimalRoundTrip | components/Chat.tsx:64 | the id's digits read back as the instant it was written from |
| Chat.ChatPanel.constructor | components/Chat.tsx:14-16 | the panel starts with no messages, an empty input and not loading |
| Chat.ChatPanel.SetInput | components/Chat.tsx:198 | the input box holds what was typed; nothing else changes |
| Chat.ChatPanel.InitConversation | components/Chat.tsx:28-58 | the request holds the opening line alone; a reply with a message replaces the history with that single assistant message; loading ends in every case |
| Chat.ChatPanel.SendMessage | components/Chat.tsx:60-105 | a blank input changes nothing and sends nothing; otherwise the untrimmed input is appended as a user message and cleared, the request is the window of the history ending in it, and a reply with a message is appended and reported |
| Setup.ButtonsListEveryValueOnce | components/Setup.tsx:31-42 | every level and every goal has exactly one button, and each button's value reads back as its level or goal |
| Setup.Submission | components/Setup.tsx:19-29 | refused exactly when the key or the name is all white space; otherwise the profile holds the name, level and goal, and the key is passed on, neither of them trimmed |
| Setup.SetupForm.constructor | components/Setup.tsx:14-17 | the form starts with empty key and name, level beginner and goal conversation |
| Setup.SetupForm.SetApiKey | components/Setup.tsx:84 | the key field sets the key and nothing else |
| Setup.SetupForm.SetName | components/Setup.tsx:109 | the name field sets the name and nothing else |
| Setup.SetupForm.SetLevel | components/Setup.tsx:125 | a level button sets the level and nothing else |
| Setup.SetupForm.SetGoal | components/Setup.tsx:148 | a goal button sets the goal and nothing else |
| Setup.SetupForm.Submit | components/Setup.tsx:19-29 | submitting yields what `onComplete` receives, or nothing when the check refuses |
| Page.ReplayCounts | app/page.tsx:29-40 | from any counters, `conversations` grows by the number of chat replies, `exercises` and `totalAnswers` each by the number of answers, right or wrong, and `correctAnswers` by the number of right answers |
| Page.CorrectAnswers | app/page.tsx:38 | there are never more right answers than answers |
| Page.ReplayConsistent | app/page.tsx:16-40 | from all-zero counters every sequence of updates keeps `exercises == totalAnswers` and `correctAnswers <= totalAnswers` |
| Page.ReplaySnoc | app/page.tsx:29-40 | one more update applies to the counters reached so far |
| Page.Accuracy | app/page.tsx:46-48 | 0 before any answer; otherwise the whole percentage nearest to 100·correct/total, halves rounded up, which lies in 0..100 |
| Page.AccuracyBounds | app/page.tsx:47 | the integer formula (200c+t) div 2t is the nearest whole percentage and lies in 0..100 when c <= t |
| Page.Greeting | app/page.tsx:50-55 | "Good morning" exactly before 12, "Good afternoon" exactly from 12 to before 18, "Good evening" exactly from 18 |
| Page.Session.constructor | app/page.tsx:12-21 | the page starts with setup not complete, no profile, an empty key and all-zero counters |
| Page.Session.ShowsSetup | app/page.tsx:42-44 | the setup form is shown while setup is incomplete, and the panels appear only when setup is complete and a profile is stored |
| Page.Session.HandleSetupComplete | app/page.tsx:23-27 | the profile and key are stored, the flag is set, and the setup form is no longer shown |
| Page.Session.UpdateConversationStats | app/page.tsx:29-31 | `conversations` goes up by 1, the other counters are unchanged, and the counters stay consistent |
| Page.Session.UpdateExerciseStats | app/page.tsx:33-40 | `exercises` and `totalAnswers` go up by 1, `correctAnswers` by 1 exactly when the answer was right, and the counters stay consistent |
| Page.Session.CompleteSetup | app/page.tsx:23-27 | the setup form's submission completes setup exactly when its check passes |
| Page.Session.AnswerExercise | app/page.tsx:185-190 | a first answer adds one answer event, right exactly when the index is the stored exercise's answer, and records the pick; a repeated click adds none and keeps the pick; the exercise, the profile, the key and the setup flag stay as they were |
| Page.Session.SendChat | app/page.tsx:178-183 | a blank input sends nothing and changes nothing; otherwise the chat holds the new user message and the reply, if it held a message, the request is the window ending in the user message, and a reply event is added exactly then; the profile, the key and the setup flag stay as they were |
| Types.ParseLevel | types/index.ts:3 | a level is exactly one of "beginner", "intermediate" or "advanced", and reads back as its string |
| Types.ParseGoal | types/index.ts:4 | a goal is exactly one of "conversation", "business", "travel" or "academic" |
| Types.ParseRole | types/index.ts:9 | a role is exactly "user" or "assistant" |
| Text.Trim | app/api/exercise/route.ts:75-78 | `trim()` leaves no white space at either end |
| Text.TrimIsCore | app/api/exercise/route.ts:75-78 | `trim()` removes exactly the white-space runs at both ends and keeps the middle |
| Text.BlankIffAllWhite | components/Chat.tsx:61 | a string is empty after trimming exactly when it is all white space |
| Text.TrimIdempotent | app/api/exercise/route.ts:75-78 | trimming twice is trimming once |

## Left out

- Network calls are not modelled. This covers `fetch` to the completion API, to `/api/exercise` and to `/api/chat`. It also covers JSON encoding and `NextResponse` status plumbing. Their outcomes are parameters: `UpstreamReply`, `Response` and `Option<string>`.
- The prompt text is left out. In particular, the level and goal interpolated into it have no effect on parsing.
- A request body whose `apiKey` is a non-string value is not modelled. The key is `Option<string>`, so only absent and `""` are falsy.
- app/api/chat/route.ts, app/api/vocabulary/route.ts and components/Vocabulary.tsx are not part of this model. They pass text through, and their only check is the same API-key guard.
- app/layout.tsx, JSX rendering, CSS classes, icons, scrolling and speech synthesis are not modelled. `OptionFeedback` does keep the choice among the four button styles.
- Time sources are parameters. This covers `Date.now()` ids, `new Date()` timestamps and `getHours()`. Within one handler, two readings of the clock are taken to be the same instant: the user message's id and timestamp, and `initConversation`'s id and timestamp. The assistant reply's id is written from that instant plus one, as the source does.
- Page.Accuracy: the source computes it in floating point. The model uses exact integer round-half-up, which agrees unless floating-point rounding moves a value across a half.
- Async interleaving and React state batching are not modelled. Each handler is one atomic state change. A second click while a request is pending is not modelled.
- Exercises.ExercisePanel.CompleteRequest: a thrown request is modelled as `ErrorBody`, i.e. a response with no exercise. The error text itself is not shown anywhere.
- Exercises.OptionLabel: it is defined only below the surrogate range of `char`. Only positions 0..3 matter to the parser.
- The declared `Exercise` record, with its `id` and optional `userAnswer`, is only a datatype. The endpoint sends `GeneratedExercise`, which has no `id`.
- Logging with `console.error` in the endpoint and the panels, and Setup's `alert` on a refused submission, are not modelled. They have no effect on state.
- A request whose `fetch` itself throws (network failure) is `Unreadable`, like a reply whose body cannot be read. Both give 500 "Internal server error".
- Input fields other than those listed (the tab switch, the vocabulary panel) are not modelled.
