/**
 * The exercise endpoint (app/api/exercise/route.ts): the API-key guard, and the
 * parser that turns the model's free-form reply into an exercise record.
 *
 * The reply is matched against four regular expressions (ECMAScript RegExp
 * semantics; with the `s` flag `.` also matches line breaks, and `$` without
 * the `m` flag is the end of the input):
 *   /QUESTION:\s*(.+?)(?=\n[A-D]\))/s
 *   /([A-D]\))\s*(.+?)(?=\n[A-D]\)|CORRECT:|$)/gs
 *   /CORRECT:\s*([A-D])/
 *   /EXPLANATION:\s*(.+?)$/s
 * Each is modelled by a dedicated scan over the string: an attempt anchored
 * at one position (with the backtracking that matters for that pattern), and
 * a search that tries the positions from left to right, as `String.match` does.
 */
module ExerciseRoute {
  import opened Text
  import opened Types

  const QuestionMarker: string := "QUESTION:"
  const CorrectMarker: string := "CORRECT:"
  const ExplanationMarker: string := "EXPLANATION:"

  /** `[A-D]`: upper-case only. */
  predicate IsLetter(c: char) {
    'A' <= c <= 'D'
  }

  /** `[A-D]\)` at position i. */
  predicate MarkerAt(s: string, i: nat) {
    i + 2 <= |s| && IsLetter(s[i]) && s[i + 1] == ')'
  }

  /** `\n[A-D]\)` at position i: a line break right before an option label. */
  predicate BreakAt(s: string, i: nat) {
    i < |s| && s[i] == '\n' && MarkerAt(s, i + 1)
  }

  /** The options lookahead `(?=\n[A-D]\)|CORRECT:|$)` holds at position i. */
  predicate OptionEndAt(s: string, i: nat) {
    BreakAt(s, i) || OccursAt(s, i, CorrectMarker) || i == |s|
  }

  /** The first occurrence of `pat` at or after position i. */
  function Find(s: string, pat: string, i: nat): (r: Option<nat>)
    ensures r.Some? ==> i <= r.value && OccursAt(s, r.value, pat)
    ensures forall k :: i <= k && (r.None? || k < r.value) ==> !OccursAt(s, k, pat)
    decreases |s| - i
  {
    if i + |pat| > |s| then None
    else if s[i..i + |pat|] == pat then Some(i)
    else Find(s, pat, i + 1)
  }

  /** How far `\s*` reaches from position i (it is greedy). */
  function SkipWhite(s: string, i: nat): (w: nat)
    requires i <= |s|
    ensures i <= w <= |s| && AllWhite(s[i..w])
    ensures w == |s| || !IsWhite(s[w])
    decreases |s| - i
  {
    if i < |s| && IsWhite(s[i]) then
      var w := SkipWhite(s, i + 1);
      assert s[i..w] == [s[i]] + s[i + 1..w];
      w
    else i
  }

  /** The first position at or after i where `\n[A-D]\)` occurs. */
  function NextBreak(s: string, i: nat): (r: Option<nat>)
    ensures r.Some? ==> i <= r.value && BreakAt(s, r.value)
    ensures forall k :: i <= k && (r.None? || k < r.value) ==> !BreakAt(s, k)
    decreases |s| - i
  {
    if i >= |s| then None
    else if BreakAt(s, i) then Some(i)
    else NextBreak(s, i + 1)
  }

  /** The first position at or after i where the options lookahead holds; the end of input always does. */
  function NextOptionEnd(s: string, i: nat): (e: nat)
    requires i <= |s|
    ensures i <= e <= |s| && OptionEndAt(s, e)
    ensures forall k :: i <= k < e ==> !OptionEndAt(s, k)
    decreases |s| - i
  {
    if OptionEndAt(s, i) then i else NextOptionEnd(s, i + 1)
  }

  // ---------------------------------------------------------------------
  // QUESTION:\s*(.+?)(?=\n[A-D]\))

  /**
   * The pattern body after the marker, with `\s*` holding k white-space
   * characters after position q: `.+?` takes the shortest non-empty text that
   * ends right before a `\n[A-D]\)`. When there is none, `\s*` gives back one
   * character and the attempt is repeated, down to k == 0.
   */
  function LazyQuestion(s: string, q: nat, k: nat): (r: Option<string>)
    requires q + k <= |s|
    ensures r.Some? <==> NextBreak(s, q + 1).Some?
    decreases k
  {
    match NextBreak(s, q + k + 1)
    case Some(e) => Some(s[q + k..e])
    case None => if k == 0 then None else LazyQuestion(s, q, k - 1)
  }

  /** The attempt anchored at position p: group 1, if the pattern matches there. */
  function QuestionAt(s: string, p: nat): (r: Option<string>)
    ensures r.Some? <==> OccursAt(s, p, QuestionMarker) && NextBreak(s, p + |QuestionMarker| + 1).Some?
  {
    if OccursAt(s, p, QuestionMarker) then
      var q := p + |QuestionMarker|;
      LazyQuestion(s, q, SkipWhite(s, q) - q)
    else None
  }

  /** `content.match(...)` searching from position i on: group 1 of the leftmost match. */
  function SearchQuestion(s: string, i: nat): (r: Option<string>)
    ensures r.Some? <==> exists p: nat :: i <= p <= |s| && QuestionAt(s, p).Some?
    decreases |s| + 1 - i
  {
    if i > |s| then None
    else if QuestionAt(s, i).Some? then QuestionAt(s, i)
    else SearchQuestion(s, i + 1)
  }

  /** Independent statement of when the question pattern matches somewhere. */
  ghost predicate HasQuestion(s: string) {
    exists p: nat, e: nat :: OccursAt(s, p, QuestionMarker) && p + |QuestionMarker| < e && BreakAt(s, e)
  }

  // ---------------------------------------------------------------------
  // ([A-D]\))\s*(.+?)(?=\n[A-D]\)|CORRECT:|$)   with the g flag

  datatype Span = Span(start: nat, end: nat)

  /**
   * The end of the options match that starts at the label at position p, if
   * it matches there. With `\s*` at full length the end of input is always a
   * candidate end, so giving back white space is needed only when the label
   * is followed by white space up to the end of input; a label that is the
   * last thing in the input does not match.
   */
  function OptionMatchEnd(s: string, p: nat): (r: Option<nat>)
    requires MarkerAt(s, p)
    ensures r.None? <==> p + 2 == |s|
    ensures r.Some? ==> p + 3 <= r.value <= |s| && OptionEndAt(s, r.value)
    ensures r.Some? ==> forall k :: SkipWhite(s, p + 2) < k < r.value ==> !OptionEndAt(s, k)
    ensures SkipWhite(s, p + 2) < |s| ==> r.Some? && SkipWhite(s, p + 2) < r.value
    ensures SkipWhite(s, p + 2) == |s| && r.Some? ==> r.value == |s|
  {
    var w := SkipWhite(s, p + 2);
    if w < |s| then Some(NextOptionEnd(s, w + 1))
    else if w > p + 2 then Some(|s|)
    else None
  }

  /** Spans that lie inside s, each starting at a label, in increasing, non-overlapping order. */
  predicate OrderedSpans(s: string, i: nat, r: seq<Span>) {
    && (forall k :: 0 <= k < |r| ==> i <= r[k].start && MarkerAt(s, r[k].start) && r[k].start + 3 <= r[k].end <= |s|)
    && (forall k :: 0 <= k < |r| - 1 ==> r[k].end <= r[k + 1].start)
  }

  /**
   * The successive matches of the global options pattern from position i on:
   * each search starts where the previous match ended (`lastIndex`).
   */
  function OptionSpans(s: string, i: nat): (r: seq<Span>)
    requires i <= |s|
    ensures OrderedSpans(s, i, r)
    ensures forall k :: 0 <= k < |r| ==> OptionMatchEnd(s, r[k].start) == Some(r[k].end)
    decreases |s| - i
  {
    if i == |s| then []
    else if MarkerAt(s, i) && OptionMatchEnd(s, i).Some? then
      var e := OptionMatchEnd(s, i).value;
      var rest := OptionSpans(s, e);
      SpansCons(s, i, e, rest);
      [Span(i, e)] + rest
    else OptionSpans(s, i + 1)
  }

  /** A match at i, followed by the matches from its end on, is again ordered. */
  lemma SpansCons(s: string, i: nat, e: nat, rest: seq<Span>)
    requires MarkerAt(s, i) && OptionMatchEnd(s, i) == Some(e)
    requires OrderedSpans(s, e, rest)
    requires forall k :: 0 <= k < |rest| ==> OptionMatchEnd(s, rest[k].start) == Some(rest[k].end)
    ensures OrderedSpans(s, i, [Span(i, e)] + rest)
    ensures var r := [Span(i, e)] + rest;
      forall k :: 0 <= k < |r| ==> OptionMatchEnd(s, r[k].start) == Some(r[k].end)
  {
    OrderedCons(s, i, e, rest);
    var r := [Span(i, e)] + rest;
    assert r[1..] == rest;
  }

  lemma OrderedCons(s: string, i: nat, e: nat, rest: seq<Span>)
    requires MarkerAt(s, i) && i + 3 <= e <= |s|
    requires OrderedSpans(s, e, rest)
    ensures OrderedSpans(s, i, [Span(i, e)] + rest)
  {
    var r := [Span(i, e)] + rest;
    assert r[1..] == rest;
  }

  /** A label that starts a match of the options pattern: one that is not the last thing in the input. */
  predicate MatchStart(s: string, k: nat) {
    MarkerAt(s, k) && k + 2 < |s|
  }

  /** No match of the options pattern starts at a position in [a, b). */
  ghost predicate NoMatchBetween(s: string, a: nat, b: nat) {
    forall k :: a <= k < b ==> !MatchStart(s, k)
  }

  /** Before the first span, between two spans and after the last one, no label starts a match. */
  ghost predicate NoneSkipped(s: string, i: nat, r: seq<Span>) {
    && (r == [] ==> NoMatchBetween(s, i, |s|))
    && (r != [] ==> NoMatchBetween(s, i, r[0].start) && NoMatchBetween(s, r[|r| - 1].end, |s|))
    && (forall j :: 0 <= j < |r| - 1 ==> NoMatchBetween(s, r[j].end, r[j + 1].start))
  }

  /**
   * The global search skips no match: every label that starts a match lies
   * inside one of the spans found, so an `X)` anywhere after the options,
   * in the CORRECT or EXPLANATION line included, adds an option.
   */
  lemma {:induction false} OptionSpansComplete(s: string, i: nat)
    requires i <= |s|
    ensures NoneSkipped(s, i, OptionSpans(s, i))
    decreases |s| - i
  {
    if i < |s| && MarkerAt(s, i) && OptionMatchEnd(s, i).Some? {
      var e := OptionMatchEnd(s, i).value;
      OptionSpansComplete(s, e);
      SkippedAtMatch(s, i, e);
    } else if i < |s| {
      OptionSpansComplete(s, i + 1);
      SkippedNoMatch(s, i);
    }
  }

  lemma SkippedNoMatch(s: string, i: nat)
    requires i < |s| && !(MarkerAt(s, i) && OptionMatchEnd(s, i).Some?)
    requires NoneSkipped(s, i + 1, OptionSpans(s, i + 1))
    ensures NoneSkipped(s, i, OptionSpans(s, i))
  {
    SkippedStep(s, i, OptionSpans(s, i + 1));
  }

  lemma SkippedAtMatch(s: string, i: nat, e: nat)
    requires i < |s| && MarkerAt(s, i) && OptionMatchEnd(s, i) == Some(e)
    requires NoneSkipped(s, e, OptionSpans(s, e))
    ensures NoneSkipped(s, i, OptionSpans(s, i))
  {
    var rest := OptionSpans(s, e);
    SkippedCons(s, i, e, rest);
    assert OptionSpans(s, i) == [Span(i, e)] + rest;
  }

  lemma SkippedCons(s: string, i: nat, e: nat, rest: seq<Span>)
    requires i < e && NoneSkipped(s, e, rest)
    ensures NoneSkipped(s, i, [Span(i, e)] + rest)
  {
    var r := [Span(i, e)] + rest;
    forall j | 0 <= j < |r| - 1 ensures NoMatchBetween(s, r[j].end, r[j + 1].start) {
      assert r[j + 1] == rest[j];
      if j > 0 {
        assert r[j] == rest[j - 1];
      }
    }
    if rest != [] {
      assert r[|r| - 1] == rest[|rest| - 1];
    }
  }

  lemma SkippedStep(s: string, i: nat, r: seq<Span>)
    requires i < |s| && !MatchStart(s, i) && NoneSkipped(s, i + 1, r)
    ensures NoneSkipped(s, i, r)
  {
  }

  /** The matched texts of the spans. */
  function SpanTexts(s: string, spans: seq<Span>): (r: seq<string>)
    requires forall k :: 0 <= k < |spans| ==> spans[k].start <= spans[k].end <= |s|
    ensures |r| == |spans|
    ensures forall k :: 0 <= k < |r| ==> r[k] == s[spans[k].start..spans[k].end]
  {
    seq(|spans|, k requires 0 <= k < |spans| => s[spans[k].start..spans[k].end])
  }

  /** `content.match(/…/gs)`: every match, or no result (null) when nothing matches. */
  function MatchOptions(s: string): (r: Option<seq<string>>)
    ensures r.Some? <==> HasOption(s)
    ensures r.Some? ==> forall k :: 0 <= k < |r.value| ==>
      |r.value[k]| >= 3 && IsLetter(r.value[k][0]) && r.value[k][1] == ')'
  {
    OptionsFoundIff(s, 0);
    var spans := OptionSpans(s, 0);
    if spans == [] then None else Some(SpanTexts(s, spans))
  }

  /** Independent statement of when the options pattern matches somewhere: a label that is not the end of the input. */
  ghost predicate HasOption(s: string) {
    exists p: nat :: MarkerAt(s, p) && p + 2 < |s|
  }

  /** `opt.trim().replace(/^[A-D]\)\s*\/, '')`. */
  function CleanOption(opt: string): (r: string)
    ensures Trimmed(r) && |r| <= |opt|
  {
    var t := Trim(opt);
    TrimIsCore(opt);
    if |t| >= 2 && IsLetter(t[0]) && t[1] == ')' then
      TrimStartOfTrimmedEnd(t[2..]);
      TrimStart(t[2..])
    else t
  }

  function CleanOptions(opts: seq<string>): (r: seq<string>)
    ensures |r| == |opts|
    ensures forall k :: 0 <= k < |r| ==> r[k] == CleanOption(opts[k])
  {
    seq(|opts|, k requires 0 <= k < |opts| => CleanOption(opts[k]))
  }

  // ---------------------------------------------------------------------
  // CORRECT:\s*([A-D])

  /**
   * The pattern matches at p exactly when the marker is followed by white
   * space and a letter: if the greedy `\s*` gives back characters, the next
   * one is white space and never a letter.
   */
  predicate CorrectAt(s: string, p: nat) {
    OccursAt(s, p, CorrectMarker) && SkipWhite(s, p + |CorrectMarker|) < |s|
    && IsLetter(s[SkipWhite(s, p + |CorrectMarker|)])
  }

  /** `content.match(/CORRECT:\s*([A-D])/)` from position i on: group 1 of the leftmost match. */
  function SearchCorrect(s: string, i: nat): (r: Option<char>)
    ensures r.Some? ==> IsLetter(r.value)
    decreases |s| + 1 - i
  {
    if i > |s| then None
    else if CorrectAt(s, i) then Some(s[SkipWhite(s, i + |CorrectMarker|)])
    else SearchCorrect(s, i + 1)
  }

  ghost predicate HasCorrect(s: string) {
    exists p: nat :: CorrectAt(s, p)
  }

  /** `charCodeAt(0) - 65`. */
  function LetterIndex(c: char): (r: int)
    ensures IsLetter(c) <==> 0 <= r < 4
  {
    c as int - 65
  }

  // ---------------------------------------------------------------------
  // EXPLANATION:\s*(.+?)$

  /**
   * The attempt anchored at p. `.+?` must reach the end of input, so with
   * `\s*` at full length the group is the rest of the input when it is not
   * empty; otherwise `\s*` gives back one white-space character, if it took any.
   */
  function ExplanationAt(s: string, p: nat): (r: Option<string>)
  {
    if OccursAt(s, p, ExplanationMarker) then
      var q := p + |ExplanationMarker|;
      var w := SkipWhite(s, q);
      if w < |s| then Some(s[w..])
      else if w > q then Some(s[w - 1..])
      else None
    else None
  }

  function SearchExplanation(s: string, i: nat): (r: Option<string>)
    ensures r.Some? <==> exists p: nat :: i <= p <= |s| && ExplanationAt(s, p).Some?
    decreases |s| + 1 - i
  {
    if i > |s| then None
    else if ExplanationAt(s, i).Some? then ExplanationAt(s, i)
    else SearchExplanation(s, i + 1)
  }

  // ---------------------------------------------------------------------
  // Assembly

  /** The record the endpoint sends back: these four fields and no `id`. */
  datatype GeneratedExercise = GeneratedExercise(
    question: string,
    options: seq<string>,
    correctAnswer: int,
    explanation: string)

  datatype ParseResult = Parsed(exercise: GeneratedExercise) | FormatError

  /** Lines 61-79 of the endpoint: the four matches, the failure test and the record. */
  function ParseExercise(content: string): (r: ParseResult)
    ensures r.Parsed? <==> HasQuestion(content) && HasOption(content) && HasCorrect(content)
    ensures r.Parsed? ==> 0 <= r.exercise.correctAnswer <= 3
  {
    QuestionFoundIff(content);
    OptionsFoundIff(content, 0);
    CorrectFoundIff(content, 0);
    var questionMatch := SearchQuestion(content, 0);
    var optionsMatch := MatchOptions(content);
    var correctMatch := SearchCorrect(content, 0);
    if questionMatch.None? || optionsMatch.None? || correctMatch.None? then FormatError
    else
      Parsed(GeneratedExercise(
        Trim(questionMatch.value),
        CleanOptions(optionsMatch.value),
        LetterIndex(correctMatch.value),
        ExplanationText(content)))
  }

  // ---------------------------------------------------------------------
  // The POST handler around the parser

  /** What the upstream completion call gave back (the call itself is not modelled). */
  datatype UpstreamReply =
    | Completion(content: string)          // data.choices[0].message.content
    | UpstreamError(status: int, body: string)  // !response.ok
    | Unreadable                           // the call, or reading its answer, threw

  datatype Response =
    | ExerciseBody(exercise: GeneratedExercise)
    | ErrorBody(status: int, error: string)

  /**
   * The fields of the JSON request body that the handler reads: `apiKey` is
   * None when the body carries none; `hasProfile` says whether `userProfile`
   * is neither missing nor null, so that reading `userProfile.level` does not
   * throw.
   */
  datatype Request = Request(apiKey: Option<string>, hasProfile: bool)

  /** The body is JSON, carries a non-empty key and a profile: the handler goes on to the upstream call. */
  predicate PassesGuards(body: Option<Request>) {
    body.Some? && body.value.apiKey.Some? && body.value.apiKey.value != "" && body.value.hasProfile
  }

  /**
   * The endpoint, over the parsed request body (None when the body is not
   * JSON: `request.json()` throws). A missing or empty key is rejected
   * before the profile is read and before the upstream call; a key of white
   * space only is not. Every exception ends in the catch-all 500.
   */
  function HandlePost(body: Option<Request>, reply: UpstreamReply): (r: Response)
    ensures (body.Some? && (body.value.apiKey.None? || body.value.apiKey.value == ""))
              <==> r == ErrorBody(400, "API key is required")
    ensures r.ExerciseBody? <==>
              && body.Some? && body.value.apiKey.Some? && body.value.apiKey.value != ""
              && body.value.hasProfile && reply.Completion? && ParseExercise(reply.content).Parsed?
    ensures body.None? ==> r == ErrorBody(500, "Internal server error")
    ensures body.Some? && body.value.apiKey.Some? && body.value.apiKey.value != "" && !body.value.hasProfile ==>
              r == ErrorBody(500, "Internal server error")
    ensures r.ExerciseBody? ==> r.exercise == ParseExercise(reply.content).exercise
    ensures PassesGuards(body) && reply.Completion? && ParseExercise(reply.content).FormatError? ==>
              r == ErrorBody(500, "Failed to parse exercise format")
    ensures PassesGuards(body) && reply.UpstreamError? ==>
              r == ErrorBody(reply.status, "Groq API error: " + reply.body)
    ensures PassesGuards(body) && reply.Unreadable? ==> r == ErrorBody(500, "Internal server error")
  {
    if body.None? then ErrorBody(500, "Internal server error")
    else if body.value.apiKey.None? || body.value.apiKey.value == "" then ErrorBody(400, "API key is required")
    else if !body.value.hasProfile then ErrorBody(500, "Internal server error")
    else
      match reply
      case UpstreamError(status, text) =>
        assert ("Groq API error: " + text)[0] == 'G';
        ErrorBody(status, "Groq API error: " + text)
      case Unreadable => ErrorBody(500, "Internal server error")
      case Completion(content) =>
        match ParseExercise(content)
        case Parsed(exercise) => ExerciseBody(exercise)
        case FormatError => ErrorBody(500, "Failed to parse exercise format")
  }

  // ---------------------------------------------------------------------
  // Lemmas

  /** The question search succeeds exactly when some marker is followed, later, by a `\n[A-D]\)`. */
  lemma QuestionFoundIff(s: string)
    ensures SearchQuestion(s, 0).Some? <==> HasQuestion(s)
  {
    if SearchQuestion(s, 0).Some? {
      var p := SearchQuestionWitness(s, 0);
      var q := p + |QuestionMarker|;
      var e := NextBreak(s, q + 1).value;
      assert OccursAt(s, p, QuestionMarker) && q < e && BreakAt(s, e);
    }
    if HasQuestion(s) {
      var p: nat, e: nat :| OccursAt(s, p, QuestionMarker) && p + |QuestionMarker| < e && BreakAt(s, e);
      assert Find(s, QuestionMarker, 0).Some?;
      var p0 := Find(s, QuestionMarker, 0).value;
      assert NextBreak(s, p0 + |QuestionMarker| + 1).Some?;
      assert QuestionAt(s, p0).Some?;
      SearchQuestionReaches(s, 0, p0);
    }
  }

  /** A successful question search found a match at some position. */
  lemma {:induction false} SearchQuestionWitness(s: string, i: nat) returns (p: nat)
    requires SearchQuestion(s, i).Some?
    ensures i <= p && QuestionAt(s, p).Some? && SearchQuestion(s, i) == QuestionAt(s, p)
    decreases |s| + 1 - i
  {
    if QuestionAt(s, i).Some? {
      p := i;
    } else {
      p := SearchQuestionWitness(s, i + 1);
    }
  }

  /** The question search from i succeeds when the attempt at some p >= i does. */
  lemma {:induction false} SearchQuestionReaches(s: string, i: nat, p: nat)
    requires i <= p <= |s| && QuestionAt(s, p).Some?
    ensures SearchQuestion(s, i).Some?
    decreases p - i
  {
    if i < p && QuestionAt(s, i).None? {
      SearchQuestionReaches(s, i + 1, p);
    }
  }

  /** The question search skips every position before the first marker. */
  lemma {:induction false} SearchQuestionSkips(s: string, i: nat, p: nat)
    requires i <= p <= |s|
    requires forall k :: i <= k < p ==> !OccursAt(s, k, QuestionMarker)
    ensures SearchQuestion(s, i) == SearchQuestion(s, p)
    decreases p - i
  {
    if i < p {
      SearchQuestionSkips(s, i + 1, p);
    }
  }

  /**
   * The usual case: after the first marker and the white space that follows
   * it, the question runs up to the first line break that precedes a label.
   */
  lemma QuestionIsTextBeforeFirstLabel(s: string, p: nat, e: nat)
    requires OccursAt(s, p, QuestionMarker)
    requires forall k :: 0 <= k < p ==> !OccursAt(s, k, QuestionMarker)
    requires SkipWhite(s, p + |QuestionMarker|) < e && BreakAt(s, e)
    requires forall k :: SkipWhite(s, p + |QuestionMarker|) < k < e ==> !BreakAt(s, k)
    ensures SearchQuestion(s, 0) == Some(s[SkipWhite(s, p + |QuestionMarker|)..e])
  {
    var q := p + |QuestionMarker|;
    var w := SkipWhite(s, q);
    NextBreakIs(s, w + 1, e);
    assert QuestionAt(s, p) == Some(s[w..e]);
    SearchQuestionSkips(s, 0, p);
  }

  /** The break search from i stops at the first break. */
  lemma NextBreakIs(s: string, i: nat, e: nat)
    requires i <= e && BreakAt(s, e)
    requires forall k :: i <= k < e ==> !BreakAt(s, k)
    ensures NextBreak(s, i) == Some(e)
  {
    var r := NextBreak(s, i);
    assert r.Some?;
    assert !(r.value < e) && !(e < r.value);
  }

  /**
   * The fallback case: when no label-preceding line break follows the white
   * space after the first marker, a match (if any) is a single white-space
   * character given back by `\s*`, so the question is empty after trimming.
   */
  lemma QuestionFallbackIsBlank(s: string, p: nat)
    requires OccursAt(s, p, QuestionMarker)
    requires forall k :: 0 <= k < p ==> !OccursAt(s, k, QuestionMarker)
    requires NextBreak(s, SkipWhite(s, p + |QuestionMarker|) + 1).None?
    ensures SearchQuestion(s, 0).None? || Trim(SearchQuestion(s, 0).value) == ""
  {
    SearchQuestionSkips(s, 0, p);
    if QuestionAt(s, p).Some? {
      var t := QuestionAt(s, p).value;
      FallbackAt(s, p);
      BlankIffAllWhite(t);
      assert SearchQuestion(s, p) == Some(t);
    } else {
      SearchQuestionSkipsFailure(s, p);
    }
  }

  /** The attempt at p, when it succeeds without a break after the white space, yields white space only. */
  lemma FallbackAt(s: string, p: nat)
    requires OccursAt(s, p, QuestionMarker) && QuestionAt(s, p).Some?
    requires NextBreak(s, SkipWhite(s, p + |QuestionMarker|) + 1).None?
    ensures AllWhite(QuestionAt(s, p).value)
  {
    var q := p + |QuestionMarker|;
    var w := SkipWhite(s, q);
    LazyFallback(s, q, w - q, w);
  }

  /** When the attempt at the first marker fails, so do all later attempts. */
  lemma SearchQuestionSkipsFailure(s: string, p: nat)
    requires OccursAt(s, p, QuestionMarker) && QuestionAt(s, p).None?
    ensures SearchQuestion(s, p).None?
  {
    var q := p + |QuestionMarker|;
    assert NextBreak(s, q + 1).None?;
    if SearchQuestion(s, p).Some? {
      var p' := SearchQuestionWitness(s, p);
      assert false;
    }
  }

  /** In the fallback case the group is made of white space only: it lies before a break inside the run of white space. */
  lemma {:induction false} LazyFallback(s: string, q: nat, k: nat, w: nat)
    requires q + k <= w <= |s| && AllWhite(s[q..w]) && (w == |s| || !IsWhite(s[w]))
    requires NextBreak(s, w + 1).None?
    requires LazyQuestion(s, q, k).Some?
    ensures AllWhite(LazyQuestion(s, q, k).value)
    decreases k
  {
    match NextBreak(s, q + k + 1)
    case Some(e) =>
      assert e < w;
      var t := s[q + k..e];
      forall i | 0 <= i < |t|
        ensures IsWhite(t[i])
      {
        assert t[i] == s[q..w][k + i];
      }
    case None =>
      LazyFallback(s, q, k - 1, w);
  }

  /** The options search from i finds something exactly when a label at or after i is not the end of the input. */
  lemma {:induction false} OptionsFoundIff(s: string, i: nat)
    requires i <= |s|
    ensures OptionSpans(s, i) != [] <==> exists p: nat :: i <= p && MarkerAt(s, p) && p + 2 < |s|
    decreases |s| - i
  {
    if i < |s| && !(MarkerAt(s, i) && OptionMatchEnd(s, i).Some?) {
      OptionsFoundIff(s, i + 1);
      if exists p: nat :: i <= p && MarkerAt(s, p) && p + 2 < |s| {
        var p: nat :| i <= p && MarkerAt(s, p) && p + 2 < |s|;
        assert i + 1 <= p;
      }
    }
  }

  /** The CORRECT search from i finds something exactly when the pattern matches at some p >= i. */
  lemma CorrectFoundIff(s: string, i: nat)
    ensures SearchCorrect(s, i).Some? <==> exists p: nat :: i <= p && CorrectAt(s, p)
  {
    if SearchCorrect(s, i).Some? {
      var p := SearchCorrectWitness(s, i);
    }
    if exists p: nat :: i <= p && CorrectAt(s, p) {
      var p: nat :| i <= p && CorrectAt(s, p);
      SearchCorrectReaches(s, i, p);
    }
  }

  /** A successful CORRECT search found a match at some position. */
  lemma {:induction false} SearchCorrectWitness(s: string, i: nat) returns (p: nat)
    requires SearchCorrect(s, i).Some?
    ensures i <= p && CorrectAt(s, p)
    decreases |s| + 1 - i
  {
    if CorrectAt(s, i) {
      p := i;
    } else {
      p := SearchCorrectWitness(s, i + 1);
    }
  }

  /** The CORRECT search from i succeeds when the pattern matches at some p >= i. */
  lemma {:induction false} SearchCorrectReaches(s: string, i: nat, p: nat)
    requires i <= p && CorrectAt(s, p)
    ensures SearchCorrect(s, i).Some?
    decreases p - i
  {
    if i < p && !CorrectAt(s, i) {
      SearchCorrectReaches(s, i + 1, p);
    }
  }

  /** The letter after the leftmost matching CORRECT: decides the answer index, A to 0 through D to 3. */
  lemma {:induction false} CorrectAnswerIsFirstLetter(s: string, p: nat)
    requires CorrectAt(s, p)
    requires forall k :: 0 <= k < p ==> !CorrectAt(s, k)
    requires ParseExercise(s).Parsed?
    ensures ParseExercise(s).exercise.correctAnswer == s[SkipWhite(s, p + |CorrectMarker|)] as int - 'A' as int
  {
    SearchCorrectSkips(s, 0, p);
  }

  lemma {:induction false} SearchCorrectSkips(s: string, i: nat, p: nat)
    requires i <= p && CorrectAt(s, p)
    requires forall k :: i <= k < p ==> !CorrectAt(s, k)
    ensures SearchCorrect(s, i) == Some(s[SkipWhite(s, p + |CorrectMarker|)])
    decreases p - i
  {
    if i < p {
      SearchCorrectSkips(s, i + 1, p);
    }
  }

  /** Each option is the trimmed text between its label and the end of its match. */
  lemma OptionsAreTrimmedSpans(s: string)
    requires ParseExercise(s).Parsed?
    ensures var spans := OptionSpans(s, 0);
            var opts := ParseExercise(s).exercise.options;
            && |opts| == |spans|
            && forall k :: 0 <= k < |opts| ==> opts[k] == Trim(s[spans[k].start + 2..spans[k].end])
  {
    var spans := OptionSpans(s, 0);
    var texts := SpanTexts(s, spans);
    var opts := ParseExercise(s).exercise.options;
    assert opts == CleanOptions(texts);
    forall k | 0 <= k < |opts|
      ensures opts[k] == Trim(s[spans[k].start + 2..spans[k].end])
    {
      LabelledSpan(s, spans[k].start, spans[k].end);
    }
  }

  /** A matched option starts with its label; cleaning it trims what follows the label. */
  lemma LabelledSpan(s: string, a: nat, b: nat)
    requires a + 2 <= b <= |s| && MarkerAt(s, a)
    ensures CleanOption(s[a..b]) == Trim(s[a + 2..b])
  {
    var t := s[a..b];
    assert t[0] == s[a] && t[1] == s[a + 1] && t[2..] == s[a + 2..b];
    CleanLabelled(t);
  }

  /** Stripping the label after trimming is trimming what follows the label. */
  lemma CleanLabelled(t: string)
    requires |t| >= 2 && IsLetter(t[0]) && t[1] == ')'
    ensures CleanOption(t) == Trim(t[2..])
  {
    var lab, body := t[..2], t[2..];
    assert t == lab + body;
    assert TrimStart(t) == t;
    TrimEndAfterPrefix(lab, body);
    assert Trim(t) == lab + TrimEnd(body);
    assert (lab + TrimEnd(body))[2..] == TrimEnd(body);
    TrimEndThenStart(body);
  }

  /** The explanation is the trimmed rest of the input after the first marker. */
  lemma ExplanationIsRest(s: string, p: nat)
    requires OccursAt(s, p, ExplanationMarker)
    requires forall k :: 0 <= k < p ==> !OccursAt(s, k, ExplanationMarker)
    ensures ExplanationText(s) == Trim(s[p + |ExplanationMarker|..])
  {
    SearchExplanationSkips(s, 0, p);
    if ExplanationAt(s, p).Some? {
      ExplanationAtIsRest(s, p);
    } else {
      SearchExplanationNone(s, p + 1);
      var q := p + |ExplanationMarker|;
      assert q == |s| && s[q..] == [];
    }
  }

  /** Without the marker the explanation is empty, and nothing fails. */
  lemma ExplanationAbsent(s: string)
    requires forall k :: 0 <= k ==> !OccursAt(s, k, ExplanationMarker)
    ensures ExplanationText(s) == ""
  {
    SearchExplanationNone(s, 0);
  }

  /** The field the record gets: the trimmed group, or "" when the pattern does not match. */
  function ExplanationText(s: string): (r: string)
    ensures Trimmed(r)
    ensures r != "" ==> exists p: nat :: OccursAt(s, p, ExplanationMarker)
  {
    var m := SearchExplanation(s, 0);
    if m.Some? then Trim(m.value) else ""
  }

  lemma ExplanationAtIsRest(s: string, p: nat)
    requires ExplanationAt(s, p).Some?
    ensures Trim(ExplanationAt(s, p).value) == Trim(s[p + |ExplanationMarker|..])
  {
    var q := p + |ExplanationMarker|;
    var w := SkipWhite(s, q);
    assert s[q..] == s[q..w] + s[w..];
    TrimSkipsWhite(s[q..w], s[w..]);
    if w == |s| {
      assert s[w - 1..] == s[w - 1..w] + s[w..];
      assert s[w - 1..w] == s[q..w][w - 1 - q..];
      TrimSkipsWhite(s[w - 1..w], s[w..]);
    }
  }

  lemma {:induction false} SearchExplanationSkips(s: string, i: nat, p: nat)
    requires i <= p && OccursAt(s, p, ExplanationMarker)
    requires forall k :: i <= k < p ==> !OccursAt(s, k, ExplanationMarker)
    ensures ExplanationAt(s, p).Some? ==> SearchExplanation(s, i) == ExplanationAt(s, p)
    ensures ExplanationAt(s, p).None? ==> SearchExplanation(s, i) == SearchExplanation(s, p + 1)
    decreases p - i
  {
    if i < p {
      SearchExplanationSkips(s, i + 1, p);
    }
  }


  lemma {:induction false} SearchExplanationNone(s: string, i: nat)
    requires forall k :: i <= k ==> !OccursAt(s, k, ExplanationMarker)
    ensures SearchExplanation(s, i).None?
    decreases |s| + 1 - i
  {
    if i <= |s| {
      SearchExplanationNone(s, i + 1);
    }
  }

  /**
   * With a missing or empty key the answer depends neither on the profile nor
   * on the upstream reply: nothing is read, called or parsed.
   */
  lemma MissingKeyIgnoresUpstream(key: Option<string>, p: bool, q: bool, a: UpstreamReply, b: UpstreamReply)
    requires key.None? || key.value == ""
    ensures HandlePost(Some(Request(key, p)), a) == HandlePost(Some(Request(key, q)), b)
  {
  }
}
