/**
 * The session page (app/page.tsx): the setup flag, the learner's profile
 * and key, and the four progress counters that the conversation and
 * exercise panels advance, with the accuracy and greeting shown beside
 * them.
 */
module Page {
  import opened Text
  import opened Types
  import opened Chat
  import opened Exercises
  import opened Setup

  /** The counters a session starts from (lines 16-21). */
  const Initial: Stats := Stats(0, 0, 0, 0)

  /** `updateConversationStats` (lines 29-31). */
  function AfterConversation(s: Stats): Stats {
    s.(conversations := s.conversations + 1)
  }

  /** `updateExerciseStats(correct)` (lines 33-40). */
  function AfterExercise(s: Stats, correct: bool): Stats {
    s.(exercises := s.exercises + 1,
       totalAnswers := s.totalAnswers + 1,
       correctAnswers := if correct then s.correctAnswers + 1 else s.correctAnswers)
  }

  /** What advances the counters: a chat reply, or an answered exercise. */
  datatype Event = ChatReply | Answered(correct: bool)

  function Apply(s: Stats, e: Event): Stats {
    match e
    case ChatReply => AfterConversation(s)
    case Answered(correct) => AfterExercise(s, correct)
  }

  /** The counters after the events, oldest first, starting from s. */
  function Replay(s: Stats, events: seq<Event>): Stats
    decreases |events|
  {
    if events == [] then s else Replay(Apply(s, events[0]), events[1..])
  }

  function Replies(events: seq<Event>): nat {
    if events == [] then 0 else (if events[0].ChatReply? then 1 else 0) + Replies(events[1..])
  }

  function Answers(events: seq<Event>): nat {
    if events == [] then 0 else (if events[0].Answered? then 1 else 0) + Answers(events[1..])
  }

  function CorrectAnswers(events: seq<Event>): (n: nat)
    ensures n <= Answers(events)
  {
    if events == [] then 0
    else (if events[0].Answered? && events[0].correct then 1 else 0) + CorrectAnswers(events[1..])
  }

  /**
   * Each counter counts its own events: replies add to `conversations`
   * only; every answer adds to `exercises` and `totalAnswers`, right or
   * wrong; only right answers add to `correctAnswers`.
   */
  lemma {:induction false} ReplayCounts(s: Stats, events: seq<Event>)
    ensures Replay(s, events) == Stats(
      s.conversations + Replies(events),
      s.exercises + Answers(events),
      s.correctAnswers + CorrectAnswers(events),
      s.totalAnswers + Answers(events))
    decreases |events|
  {
    if events != [] {
      ReplayCounts(Apply(s, events[0]), events[1..]);
    }
  }

  /** The invariant the counters keep: one answer per exercise, and no more right answers than answers. */
  predicate Consistent(s: Stats) {
    s.exercises == s.totalAnswers && s.correctAnswers <= s.totalAnswers
  }

  /** From the initial counters, every sequence of events keeps them consistent. */
  lemma ReplayConsistent(events: seq<Event>)
    ensures Consistent(Replay(Initial, events))
  {
    ReplayCounts(Initial, events);
  }

  /** Replaying one more event is applying it to the counters so far. */
  lemma {:induction false} ReplaySnoc(s: Stats, events: seq<Event>, e: Event)
    ensures Replay(s, events + [e]) == Apply(Replay(s, events), e)
    decreases |events|
  {
    if events == [] {
      assert [] + [e] == [e];
    } else {
      assert (events + [e])[1..] == events[1..] + [e];
      ReplaySnoc(Apply(s, events[0]), events[1..], e);
    }
  }

  /**
   * The accuracy shown (lines 46-48): `Math.round(correct / total * 100)`,
   * or 0 before any answer, taken in exact arithmetic: the nearest whole
   * percentage, halves rounded up.
   */
  function Accuracy(s: Stats): (r: int)
    ensures s.totalAnswers == 0 ==> r == 0
    ensures s.totalAnswers > 0 ==>
      2 * s.totalAnswers * r <= 200 * s.correctAnswers + s.totalAnswers < 2 * s.totalAnswers * (r + 1)
    ensures s.correctAnswers <= s.totalAnswers ==> 0 <= r <= 100
  {
    var t := s.totalAnswers;
    var c := s.correctAnswers;
    if t > 0 then
      var r := (200 * c + t) / (2 * t);
      AccuracyBounds(c, t, r);
      r
    else 0
  }

  lemma AccuracyBounds(c: nat, t: nat, r: int)
    requires t > 0 && r == (200 * c + t) / (2 * t)
    ensures 2 * t * r <= 200 * c + t < 2 * t * (r + 1)
    ensures c <= t ==> 0 <= r <= 100
  {
    var m := 200 * c + t;
    var d := 2 * t;
    var rem := m % d;
    assert m == d * r + rem && 0 <= rem < d;
    assert d * (r + 1) == d * r + d;
    MulCancel(d, -1, r);
    if c <= t {
      assert d * 101 == 202 * t;
      MulCancel(d, r, 101);
    }
  }

  /** Multiplying by a positive number keeps a strict order, so it can be cancelled. */
  lemma MulCancel(d: int, a: int, b: int)
    requires d > 0 && d * a < d * b
    ensures a < b
  {
  }

  /** `greeting()` (lines 50-55), over the hour it reads from the clock. */
  function Greeting(hour: int): (g: string)
    ensures g == "Good morning" <==> hour < 12
    ensures g == "Good afternoon" <==> 12 <= hour < 18
    ensures g == "Good evening" <==> 18 <= hour
  {
    if hour < 12 then "Good morning"
    else if hour < 18 then "Good afternoon"
    else "Good evening"
  }

  class Session {
    var isSetupComplete: bool
    var userProfile: Option<UserProfile>
    var apiKey: string
    var stats: Stats
    /** The counter updates made so far, oldest first. */
    ghost var events: seq<Event>

    /** The counters are what the updates made so far produce. */
    ghost predicate Valid()
      reads this
    {
      stats == Replay(Initial, events)
    }

    /** The initial state of the hooks (lines 12-21). */
    constructor ()
      ensures Valid() && events == []
      ensures !isSetupComplete && userProfile == None && apiKey == "" && stats == Initial
    {
      isSetupComplete := false;
      userProfile := None;
      apiKey := "";
      stats := Initial;
      events := [];
    }

    /**
     * Whether the page shows the setup form rather than the panels (lines
     * 42-44): the panels appear only once setup is complete and a profile is
     * stored, so they always receive one.
     */
    function ShowsSetup(): (r: bool)
      reads this
      ensures !r ==> isSetupComplete && userProfile.Some?
      ensures !isSetupComplete ==> r
    {
      !isSetupComplete || userProfile.None?
    }

    /** `handleSetupComplete` (lines 23-27). */
    method HandleSetupComplete(profile: UserProfile, key: string)
      modifies this
      ensures userProfile == Some(profile) && apiKey == key && isSetupComplete
      ensures !ShowsSetup()
      ensures stats == old(stats) && events == old(events)
    {
      userProfile := Some(profile);
      apiKey := key;
      isSetupComplete := true;
    }

    /** `updateConversationStats` (lines 29-31). */
    method UpdateConversationStats()
      requires Valid()
      modifies this
      ensures Valid() && Consistent(stats) && events == old(events) + [ChatReply]
      ensures stats == old(stats).(conversations := old(stats).conversations + 1)
      ensures isSetupComplete == old(isSetupComplete) && userProfile == old(userProfile) && apiKey == old(apiKey)
    {
      ReplaySnoc(Initial, events, ChatReply);
      stats := AfterConversation(stats);
      events := events + [ChatReply];
      ReplayConsistent(events);
    }

    /** `updateExerciseStats(correct)` (lines 33-40). */
    method UpdateExerciseStats(correct: bool)
      requires Valid()
      modifies this
      ensures Valid() && Consistent(stats) && events == old(events) + [Answered(correct)]
      ensures stats.exercises == old(stats).exercises + 1 && stats.totalAnswers == old(stats).totalAnswers + 1
      ensures stats.correctAnswers == old(stats).correctAnswers + (if correct then 1 else 0)
      ensures stats.conversations == old(stats).conversations
      ensures isSetupComplete == old(isSetupComplete) && userProfile == old(userProfile) && apiKey == old(apiKey)
    {
      ReplaySnoc(Initial, events, Answered(correct));
      stats := AfterExercise(stats, correct);
      events := events + [Answered(correct)];
      ReplayConsistent(events);
    }

    /** Submitting the setup form: `onComplete` runs only when the form's check passes. */
    method CompleteSetup(form: SetupForm) returns (submitted: bool)
      modifies this
      ensures submitted <==> Submission(form.apiKey, form.name, form.level, form.goal).Some?
      ensures submitted ==>
        var r := Submission(form.apiKey, form.name, form.level, form.goal).value;
        userProfile == Some(r.0) && apiKey == r.1 && !ShowsSetup()
      ensures !submitted ==>
        isSetupComplete == old(isSetupComplete) && userProfile == old(userProfile) && apiKey == old(apiKey)
      ensures stats == old(stats) && events == old(events)
    {
      var r := form.Submit();
      submitted := r.Some?;
      if submitted {
        HandleSetupComplete(r.value.0, r.value.1);
      }
    }

    /** Answering in the exercise panel: its report, if any, advances the exercise counters. */
    method AnswerExercise(panel: ExercisePanel, index: int)
      requires Valid() && panel.Valid()
      modifies this, panel
      ensures Valid() && panel.Valid() && Consistent(stats)
      ensures isSetupComplete == old(isSetupComplete) && userProfile == old(userProfile) && apiKey == old(apiKey)
      ensures panel.exercise == old(panel.exercise) && panel.isLoading == old(panel.isLoading) && panel.showResult
      ensures old(panel.showResult) ==>
        stats == old(stats) && events == old(events) && panel.selectedAnswer == old(panel.selectedAnswer)
      ensures !old(panel.showResult) ==>
        var correct := old(panel.exercise).Some? && index == old(panel.exercise).value.correctAnswer;
        events == old(events) + [Answered(correct)] && panel.selectedAnswer == Some(index)
    {
      var report := panel.CheckAnswer(index);
      if report.Some? {
        UpdateExerciseStats(report.value);
      } else {
        ReplayConsistent(events);
      }
    }

    /** Sending in the chat panel: a reply with a message advances the conversation counter. */
    method SendChat(chat: ChatPanel, sentAt: nat, reply: Option<string>, repliedAt: nat)
      returns (request: Option<seq<WireMessage>>)
      requires Valid()
      modifies this, chat
      ensures Valid() && Consistent(stats)
      ensures events == old(events) + (if request.Some? && HasMessage(reply) then [ChatReply] else [])
      ensures isSetupComplete == old(isSetupComplete) && userProfile == old(userProfile) && apiKey == old(apiKey)
      ensures IsBlank(old(chat.input)) ==>
        request == None && chat.messages == old(chat.messages) && chat.input == old(chat.input)
        && chat.isLoading == old(chat.isLoading)
      ensures !IsBlank(old(chat.input)) ==>
        var sent := old(chat.messages) + [Message(Decimal(sentAt), User, old(chat.input), sentAt)];
        && request == Some(Payload(sent))
        && chat.messages == sent + (if HasMessage(reply) then [AssistantMessage(reply.value, repliedAt + 1, repliedAt)] else [])
        && chat.input == "" && !chat.isLoading
    {
      var updated;
      request, updated := chat.SendMessage(sentAt, reply, repliedAt);
      if updated {
        UpdateConversationStats();
      } else {
        ReplayConsistent(events);
      }
    }
  }
}
