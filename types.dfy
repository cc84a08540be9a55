/**
 * The shared record types of the tutoring client (types/index.ts).
 * String-literal unions become enumerations; `T | null` and `x?: T`
 * become `Option<T>`; a `Date` is its millisecond reading.
 */
module Types {

  datatype Option<T> = None | Some(value: T)

  datatype Level = Beginner | Intermediate | Advanced

  datatype Goal = Conversation | Business | Travel | Academic

  datatype Role = User | Assistant

  datatype UserProfile = UserProfile(name: string, level: Level, goal: Goal)

  datatype Message = Message(id: string, role: Role, content: string, timestamp: int)

  /** The declared exercise record; `userAnswer` is optional. */
  datatype Exercise = Exercise(
    id: string,
    question: string,
    options: seq<string>,
    correctAnswer: int,
    explanation: string,
    userAnswer: Option<int>)

  /** The four progress counters of a session. */
  datatype Stats = Stats(conversations: nat, exercises: nat, correctAnswers: nat, totalAnswers: nat)

  /** The string value that stands for a level in the source. */
  function LevelValue(l: Level): string {
    match l
    case Beginner => "beginner"
    case Intermediate => "intermediate"
    case Advanced => "advanced"
  }

  /** Reads a level back from its string value; anything else is not a level. */
  function ParseLevel(s: string): (r: Option<Level>)
    ensures r.Some? <==> s in {"beginner", "intermediate", "advanced"}
    ensures r.Some? ==> LevelValue(r.value) == s
  {
    if s == "beginner" then Some(Beginner)
    else if s == "intermediate" then Some(Intermediate)
    else if s == "advanced" then Some(Advanced)
    else None
  }

  function GoalValue(g: Goal): string {
    match g
    case Conversation => "conversation"
    case Business => "business"
    case Travel => "travel"
    case Academic => "academic"
  }

  function ParseGoal(s: string): (r: Option<Goal>)
    ensures r.Some? <==> s in {"conversation", "business", "travel", "academic"}
    ensures r.Some? ==> GoalValue(r.value) == s
  {
    if s == "conversation" then Some(Conversation)
    else if s == "business" then Some(Business)
    else if s == "travel" then Some(Travel)
    else if s == "academic" then Some(Academic)
    else None
  }

  function RoleValue(r: Role): string {
    match r
    case User => "user"
    case Assistant => "assistant"
  }

  function ParseRole(s: string): (r: Option<Role>)
    ensures r.Some? <==> s in {"user", "assistant"}
    ensures r.Some? ==> RoleValue(r.value) == s
  {
    if s == "user" then Some(User)
    else if s == "assistant" then Some(Assistant)
    else None
  }

  /** Every level, goal and role has its own string value, which reads back to it. */
  lemma ValuesRoundTrip(l: Level, g: Goal, r: Role)
    ensures ParseLevel(LevelValue(l)) == Some(l)
    ensures ParseGoal(GoalValue(g)) == Some(g)
    ensures ParseRole(RoleValue(r)) == Some(r)
  {
  }
}
