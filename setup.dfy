/**
 * The first-run form (components/Setup.tsx): the API key, the learner's
 * name, level and goal, and the check made before the profile is handed on.
 */
module Setup {
  import opened Text
  import opened Types

  /** The level buttons, in the order they are shown (lines 31-35). */
  const Levels: seq<Level> := [Beginner, Intermediate, Advanced]

  /** The goal buttons, in the order they are shown (lines 37-42). */
  const Goals: seq<Goal> := [Conversation, Business, Travel, Academic]

  /** Every level and every goal has exactly one button, and its value reads back as it. */
  lemma ButtonsListEveryValueOnce()
    ensures forall l: Level :: l in Levels
    ensures forall g: Goal :: g in Goals
    ensures forall i, j :: 0 <= i < j < |Levels| ==> Levels[i] != Levels[j]
    ensures forall i, j :: 0 <= i < j < |Goals| ==> Goals[i] != Goals[j]
    ensures forall i :: 0 <= i < |Levels| ==> ParseLevel(LevelValue(Levels[i])) == Some(Levels[i])
    ensures forall i :: 0 <= i < |Goals| ==> ParseGoal(GoalValue(Goals[i])) == Some(Goals[i])
  {
    forall l: Level ensures l in Levels {
      match l
      case Beginner => assert Levels[0] == l;
      case Intermediate => assert Levels[1] == l;
      case Advanced => assert Levels[2] == l;
    }
    forall g: Goal ensures g in Goals {
      match g
      case Conversation => assert Goals[0] == g;
      case Business => assert Goals[1] == g;
      case Travel => assert Goals[2] == g;
      case Academic => assert Goals[3] == g;
    }
  }

  /**
   * `handleSubmit` (lines 19-29): no profile when the key or the name is
   * empty once trimmed; otherwise the profile and the key exactly as typed.
   */
  function Submission(apiKey: string, name: string, level: Level, goal: Goal): (r: Option<(UserProfile, string)>)
    ensures r.None? <==> AllWhite(apiKey) || AllWhite(name)
    ensures r.Some? ==> r.value.0.name == name && r.value.1 == apiKey
    ensures r.Some? ==> r.value.0.level == level && r.value.0.goal == goal
  {
    BlankIffAllWhite(apiKey);
    BlankIffAllWhite(name);
    if IsBlank(apiKey) || IsBlank(name) then None
    else Some((UserProfile(name, level, goal), apiKey))
  }

  class SetupForm {
    var apiKey: string
    var name: string
    var level: Level
    var goal: Goal

    /** The initial state of the hooks (lines 14-17): empty texts, beginner, conversation. */
    constructor ()
      ensures apiKey == "" && name == "" && level == Beginner && goal == Conversation
    {
      apiKey := "";
      name := "";
      level := Beginner;
      goal := Conversation;
    }

    /** The key field's `onChange` (line 84). */
    method SetApiKey(value: string)
      modifies this
      ensures apiKey == value && name == old(name) && level == old(level) && goal == old(goal)
    {
      apiKey := value;
    }

    /** The name field's `onChange` (line 109). */
    method SetName(value: string)
      modifies this
      ensures name == value && apiKey == old(apiKey) && level == old(level) && goal == old(goal)
    {
      name := value;
    }

    /** A level button's `onClick` (line 125). */
    method SetLevel(value: Level)
      modifies this
      ensures level == value && apiKey == old(apiKey) && name == old(name) && goal == old(goal)
    {
      level := value;
    }

    /** A goal button's `onClick` (line 148). */
    method SetGoal(value: Goal)
      modifies this
      ensures goal == value && apiKey == old(apiKey) && name == old(name) && level == old(level)
    {
      goal := value;
    }

    /** Submitting the form: what `onComplete` receives, or None when the check refuses. */
    method Submit() returns (r: Option<(UserProfile, string)>)
      ensures r.None? <==> AllWhite(apiKey) || AllWhite(name)
      ensures r == Submission(apiKey, name, level, goal)
    {
      r := Submission(apiKey, name, level, goal);
    }
  }
}
