/**
 * The Prompt Builder: the fixed system and user messages that start the
 * questioner's and the oracle's conversations (`get_prompts`).
 */
module Prompts {
  import opened Text

  datatype Role = System | User | Assistant

  /** One chat message, `{'role': ..., 'content': ...}`. */
  datatype Message = Message(role: Role, content: string)

  /**
   * The questioner's game rules, shared by both variants. The text is kept
   * in short pieces so that the verifier can inspect each one character by
   * character (see `RulesAvoidMarkers`).
   */
  const QuestionerRules: string :=
    Rules0 + Rules1 + Rules2 + Rules3 + Rules4 + Rules5 + Rules6 + Rules7 + Rules8
  const Rules0: string := "You are playing an interactive "
  const Rules1: string := "game with the user, who is "
  const Rules2: string := "assigned an item from a list "
  const Rules3: string := "of candidates. Ask as few "
  const Rules4: string := "questions as possible to "
  const Rules5: string := "identify the item, making only "
  const Rules6: string := "one question at each "
  const Rules7: string := "turn.\n\nThe user can only "
  const Rules8: string := "respond with 'yes' or 'no'."

  /** The output format the stepwise variant adds to the rules. */
  const StepwiseFormat: string :=
    FormatIntro + CandidatesMarker + " item, item, item, item ...\n" + QuestionMarker + " text of the question"
  const FormatIntro: string := "\nFormat your output in the following way:\n"

  /** The oracle's game rules, up to the sentence naming its item. */
  const OracleRules: string :=
    "You are playing an interactive game with the user, in which you are assigned one item from a list "
    + "of candidates."
    + "\nThe user will have to guess which one it is by asking yes/no questions, and "
    + "you have to stricly respond to each question only with 'yes' or 'no'."
    + "\nIf the user correctly guesses exactly your assigned item, respond with 'Yes! That's correct.'."

  const CandidatesPrefix: string := "This is the list of candidates: "
  const AssignedPrefix: string := "\nThe item assigned to you is "

  const QuestionMarker: string := "QUESTION:"
  const CandidatesMarker: string := "CANDIDATES:"

  /** The questioner's user message for the comma-joined candidate list. */
  function CandidatesMessage(candidates: string): string {
    CandidatesPrefix + candidates + "."
  }

  /**
   * `get_prompts(candidates, target, stepwise)`: the questioner's seed
   * (system rules, then the candidate list as a user message) and the
   * oracle's seed (one system message that names its item).
   */
  function GetPrompts(candidates: string, target: string, stepwise: bool): (r: (seq<Message>, seq<Message>))
    ensures |r.0| == 2 && r.0[0].role == System && r.0[1] == Message(User, CandidatesMessage(candidates))
    ensures QuestionerRules <= r.0[0].content
    ensures |r.1| == 1 && r.1[0].role == System
    ensures var o := r.1[0].content;
      |o| >= |target| + 1 && o[|o| - |target| - 1..] == target + "."
      && o[..|o| - |target| - 1] == OracleRules + AssignedPrefix
  {
    var rules := if stepwise then QuestionerRules + StepwiseFormat else QuestionerRules;
    var questioner := [Message(System, rules), Message(User, CandidatesMessage(candidates))];
    var oracle := [Message(System, OracleRules + AssignedPrefix + target + ".")];
    (questioner, oracle)
  }

  lemma AvoidsNoOccurrence(s: string, pat: string)
    requires |pat| > 0 && pat[0] !in s
    ensures !Contains(s, pat)
  {
  }

  lemma RulesAvoidMarkers()
    ensures 'Q' !in QuestionerRules && 'C' !in QuestionerRules
  {
    Rules0Avoids(); Rules1Avoids(); Rules2Avoids(); Rules3Avoids(); Rules4Avoids();
    Rules5Avoids(); Rules6Avoids(); Rules7Avoids(); Rules8Avoids();
  }

  lemma Rules0Avoids() ensures 'Q' !in Rules0 && 'C' !in Rules0 {}
  lemma Rules1Avoids() ensures 'Q' !in Rules1 && 'C' !in Rules1 {}
  lemma Rules2Avoids() ensures 'Q' !in Rules2 && 'C' !in Rules2 {}
  lemma Rules3Avoids() ensures 'Q' !in Rules3 && 'C' !in Rules3 {}
  lemma Rules4Avoids() ensures 'Q' !in Rules4 && 'C' !in Rules4 {}
  lemma Rules5Avoids() ensures 'Q' !in Rules5 && 'C' !in Rules5 {}
  lemma Rules6Avoids() ensures 'Q' !in Rules6 && 'C' !in Rules6 {}
  lemma Rules7Avoids() ensures 'Q' !in Rules7 && 'C' !in Rules7 {}
  lemma Rules8Avoids() ensures 'Q' !in Rules8 && 'C' !in Rules8 {}

  /**
   * The questioner's system message asks for the `CANDIDATES:` and
   * `QUESTION:` lines exactly in the stepwise variant.
   */
  lemma {:induction false} FormatLinesIffStepwise(candidates: string, target: string, stepwise: bool)
    ensures var sys := GetPrompts(candidates, target, stepwise).0[0].content;
      (Contains(sys, QuestionMarker) <==> stepwise) && (Contains(sys, CandidatesMarker) <==> stepwise)
  {
    if stepwise {
      StepwiseRulesHaveMarkers();
    } else {
      RulesLackMarkers();
    }
  }

  lemma StepwiseRulesHaveMarkers()
    ensures Contains(QuestionerRules + StepwiseFormat, CandidatesMarker)
    ensures Contains(QuestionerRules + StepwiseFormat, QuestionMarker)
  {
    var rest := " item, item, item, item ...\n";
    ContainsEarly(QuestionerRules, FormatIntro, CandidatesMarker, rest, QuestionMarker, " text of the question");
    ContainsInside(QuestionerRules, FormatIntro + CandidatesMarker + rest, QuestionMarker, " text of the question");
  }

  lemma ContainsEarly(a: string, u: string, p: string, x: string, y: string, z: string)
    ensures Contains(a + (u + p + x + y + z), p)
  {
    var s := a + (u + p + x + y + z);
    assert s[|a| + |u|..|a| + |u| + |p|] == p;
    assert OccursAt(s, p, |a| + |u|);
  }

  lemma ContainsInside(a: string, u: string, p: string, c: string)
    ensures Contains(a + (u + p + c), p)
  {
    var s := a + (u + p + c);
    assert s[|a| + |u|..|a| + |u| + |p|] == p;
    assert OccursAt(s, p, |a| + |u|);
  }

  lemma RulesLackMarkers()
    ensures !Contains(QuestionerRules, CandidatesMarker)
    ensures !Contains(QuestionerRules, QuestionMarker)
  {
    RulesAvoidMarkers();
    AvoidsNoOccurrence(QuestionerRules, QuestionMarker);
    AvoidsNoOccurrence(QuestionerRules, CandidatesMarker);
  }
}
