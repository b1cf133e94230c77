/**
 * The Dialogue Controller as the source runs it: `generate_dialogues_openai`
 * with its `while not successful` retry, its `for intra_dialogue_id in
 * range(20)` loop, the transcript and both conversations grown in place,
 * and the rows and lines appended to the two log files. Each method is
 * proved to do exactly what the functions of modules Dialogues and Runs
 * say, so that what is proved about those holds of the loops.
 */
module Generator {
  import opened Options
  import opened Text
  import opened Prompts
  import opened Candidates
  import opened TextLog
  import opened Resume
  import opened Dialogues
  import opened Runs

  /**
   * The model service behind `model.ask`: its reply to the `n`-th call is
   * `respond(n, query)`. It keeps the queries asked so far.
   */
  class ModelService {
    const respond: (nat, Query) -> Reply
    var asked: seq<Query>

    constructor (respond: (nat, Query) -> Reply)
      ensures this.respond == respond && asked == []
    {
      this.respond := respond;
      asked := [];
    }

    /** `model.ask(question=..., message_history=..., temperature=...)`. */
    method Ask(query: Query) returns (reply: Reply)
      modifies this
      ensures asked == old(asked) + [query]
      ensures reply == respond(|old(asked)|, query)
    {
      reply := respond(|asked|, query);
      asked := asked + [query];
    }
  }

  /** The files `dialogues.csv` and `dialogues.txt` of the game set. */
  class LogFiles {
    var csv: seq<CsvRow>
    var text: Option<string>

    constructor (logs: Logs)
      ensures State() == logs
    {
      csv := logs.csv;
      text := logs.text;
    }

    function State(): Logs
      reads this
    {
      Logs(csv, text)
    }

    /** `csv.writer(f).writerow(row)` on the tabular log opened for appending. */
    method WriteRow(row: CsvRow)
      modifies this
      ensures csv == old(csv) + [row] && text == old(text)
    {
      csv := csv + [row];
    }

    /** Open the text log for appending, creating it, and write each line and a line feed. */
    method WriteLines(lines: seq<string>)
      modifies this
      ensures csv == old(csv) && text == Some(Contents(old(text)) + Render(lines))
    {
      var before := Contents(text);
      text := Some(before);
      assert lines[..0] == [] && before + Render([]) == before;
      for i := 0 to |lines|
        invariant csv == old(csv) && text == Some(before + Render(lines[..i]))
      {
        RenderAppend(lines[..i], lines[i]);
        assert lines[..i + 1] == lines[..i] + [lines[i]];
        text := Some(text.value + lines[i] + "\n");
        assert text.value == before + (Render(lines[..i]) + lines[i] + "\n");
      }
      assert lines[..|lines|] == lines;
    }
  }

  /**
   * The body of `for intra_dialogue_id in range(20)`: ask the questioner,
   * extend its conversation, the oracle's and the transcript, ask the
   * oracle, extend them again and write the turn's row. `st` is the
   * attempt so far; the method does what `Turn` says.
   */
  method AskTurn(model: ModelService, logs: LogFiles, dialogueId: int, target: string, intraId: nat,
                 dialogue: seq<string>, questioner: seq<Message>, oracle: seq<Message>, ghost st: AttemptState)
    returns (dialogue': seq<string>, questioner': seq<Message>, oracle': seq<Message>, confirmed: bool)
    requires Started(st) && st.dialogue == dialogue && st.questioner == questioner && st.oracle == oracle
    modifies model, logs
    ensures var next := Turn(model.respond, |old(model.asked)|, dialogueId, target, intraId, st);
      && dialogue' == next.0.dialogue && questioner' == next.0.questioner && oracle' == next.0.oracle
      && confirmed == next.1
      && |st.queries| <= |next.0.queries| && model.asked == old(model.asked) + next.0.queries[|st.queries|..]
      && |st.rows| <= |next.0.rows| && logs.csv == old(logs.csv) + TurnRows(next.0.rows[|st.rows|..])
      && logs.text == old(logs.text)
  {
    dialogue', questioner', oracle' := dialogue, questioner, oracle;
    var q := model.Ask(Query(DialogueQuery(dialogue'), [questioner'[0]], None));
    questioner' := questioner' + [Message(Assistant, CollapseNewlineRuns(q.text))];
    oracle' := oracle' + [Message(User, ExtractQuestion(q.text))];
    var question := Strip(questioner'[|questioner'| - 1].content);
    dialogue' := dialogue' + ["questioner: " + question];
    var a := model.Ask(Query(DialogueQuery(dialogue'), [oracle'[0]], Some(OracleTemperature)));
    questioner' := questioner' + [Message(User, NewlinesToSpaces(a.text))];
    oracle' := oracle' + [Message(Assistant, a.text)];
    var answer := Strip(questioner'[|questioner'| - 1].content);
    dialogue' := dialogue' + ["answerer: " + answer];
    var row := TurnRecord(dialogueId, intraId, target, question, answer, q.metrics, a.metrics, q.elapsedMs, a.elapsedMs);
    logs.WriteRow(TurnRow(row));
    confirmed := IsTerminal(a.text);
    ghost var next := Turn(model.respond, |old(model.asked)|, dialogueId, target, intraId, st);
    assert next.0.rows[|st.rows|..] == [row];
    assert next.0.queries[|st.queries|..] == model.asked[|old(model.asked)|..];
  }

  /**
   * `for intra_dialogue_id in range(20)` from the seed `seed`: play turns
   * until the oracle confirms the guess, and then write the transcript to
   * the text log and stop; the method does what `RunTurns` says, through
   * any `turn` that behaves as the turns of this attempt.
   */
  method PlayTurns(model: ModelService, logs: LogFiles, dialogueId: int, target: string,
                   dialogue: seq<string>, questioner: seq<Message>, oracle: seq<Message>, ghost seed: AttemptState,
                   ghost turn: (nat, AttemptState) -> (AttemptState, bool))
    returns (successful: bool)
    requires Started(seed) && seed == AttemptState(dialogue, questioner, oracle, [], [])
    requires TurnsAre(turn, model.respond, |model.asked|, dialogueId, target)
    modifies model, logs
    ensures var r := RunTurns(turn, 0, seed);
      && successful == r.1 && model.asked == old(model.asked) + r.0.queries
      && logs.State() == LogAttempt(old(logs.State()), r.0, r.1)
  {
    ghost var st := seed;
    var dialogue, questioner, oracle := dialogue, questioner, oracle;
    successful := false;
    for intraId := 0 to TurnCap
      invariant Started(st) && st.dialogue == dialogue && st.questioner == questioner && st.oracle == oracle
      invariant RunTurns(turn, intraId, st) == RunTurns(turn, 0, seed)
      invariant model.asked == old(model.asked) + st.queries
      invariant logs.csv == old(logs.csv) + TurnRows(st.rows) && logs.text == old(logs.text)
      invariant !successful
    {
      ghost var asked := model.asked;
      var confirmed;
      dialogue, questioner, oracle, confirmed := AskTurn(model, logs, dialogueId, target, intraId,
                                                         dialogue, questioner, oracle, st);
      ghost var next := turn(intraId, st);
      assert next == Turn(model.respond, |asked|, dialogueId, target, intraId, st);
      assert model.asked == old(model.asked) + next.0.queries by {
        assert next.0.queries == st.queries + next.0.queries[|st.queries|..];
      }
      assert logs.csv == old(logs.csv) + TurnRows(next.0.rows) by {
        assert next.0.rows == st.rows + next.0.rows[|st.rows|..];
        TurnRowsConcat(st.rows, next.0.rows[|st.rows|..]);
      }
      st := next.0;
      if confirmed {
        assert RunTurns(turn, 0, seed) == next;
        logs.WriteLines(dialogue);
        successful := true;
        break;
      }
    }
  }

  /**
   * One pass of `while not successful`: a fresh transcript of the
   * sentinel, the target and the candidate list, fresh prompts, then the
   * turns; the method does what `Attempt` says, through any `attempt`
   * that behaves as it.
   */
  method RunAttempt(model: ModelService, logs: LogFiles, dialogueId: int, entry: Entry, stepwise: bool,
                    ghost attempt: AttemptFn)
    returns (successful: bool)
    requires AttemptsAre(attempt, model.respond, stepwise)
    modifies model, logs
    ensures var r := attempt(dialogueId, entry, |old(model.asked)|);
      && successful == r.1 && model.asked == old(model.asked) + r.0.queries
      && logs.State() == LogAttempt(old(logs.State()), r.0, r.1)
  {
    var target := entry.target;
    var dialogue := [Sentinel, "target = " + target];
    var prompts := GetPrompts(Join(entry.candidates, ", "), target, stepwise);
    var questioner, oracle := prompts.0, prompts.1;
    dialogue := dialogue + ["answerer: " + Strip(questioner[|questioner| - 1].content)];
    ghost var seed := AttemptState(dialogue, questioner, oracle, [], []);
    assert seed == StartAttempt(entry, stepwise);
    ghost var goal := Attempt(model.respond, |model.asked|, dialogueId, entry, stepwise);
    assert goal == RunTurns(TurnOf(model.respond, |model.asked|, dialogueId, target), 0, seed);
    TurnOfAre(model.respond, |model.asked|, dialogueId, target);
    ghost var turn :| TurnsAre(turn, model.respond, |model.asked|, dialogueId, target);
    RunTurnsAs(turn, model.respond, |model.asked|, dialogueId, target, seed);
    successful := PlayTurns(model, logs, dialogueId, target, dialogue, questioner, oracle, seed, turn);
  }

  /**
   * `while not successful`, with at most `attempts` attempts: the method
   * does what `RunDialogue` says.
   */
  method PlayDialogue(model: ModelService, logs: LogFiles, dialogueId: int, entry: Entry, stepwise: bool,
                      attempts: nat, ghost attempt: AttemptFn)
    returns (successful: bool)
    requires AttemptsAre(attempt, model.respond, stepwise)
    modifies model, logs
    ensures var d := RunDialogue(attempt, |old(model.asked)|, dialogueId, entry, attempts, old(logs.State()));
      && successful == d.transcript.Some? && |model.asked| == d.calls && logs.State() == d.logs
  {
    ghost var goal := RunDialogue(attempt, |model.asked|, dialogueId, entry, attempts, logs.State());
    successful := false;
    var left := attempts;
    while !successful && left > 0
      invariant !successful ==> RunDialogue(attempt, |model.asked|, dialogueId, entry, left, logs.State()) == goal
      invariant successful ==> goal.transcript.Some? && |model.asked| == goal.calls && logs.State() == goal.logs
      decreases left
    {
      successful := RunAttempt(model, logs, dialogueId, entry, stepwise, attempt);
      left := left - 1;
    }
  }

  /**
   * `for dialogue_id, value in target_list_candidates.items()` over the
   * pending dialogues, stopping at one that used up its attempts: the
   * method does what `RunDialogues` says.
   */
  method PlayPending(model: ModelService, logs: LogFiles, pending: Dict<int, Entry>, stepwise: bool, attempts: nat,
                     ghost attempt: AttemptFn)
    returns (finished: bool)
    requires AttemptsAre(attempt, model.respond, stepwise)
    modifies model, logs
    ensures var r := RunDialogues(attempt, |old(model.asked)|, pending, attempts, old(logs.State()));
      && logs.State() == r.logs && |model.asked| == r.calls && finished == r.finished
  {
    ghost var goal := RunDialogues(attempt, |model.asked|, pending, attempts, logs.State());
    finished := true;
    for k := 0 to |pending|
      invariant var rest := RunDialogues(attempt, |model.asked|, pending[k..], attempts, logs.State());
        rest.logs == goal.logs && rest.calls == goal.calls && rest.finished == goal.finished
      invariant finished
    {
      assert pending[k..][0] == pending[k] && pending[k..][1..] == pending[k + 1..];
      var ok := PlayDialogue(model, logs, pending[k].0, pending[k].1, stepwise, attempts, attempt);
      if !ok {
        finished := false;
        break;
      }
    }
  }

  /**
   * `generate_dialogues_openai`: write the header row, keep the dialogues
   * the text log does not hold yet, choose the prompt variant, and play
   * the pending dialogues; the method does what `Generate` says.
   */
  method GenerateDialogues(model: ModelService, logs: LogFiles, gameSet: string, todo: Dict<int, Entry>,
                           attempts: nat)
    returns (finished: bool)
    modifies model, logs
    ensures var r := Generate(model.respond, |old(model.asked)|, gameSet, todo, old(logs.State()), attempts);
      && logs.State() == r.logs && |model.asked| == r.calls && finished == r.finished
  {
    logs.WriteRow(HeaderRow(CsvHeader));
    var pending := todo;
    if logs.text.Some? {
      var numDialogues := |Split(logs.text.value, Sentinel)|;
      pending := KeepFrom(todo, numDialogues - 1);
    }
    var stepwise := Contains(gameSet, StepwiseTag);
    AttemptsOfAre(model.respond, stepwise);
    ghost var attempt :| AttemptsAre(attempt, model.respond, stepwise);
    assert pending == ResumeFilter(old(logs.text), todo);
    assert logs.State() == Logs(old(logs.csv) + [HeaderRow(CsvHeader)], old(logs.text));
    GenerateBy(attempt, model.respond, |model.asked|, gameSet, todo, old(logs.State()), attempts);
    finished := PlayPending(model, logs, pending, stepwise, attempts, attempt);
  }
}
