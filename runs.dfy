/**
 * The Dialogue Controller above one attempt: the retries of a dialogue
 * (`while not successful`), the run over the pending dialogues, and the
 * whole of `generate_dialogues_openai` with its two log files, as
 * functions of the model service's replies. The unbounded retry is bounded
 * by a budget of attempts per dialogue; a dialogue that uses it up ends
 * the run.
 */
module Runs {
  import opened Options
  import opened Text
  import opened Prompts
  import opened Candidates
  import opened TextLog
  import opened Resume
  import opened Dialogues

  /** The two log files: the rows of `dialogues.csv`, and `dialogues.txt` if it exists. */
  datatype Logs = Logs(csv: seq<CsvRow>, text: Option<string>)

  /** What reading a file gives: its contents, or nothing when it does not exist. */
  function Contents(text: Option<string>): string {
    match text
    case None => ""
    case Some(s) => s
  }

  /** The rows written for the given turns, in order. */
  function TurnRows(rows: seq<TurnRecord>): seq<CsvRow> {
    if rows == [] then [] else [TurnRow(rows[0])] + TurnRows(rows[1..])
  }

  /** The written rows are the turns, one row each, in order. */
  lemma {:induction false} TurnRowsAt(rows: seq<TurnRecord>)
    ensures |TurnRows(rows)| == |rows|
    ensures forall i | 0 <= i < |rows| :: TurnRows(rows)[i] == TurnRow(rows[i])
  {
    if rows != [] {
      TurnRowsAt(rows[1..]);
      assert forall i | 1 <= i < |rows| :: rows[1..][i - 1] == rows[i];
    }
  }

  /** Writing the rows of two runs of turns, one after the other. */
  lemma {:induction false} TurnRowsConcat(a: seq<TurnRecord>, b: seq<TurnRecord>)
    ensures TurnRows(a + b) == TurnRows(a) + TurnRows(b)
  {
    if a == [] {
      assert a + b == b;
    } else {
      assert (a + b)[1..] == a[1..] + b;
      TurnRowsConcat(a[1..], b);
    }
  }

  /** What a finished attempt leaves in the logs: a row per turn, and its transcript if it succeeded. */
  function LogAttempt(logs: Logs, st: AttemptState, success: bool): Logs {
    Logs(logs.csv + TurnRows(st.rows),
         if success then Some(Contents(logs.text) + Render(st.dialogue)) else logs.text)
  }

  /**
   * How attempts go: `attempt(dialogueId, entry, n)` is the final state of
   * an attempt at dialogue `dialogueId` begun after `n` model calls, and
   * whether it succeeded.
   */
  type AttemptFn = (int, Entry, nat) -> (AttemptState, bool)

  /** The attempts of a run with the given model service and prompt variant. */
  function AttemptsOf(respond: (nat, Query) -> Reply, stepwise: bool): AttemptFn {
    (dialogueId: int, entry: Entry, n: nat) => Attempt(respond, n, dialogueId, entry, stepwise)
  }

  /** The logs after the attempts at one dialogue, the calls made so far, and the transcript logged, if any. */
  datatype DialogueRun = DialogueRun(logs: Logs, calls: nat, transcript: Option<seq<string>>)

  /**
   * `while not successful`: attempt dialogue `dialogueId` again and again,
   * from a fresh transcript each time, until one attempt succeeds, at most
   * `attempts` times. `n0` model calls were made before.
   */
  function RunDialogue(attempt: AttemptFn, n0: nat, dialogueId: int, entry: Entry, attempts: nat, logs: Logs)
    : DialogueRun
    decreases attempts
  {
    if attempts == 0 then DialogueRun(logs, n0, None)
    else
      var r := attempt(dialogueId, entry, n0);
      var logged := LogAttempt(logs, r.0, r.1);
      if r.1 then DialogueRun(logged, n0 + |r.0.queries|, Some(r.0.dialogue))
      else RunDialogue(attempt, n0 + |r.0.queries|, dialogueId, entry, attempts - 1, logged)
  }

  /** The logs after a run, its calls, the transcripts it logged in order, and whether every dialogue was done. */
  datatype RunResult = RunResult(logs: Logs, calls: nat, logged: seq<seq<string>>, finished: bool)

  /** `for dialogue_id, value in target_list_candidates.items()`: the pending dialogues in order. */
  function RunDialogues(attempt: AttemptFn, n0: nat, todo: Dict<int, Entry>, attempts: nat, logs: Logs): RunResult
    decreases |todo|
  {
    if todo == [] then RunResult(logs, n0, [], true)
    else
      var d := RunDialogue(attempt, n0, todo[0].0, todo[0].1, attempts, logs);
      match d.transcript
      case None => RunResult(d.logs, d.calls, [], false)
      case Some(t) =>
        var rest := RunDialogues(attempt, d.calls, todo[1..], attempts, d.logs);
        RunResult(rest.logs, rest.calls, [t] + rest.logged, rest.finished)
  }

  const StepwiseTag: string := "stepwise"

  /**
   * `generate_dialogues_openai`: write the header row, skip the dialogues
   * an earlier run logged, choose the prompt variant by the game set's
   * name, and run the pending dialogues. `calls` model calls were made
   * before.
   */
  function Generate(respond: (nat, Query) -> Reply, calls: nat, gameSet: string, todo: Dict<int, Entry>,
                    logs: Logs, attempts: nat): RunResult
  {
    RunDialogues(AttemptsOf(respond, Contains(gameSet, StepwiseTag)), calls, ResumeFilter(logs.text, todo), attempts,
                 Logs(logs.csv + [HeaderRow(CsvHeader)], logs.text))
  }

  /**
   * `attempt` behaves as the attempts of the model service `respond` with
   * the given prompt variant. The trigger keeps the definition of
   * `Attempt` out of proofs that only pass such a function along.
   */
  ghost predicate AttemptsAre(attempt: AttemptFn, respond: (nat, Query) -> Reply, stepwise: bool) {
    forall dialogueId, entry, n {:trigger Attempt(respond, n, dialogueId, entry, stepwise)} ::
      attempt(dialogueId, entry, n) == Attempt(respond, n, dialogueId, entry, stepwise)
  }

  lemma AttemptsOfAre(respond: (nat, Query) -> Reply, stepwise: bool)
    ensures AttemptsAre(AttemptsOf(respond, stepwise), respond, stepwise)
  {
  }

  /** The retries at one dialogue depend only on what the attempts return. */
  lemma {:induction false} RunDialogueSame(a: AttemptFn, b: AttemptFn, n0: nat, dialogueId: int, entry: Entry,
                                           attempts: nat, logs: Logs)
    requires forall id, e, n :: a(id, e, n) == b(id, e, n)
    decreases attempts
    ensures RunDialogue(a, n0, dialogueId, entry, attempts, logs) == RunDialogue(b, n0, dialogueId, entry, attempts, logs)
  {
    if attempts > 0 {
      var r := a(dialogueId, entry, n0);
      RunDialogueSame(a, b, n0 + |r.0.queries|, dialogueId, entry, attempts - 1, LogAttempt(logs, r.0, r.1));
    }
  }

  /** A run depends only on what the attempts return. */
  lemma {:induction false} RunDialoguesSame(a: AttemptFn, b: AttemptFn, n0: nat, todo: Dict<int, Entry>,
                                            attempts: nat, logs: Logs)
    requires forall id, e, n :: a(id, e, n) == b(id, e, n)
    decreases |todo|
    ensures RunDialogues(a, n0, todo, attempts, logs) == RunDialogues(b, n0, todo, attempts, logs)
  {
    if todo != [] {
      RunDialogueSame(a, b, n0, todo[0].0, todo[0].1, attempts, logs);
      var d := RunDialogue(a, n0, todo[0].0, todo[0].1, attempts, logs);
      if d.transcript.Some? {
        RunDialoguesSame(a, b, d.calls, todo[1..], attempts, d.logs);
      }
    }
  }

  /** A run of the generator plays the pending dialogues with any function that behaves as its attempts. */
  lemma GenerateBy(attempt: AttemptFn, respond: (nat, Query) -> Reply, calls: nat, gameSet: string,
                   todo: Dict<int, Entry>, logs: Logs, attempts: nat)
    requires AttemptsAre(attempt, respond, Contains(gameSet, StepwiseTag))
    ensures Generate(respond, calls, gameSet, todo, logs, attempts)
            == RunDialogues(attempt, calls, ResumeFilter(logs.text, todo), attempts,
                            Logs(logs.csv + [HeaderRow(CsvHeader)], logs.text))
  {
    var stepwise := Contains(gameSet, StepwiseTag);
    forall id, e, n
      ensures attempt(id, e, n) == AttemptsOf(respond, stepwise)(id, e, n)
    {
      assert AttemptsOf(respond, stepwise)(id, e, n) == Attempt(respond, n, id, e, stepwise);
    }
    RunDialoguesSame(attempt, AttemptsOf(respond, stepwise), calls, ResumeFilter(logs.text, todo), attempts,
                     Logs(logs.csv + [HeaderRow(CsvHeader)], logs.text));
  }

  /**
   * A run appends the header row to the tabular log, every time, and
   * after it only turn rows, each the result of two model calls.
   */
  lemma GenerateRows(respond: (nat, Query) -> Reply, calls: nat, gameSet: string, todo: Dict<int, Entry>,
                     logs: Logs, attempts: nat)
    ensures var r := Generate(respond, calls, gameSet, todo, logs, attempts);
      && logs.csv + [HeaderRow(CsvHeader)] <= r.logs.csv
      && (forall i | |logs.csv| < i < |r.logs.csv| :: r.logs.csv[i].TurnRow?)
      && r.calls == calls + 2 * (|r.logs.csv| - |logs.csv| - 1)
  {
    var stepwise := Contains(gameSet, StepwiseTag);
    AttemptsWellFormed(respond, stepwise);
    RunDialoguesRows(AttemptsOf(respond, stepwise), calls, ResumeFilter(logs.text, todo), attempts,
                     Logs(logs.csv + [HeaderRow(CsvHeader)], logs.text));
  }

  /**
   * With a model service that never confirms a guess, a run logs no
   * transcript and leaves the text log as it was. It finishes only when
   * nothing was pending; otherwise the first pending dialogue used up
   * every attempt, twenty turns each, and the run stopped there.
   */
  lemma GenerateNeverConfirmed(respond: (nat, Query) -> Reply, calls: nat, gameSet: string,
                               todo: Dict<int, Entry>, logs: Logs, attempts: nat)
    requires forall n: nat, q: Query :: !IsTerminal(respond(n, q).text)
    ensures var r := Generate(respond, calls, gameSet, todo, logs, attempts);
      && r.logs.text == logs.text && r.logged == []
      && (r.finished <==> ResumeFilter(logs.text, todo) == [])
      && (ResumeFilter(logs.text, todo) != [] ==> |r.logs.csv| == |logs.csv| + 1 + TurnCap * attempts)
  {
    var stepwise := Contains(gameSet, StepwiseTag);
    var attempt := AttemptsOf(respond, stepwise);
    var pending := ResumeFilter(logs.text, todo);
    var start := Logs(logs.csv + [HeaderRow(CsvHeader)], logs.text);
    if pending != [] {
      forall id, e, n
        ensures !attempt(id, e, n).1
      {
        NeverConfirmedFails(respond, n, id, e, stepwise);
      }
      AttemptsWellFormed(respond, stepwise);
      RunDialogueFails(attempt, calls, pending[0].0, pending[0].1, attempts, start);
      RunDialogueRows(attempt, calls, pending[0].0, pending[0].1, attempts, start);
    }
  }

  /** When no attempt ever succeeds, the retries at a dialogue end without a transcript. */
  lemma {:induction false} RunDialogueFails(attempt: AttemptFn, n0: nat, dialogueId: int, entry: Entry,
                                            attempts: nat, logs: Logs)
    requires forall id, e, n :: !attempt(id, e, n).1
    decreases attempts
    ensures RunDialogue(attempt, n0, dialogueId, entry, attempts, logs).transcript.None?
  {
    if attempts > 0 {
      var r := attempt(dialogueId, entry, n0);
      RunDialogueFails(attempt, n0 + |r.0.queries|, dialogueId, entry, attempts - 1, LogAttempt(logs, r.0, r.1));
    }
  }

  /**
   * An attempt at dialogue `dialogueId` of `entry` as `Attempt` produces
   * it: one to twenty turns, two calls and a row of this dialogue and
   * target per turn, the three seed lines and two lines per turn, and all
   * twenty turns used when it fails.
   */
  ghost predicate WellFormedAttempt(dialogueId: int, entry: Entry, r: (AttemptState, bool)) {
    var k := |r.0.rows|;
    && 1 <= k <= TurnCap && |r.0.queries| == 2 * k && |r.0.dialogue| == 3 + 2 * k
    && (!r.1 ==> k == TurnCap)
    && r.0.dialogue[..3] == SeedLines(entry)
    && forall j | 0 <= j < k ::
         r.0.rows[j].dialogueId == dialogueId && r.0.rows[j].target == entry.target && r.0.rows[j].intraDialogueId == j
  }

  /** Every attempt is well formed. */
  ghost predicate WellFormedAttempts(attempt: AttemptFn) {
    forall dialogueId, entry, n :: WellFormedAttempt(dialogueId, entry, attempt(dialogueId, entry, n))
  }

  /** The attempts of a run are well formed, whatever the model service replies. */
  lemma AttemptsWellFormed(respond: (nat, Query) -> Reply, stepwise: bool)
    ensures WellFormedAttempts(AttemptsOf(respond, stepwise))
  {
    forall dialogueId, entry, n
      ensures WellFormedAttempt(dialogueId, entry, Attempt(respond, n, dialogueId, entry, stepwise))
    {
      AttemptOutcome(respond, n, dialogueId, entry, stepwise);
      SeedTranscript(entry, stepwise);
      var r := Attempt(respond, n, dialogueId, entry, stepwise);
      forall j | 0 <= j < |r.0.rows|
        ensures r.0.rows[j].dialogueId == dialogueId && r.0.rows[j].target == entry.target
          && r.0.rows[j].intraDialogueId == j
      {
        assert HasTurn(r.0, j);
      }
    }
  }

  /**
   * The attempts at one dialogue append only rows of that dialogue and its
   * target to the tabular log, two model calls per row; when none
   * succeeds, each used all twenty turns and the text log is untouched.
   */
  lemma {:induction false} RunDialogueRows(attempt: AttemptFn, n0: nat, dialogueId: int, entry: Entry,
                                           attempts: nat, logs: Logs)
    requires WellFormedAttempts(attempt)
    decreases attempts
    ensures var d := RunDialogue(attempt, n0, dialogueId, entry, attempts, logs);
      && logs.csv <= d.logs.csv
      && d.calls == n0 + 2 * (|d.logs.csv| - |logs.csv|)
      && (forall i | |logs.csv| <= i < |d.logs.csv| ::
            d.logs.csv[i].TurnRow? && d.logs.csv[i].turn.dialogueId == dialogueId
            && d.logs.csv[i].turn.target == entry.target)
      && (d.transcript.None? ==> |d.logs.csv| == |logs.csv| + TurnCap * attempts && d.logs.text == logs.text)
  {
    if attempts > 0 {
      var r := attempt(dialogueId, entry, n0);
      assert WellFormedAttempt(dialogueId, entry, r);
      var logged := LogAttempt(logs, r.0, r.1);
      AttemptRows(logs, r.0, dialogueId, entry.target);
      if !r.1 {
        RunDialogueRows(attempt, n0 + |r.0.queries|, dialogueId, entry, attempts - 1, logged);
        var d := RunDialogue(attempt, n0 + |r.0.queries|, dialogueId, entry, attempts - 1, logged);
        assert logs.csv <= d.logs.csv by {
          assert d.logs.csv[..|logs.csv|] == logged.csv[..|logs.csv|];
        }
      }
    }
  }

  /** Logging an attempt appends its rows, all of its dialogue and target. */
  lemma AttemptRows(logs: Logs, st: AttemptState, dialogueId: int, target: string)
    requires forall j | 0 <= j < |st.rows| :: st.rows[j].dialogueId == dialogueId && st.rows[j].target == target
    ensures var csv := logs.csv + TurnRows(st.rows);
      && logs.csv <= csv && |csv| == |logs.csv| + |st.rows|
      && forall i | |logs.csv| <= i < |csv| ::
           csv[i].TurnRow? && csv[i].turn.dialogueId == dialogueId && csv[i].turn.target == target
  {
    TurnRowsAt(st.rows);
    var csv := logs.csv + TurnRows(st.rows);
    forall i | |logs.csv| <= i < |csv|
      ensures csv[i].TurnRow? && csv[i].turn.dialogueId == dialogueId && csv[i].turn.target == target
    {
      assert csv[i] == TurnRow(st.rows[i - |logs.csv|]);
    }
  }

  /**
   * The attempts at one dialogue log one transcript at most, the one of
   * the attempt that succeeded: it is appended to the text log line by
   * line after what was there, opens with the three seed lines and holds
   * two lines per turn. Every attempt before it failed after twenty turns.
   */
  lemma {:induction false} RunDialogueText(attempt: AttemptFn, n0: nat, dialogueId: int, entry: Entry,
                                           attempts: nat, logs: Logs)
    requires WellFormedAttempts(attempt)
    decreases attempts
    ensures var d := RunDialogue(attempt, n0, dialogueId, entry, attempts, logs);
      d.transcript.Some? ==>
        var t := d.transcript.value;
        && d.logs.text == Some(Contents(logs.text) + Render(t))
        && 5 <= |t| <= 3 + 2 * TurnCap && |t| % 2 == 1 && t[..3] == SeedLines(entry)
        && (exists n :: attempt(dialogueId, entry, n).1 && attempt(dialogueId, entry, n).0.dialogue == t)
        && (|d.logs.csv| - |logs.csv| - (|t| - 3) / 2) % TurnCap == 0
  {
    if attempts > 0 {
      var r := attempt(dialogueId, entry, n0);
      assert WellFormedAttempt(dialogueId, entry, r);
      var logged := LogAttempt(logs, r.0, r.1);
      TurnRowsAt(r.0.rows);
      if !r.1 {
        RunDialogueText(attempt, n0 + |r.0.queries|, dialogueId, entry, attempts - 1, logged);
      }
    }
  }

  /**
   * A run over the pending dialogues logs one transcript per dialogue
   * done, and stops at the first dialogue that used up its attempts: it
   * has finished exactly when every dialogue was done.
   */
  lemma {:induction false} RunDialoguesProgress(attempt: AttemptFn, n0: nat, todo: Dict<int, Entry>, attempts: nat,
                                                logs: Logs)
    decreases |todo|
    ensures var r := RunDialogues(attempt, n0, todo, attempts, logs);
      |r.logged| <= |todo| && (r.finished <==> |r.logged| == |todo|)
  {
    if todo != [] {
      var d := RunDialogue(attempt, n0, todo[0].0, todo[0].1, attempts, logs);
      if d.transcript.Some? {
        RunDialoguesProgress(attempt, d.calls, todo[1..], attempts, d.logs);
      }
    }
  }

  /** The transcripts a run logged are appended to the text log in order; it is created with the first. */
  lemma {:induction false} RunDialoguesText(attempt: AttemptFn, n0: nat, todo: Dict<int, Entry>, attempts: nat,
                                            logs: Logs)
    requires WellFormedAttempts(attempt)
    decreases |todo|
    ensures var r := RunDialogues(attempt, n0, todo, attempts, logs);
      && Contents(r.logs.text) == Contents(logs.text) + Blocks(r.logged)
      && (r.logged == [] ==> r.logs.text == logs.text) && (r.logged != [] ==> r.logs.text.Some?)
  {
    if todo != [] {
      var d := RunDialogue(attempt, n0, todo[0].0, todo[0].1, attempts, logs);
      RunDialogueRows(attempt, n0, todo[0].0, todo[0].1, attempts, logs);
      RunDialogueText(attempt, n0, todo[0].0, todo[0].1, attempts, logs);
      if d.transcript.Some? {
        var t := d.transcript.value;
        var rest := RunDialogues(attempt, d.calls, todo[1..], attempts, d.logs);
        RunDialoguesText(attempt, d.calls, todo[1..], attempts, d.logs);
        assert Blocks([t] + rest.logged) == Render(t) + Blocks(rest.logged) by {
          assert ([t] + rest.logged)[1..] == rest.logged;
        }
      }
    }
  }

  /** A run only appends to the tabular log, one row per two model calls. */
  lemma {:induction false} RunDialoguesRows(attempt: AttemptFn, n0: nat, todo: Dict<int, Entry>, attempts: nat,
                                            logs: Logs)
    requires WellFormedAttempts(attempt)
    decreases |todo|
    ensures var r := RunDialogues(attempt, n0, todo, attempts, logs);
      && logs.csv <= r.logs.csv && r.calls == n0 + 2 * (|r.logs.csv| - |logs.csv|)
      && forall i | |logs.csv| <= i < |r.logs.csv| :: r.logs.csv[i].TurnRow?
  {
    if todo != [] {
      var d := RunDialogue(attempt, n0, todo[0].0, todo[0].1, attempts, logs);
      RunDialogueRows(attempt, n0, todo[0].0, todo[0].1, attempts, logs);
      if d.transcript.Some? {
        var rest := RunDialogues(attempt, d.calls, todo[1..], attempts, d.logs);
        RunDialoguesRows(attempt, d.calls, todo[1..], attempts, d.logs);
        assert logs.csv <= rest.logs.csv by {
          assert rest.logs.csv[..|logs.csv|] == d.logs.csv[..|logs.csv|];
        }
        forall i | |logs.csv| <= i < |rest.logs.csv|
          ensures rest.logs.csv[i].TurnRow?
        {
          if i < |d.logs.csv| {
            assert rest.logs.csv[i] == d.logs.csv[i];
          }
        }
      }
    }
  }

  /** `t` is the transcript of a successful attempt at dialogue `p.0` of entry `p.1`. */
  ghost predicate LoggedBy(attempt: AttemptFn, p: (int, Entry), t: seq<string>) {
    exists n :: attempt(p.0, p.1, n).1 && attempt(p.0, p.1, n).0.dialogue == t
  }

  /** The `i`-th transcript a run logged is that of a successful attempt at its `i`-th pending dialogue. */
  lemma {:induction false} RunDialoguesTranscripts(attempt: AttemptFn, n0: nat, todo: Dict<int, Entry>,
                                                   attempts: nat, logs: Logs)
    requires WellFormedAttempts(attempt)
    decreases |todo|
    ensures var r := RunDialogues(attempt, n0, todo, attempts, logs);
      && |r.logged| <= |todo|
      && forall i | 0 <= i < |r.logged| :: LoggedBy(attempt, todo[i], r.logged[i])
  {
    if todo != [] {
      var d := RunDialogue(attempt, n0, todo[0].0, todo[0].1, attempts, logs);
      RunDialogueText(attempt, n0, todo[0].0, todo[0].1, attempts, logs);
      if d.transcript.Some? {
        var t := d.transcript.value;
        var rest := RunDialogues(attempt, d.calls, todo[1..], attempts, d.logs);
        RunDialoguesTranscripts(attempt, d.calls, todo[1..], attempts, d.logs);
        var logged := [t] + rest.logged;
        assert RunDialogues(attempt, n0, todo, attempts, logs).logged == logged;
        forall i | 0 <= i < |logged|
          ensures LoggedBy(attempt, todo[i], logged[i])
        {
          if i > 0 {
            assert todo[i] == todo[1..][i - 1] && logged[i] == rest.logged[i - 1];
          }
        }
      }
    }
  }

  /**
   * The model service never returns a reply that, once normalised into a
   * question or answer line, holds the sentinel. The resume count relies
   * on it: such a line would count as one more logged dialogue.
   */
  ghost predicate SafeReplies(respond: (nat, Query) -> Reply) {
    forall n: nat, q: Query ::
      !Contains(QuestionText(respond(n, q).text), Sentinel) && !Contains(AnswerText(respond(n, q).text), Sentinel)
  }

  /** Neither the target nor the candidate list of `entry` holds the sentinel. */
  predicate SafeEntry(entry: Entry) {
    !Contains(entry.target, Sentinel) && !Contains(CandidatesMessage(Join(entry.candidates, ", ")), Sentinel)
  }

  /**
   * With such replies and such an entry, every transcript an attempt
   * builds is a block of the text log: the sentinel line first, and no
   * other line holding it, since every other line starts with a label
   * without an asterisk.
   */
  lemma AttemptIsBlock(respond: (nat, Query) -> Reply, n0: nat, dialogueId: int, entry: Entry, stepwise: bool)
    requires SafeReplies(respond) && SafeEntry(entry)
    ensures IsBlock(Attempt(respond, n0, dialogueId, entry, stepwise).0.dialogue)
  {
    AttemptOutcome(respond, n0, dialogueId, entry, stepwise);
    SeedTranscript(entry, stepwise);
    ShapedIsBlock(respond, n0, dialogueId, entry, StartAttempt(entry, stepwise),
                  Attempt(respond, n0, dialogueId, entry, stepwise).0);
  }

  lemma ShapedIsBlock(respond: (nat, Query) -> Reply, n0: nat, dialogueId: int, entry: Entry,
                      seed: AttemptState, st: AttemptState)
    requires SafeReplies(respond) && SafeEntry(entry)
    requires seed.dialogue == SeedLines(entry) && Shaped(respond, n0, dialogueId, entry.target, seed, st)
    ensures IsBlock(st.dialogue)
  {
    SeedLinesSafe(entry);
    assert st.dialogue[0] == Sentinel by { assert st.dialogue[..3][0] == st.dialogue[0]; }
    forall j | 1 <= j < |st.dialogue|
      ensures !Contains(st.dialogue[j], Sentinel)
    {
      if j < 3 {
        assert st.dialogue[..3][j] == st.dialogue[j];
      } else {
        var i := (j - 3) / 2;
        assert HasTurn(st, i) && RowMatches(respond, n0, dialogueId, entry.target, st, i);
        TurnLinesSafe(respond, n0, dialogueId, entry.target, st, i);
      }
    }
  }

  /** The target and candidate lines of a safe entry do not hold the sentinel. */
  lemma SeedLinesSafe(entry: Entry)
    requires SafeEntry(entry)
    ensures IsBlock(SeedLines(entry))
  {
    PrefixKeepsAbsent("target = ", entry.target, Sentinel);
    PrefixKeepsAbsent("answerer: ", CandidatesMessage(Join(entry.candidates, ", ")), Sentinel);
  }

  /** The question and answer lines of a turn do not hold the sentinel when the replies are safe. */
  lemma TurnLinesSafe(respond: (nat, Query) -> Reply, n0: nat, dialogueId: int, target: string,
                      st: AttemptState, j: nat)
    requires SafeReplies(respond) && HasTurn(st, j) && RowMatches(respond, n0, dialogueId, target, st, j)
    ensures !Contains(st.dialogue[3 + 2 * j], Sentinel) && !Contains(st.dialogue[4 + 2 * j], Sentinel)
  {
    PrefixKeepsAbsent("questioner: ", st.rows[j].question, Sentinel);
    PrefixKeepsAbsent("answerer: ", st.rows[j].answer, Sentinel);
  }



  /** Every successful transcript of a safe entry is a block of the text log. */
  ghost predicate SafeAttempts(attempt: AttemptFn) {
    forall dialogueId, entry, n | SafeEntry(entry) :: IsBlock(attempt(dialogueId, entry, n).0.dialogue)
  }

  /** With safe replies, the attempts of a run only build blocks for safe entries. */
  lemma AttemptsSafe(respond: (nat, Query) -> Reply, stepwise: bool)
    requires SafeReplies(respond)
    ensures SafeAttempts(AttemptsOf(respond, stepwise))
  {
    forall dialogueId, entry, n | SafeEntry(entry)
      ensures IsBlock(Attempt(respond, n, dialogueId, entry, stepwise).0.dialogue)
    {
      AttemptIsBlock(respond, n, dialogueId, entry, stepwise);
    }
  }

  lemma SafeAttemptAt(attempt: AttemptFn, dialogueId: int, entry: Entry, n: nat)
    requires SafeAttempts(attempt) && SafeEntry(entry)
    ensures IsBlock(attempt(dialogueId, entry, n).0.dialogue)
  {
  }

  /** Each transcript logged for a safe entry is a block. */
  lemma LoggedAreBlocks(attempt: AttemptFn, todo: Dict<int, Entry>, logged: seq<seq<string>>)
    requires SafeAttempts(attempt) && |logged| <= |todo|
    requires forall i | 0 <= i < |todo| :: SafeEntry(todo[i].1)
    requires forall i | 0 <= i < |logged| :: LoggedBy(attempt, todo[i], logged[i])
    ensures forall t | t in logged :: IsBlock(t)
  {
    forall t | t in logged
      ensures IsBlock(t)
    {
      var i :| 0 <= i < |logged| && logged[i] == t;
      assert LoggedBy(attempt, todo[i], logged[i]);
      var n :| attempt(todo[i].0, todo[i].1, n).1 && attempt(todo[i].0, todo[i].1, n).0.dialogue == t;
      SafeAttemptAt(attempt, todo[i].0, todo[i].1, n);
    }
  }

  /** Neither the target nor the candidate list of any entry holds the sentinel. */
  predicate SafeEntries(todo: Dict<int, Entry>) {
    forall i | 0 <= i < |todo| :: SafeEntry(todo[i].1)
  }

  /**
   * A run can resume from `text`: the dialogues are keyed positionally,
   * and the text log holds the transcripts `prev` of the first `|prev|`
   * of them as blocks, or does not exist and none was done.
   */
  predicate CanResume(todo: Dict<int, Entry>, prev: seq<seq<string>>, text: Option<string>) {
    && Positional(todo) && |prev| <= |todo| && (forall t | t in prev :: IsBlock(t))
    && ((text == None && prev == []) || text == Some(Blocks(prev)))
  }

  /**
   * After the run `r`, which went on from `prev`: the text log holds
   * `prev` and then the transcripts `r` logged, each that of a successful
   * attempt at the next dialogue in order; the next run would go on right
   * after the last dialogue logged; and `r` finished exactly when every
   * dialogue is logged.
   */
  ghost predicate Resumed(attempt: AttemptFn, todo: Dict<int, Entry>, prev: seq<seq<string>>, r: RunResult) {
    && |prev| + |r.logged| <= |todo|
    && Contents(r.logs.text) == Blocks(prev + r.logged)
    && (forall i | 0 <= i < |r.logged| :: LoggedBy(attempt, todo[|prev| + i], r.logged[i]))
    && ResumeFilter(r.logs.text, todo) == todo[|prev| + |r.logged|..]
    && (r.finished <==> |prev| + |r.logged| == |todo|)
  }

  /**
   * Resuming: a run from a text log holding the first `|prev|`
   * transcripts skips exactly those dialogues and leaves a log from which
   * the next run resumes right after the last dialogue it logged.
   */
  lemma RunResumes(attempt: AttemptFn, n0: nat, todo: Dict<int, Entry>, prev: seq<seq<string>>,
                   text: Option<string>, csv: seq<CsvRow>, attempts: nat)
    requires WellFormedAttempts(attempt) && SafeAttempts(attempt)
    requires SafeEntries(todo) && CanResume(todo, prev, text)
    ensures Resumed(attempt, todo, prev, RunDialogues(attempt, n0, ResumeFilter(text, todo), attempts, Logs(csv, text)))
  {
    ResumeAfterBlocks(prev, todo);
    var pending := todo[|prev|..];
    assert ResumeFilter(text, todo) == pending;
    ResumesFrom(attempt, n0, todo, prev, pending, Logs(csv, text), attempts);
  }

  /** `RunResumes` once the pending dialogues are known to be those after `prev`. */
  lemma ResumesFrom(attempt: AttemptFn, n0: nat, todo: Dict<int, Entry>, prev: seq<seq<string>>,
                    pending: Dict<int, Entry>, logs: Logs, attempts: nat)
    requires WellFormedAttempts(attempt) && SafeAttempts(attempt)
    requires SafeEntries(todo) && CanResume(todo, prev, logs.text)
    requires pending == todo[|prev|..]
    ensures Resumed(attempt, todo, prev, RunDialogues(attempt, n0, pending, attempts, logs))
  {
    RunDialoguesProgress(attempt, n0, pending, attempts, logs);
    RunDialoguesText(attempt, n0, pending, attempts, logs);
    RunDialoguesTranscripts(attempt, n0, pending, attempts, logs);
    ResumedBy(attempt, todo, prev, pending, logs.text, RunDialogues(attempt, n0, pending, attempts, logs));
  }

  /** What a run over the pending dialogues is known to do, gathered into `Resumed`. */
  lemma ResumedBy(attempt: AttemptFn, todo: Dict<int, Entry>, prev: seq<seq<string>>, pending: Dict<int, Entry>,
                  text: Option<string>, r: RunResult)
    requires SafeAttempts(attempt) && SafeEntries(todo) && CanResume(todo, prev, text)
    requires pending == todo[|prev|..]
    requires |r.logged| <= |pending| && (r.finished <==> |r.logged| == |pending|)
    requires Contents(r.logs.text) == Contents(text) + Blocks(r.logged)
    requires (r.logged == [] ==> r.logs.text == text) && (r.logged != [] ==> r.logs.text.Some?)
    requires forall i | 0 <= i < |r.logged| :: LoggedBy(attempt, pending[i], r.logged[i])
    ensures Resumed(attempt, todo, prev, r)
  {
    forall i | 0 <= i < |r.logged|
      ensures LoggedBy(attempt, todo[|prev| + i], r.logged[i])
    {
      assert pending[i] == todo[|prev| + i];
    }
    LoggedAreBlocks(attempt, pending, r.logged);
    ResumeAfterRun(todo, prev, text, r);
  }
  lemma ResumeAfterRun(todo: Dict<int, Entry>, prev: seq<seq<string>>, text: Option<string>, r: RunResult)
    requires Positional(todo) && |prev| + |r.logged| <= |todo|
    requires forall t | t in prev :: IsBlock(t)
    requires forall t | t in r.logged :: IsBlock(t)
    requires (text == None && prev == []) || text == Some(Blocks(prev))
    requires Contents(r.logs.text) == Contents(text) + Blocks(r.logged)
    requires (r.logged == [] ==> r.logs.text == text) && (r.logged != [] ==> r.logs.text.Some?)
    ensures Contents(r.logs.text) == Blocks(prev + r.logged)
    ensures ResumeFilter(r.logs.text, todo) == todo[|prev| + |r.logged|..]
  {
    BlocksAppend(prev, r.logged);
    var all := prev + r.logged;
    if r.logged == [] {
      assert all == prev;
      ResumeAfterBlocks(prev, todo);
      if text.None? {
        assert todo[|prev| + |r.logged|..] == todo;
      }
    } else {
      assert r.logs.text == Some(Blocks(all));
      assert forall t | t in all :: t in prev || t in r.logged;
      ResumeAfterBlocks(all, todo);
    }
  }

  /**
   * `generate_dialogues_openai` resumes where the text log left off: with
   * replies and entries that never hold the sentinel, a run on a text log
   * holding the first `|prev|` transcripts goes on with dialogue `|prev|`,
   * and the next run on its logs goes on right after the last dialogue it
   * logged.
   */
  lemma GenerateResumes(respond: (nat, Query) -> Reply, calls: nat, gameSet: string, todo: Dict<int, Entry>,
                        prev: seq<seq<string>>, logs: Logs, attempts: nat)
    requires SafeReplies(respond) && SafeEntries(todo) && CanResume(todo, prev, logs.text)
    ensures Resumed(AttemptsOf(respond, Contains(gameSet, StepwiseTag)), todo, prev,
                    Generate(respond, calls, gameSet, todo, logs, attempts))
  {
    var stepwise := Contains(gameSet, StepwiseTag);
    AttemptsWellFormed(respond, stepwise);
    AttemptsSafe(respond, stepwise);
    RunResumes(AttemptsOf(respond, stepwise), calls, todo, prev, logs.text, logs.csv + [HeaderRow(CsvHeader)], attempts);
  }
}
