/**
 * The Turn Executor and the Dialogue Controller of
 * `generate_dialogues_openai`, as functions of the model service's replies:
 * one turn, one attempt of at most twenty turns, the retries of a dialogue,
 * and a whole run over the pending dialogues. The imperative controller in
 * module Generator is proved to do exactly what these functions say.
 *
 * `model.ask` is a black box: it is given as `respond(n, query)`, the reply
 * to the query made as the n-th call of the run (counting from 0).
 */
module Dialogues {
  import opened Options
  import opened Text
  import opened Prompts
  import opened Candidates
  import opened TextLog

  /** What every query to the model starts with. */
  const QueryPrefix: string := "This is the current dialogue: "
  /** At most this many turns per attempt (`range(20)`). */
  const TurnCap: nat := 20
  /** The temperature of every oracle call; questioner calls give none. */
  const OracleTemperature: real := 0.1

  /** The uncertainty scores the model wrapper reports with each output; opaque here. */
  datatype Metrics = Metrics(confidence: real, observedConsistency: real, selfReportedCertainty: real)

  /** One call of `model.ask`: the question text, the message history, the temperature if given. */
  datatype Query = Query(question: string, history: seq<Message>, temperature: Option<real>)

  /** What one call yields: the output text, its metrics, and the time it took in milliseconds. */
  datatype Reply = Reply(text: string, metrics: Metrics, elapsedMs: int)

  /** One row of the tabular log. */
  datatype TurnRecord = TurnRecord(
    dialogueId: int, intraDialogueId: nat, target: string, question: string, answer: string,
    questionMetrics: Metrics, answerMetrics: Metrics, questionTimeMs: int, answerTimeMs: int)

  /** A written row of the tabular log: the header or a turn. */
  datatype CsvRow = HeaderRow(names: seq<string>) | TurnRow(turn: TurnRecord)

  /**
   * `csv_header` as written: two missing commas make Python fuse three
   * adjacent literals into one name, so the header has 11 names.
   */
  const CsvHeader: seq<string> := [
    "dialogue_id",
    "intra_dialogue_id" + "target" + "question",
    "answer",
    "question_confidence",
    "question_observed_consistency",
    "question_self_reflection",
    "answer_confidence",
    "answer_observed_consistency",
    "answer_self_reflection",
    "question_time",
    "answer_time"
  ]

  /** A cell of a written row. */
  datatype Cell = Str(s: string) | Number(n: int) | Score(x: real)

  /** The cells `writerow` receives for a turn, in column order. */
  function Cells(r: TurnRecord): seq<Cell> {
    [Number(r.dialogueId), Number(r.intraDialogueId), Str(r.target), Str(r.question), Str(r.answer),
     Score(r.questionMetrics.confidence), Score(r.questionMetrics.observedConsistency),
     Score(r.questionMetrics.selfReportedCertainty),
     Score(r.answerMetrics.confidence), Score(r.answerMetrics.observedConsistency),
     Score(r.answerMetrics.selfReportedCertainty),
     Number(r.questionTimeMs), Number(r.answerTimeMs)]
  }

  /** The header names two columns fewer than every turn row holds. */
  lemma HeaderNarrowerThanRows(r: TurnRecord)
    ensures |CsvHeader| == 11 && |Cells(r)| == 13
    ensures CsvHeader[1] == "intra_dialogue_idtargetquestion"
  {
  }

  /** The question as written to the transcript and the tabular log. */
  function QuestionText(raw: string): string {
    Strip(CollapseNewlineRuns(raw))
  }

  /** The answer as written to the transcript and the tabular log. */
  function AnswerText(raw: string): string {
    Strip(NewlinesToSpaces(raw))
  }

  /** `strip()` keeps a text free of line feeds. */
  lemma StripKeepsNoNewline(s: string)
    requires NoNewline(s)
    ensures NoNewline(Strip(s))
  {
    StripSpec(s);
    var r := Strip(s);
    var n := LeadingSpaces(s);
    forall k | 0 <= k < |r|
      ensures r[k] != '\n'
    {
      assert r[k] == s[n + k];
    }
  }

  /** The question and answer lines of the transcript never span two lines of the text log. */
  lemma LoggedTextsOneLine(raw: string)
    ensures NoNewline(QuestionText(raw)) && NoNewline(AnswerText(raw))
  {
    CollapseLeavesNoNewline(raw);
    StripKeepsNoNewline(CollapseNewlineRuns(raw));
    NewlinesToSpacesLeavesNoNewline(raw);
    StripKeepsNoNewline(NewlinesToSpaces(raw));
  }

  /**
   * The question handed to the oracle's conversation: the text after the
   * first `QUESTION:` up to the next one, stripped; without the marker,
   * the raw output as it is, not stripped.
   */
  function ExtractQuestion(raw: string): string {
    var pieces := Split(raw, QuestionMarker);
    if |pieces| >= 2 then Strip(pieces[1]) else raw
  }

  /**
   * `split("QUESTION:")[1].strip()` is the stripped text between the first
   * and the second marker (or the end); without a marker, the fallback of
   * the `IndexError` handler keeps the raw output untouched.
   */
  lemma ExtractQuestionSpec(raw: string)
    ensures !Contains(raw, QuestionMarker) ==> ExtractQuestion(raw) == raw
    ensures Contains(raw, QuestionMarker) ==>
      var i := Find(raw, QuestionMarker).value;
      var rest := raw[i + |QuestionMarker|..];
      ExtractQuestion(raw) == Strip(match Find(rest, QuestionMarker) case None => rest case Some(j) => rest[..j])
  {
    ContainsFind(raw, QuestionMarker);
    SplitFirstPieces(raw, QuestionMarker);
  }

  /** `"correct" in out.lower() and "yes" in out.lower()`: the oracle confirmed the guess. */
  predicate IsTerminal(raw: string) {
    Contains(Lower(raw), "correct") && Contains(Lower(raw), "yes")
  }

  /** `"This is the current dialogue: " + "\n".join(dialogue[2:])`. */
  function DialogueQuery(dialogue: seq<string>): string
    requires |dialogue| >= 2
  {
    QueryPrefix + Join(dialogue[2..], "\n")
  }

  /** Everything one attempt has built so far. */
  datatype AttemptState = AttemptState(
    dialogue: seq<string>,      // the transcript lines
    questioner: seq<Message>,   // the questioner's conversation
    oracle: seq<Message>,       // the oracle's conversation
    rows: seq<TurnRecord>,      // the rows this attempt has logged
    queries: seq<Query>)        // the calls this attempt has made

  /** The attempt state right after the prompts are built and before the first turn. */
  function StartAttempt(entry: Entry, stepwise: bool): (st: AttemptState)
    ensures |st.dialogue| == 3 && |st.questioner| == 2 && |st.oracle| == 1
    ensures (st.questioner, st.oracle) == GetPrompts(Join(entry.candidates, ", "), entry.target, stepwise)
    ensures st.rows == [] && st.queries == []
  {
    var prompts := GetPrompts(Join(entry.candidates, ", "), entry.target, stepwise);
    var questioner := prompts.0;
    AttemptState(
      [Sentinel, "target = " + entry.target, "answerer: " + Strip(questioner[|questioner| - 1].content)],
      questioner, prompts.1, [], [])
  }

  /** The state has its seed lines and messages. */
  predicate Started(st: AttemptState) {
    |st.dialogue| >= 2 && |st.questioner| >= 1 && |st.oracle| >= 1
  }

  /** The state `st` after one more turn, given that turn's two lines, four messages, row and two queries. */
  function Appended(st: AttemptState, questionLine: string, answerLine: string,
                    questionerOut: Message, questionerIn: Message, oracleIn: Message, oracleOut: Message,
                    row: TurnRecord, askQuestion: Query, askAnswer: Query): AttemptState
  {
    AttemptState((st.dialogue + [questionLine]) + [answerLine],
                 (st.questioner + [questionerOut]) + [questionerIn],
                 (st.oracle + [oracleIn]) + [oracleOut],
                 st.rows + [row], st.queries + [askQuestion, askAnswer])
  }

  /**
   * Turn `intraId` of an attempt: ask the questioner, extract its question,
   * ask the oracle, extend the transcript, both conversations and the log.
   * `calls` counts the model calls made before this turn. The question and
   * answer logged are the questioner's last message read back and
   * stripped, which is `QuestionText` and `AnswerText` of the outputs. The
   * boolean says whether the oracle's reply ends the dialogue.
   */
  function Turn(respond: (nat, Query) -> Reply, calls: nat, dialogueId: int, target: string,
                intraId: nat, st: AttemptState): (AttemptState, bool)
    requires Started(st)
  {
    var askQuestion := Query(DialogueQuery(st.dialogue), [st.questioner[0]], None);
    var q := respond(calls, askQuestion);
    var questionLine := "questioner: " + QuestionText(q.text);
    var askAnswer := Query(DialogueQuery(st.dialogue + [questionLine]), [st.oracle[0]], Some(OracleTemperature));
    var a := respond(calls + 1, askAnswer);
    var row := TurnRecord(dialogueId, intraId, target, QuestionText(q.text), AnswerText(a.text),
                          q.metrics, a.metrics, q.elapsedMs, a.elapsedMs);
    (Appended(st, questionLine, "answerer: " + AnswerText(a.text),
              Message(Assistant, CollapseNewlineRuns(q.text)), Message(User, NewlinesToSpaces(a.text)),
              Message(User, ExtractQuestion(q.text)), Message(Assistant, a.text),
              row, askQuestion, askAnswer),
     IsTerminal(a.text))
  }

  /** Turn `i` of an attempt begun after `n0` calls, for any state; a state without its seed lines cannot arise. */
  function TurnOf(respond: (nat, Query) -> Reply, n0: nat, dialogueId: int, target: string)
    : (nat, AttemptState) -> (AttemptState, bool)
  {
    (i: nat, st: AttemptState) =>
      if Started(st) then Turn(respond, n0 + |st.queries|, dialogueId, target, i, st) else (st, false)
  }

  /** Turns `i`, `i + 1`, ... of an attempt, up to the first that ends it or the cap. */
  function RunTurns(turn: (nat, AttemptState) -> (AttemptState, bool), i: nat, st: AttemptState): (AttemptState, bool)
    requires i <= TurnCap
    decreases TurnCap - i
  {
    if i == TurnCap then (st, false)
    else
      var next := turn(i, st);
      if next.1 then next else RunTurns(turn, i + 1, next.0)
  }

  /**
   * `turn` behaves as the turns of an attempt begun after `n0` calls. The
   * trigger keeps the definition of `Turn` out of proofs that only pass
   * such a function along.
   */
  ghost predicate TurnsAre(turn: (nat, AttemptState) -> (AttemptState, bool), respond: (nat, Query) -> Reply,
                           n0: nat, dialogueId: int, target: string)
  {
    && (forall i: nat, st: AttemptState, calls: nat {:trigger Turn(respond, calls, dialogueId, target, i, st)} ::
          Started(st) && calls == n0 + |st.queries| ==> turn(i, st) == Turn(respond, calls, dialogueId, target, i, st))
    && (forall i: nat, st: AttemptState :: !Started(st) ==> turn(i, st) == (st, false))
  }

  lemma TurnOfAre(respond: (nat, Query) -> Reply, n0: nat, dialogueId: int, target: string)
    ensures TurnsAre(TurnOf(respond, n0, dialogueId, target), respond, n0, dialogueId, target)
  {
    var turn := TurnOf(respond, n0, dialogueId, target);
    forall i: nat, st: AttemptState, calls: nat | Started(st) && calls == n0 + |st.queries|
      ensures turn(i, st) == Turn(respond, calls, dialogueId, target, i, st)
    {
    }
    forall i: nat, st: AttemptState | !Started(st)
      ensures turn(i, st) == (st, false)
    {
    }
  }

  /** The turns of an attempt run alike with any function that behaves as them. */
  lemma RunTurnsAs(turn: (nat, AttemptState) -> (AttemptState, bool), respond: (nat, Query) -> Reply,
                   n0: nat, dialogueId: int, target: string, st: AttemptState)
    requires TurnsAre(turn, respond, n0, dialogueId, target)
    ensures RunTurns(turn, 0, st) == RunTurns(TurnOf(respond, n0, dialogueId, target), 0, st)
  {
    var other := TurnOf(respond, n0, dialogueId, target);
    forall i: nat, s: AttemptState
      ensures turn(i, s) == other(i, s)
    {
      if Started(s) {
        assert other(i, s) == Turn(respond, n0 + |s.queries|, dialogueId, target, i, s);
      }
    }
    RunTurnsSame(turn, other, 0, st);
  }

  /** The turns of an attempt depend only on what each turn returns. */
  lemma {:induction false} RunTurnsSame(a: (nat, AttemptState) -> (AttemptState, bool),
                                        b: (nat, AttemptState) -> (AttemptState, bool), i: nat, st: AttemptState)
    requires i <= TurnCap
    requires forall j: nat, s: AttemptState :: a(j, s) == b(j, s)
    decreases TurnCap - i
    ensures RunTurns(a, i, st) == RunTurns(b, i, st)
  {
    if i < TurnCap {
      var next := a(i, st);
      if !next.1 {
        RunTurnsSame(a, b, i + 1, next.0);
      }
    }
  }

  /** One attempt at dialogue `dialogueId`, begun after `n0` model calls: its final state and whether it succeeded. */
  function Attempt(respond: (nat, Query) -> Reply, n0: nat, dialogueId: int, entry: Entry, stepwise: bool)
    : (AttemptState, bool)
  {
    RunTurns(TurnOf(respond, n0, dialogueId, entry.target), 0, StartAttempt(entry, stepwise))
  }

  /** `st` holds turn `j`. */
  predicate HasTurn(st: AttemptState, j: nat) {
    2 * j + 2 <= |st.queries| && 5 + 2 * j <= |st.dialogue| && j < |st.rows|
    && 4 + 2 * j <= |st.questioner| && 3 + 2 * j <= |st.oracle|
  }

  /** Every part of `st` is a prefix of the same part of `next`. */
  predicate Extends(st: AttemptState, next: AttemptState) {
    st.dialogue <= next.dialogue && st.questioner <= next.questioner && st.oracle <= next.oracle
    && st.rows <= next.rows && st.queries <= next.queries
  }

  lemma ExtendsTransitive(a: AttemptState, b: AttemptState, c: AttemptState)
    requires Extends(a, b) && Extends(b, c)
    ensures Extends(a, c)
  {
    assert a.dialogue <= c.dialogue by { assert c.dialogue[..|a.dialogue|] == b.dialogue[..|a.dialogue|]; }
    assert a.questioner <= c.questioner by { assert c.questioner[..|a.questioner|] == b.questioner[..|a.questioner|]; }
    assert a.oracle <= c.oracle by { assert c.oracle[..|a.oracle|] == b.oracle[..|a.oracle|]; }
    assert a.rows <= c.rows by { assert c.rows[..|a.rows|] == b.rows[..|a.rows|]; }
    assert a.queries <= c.queries by { assert c.queries[..|a.queries|] == b.queries[..|a.queries|]; }
  }

  /** How the new turn shows in the grown state. */
  lemma AppendedView(st: AttemptState, questionLine: string, answerLine: string,
                     questionerOut: Message, questionerIn: Message, oracleIn: Message, oracleOut: Message,
                     row: TurnRecord, askQuestion: Query, askAnswer: Query)
    requires |st.queries| == 2 * |st.rows| && |st.dialogue| == 3 + 2 * |st.rows|
    requires |st.questioner| == 2 + 2 * |st.rows| && |st.oracle| == 1 + 2 * |st.rows|
    ensures var next := Appended(st, questionLine, answerLine, questionerOut, questionerIn, oracleIn, oracleOut,
                                 row, askQuestion, askAnswer);
      var k := |st.rows|;
      && Extends(st, next) && HasTurn(next, k)
      && next.dialogue[..3 + 2 * k] == st.dialogue
      && next.dialogue[..4 + 2 * k] == st.dialogue + [questionLine]
      && next.dialogue[3 + 2 * k] == questionLine && next.dialogue[4 + 2 * k] == answerLine
      && next.queries[2 * k] == askQuestion && next.queries[2 * k + 1] == askAnswer
      && next.questioner[2 + 2 * k] == questionerOut && next.questioner[3 + 2 * k] == questionerIn
      && next.oracle[1 + 2 * k] == oracleIn && next.oracle[2 + 2 * k] == oracleOut && next.rows[k] == row
      && |next.queries| == |st.queries| + 2 && |next.dialogue| == |st.dialogue| + 2
      && |next.questioner| == |st.questioner| + 2 && |next.oracle| == |st.oracle| + 2
  {
    var next := Appended(st, questionLine, answerLine, questionerOut, questionerIn, oracleIn, oracleOut,
                         row, askQuestion, askAnswer);
    var k := |st.rows|;
    assert next.dialogue[..3 + 2 * k] == st.dialogue;
  }

  /** The oracle output of turn `j`, as the oracle's conversation keeps it. */
  function OracleOutput(st: AttemptState, j: nat): string
    requires 2 + 2 * j < |st.oracle|
  {
    st.oracle[2 + 2 * j].content
  }

  /**
   * Turn `j` of `st` matches its row and its two calls: the row is
   * numbered `j`, carries the dialogue's id and target, and holds the
   * question and answer of the turn's two transcript lines, which are the
   * normalised replies, and the metrics and times the two replies came
   * with; each call asks about the transcript so far and carries only the
   * role's system message.
   */
  predicate RowMatches(respond: (nat, Query) -> Reply, n0: nat, dialogueId: int, target: string,
                       st: AttemptState, j: nat)
    requires HasTurn(st, j)
  {
    var row := st.rows[j];
    && row.dialogueId == dialogueId && row.intraDialogueId == j && row.target == target
    && st.dialogue[3 + 2 * j] == "questioner: " + row.question
    && st.dialogue[4 + 2 * j] == "answerer: " + row.answer
    && row.question == QuestionText(respond(n0 + 2 * j, st.queries[2 * j]).text)
    && st.queries[2 * j] == Query(DialogueQuery(st.dialogue[..3 + 2 * j]), [st.questioner[0]], None)
    && st.queries[2 * j + 1] == Query(DialogueQuery(st.dialogue[..4 + 2 * j]), [st.oracle[0]], Some(OracleTemperature))
    && respond(n0 + 2 * j + 1, st.queries[2 * j + 1]).text == OracleOutput(st, j)
    && row.answer == AnswerText(OracleOutput(st, j))
    && row.questionMetrics == respond(n0 + 2 * j, st.queries[2 * j]).metrics
    && row.questionTimeMs == respond(n0 + 2 * j, st.queries[2 * j]).elapsedMs
    && row.answerMetrics == respond(n0 + 2 * j + 1, st.queries[2 * j + 1]).metrics
    && row.answerTimeMs == respond(n0 + 2 * j + 1, st.queries[2 * j + 1]).elapsedMs
  }

  /**
   * `st` grew from `seed` by `|st.rows|` turns of an attempt begun after
   * `n0` calls: per turn two transcript lines, two calls, two messages per
   * conversation and one row, which matches its turn.
   */
  predicate Shaped(respond: (nat, Query) -> Reply, n0: nat, dialogueId: int, target: string,
                   seed: AttemptState, st: AttemptState)
  {
    var k := |st.rows|;
    && |st.queries| == 2 * k && |st.dialogue| == 3 + 2 * k
    && |st.questioner| == 2 + 2 * k && |st.oracle| == 1 + 2 * k
    && st.dialogue[..3] == seed.dialogue && st.questioner[..2] == seed.questioner && st.oracle[..1] == seed.oracle
    && forall j | 0 <= j < k :: HasTurn(st, j) && RowMatches(respond, n0, dialogueId, target, st, j)
  }

  /** Turn `j`'s oracle output confirms the guess. */
  predicate ConfirmedAt(st: AttemptState, j: nat)
    requires 2 + 2 * j < |st.oracle|
  {
    IsTerminal(OracleOutput(st, j))
  }

  /** A turn appends two lines, two calls, two messages per conversation and a row that matches it. */
  lemma NewTurnMatches(respond: (nat, Query) -> Reply, n0: nat, dialogueId: int, target: string, st: AttemptState)
    requires Started(st)
    requires |st.queries| == 2 * |st.rows| && |st.dialogue| == 3 + 2 * |st.rows|
    requires |st.questioner| == 2 + 2 * |st.rows| && |st.oracle| == 1 + 2 * |st.rows|
    ensures var next := Turn(respond, n0 + |st.queries|, dialogueId, target, |st.rows|, st);
      && Extends(st, next.0) && |next.0.rows| == |st.rows| + 1
      && |next.0.queries| == |st.queries| + 2 && |next.0.dialogue| == |st.dialogue| + 2
      && |next.0.questioner| == |st.questioner| + 2 && |next.0.oracle| == |st.oracle| + 2
      && HasTurn(next.0, |st.rows|) && RowMatches(respond, n0, dialogueId, target, next.0, |st.rows|)
      && (next.1 <==> ConfirmedAt(next.0, |st.rows|))
  {
    var k := |st.rows|;
    var calls := n0 + |st.queries|;
    var askQuestion := Query(DialogueQuery(st.dialogue), [st.questioner[0]], None);
    var q := respond(calls, askQuestion);
    var questionLine := "questioner: " + QuestionText(q.text);
    var askAnswer := Query(DialogueQuery(st.dialogue + [questionLine]), [st.oracle[0]], Some(OracleTemperature));
    var a := respond(calls + 1, askAnswer);
    var row := TurnRecord(dialogueId, k, target, QuestionText(q.text), AnswerText(a.text),
                          q.metrics, a.metrics, q.elapsedMs, a.elapsedMs);
    var next := Appended(st, questionLine, "answerer: " + AnswerText(a.text),
                         Message(Assistant, CollapseNewlineRuns(q.text)), Message(User, NewlinesToSpaces(a.text)),
                         Message(User, ExtractQuestion(q.text)), Message(Assistant, a.text), row, askQuestion, askAnswer);
    assert Turn(respond, calls, dialogueId, target, k, st) == (next, IsTerminal(a.text));
    AppendedMatches(respond, n0, dialogueId, target, st, questionLine, "answerer: " + AnswerText(a.text),
                    Message(Assistant, CollapseNewlineRuns(q.text)), Message(User, NewlinesToSpaces(a.text)),
                    Message(User, ExtractQuestion(q.text)), Message(Assistant, a.text), row, askQuestion, askAnswer);
  }

  /**
   * The messages a turn appends: to the questioner's conversation, its own
   * output with each run of line feeds collapsed, then the oracle's output
   * with each line feed replaced; to the oracle's, the question extracted
   * from the questioner's output, then its own output as it came.
   */
  lemma TurnMessages(respond: (nat, Query) -> Reply, n0: nat, dialogueId: int, target: string, st: AttemptState)
    requires Started(st)
    requires |st.queries| == 2 * |st.rows| && |st.dialogue| == 3 + 2 * |st.rows|
    requires |st.questioner| == 2 + 2 * |st.rows| && |st.oracle| == 1 + 2 * |st.rows|
    ensures var next := Turn(respond, n0 + |st.queries|, dialogueId, target, |st.rows|, st).0;
      var k := |st.rows|;
      && |next.queries| == 2 * k + 2 && |next.questioner| == 2 * k + 4 && |next.oracle| == 2 * k + 3
      && var q := respond(n0 + 2 * k, next.queries[2 * k]).text;
         var a := respond(n0 + 2 * k + 1, next.queries[2 * k + 1]).text;
         && next.questioner[2 + 2 * k] == Message(Assistant, CollapseNewlineRuns(q))
         && next.questioner[3 + 2 * k] == Message(User, NewlinesToSpaces(a))
         && next.oracle[1 + 2 * k] == Message(User, ExtractQuestion(q))
         && next.oracle[2 + 2 * k] == Message(Assistant, a)
  {
    var k := |st.rows|;
    var calls := n0 + |st.queries|;
    var askQuestion := Query(DialogueQuery(st.dialogue), [st.questioner[0]], None);
    var q := respond(calls, askQuestion);
    var questionLine := "questioner: " + QuestionText(q.text);
    var askAnswer := Query(DialogueQuery(st.dialogue + [questionLine]), [st.oracle[0]], Some(OracleTemperature));
    var a := respond(calls + 1, askAnswer);
    var row := TurnRecord(dialogueId, k, target, QuestionText(q.text), AnswerText(a.text),
                          q.metrics, a.metrics, q.elapsedMs, a.elapsedMs);
    var next := Appended(st, questionLine, "answerer: " + AnswerText(a.text),
                         Message(Assistant, CollapseNewlineRuns(q.text)), Message(User, NewlinesToSpaces(a.text)),
                         Message(User, ExtractQuestion(q.text)), Message(Assistant, a.text), row, askQuestion, askAnswer);
    assert Turn(respond, calls, dialogueId, target, k, st) == (next, IsTerminal(a.text));
    AppendedView(st, questionLine, "answerer: " + AnswerText(a.text),
                 Message(Assistant, CollapseNewlineRuns(q.text)), Message(User, NewlinesToSpaces(a.text)),
                 Message(User, ExtractQuestion(q.text)), Message(Assistant, a.text), row, askQuestion, askAnswer);
  }

  /** The appended turn matches its row when the row, the lines and the call agree. */
  lemma AppendedMatches(respond: (nat, Query) -> Reply, n0: nat, dialogueId: int, target: string,
                        st: AttemptState, questionLine: string, answerLine: string,
                        questionerOut: Message, questionerIn: Message, oracleIn: Message, oracleOut: Message,
                        row: TurnRecord, askQuestion: Query, askAnswer: Query)
    requires |st.queries| == 2 * |st.rows| && |st.dialogue| == 3 + 2 * |st.rows|
    requires |st.questioner| == 2 + 2 * |st.rows| && |st.oracle| == 1 + 2 * |st.rows|
    requires row.dialogueId == dialogueId && row.intraDialogueId == |st.rows| && row.target == target
    requires questionLine == "questioner: " + row.question && answerLine == "answerer: " + row.answer
    requires row.question == QuestionText(respond(n0 + |st.queries|, askQuestion).text)
    requires askQuestion == Query(DialogueQuery(st.dialogue), [st.questioner[0]], None)
    requires askAnswer == Query(DialogueQuery(st.dialogue + [questionLine]), [st.oracle[0]], Some(OracleTemperature))
    requires respond(n0 + |st.queries| + 1, askAnswer).text == oracleOut.content
    requires row.answer == AnswerText(oracleOut.content)
    requires row.questionMetrics == respond(n0 + |st.queries|, askQuestion).metrics
    requires row.questionTimeMs == respond(n0 + |st.queries|, askQuestion).elapsedMs
    requires row.answerMetrics == respond(n0 + |st.queries| + 1, askAnswer).metrics
    requires row.answerTimeMs == respond(n0 + |st.queries| + 1, askAnswer).elapsedMs
    ensures var next := Appended(st, questionLine, answerLine, questionerOut, questionerIn, oracleIn, oracleOut,
                                 row, askQuestion, askAnswer);
      && Extends(st, next) && |next.rows| == |st.rows| + 1
      && |next.queries| == |st.queries| + 2 && |next.dialogue| == |st.dialogue| + 2
      && |next.questioner| == |st.questioner| + 2 && |next.oracle| == |st.oracle| + 2
      && HasTurn(next, |st.rows|) && RowMatches(respond, n0, dialogueId, target, next, |st.rows|)
      && (ConfirmedAt(next, |st.rows|) <==> IsTerminal(oracleOut.content))
  {
    AppendedView(st, questionLine, answerLine, questionerOut, questionerIn, oracleIn, oracleOut, row, askQuestion, askAnswer);
  }

  /** A turn appends one matching turn to a shaped state, and ends the attempt exactly when it confirms the guess. */
  lemma TurnShaped(respond: (nat, Query) -> Reply, n0: nat, dialogueId: int, target: string,
                   seed: AttemptState, st: AttemptState)
    requires Shaped(respond, n0, dialogueId, target, seed, st)
    ensures Started(st)
    ensures var next := Turn(respond, n0 + |st.queries|, dialogueId, target, |st.rows|, st);
      && Shaped(respond, n0, dialogueId, target, seed, next.0)
      && Extends(st, next.0) && |next.0.rows| == |st.rows| + 1
      && (next.1 <==> ConfirmedAt(next.0, |st.rows|))
  {
    NewTurnMatches(respond, n0, dialogueId, target, st);
    var next := Turn(respond, n0 + |st.queries|, dialogueId, target, |st.rows|, st);
    assert next.0.rows == st.rows + [next.0.rows[|st.rows|]];
    AppendedShaped(respond, n0, dialogueId, target, seed, st, next.0, next.0.rows[|st.rows|]);
  }

  /** Appending a turn whose row, lines and oracle output agree keeps a state shaped. */
  lemma AppendedShaped(respond: (nat, Query) -> Reply, n0: nat, dialogueId: int, target: string,
                       seed: AttemptState, st: AttemptState, next: AttemptState, row: TurnRecord)
    requires Shaped(respond, n0, dialogueId, target, seed, st)
    requires Extends(st, next) && next.rows == st.rows + [row]
    requires |next.queries| == |st.queries| + 2 && |next.dialogue| == |st.dialogue| + 2
    requires |next.questioner| == |st.questioner| + 2 && |next.oracle| == |st.oracle| + 2
    requires HasTurn(next, |st.rows|) && RowMatches(respond, n0, dialogueId, target, next, |st.rows|)
    ensures Shaped(respond, n0, dialogueId, target, seed, next)
  {
    var k := |st.rows|;
    forall j | 0 <= j < k + 1
      ensures HasTurn(next, j) && RowMatches(respond, n0, dialogueId, target, next, j)
    {
      if j < k {
        ExtendsKeepsTurn(respond, n0, dialogueId, target, st, next, j);
      }
    }
    assert next.dialogue[..3] == st.dialogue[..3];
    assert next.questioner[..2] == st.questioner[..2];
    assert next.oracle[..1] == st.oracle[..1];
  }

  /** A turn already in a state keeps its row and its lines in any extension of it. */
  lemma ExtendsKeepsTurn(respond: (nat, Query) -> Reply, n0: nat, dialogueId: int, target: string,
                         st: AttemptState, next: AttemptState, j: nat)
    requires HasTurn(st, j) && RowMatches(respond, n0, dialogueId, target, st, j)
    requires Extends(st, next)
    ensures HasTurn(next, j) && RowMatches(respond, n0, dialogueId, target, next, j)
  {
    assert next.rows[j] == st.rows[j] && next.queries[2 * j + 1] == st.queries[2 * j + 1];
    assert next.queries[2 * j] == st.queries[2 * j];
    assert next.dialogue[..3 + 2 * j] == st.dialogue[..3 + 2 * j] && next.dialogue[..4 + 2 * j] == st.dialogue[..4 + 2 * j];
    assert next.questioner[0] == st.questioner[0] && next.oracle[0] == st.oracle[0];
    assert next.dialogue[3 + 2 * j] == st.dialogue[3 + 2 * j] && next.dialogue[4 + 2 * j] == st.dialogue[4 + 2 * j];
    assert next.oracle[2 + 2 * j] == st.oracle[2 + 2 * j];
  }

  /** Whether a turn confirmed the guess stays as the attempt grows. */
  lemma ConfirmedStays(st: AttemptState, next: AttemptState, k: nat)
    requires Extends(st, next) && 2 * k <= |st.oracle| - 1
    ensures forall j | 0 <= j < k :: ConfirmedAt(next, j) == ConfirmedAt(st, j)
  {
    forall j | 0 <= j < k
      ensures ConfirmedAt(next, j) == ConfirmedAt(st, j)
    {
      assert next.oracle[2 + 2 * j] == st.oracle[2 + 2 * j];
    }
  }

  /** What the turns from `i` on produce, as `RunTurnsOutcome` states it. */
  ghost predicate TurnsOutcome(respond: (nat, Query) -> Reply, n0: nat, dialogueId: int, target: string,
                               seed: AttemptState, i: nat, st: AttemptState, r: (AttemptState, bool))
  {
    var k := |r.0.rows|;
    && Shaped(respond, n0, dialogueId, target, seed, r.0) && Extends(st, r.0)
    && (i < TurnCap ==> i < k) && k <= TurnCap
    && (forall j | 0 <= j < k - 1 :: !ConfirmedAt(r.0, j))
    && (r.1 ==> k >= 1 && ConfirmedAt(r.0, k - 1))
    && (!r.1 ==> k == TurnCap && forall j | 0 <= j < k :: !ConfirmedAt(r.0, j))
  }

  /** After a turn that did not confirm, still no turn has. */
  lemma UnconfirmedStays(st: AttemptState, next: AttemptState)
    requires Extends(st, next) && |st.oracle| == 1 + 2 * |st.rows| && |next.oracle| == |st.oracle| + 2
    requires forall j | 0 <= j < |st.rows| :: !ConfirmedAt(st, j)
    requires !ConfirmedAt(next, |st.rows|)
    ensures forall j | 0 <= j < |st.rows| + 1 :: !ConfirmedAt(next, j)
  {
    ConfirmedStays(st, next, |st.rows|);
  }

  /** Every turn taken from a shaped state keeps it shaped, adding one turn, and ends the attempt exactly when it confirms. */
  ghost predicate TurnKeepsShape(respond: (nat, Query) -> Reply, n0: nat, dialogueId: int, target: string,
                                 seed: AttemptState, turn: (nat, AttemptState) -> (AttemptState, bool))
  {
    forall j: nat, st: AttemptState | j < TurnCap && |st.rows| == j && Shaped(respond, n0, dialogueId, target, seed, st) ::
      && Shaped(respond, n0, dialogueId, target, seed, turn(j, st).0) && Extends(st, turn(j, st).0)
      && |turn(j, st).0.rows| == j + 1 && (turn(j, st).1 <==> ConfirmedAt(turn(j, st).0, j))
  }

  lemma TurnOfKeepsShape(respond: (nat, Query) -> Reply, n0: nat, dialogueId: int, target: string, seed: AttemptState)
    ensures TurnKeepsShape(respond, n0, dialogueId, target, seed, TurnOf(respond, n0, dialogueId, target))
  {
    forall j: nat, st: AttemptState | j < TurnCap && |st.rows| == j && Shaped(respond, n0, dialogueId, target, seed, st)
      ensures var next := TurnOf(respond, n0, dialogueId, target)(j, st);
        && Shaped(respond, n0, dialogueId, target, seed, next.0) && Extends(st, next.0)
        && |next.0.rows| == j + 1 && (next.1 <==> ConfirmedAt(next.0, j))
    {
      TurnShaped(respond, n0, dialogueId, target, seed, st);
    }
  }

  /**
   * The turns from turn `i` on, from a shaped state in which no turn has
   * confirmed the guess yet, stop at the first turn that confirms it or
   * at the cap, and leave a shaped state.
   */
  lemma RunTurnsOutcome(respond: (nat, Query) -> Reply, n0: nat, dialogueId: int, target: string,
                        seed: AttemptState, turn: (nat, AttemptState) -> (AttemptState, bool), i: nat, st: AttemptState)
    requires TurnKeepsShape(respond, n0, dialogueId, target, seed, turn)
    requires i <= TurnCap
    requires Shaped(respond, n0, dialogueId, target, seed, st) && |st.rows| == i
    requires forall j | 0 <= j < i :: !ConfirmedAt(st, j)
    ensures TurnsOutcome(respond, n0, dialogueId, target, seed, i, st, RunTurns(turn, i, st))
  {
    var shaped := (s: AttemptState) => Shaped(respond, n0, dialogueId, target, seed, s);
    forall j: nat, s: AttemptState | j < TurnCap && |s.rows| == j && shaped(s)
      ensures shaped(turn(j, s).0) && |turn(j, s).0.oracle| == 3 + 2 * j
    {
    }
    RunTurnsBy(shaped, turn, i, st);
  }

  /**
   * A turn taken from a state that `shaped` holds of adds one turn, keeps
   * `shaped`, and ends the attempt exactly when it confirms the guess.
   */
  ghost predicate KeepsShapeBy(shaped: AttemptState -> bool, turn: (nat, AttemptState) -> (AttemptState, bool)) {
    forall j: nat, st: AttemptState | j < TurnCap && |st.rows| == j && |st.oracle| == 1 + 2 * j && shaped(st) ::
      && shaped(turn(j, st).0) && Extends(st, turn(j, st).0)
      && |turn(j, st).0.rows| == j + 1 && |turn(j, st).0.oracle| == 3 + 2 * j
      && (turn(j, st).1 <==> ConfirmedAt(turn(j, st).0, j))
  }

  /** `TurnsOutcome` for any predicate the turns keep. */
  ghost predicate TurnsOutcomeBy(shaped: AttemptState -> bool, i: nat, st: AttemptState, r: (AttemptState, bool)) {
    var k := |r.0.rows|;
    && shaped(r.0) && |r.0.oracle| == 1 + 2 * k && Extends(st, r.0)
    && (i < TurnCap ==> i < k) && k <= TurnCap
    && (forall j | 0 <= j < k - 1 :: !ConfirmedAt(r.0, j))
    && (r.1 ==> k >= 1 && ConfirmedAt(r.0, k - 1))
    && (!r.1 ==> k == TurnCap && forall j | 0 <= j < k :: !ConfirmedAt(r.0, j))
  }

  /**
   * The induction over the turns behind `RunTurnsOutcome`, stated for any
   * predicate the turns keep, so that it never looks inside `Shaped`.
   */
  lemma {:induction false} RunTurnsBy(shaped: AttemptState -> bool, turn: (nat, AttemptState) -> (AttemptState, bool),
                                      i: nat, st: AttemptState)
    requires KeepsShapeBy(shaped, turn)
    requires i <= TurnCap && shaped(st) && |st.rows| == i && |st.oracle| == 1 + 2 * i
    requires forall j | 0 <= j < i :: !ConfirmedAt(st, j)
    decreases TurnCap - i
    ensures TurnsOutcomeBy(shaped, i, st, RunTurns(turn, i, st))
  {
    if i < TurnCap {
      var next := turn(i, st);
      if next.1 {
        ConfirmedStays(st, next.0, i);
      } else {
        UnconfirmedStays(st, next.0);
        RunTurnsBy(shaped, turn, i + 1, next.0);
        ExtendsTransitive(st, next.0, RunTurns(turn, i + 1, next.0).0);
      }
    }
  }

  /** The three lines every transcript starts with: the sentinel, the target and the candidate list. */
  function SeedLines(entry: Entry): seq<string> {
    [Sentinel, "target = " + entry.target, "answerer: " + CandidatesMessage(Join(entry.candidates, ", "))]
  }

  /**
   * A fresh transcript holds the sentinel, the target line and the
   * questioner's user message (the candidate list, not the system
   * message), in either prompt variant.
   */
  lemma SeedTranscript(entry: Entry, stepwise: bool)
    ensures StartAttempt(entry, stepwise).dialogue == SeedLines(entry)
  {
    var m := CandidatesMessage(Join(entry.candidates, ", "));
    assert m[0] == 'T' && m[|m| - 1] == '.';
    StripUnpadded(m);
  }

  /**
   * An attempt takes between one and twenty turns, each logged as its row
   * and two transcript lines after the three seed lines; it succeeds
   * exactly when its last oracle output confirms the guess, no earlier
   * output did, and a failed attempt used all twenty turns.
   */
  lemma AttemptOutcome(respond: (nat, Query) -> Reply, n0: nat, dialogueId: int, entry: Entry, stepwise: bool)
    ensures var seed := StartAttempt(entry, stepwise);
      var r := Attempt(respond, n0, dialogueId, entry, stepwise);
      var k := |r.0.rows|;
      && 1 <= k <= TurnCap
      && Shaped(respond, n0, dialogueId, entry.target, seed, r.0)
      && (forall j | 0 <= j < k - 1 :: !ConfirmedAt(r.0, j))
      && (r.1 <==> ConfirmedAt(r.0, k - 1))
      && (!r.1 ==> k == TurnCap)
  {
    var seed := StartAttempt(entry, stepwise);
    assert seed.dialogue[..3] == seed.dialogue && seed.questioner[..2] == seed.questioner;
    assert seed.oracle[..1] == seed.oracle;
    TurnOfKeepsShape(respond, n0, dialogueId, entry.target, seed);
    RunTurnsOutcome(respond, n0, dialogueId, entry.target, seed, TurnOf(respond, n0, dialogueId, entry.target), 0, seed);
  }

  /**
   * A model service whose reply to the first oracle query confirms the
   * guess, whatever that query, ends the attempt after its first turn,
   * successfully, with a transcript of five lines: the three seed lines,
   * one question and one answer.
   */
  lemma AlwaysConfirmedOneTurn(respond: (nat, Query) -> Reply, n0: nat, dialogueId: int, entry: Entry,
                               stepwise: bool)
    requires ConfirmsCall(respond, n0 + 1)
    ensures var r := Attempt(respond, n0, dialogueId, entry, stepwise);
      r.1 && |r.0.rows| == 1 && |r.0.dialogue| == 5 && |r.0.queries| == 2
  {
    AttemptOutcome(respond, n0, dialogueId, entry, stepwise);
    var r := Attempt(respond, n0, dialogueId, entry, stepwise);
    FirstTurnConfirms(respond, n0, dialogueId, entry.target, StartAttempt(entry, stepwise), r.0, r.1);
  }

  /** The reply to call `n` confirms the guess, whatever was asked. */
  ghost predicate ConfirmsCall(respond: (nat, Query) -> Reply, n: nat) {
    forall q: Query :: IsTerminal(respond(n, q).text)
  }

  lemma FirstTurnConfirms(respond: (nat, Query) -> Reply, n0: nat, dialogueId: int, target: string,
                          seed: AttemptState, st: AttemptState, success: bool)
    requires ConfirmsCall(respond, n0 + 1)
    requires 1 <= |st.rows| && Shaped(respond, n0, dialogueId, target, seed, st)
    requires forall j | 0 <= j < |st.rows| - 1 :: !ConfirmedAt(st, j)
    requires success <==> ConfirmedAt(st, |st.rows| - 1)
    ensures success && |st.rows| == 1 && |st.dialogue| == 5 && |st.queries| == 2
  {
    assert HasTurn(st, 0) && RowMatches(respond, n0, dialogueId, target, st, 0);
    assert IsTerminal(respond(n0 + 1, st.queries[1]).text);
    assert ConfirmedAt(st, 0);
  }

  /**
   * A model service that never confirms a guess makes every attempt fail,
   * after all twenty turns and forty calls.
   */
  lemma NeverConfirmedFails(respond: (nat, Query) -> Reply, n0: nat, dialogueId: int, entry: Entry,
                            stepwise: bool)
    requires forall n: nat, q: Query :: !IsTerminal(respond(n, q).text)
    ensures var r := Attempt(respond, n0, dialogueId, entry, stepwise);
      !r.1 && |r.0.rows| == TurnCap && |r.0.queries| == 2 * TurnCap
  {
    AttemptOutcome(respond, n0, dialogueId, entry, stepwise);
    var r := Attempt(respond, n0, dialogueId, entry, stepwise);
    LastTurnUnconfirmed(respond, n0, dialogueId, entry.target, StartAttempt(entry, stepwise), r.0, r.1);
  }

  lemma LastTurnUnconfirmed(respond: (nat, Query) -> Reply, n0: nat, dialogueId: int, target: string,
                            seed: AttemptState, st: AttemptState, success: bool)
    requires forall n: nat, q: Query :: !IsTerminal(respond(n, q).text)
    requires 1 <= |st.rows| && Shaped(respond, n0, dialogueId, target, seed, st)
    requires success <==> ConfirmedAt(st, |st.rows| - 1)
    ensures !success
  {
    var j := |st.rows| - 1;
    assert HasTurn(st, j) && RowMatches(respond, n0, dialogueId, target, st, j);
  }

  /**
   * A stepwise output `... QUESTION: text`, in which the marker does not
   * occur before or overlapping the one shown and the question holds no
   * second marker, gives the stripped question text.
   */
  lemma ExtractQuestionAfterMarker(before: string, question: string)
    requires !Contains(before + QuestionMarker[..|QuestionMarker| - 1], QuestionMarker)
    requires !Contains(question, QuestionMarker)
    ensures ExtractQuestion(before + QuestionMarker + question) == Strip(question)
  {
    var marker := QuestionMarker;
    var raw := before + marker + question;
    var i := |before|;
    assert raw[i..i + |marker|] == marker;
    assert raw[..i + |marker| - 1] == before + marker[..|marker| - 1];
    forall j | 0 <= j < i
      ensures !OccursAt(raw, marker, j)
    {
      if OccursAt(raw, marker, j) {
        OccursInPrefix(raw, marker, j, i + |marker| - 1);
      }
    }
    FindIsFirst(raw, marker, i);
    assert raw[i + |marker|..] == question;
    ContainsFind(question, marker);
    SplitFirstPieces(raw, marker);
  }
}
