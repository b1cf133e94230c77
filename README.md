# Twenty-questions dialogue generator, modelled in Dafny

This project models the dialogue generator of `scripts/generate_dialogues.py`.
The generator makes two language-model roles play twenty questions over a list of candidate items:
- a *questioner* asks yes/no questions;
- an *oracle* knows the target item and answers.

Every turn is logged as a row of the tabular log `dialogues.csv`. Every successful dialogue is appended as a block of lines to the text log `dialogues.txt`. Each block opens with a sentinel line of 18 asterisks. A later run counts the sentinels and skips the dialogues already logged.

The model service (`model.ask`) is a black box. It is modelled as a function `respond(n, query)`: the reply to the query made as the `n`-th call of the run. Everything else is modelled as the code does it, except what "## Left out" lists.

Modules:

- `Candidates` (candidates.dfy): `get_lists_of_candidates`, the loop that re-keys the contrast sets as 0, 1, ….
  - A Python dict is its (key, value) pairs in insertion order.
- `Prompts` (prompts.dfy): `get_prompts`, the questioner's and the oracle's seed messages, in both variants.
  - The stepwise variant adds the `CANDIDATES:`/`QUESTION:` output format.
- `Text` (text.dfy): the string operations the code relies on:
  - `in`, `split`, `join`, `strip`, `lower`;
  - `re.sub(r"\n\n*", " ", s)` and `re.sub("\n", " ", s)`.
- `TextLog` (textlog.dfy): how a transcript is written to the text log, line by line, and how splitting the log on the sentinel counts its blocks.
- `Resume` (resume.dfy): the resume filter of lines 96-100.
- `Dialogues` (dialogues.dfy): as functions of `respond`:
  - the header row;
  - one turn: two model calls, the question extraction, the newline normalisations and the row;
  - one attempt: at most 20 turns, stopping at the first answer whose lower case holds both `correct` and `yes`.
- `Runs` (runs.dfy): as functions, with the properties of whole runs:
  - the `while not successful` retry of a dialogue;
  - the loop over the pending dialogues;
  - the whole of `generate_dialogues_openai`.
- `Generator` (generator.dfy): the controller as the code runs it, with loops and in-place updates:
  - a `ModelService` class records the queries asked;
  - a `LogFiles` class holds the two files, and its methods append to them;
  - methods mirror the body of the `range(20)` loop, the loop itself, one attempt, the retry loop, the loop over the dialogues and the whole function.

  Each method's postcondition says that it does exactly what the matching function of `Dialogues` or `Runs` computes. So every lemma about those functions holds of the loops.

Where the repository's description and its code differ, the model follows the code:

- The questioner's output is collapsed with `re.sub(r"\n\n*", " ", …)` (line 141), which turns every run of one or more line feeds into one space. The description speaks of runs of two or more. The oracle's output goes through `re.sub("\n", " ", …)` (line 166), which turns each line feed into its own space. `Text.CollapseAgreesWithNewlinesToSpaces` shows that these two substitutions differ exactly on text with two line feeds in a row.
- The line seeded as `answerer:` is the questioner's user message (the candidate list), not its system message (line 127).
- The resume threshold is the number of sentinels in the log, `len(split) - 1`. The description says the last counted dialogue is attempted again. The code skips every dialogue whose id is below the count, and the model proves that it resumes right after the last dialogue logged.
- Without a `QUESTION:` marker, the extracted question is the raw output, not stripped (line 145). The description calls it trimmed.
- The extracted question only goes into the `oracle` list (line 148). That list is never sent to the model: each call gets the role's seed message alone (lines 137 and 159), and the question that is logged and shown to the oracle comes from the questioner's collapsed output (line 149).
- `csv_header` has 11 names, not 13. The missing commas after lines 17 and 18 make Python join three literals into `"intra_dialogue_idtargetquestion"`. The header is written as is, once per run, also when resuming.

## Model

| member | source | states |
|---|---|---|
| Candidates.GetListsOfCandidates | scripts/generate_dialogues.py:42-48 | one entry per contrast set, in order: the `i`-th has key `i`, the set's items as candidates and its target |
| Candidates.Assign | scripts/generate_dialogues.py:46 | `d[k] = v` keeps keys distinct: a new key is appended, a present key keeps its place and takes the new value |
| Prompts.GetPrompts | scripts/generate_dialogues.py:64-87 | the questioner seed is [system holding the game rules, user `This is the list of candidates: {candidates}.`]; the oracle seed is one system message of the oracle rules followed by `The item assigned to you is {target}.` |
| Prompts.FormatLinesIffStepwise | scripts/generate_dialogues.py:64-79 | the questioner's system message holds `QUESTION:` and `CANDIDATES:` if and only if the variant is stepwise |
| Prompts.StepwiseRulesHaveMarkers | scripts/generate_dialogues.py:66-72 | the stepwise rules hold both format markers |
| Prompts.RulesLackMarkers | scripts/generate_dialogues.py:75-78 | the plain rules hold neither format marker |
| Text.Find | scripts/generate_dialogues.py:143 | the result is the first occurrence of the pattern, or none when it does not occur |
| Text.ContainsFind | scripts/generate_dialogues.py:107 | `pat in s` holds exactly when a first occurrence exists |
| Text.SplitJoin | scripts/generate_dialogues.py:99 | joining the pieces of `s.split(sep)` with `sep` gives `s` back |
| Text.SplitPiecesAvoidSeparator | scripts/generate_dialogues.py:99 | no piece of a split holds the separator |
| Text.SplitFirstPieces | scripts/generate_dialogues.py:143 | without the separator the split is `[s]`; with it, piece 0 is the text before its first occurrence and piece 1 the text up to the next occurrence or the end |
| Text.SplitConcat | scripts/generate_dialogues.py:99 | splitting a concatenation whose left part ends in a character the separator does not hold gives the pieces of both parts, less one |
| Text.LeadingSpaces | scripts/generate_dialogues.py:149 | the number of leading whitespace characters, all whitespace, and the next one is not |
| Text.TrailingSpaces | scripts/generate_dialogues.py:149 | the number of trailing whitespace characters, all whitespace, and the one before is not |
| Text.StripSpec | scripts/generate_dialogues.py:149 | `strip()` is a slice of its input outside which everything is whitespace, and it starts and ends off whitespace |
| Text.StripUnpadded | scripts/generate_dialogues.py:127 | `strip()` leaves a text that starts and ends off whitespace unchanged |
| Text.LeadingNewlines | scripts/generate_dialogues.py:141 | the length of the run of line feeds a text starts with |
| Text.CollapseLeavesNoNewline | scripts/generate_dialogues.py:141 | `re.sub(r"\n\n*", " ", s)` leaves no line feed |
| Text.CollapseIsSqueezed | scripts/generate_dialogues.py:141 | collapsing equals an independent character-by-character reference: drop each line feed that follows a line feed, then replace each one left by a space |
| Text.NewlinesToSpacesAt | scripts/generate_dialogues.py:166 | `re.sub("\n", " ", s)` keeps the length and every character except that each line feed becomes a space |
| Text.NewlinesToSpacesLeavesNoNewline | scripts/generate_dialogues.py:166 | replacing each line feed leaves none |
| Text.CollapseAgreesWithNewlinesToSpaces | scripts/generate_dialogues.py:141-166 | the questioner's and the oracle's normalisations agree if and only if the text has no two line feeds in a row |
| Text.LowerAt | scripts/generate_dialogues.py:192 | `lower()` folds each character on its own and keeps the length |
| TextLog.RenderAppend | scripts/generate_dialogues.py:194-195 | writing one more line appends it and a line feed |
| TextLog.RenderEndsWithNewline | scripts/generate_dialogues.py:194-195 | a written transcript ends with a line feed |
| TextLog.RenderSplitsBack | scripts/generate_dialogues.py:194-195 | a block of lines without line feeds, split on line feeds, gives the lines back and one empty piece |
| TextLog.SentinelCount | scripts/generate_dialogues.py:99 | splitting a written block on the sentinel gives one piece more than its sentinel lines |
| TextLog.OneSentinelLine | scripts/generate_dialogues.py:119 | a transcript that opens with the sentinel and has it in no later line holds exactly one sentinel line |
| TextLog.BlocksAppend | scripts/generate_dialogues.py:193-195 | appending transcripts to a log is concatenating their renderings |
| TextLog.SentinelInLineMiscounts | scripts/generate_dialogues.py:99-100 | a transcript whose later line holds the sentinel is read back as two logged dialogues or more |
| TextLog.BlockCount | scripts/generate_dialogues.py:99 | a log of `k` transcripts splits into `k + 1` pieces on the sentinel |
| Resume.KeepFromMembers | scripts/generate_dialogues.py:100 | the filter keeps exactly the entries whose key is at or above the threshold, and no more entries than there were |
| Resume.KeepFromNumbered | scripts/generate_dialogues.py:100 | on keys numbered from `from`, keeping keys at or above the threshold drops exactly the first `threshold - from` entries, in order |
| Resume.KeepAll | scripts/generate_dialogues.py:100 | a threshold at or below every key keeps everything |
| Resume.ResumeAfterBlocks | scripts/generate_dialogues.py:96-100 | with no log nothing is skipped; with a log of `k` transcripts exactly the first `k` dialogues are skipped |
| Dialogues.HeaderNarrowerThanRows | scripts/generate_dialogues.py:15-29 | the header has 11 names, its second is `intra_dialogue_idtargetquestion`, and every turn row has 13 cells |
| Dialogues.StripKeepsNoNewline | scripts/generate_dialogues.py:149 | stripping a text without line feeds leaves none |
| Dialogues.LoggedTextsOneLine | scripts/generate_dialogues.py:141-172 | the logged question and answer never hold a line feed, whatever the model replies |
| Dialogues.ExtractQuestionSpec | scripts/generate_dialogues.py:142-145 | with a `QUESTION:` marker, the extracted text is the stripped text between the first marker and the next one or the end; without one, it is the raw output untouched |
| Dialogues.ExtractQuestionAfterMarker | scripts/generate_dialogues.py:142-145 | an output `before QUESTION: question`, where the marker occurs neither in `before` nor straddling its end and the question holds no second marker, gives the stripped question |
| Dialogues.StartAttempt | scripts/generate_dialogues.py:114-127 | a fresh attempt's two conversations are exactly `get_prompts`' output for the joined candidates, the target and the variant; it has three transcript lines and no rows or calls |
| Dialogues.SeedTranscript | scripts/generate_dialogues.py:119-127 | the seed lines are the sentinel, `target = {target}` and `answerer: ` with the candidate-list user message, in either variant |
| Dialogues.AppendedView | scripts/generate_dialogues.py:131-190 | one turn keeps what was there and puts its two lines, its four messages (two per conversation), its row and its two queries at the indices that turn owns |
| Dialogues.TurnMessages | scripts/generate_dialogues.py:141-166 | a turn appends to the questioner's conversation its collapsed output, then the oracle's output with line feeds replaced; to the oracle's, the question extracted from the questioner's output, then the oracle's raw output |
| Dialogues.NewTurnMatches | scripts/generate_dialogues.py:133-192 | a turn adds two lines, two calls, two messages per conversation and one row, and the row matches its two calls: their queries, the normalised question and answer, and the metrics and times each reply came with; the turn ends the attempt exactly when its oracle output confirms the guess |
| Dialogues.AppendedMatches | scripts/generate_dialogues.py:133-190 | the queries a turn makes are the dialogue prefix from index 2 with only the role's first message, and its row holds the normalised question and answer and each reply's metrics and time |
| Dialogues.TurnShaped | scripts/generate_dialogues.py:131-197 | a turn keeps every earlier turn's lines and row and adds one matching turn |
| Dialogues.AppendedShaped | scripts/generate_dialogues.py:131-190 | adding a matching turn to a well-shaped attempt keeps it well shaped |
| Dialogues.ExtendsKeepsTurn | scripts/generate_dialogues.py:131-190 | a turn already made stays unchanged as the attempt grows |
| Dialogues.ConfirmedStays | scripts/generate_dialogues.py:192 | whether an earlier turn confirmed the guess does not change as the attempt grows |
| Dialogues.RunTurnsOutcome | scripts/generate_dialogues.py:131-197 | the turns from any point stop at the first confirming answer or at turn 20, and leave a well-shaped attempt |
| Dialogues.AttemptOutcome | scripts/generate_dialogues.py:112-197 | an attempt takes 1 to 20 turns, all matching their rows; it succeeds if and only if its last answer confirms and none before did; a failed attempt used all 20 turns |
| Dialogues.AlwaysConfirmedOneTurn | scripts/generate_dialogues.py:131-197 | with a model whose reply to the first oracle query confirms, whatever the query, an attempt succeeds after one turn with a five-line transcript and two calls |
| Dialogues.NeverConfirmedFails | scripts/generate_dialogues.py:131-197 | with a model that never confirms, an attempt fails after all 20 turns and 40 calls |
| Runs.TurnRowsAt | scripts/generate_dialogues.py:174-190 | the rows written for the turns are the turns, one row each, in order |
| Runs.TurnRowsConcat | scripts/generate_dialogues.py:174-190 | rows written for two runs of turns are the rows of the first followed by those of the second |
| Runs.AttemptsWellFormed | scripts/generate_dialogues.py:112-197 | every attempt has 1 to 20 rows, two calls and two lines per row after the seed lines, `intra_dialogue_id` counting from 0, and the dialogue's id and target in each row |
| Runs.RunDialogueRows | scripts/generate_dialogues.py:112-190 | the retries only append to the tabular log, one row per two calls, all of this dialogue; when every attempt fails, exactly 20 rows per attempt are added and the text log is untouched |
| Runs.RunDialogueText | scripts/generate_dialogues.py:112-197 | a successful dialogue appends its transcript of 3 + 2k lines (k from 1 to 20), opening with its seed lines, produced by a successful attempt; the failed attempts before it added whole multiples of 20 rows |
| Runs.RunDialoguesProgress | scripts/generate_dialogues.py:109-112 | a run logs at most one transcript per pending dialogue and has finished if and only if every dialogue was logged |
| Runs.RunDialoguesText | scripts/generate_dialogues.py:109-197 | the text log gains exactly the logged transcripts, in order, and is created with the first |
| Runs.RunDialoguesRows | scripts/generate_dialogues.py:109-190 | a run only appends to the tabular log, and makes two model calls per row it writes |
| Runs.RunDialoguesTranscripts | scripts/generate_dialogues.py:109-197 | the `i`-th logged transcript is that of a successful attempt at the `i`-th pending dialogue |
| Runs.GenerateRows | scripts/generate_dialogues.py:92-190 | every run, resumed or not, appends the header row to the tabular log, then only turn rows, and makes two model calls per turn row |
| Runs.RunDialogueFails | scripts/generate_dialogues.py:111-197 | when no attempt ever succeeds, the retries at a dialogue end with no transcript logged |
| Runs.GenerateNeverConfirmed | scripts/generate_dialogues.py:92-197 | with a model that never confirms, a run logs no transcript and leaves the text log as it was; it finishes only when nothing was pending, and otherwise adds the header and 20 rows per attempt at the first pending dialogue |
| Runs.AttemptIsBlock | scripts/generate_dialogues.py:119-195 | with replies and an entry free of the sentinel, every attempt's transcript opens with the sentinel and holds it nowhere else |
| Runs.ShapedIsBlock | scripts/generate_dialogues.py:119-172 | a well-shaped attempt from the seed lines is such a block |
| Runs.AttemptsSafe | scripts/generate_dialogues.py:119-195 | every attempt of a run with such replies is such a block for such entries |
| Runs.LoggedAreBlocks | scripts/generate_dialogues.py:193-195 | the transcripts a run logs are blocks |
| Runs.ResumeAfterRun | scripts/generate_dialogues.py:96-100 | after a run, the text log holds the earlier and the new transcripts, and the filter skips exactly the dialogues they cover |
| Runs.RunResumes | scripts/generate_dialogues.py:96-197 | a run from a log of the first `p` transcripts skips exactly those dialogues, logs the next ones in order, each by a successful attempt, and leaves a log from which the next run resumes right after the last one logged |
| Runs.GenerateResumes | scripts/generate_dialogues.py:90-197 | the same for the whole of `generate_dialogues_openai` with any model whose replies are free of the sentinel |
| Generator.ModelService.Ask | scripts/generate_dialogues.py:135-138 | `model.ask` records the query and returns the service's reply to it as the next call |
| Generator.LogFiles.WriteRow | scripts/generate_dialogues.py:174-190 | `writerow` appends exactly one row to the tabular log and leaves the text log alone |
| Generator.LogFiles.WriteLines | scripts/generate_dialogues.py:193-195 | the text log, created if missing, gains each line followed by a line feed, in order |
| Generator.AskTurn | scripts/generate_dialogues.py:133-190 | the loop body extends the transcript and both conversations, makes the two calls and writes the row exactly as `Turn` says, and reports whether the answer confirmed the guess |
| Generator.PlayTurns | scripts/generate_dialogues.py:131-197 | the `range(20)` loop does what `RunTurns` says: the calls made, the rows written, the transcript appended only on success, and whether it succeeded |
| Generator.RunAttempt | scripts/generate_dialogues.py:113-197 | one pass of the retry loop does what `Attempt` says, from a fresh transcript and fresh prompts |
| Generator.PlayDialogue | scripts/generate_dialogues.py:111-197 | the `while not successful` loop does what `RunDialogue` says |
| Generator.PlayPending | scripts/generate_dialogues.py:109-197 | the loop over the pending dialogues does what `RunDialogues` says |
| Generator.GenerateDialogues | scripts/generate_dialogues.py:90-197 | `generate_dialogues_openai` leaves the logs, makes the calls and finishes as `Generate` says, so `Runs.GenerateResumes` and the other lemmas about runs hold of it |

## Left out

- `openai_call` (lines 50-62) is not modelled: it wraps the OpenAI client, and nothing in this file calls it.
- `retry_on_rate_limit` (lines 31-40) is not modelled: it depends on the client's exceptions and on `time.sleep`, and nothing in this file applies it.
- `LLModelWrapper` and the model service are not part of this model: each call's reply is the parameter `respond`.
- Exceptions from `model.ask` are not modelled. The calls on lines 135 and 157 have no `try` around them, so an error there ends the whole run with whatever was already written. `respond` is total, so every call in the model returns a reply.
- Clocks are not modelled: each reply carries the time it took as a number of milliseconds.
- `round(..., 5)` of the metrics is not modelled: the metrics are opaque reals written as they come.
- I/O plumbing is not modelled: `open`, `os.path.exists`, `os.mkdir`, the CSV writer's quoting, `print`, the progress bar and the script's argument handling. The two files are a sequence of rows and an optional string.
- `data_path` and `num_candidates` are not modelled; they only name files or are unused.
- Runs.RunDialogue: the unbounded `while not successful` retry is bounded by a budget of `attempts` attempts per dialogue. A dialogue that uses the budget up ends the run without logging it (`finished` is false). The source would keep trying forever.
- Generator.PlayDialogue: the same bound as `Runs.RunDialogue`.
- Text.Lower: folds ASCII letters only. Python's `lower()` also folds other letters. This only matters when deciding whether an answer holds `correct` and `yes`.
- Candidates.GetListsOfCandidates: the keys are integers. `int(key)` on line 100 therefore becomes the key itself; dicts loaded with string keys are not modelled.
- Runs.RunResumes: proved for model replies whose logged question and answer never contain the sentinel, and for entries whose target and candidate list never contain it. The code relies on this without checking it: a reply holding 18 asterisks would make a later run skip too many dialogues, as `TextLog.SentinelInLineMiscounts` shows.
- Runs.GenerateResumes: the same hypothesis as `Runs.RunResumes`.
- Dialogues.TurnOf: gives a turn for any state. A state without its seed lines, which cannot arise, gives no turn.
- Generator methods: `PlayTurns`, `RunAttempt`, `PlayDialogue` and `PlayPending` take a ghost function standing for the turns or attempts. Their callers obtain it from `TurnOf` or `AttemptsOf` and prove that it agrees with them.
