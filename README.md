# Turing test game — a verified model of its core

The game has two sides. A *subject* chats with a *tester* and must guess
whether the replies come from a chat bot or from the human operator of the
tester.

- **Subject.** Each round the subject may ask up to ten questions. A line
  typed at the subject that starts with `--` is a command; any other line is
  a question. A correct guess made with `q` questions unused earns
  `100 * (q + 1) / 10` points. The score is the mean number of points per
  round.
- **Tester.** For each round the operator chooses who answers: "bot" or
  "human". Bot replies go through three steps:
  - they are normalised: punctuation is removed, the text is lowercased and
    stripped;
  - they are "humanized": with small probabilities two adjacent characters
    are swapped, or a letter is replaced by a neighbouring key on a QWERTY
    keyboard;
  - they are held back until the time a person would have needed to type
    them.

The model has four modules:

- `Config` (config.dfy) holds the shared constants. It also holds the
  re-prompt loop both sides use to read "bot" or "human" from the keyboard.
- `Helper` (helper.dfy) holds the chat tag and info line, the normaliser,
  the keyboard neighbour table and the humanizer.
  - The humanizer is specified by a recursive reference function,
    `Humanize`.
  - The loop `HumanizeText` is proved equal to `Humanize`.
- `Subject` (subject.dfy) holds the subject's `Subject` class, with its
  question budget, points and round count, the commands and the
  game/round/question loop `Run`.
  - What `Run` sends to the tester is returned as a transcript of requests.
  - The transcript is checked against a protocol state machine, `Step` and
    `Replay`: a round starts, at most ten questions follow, a guess needs at
    least one question, and a game ends only after a guess.
  - Two reference functions say what `Run` should do. `Session(lines)`
    reads the typed lines one at a time with `Read` and `Emitted`: where the
    reading stands and which requests it sends. `Ledger(t, verdicts)` counts
    up the points, rounds and final scores that a transcript `t` implies
    when the tester answers the guesses with `verdicts`.
  - `Run` and the methods it calls are proved against them. What they send
    is exactly the session's transcript over the lines they read.
  - Inside a game, `MakeGuess`, `PlayRound` and `PlayGame` keep the
    subject's points, round count and question budget equal to the
    ledger's. When a game ends the ledger resets its points and rounds. The
    subject's fields keep the game's totals until the next game starts, and
    `PlayGame`'s final score is their quotient.
- `Tester` (tester.dfy) holds the tester's `Tester` class: the respondent
  type of the round, the guess check, the reply path with its pacing delay,
  and the fallback writing speed.

A further module, `Scenarios` (scenarios.dfy), plays whole rounds through the
contracts of the other modules.

## How inputs are modelled

- `random()` becomes a stream of reals, `draws: nat -> real`.
  - The humanizer reads the stream in the order in which Python's
    short-circuit `and`/`or` evaluation would call `random()`.
  - A draw below 0.005 triggers a swap or a substitution. A draw below 0.5
    picks the left neighbour.
- Keyboard input becomes a finite sequence of lines. When it runs out, the
  model stops where the program would wait for more.
- The chat bot's answer, the bot latency `t` and the writing speed that the
  estimate would measure are parameters.
- `sleep` becomes the returned `delay`.
- `sys.exit` of `--quit` becomes the `exits` flag.

## Notes on the code

- **Spaces can be swapped.** The comment at helper.py:63 says that only
  letters inside a word are swapped. The guard at helper.py:64 only asks for
  `i < n - 2`, whatever the characters are. So the model, like the code,
  lets a space or any other character take part in a swap. A space is never
  *substituted* (helper.py:70).
- **Digits can make humanizing fail.** A substitution at a non-space
  character that is not a key (a digit, for instance) indexes an empty
  neighbour list at helper.py:73, which raises `IndexError`. `Humanize`
  returns `IndexError(at)` there. `HumanizeFails` proves that this happens
  only at such a character, so a text of keys and spaces never fails.
  `HumanizeDigitFails` gives a concrete failing input.
- **The protocol is kept without error results.** Neither side raises an
  error for a request out of order. The subject keeps the order itself:
  - `--guess` before any question only prints a message (subject.py:72-75);
  - the question loop stops at zero questions left (subject.py:212);
  - the tester's handlers accept any request at any time.
  The protocol therefore appears in the model as a property that `Run`
  keeps (`Replay(sent).Some?`), not as error results.

## Model

| member | source | states |
|---|---|---|
| Config.PromptTesterType | subject.py:161-163 | The first line from the start position that is "bot" or "human" is returned, with the position after it, and every line before it was invalid. If there is none, the result is None and every remaining line was invalid. The tester reads its respondent type with the same loop (tester.py:90-92). |
| Helper.PadRight | helper.py:6 | The result has length max(\|s\|, width), starts with s and is padded with spaces. |
| Helper.ChatTag | helper.py:5-6 | The tag is the name, padded with spaces to width 5, followed by " >> ". Its length is max(\|name\|, 5) + 4. |
| Helper.InfoMessage | helper.py:9-10 | The line is "INFO: " followed by the message, exactly. |
| Helper.RemovePunctuation | helper.py:24 | Every character of the result comes from the input and is a word or whitespace character other than '_'. The input is returned unchanged when it has no other characters. |
| Helper.RemovePunctuationConcat | helper.py:24 | Removing over a concatenation is the concatenation of the removals, so the kept characters stay in their order. |
| Helper.RemovePunctuationChar | helper.py:24 | A single character is kept exactly when it is a word or whitespace character other than '_'. |
| Helper.RemovePunctuationCounts | helper.py:24 | Each kept character occurs in the result as often as in the input, and no other character occurs in it. |
| Helper.ToLower | helper.py:24 | Each capital A-Z becomes its own lowercase letter (A to a, ..., Z to z). Anything else is kept. The result is a lowercase letter exactly when the input is an ASCII letter, and ASCII stays ASCII. |
| Helper.Lower | helper.py:24 | The result has the input's length and is the input lowercased character by character. |
| Helper.TrimStart | helper.py:24 | The result is a suffix of the input that does not start with whitespace, and only whitespace was dropped. |
| Helper.TrimEnd | helper.py:24 | The result is a prefix of the input that does not end with whitespace, and only whitespace was dropped. |
| Helper.Strip | helper.py:24 | The result is a slice of the input whose dropped ends are whitespace, and its own ends are not whitespace. |
| Helper.NormalizeText | helper.py:13-24 | The normalised text is no longer than the input and neither starts nor ends with whitespace. |
| Helper.NormalizedChars | helper.py:24 | Every normalised character is a lowercase ASCII letter, a digit, whitespace or a non-ASCII character. |
| Helper.NormalizeTextAscii | helper.py:13-24 | For ASCII input, the normalised text holds only a-z, 0-9 and whitespace, and its ends are not whitespace. |
| Helper.NormalizeTextIdempotent | helper.py:24 | Normalising twice gives the same result as normalising once. |
| Helper.GetKeyboardNeighbors | helper.py:32-43 | The method's row-by-row search with early return computes exactly `Neighbors(c)`. |
| Helper.NeighborsOfKey | helper.py:27-43 | The key at row r, column j has its left neighbour first and its right neighbour last. It has exactly one neighbour at a row end and two otherwise. |
| Helper.NeighborsOfNonKey | helper.py:43 | A character that is not on the keyboard has no neighbours. |
| Helper.NeighborsAreLetters | helper.py:27-43 | Every neighbour is a lowercase letter. |
| Helper.NeighborsSymmetric | helper.py:27-43 | d is a neighbour of c exactly when c is a neighbour of d. |
| Helper.NeighborsIrreflexive | helper.py:27-43 | No key is its own neighbour. |
| Helper.NeighborsAtMostTwo | helper.py:37-42 | No character has more than two neighbours. |
| Helper.HumanizeFrom | helper.py:59-81 | A successful pass from position i produces exactly \|text\| - i characters. |
| Helper.Humanize | helper.py:46-81 | A successful pass keeps the length of the text and its first character. |
| Helper.HumanizeStep | helper.py:62-80 | Reference definition of one iteration of humanize_text, random() calls included. When it emits, it moves past the current position to at most the end of the text and emits exactly as many characters as it moves over. |
| Helper.HumanizeIteration | helper.py:62-80 | The loop body, with its random() calls in source order, computes exactly one `HumanizeStep`: a swap, a substitution, the IndexError or a copy. |
| Helper.HumanizeText | helper.py:59-81 | The while loop, with its draw counter, computes exactly the reference `Humanize(text, draws)`, including the IndexError position. |
| Helper.HumanizeAdvance | helper.py:61-80 | One loop iteration followed by the rest of the pass is the rest of the pass from where the iteration started. |
| Helper.StepExplained | helper.py:62-80 | Each character one iteration emits is a copy, a keyboard neighbour of a non-space character, or half of an interior swap. |
| Helper.ExplainedShift | helper.py:59-81 | An explanation of the rest of the output still holds once earlier output is put in front of it. |
| Helper.HumanizeFromExplained | helper.py:59-81 | From any position, every output character is a copy, a keyboard neighbour of a non-space original, or half of a swap strictly inside the text. |
| Helper.HumanizeExplained | helper.py:59-81 | The same for the whole text: the first character is kept and the last is never swapped, and substitutions are keyboard neighbours of the original character. |
| Helper.HumanizeFromIdentity | helper.py:64-80 | When every draw is at or above 0.005, the pass from i copies text[i..]. |
| Helper.HumanizeIdentity | helper.py:64-80 | When every draw is at or above 0.005, the text is returned unchanged. |
| Helper.HumanizeFromError | helper.py:70-73 | A failure happens only at an interior non-space character with an empty neighbour list. |
| Helper.HumanizeFails | helper.py:70-75 | A failure happens only at an interior non-space character that is not a key. A text whose interior holds only keys and spaces never fails. |
| Helper.HumanizeDigitFails | helper.py:70-73 | "a1" with every draw at 0.0 fails at position 1. |
| Subject.ReplayAppend | subject.py:206-236 | Replaying a transcript extended by one request takes one protocol step from the transcript's phase. |
| Subject.ReplayPrefix | subject.py:206-236 | Every prefix of a transcript the protocol accepts is accepted too. |
| Subject.GuessFollowsQuestion | subject.py:72-77 | In an accepted transcript, every guess comes right after a question. |
| Subject.QuestionsPerRound | subject.py:212 | Inside a round at most MaxQuestions questions have been asked, and the last `asked` requests are all questions. |
| Subject.IsCommand | subject.py:217 | Reference definition of the `message[:2] == "--"` test. |
| Subject.CommandPrefix | subject.py:217 | A line is a command exactly when its first two characters are dashes. No line shorter than two characters is one, and every known command is one. |
| Subject.Award | subject.py:147 | For 0 <= q < 10 questions left, a correct guess earns 10 * (q + 1) points, which lies in (0, 100]. |
| Subject.Read | subject.py:212-236 | Reference definition of what run reads the next typed line as: a question or command, the guess, or the answer to "Start new round" or "Start new game". |
| Subject.Emitted | subject.py:212-236 | Reference definition of the request run sends when it reads a typed line: a question, the guess, a new round or the end of a game. |
| Subject.FeedConcat | subject.py:206-236 | Reading two blocks of typed lines one after the other is reading their concatenation: the state after both, and what the first sends followed by what the second sends. |
| Subject.SessionLine | subject.py:206-236 | Reading one more typed line takes one `Read` step, and the requests it sends are appended. |
| Subject.SessionRound | subject.py:210-228 | A round read from the start of a round is the session before it followed by what the round sends. |
| Subject.RoundAnswered | subject.py:229-230 | After a guess, an answer holding 'y' requests a new round. Any other answer ends the game. |
| Subject.GameAnswered | subject.py:235-236 | After a game, an answer holding 'y' requests a new round. Any other answer ends the session, with nothing more sent. |
| Subject.Questions | subject.py:214-225 | The questions of a block of lines are no more than its lines, and none of them is a command. |
| Subject.QuestionsAppend | subject.py:217-225 | One more line adds a question exactly when it is no command. |
| Subject.QuestionStep | subject.py:212-225 | In the question loop, a question is sent and uses one question of the budget. "--quit" ends the session, "--guess" after a question moves to the guess, and any other command changes nothing. |
| Subject.AskRanOut | subject.py:212-227 | The loop ends in the guess when the budget is used up, and stops the run when the input runs out first. |
| Subject.QuestionLine | subject.py:212-225 | QuestionStep at position p of the typed lines: the questions sent so far are the questions among the lines read. |
| Subject.GuessPrompt | subject.py:161-163 | The guess prompt sends nothing for invalid answers and sends the first valid answer as the guess, which ends the round's reading. |
| Subject.PromptRead | subject.py:161-166 | The same for the prompt reading lines q to p of the session. |
| Subject.RoundAsked | subject.py:211-225 | After the question loop of a round, the session has sent exactly what the loop sent. It stands in the guess unless the run stopped on "--quit" or at the end of input. |
| Subject.SessionGuess | subject.py:156-166 | Reading the guess prompt continues the session that stood in the guess. |
| Subject.ReadFollowsProtocol | subject.py:206-236 | Reading one line from a state that fits the protocol phase sends at most one request, which the protocol accepts, and the new state fits the new phase. |
| Subject.SessionFollowsProtocol | subject.py:199-236 | Whatever is typed, the session's requests are accepted by the protocol, no question is a command, and every guess is "bot" or "human". |
| Subject.GuessAward | subject.py:147 | Reference definition of the points a guess earns: the award for the questions left when the guess's verdict is "correct", and nothing otherwise. |
| Subject.LedgerStep | subject.py:170-172 | Reference definition of the counter arithmetic per request: a new round, one more question, a scored guess, and the mean points per round at the end of a game. |
| Subject.LedgerAppend | subject.py:142-154 | The ledger of a transcript extended by one request is one ledger step further. |
| Subject.LedgerEndedGame | subject.py:232-233 | Ending a game records the mean points per round as its final score and resets the ledger's points and rounds. |
| Subject.LedgerQuestions | subject.py:222-225 | Questions only count up the questions of the round. |
| Subject.LedgerRound | subject.py:210-225 | A new round and its questions add one round and count the round's questions from zero; the points, guesses and scores are kept. |
| Subject.MeanBounded | subject.py:149-154 | The mean of points earned at most 100 per round lies in [0, 100]. |
| Subject.LedgerBounded | subject.py:142-154 | Along any accepted transcript, a round earns at most 100 points and every final score lies in [0, 100]. Between games the points and the rounds are zero. |
| Subject.SessionScoresBounded | subject.py:232 | Every final score a session reports lies in [0, 100]. |
| Subject.Subject.constructor | subject.py:40-59 | The counters start at zero, a valid state. |
| Subject.Subject.StartNewGame | subject.py:84-90 | The round count and the points are reset to 0, and the budget is untouched. |
| Subject.Subject.StartNewRound | subject.py:92-98 | The budget is reset to MaxQuestions and the round count is incremented, while the points are kept. |
| Subject.Subject.ConsumeQuestion | subject.py:222-225 | A question, sent only while some of the budget is left, uses exactly one question of it, and nothing else changes. |
| Subject.Subject.ExecuteCommand | subject.py:61-82 | The result is true exactly for "--guess" after at least one question. The run exits exactly on "--quit". No command changes the state. |
| Subject.Subject.UpdatePoints | subject.py:142-147 | The points grow by `Award(nQuestionsLeft)`, and nothing else changes. |
| Subject.Subject.ComputeScore | subject.py:149-154 | score * nRounds == points. In a valid state the score lies in [0, 100]. |
| Subject.Subject.ScoreGuess | subject.py:169-175 | The points grow by `Award(nQuestionsLeft)` when the verdict is "correct" and are kept otherwise. The budget and the round count are kept. |
| Subject.Subject.MakeGuess | subject.py:156-175 | The guess is the first valid answer typed, and it is sent. Unless the run stops, the points grow by `Award(nQuestionsLeft)` exactly when the verdict is "correct", and by nothing otherwise. The budget, the round count and the ledger's question count are kept, and the session after the prompt has sent what the method sent. |
| Subject.Subject.ReadMessage | subject.py:213-225 | One line of the question loop: a question is sent and uses one question of the budget, and a command is executed. The loop state afterwards is the one the lines read so far give. |
| Subject.Subject.AskQuestions | subject.py:212-225 | What the loop sends is exactly the questions among the lines it read, in order, and the budget left is 10 minus their number. Unless the run stops, the loop ends in the guess, after the budget was used up or after "--guess" once a question was asked. It stops at the end of input or on "--quit". |
| Subject.Subject.PlayRound | subject.py:210-228 | A round adds one to the round count and leaves the state valid. The questions left are 10 minus the questions the round sent. What it sends is what the session over the lines read sends. Unless the run stops, exactly one guess is scored: the points grow by the award when the verdict is "correct" and are kept otherwise, and the session waits for the answer to "Start new round". If the run stops in the round, no guess was scored and the points are kept. |
| Subject.Subject.AskNewRound | subject.py:229-230 | An answer holding 'y' starts a new round, and the session requests it. Any other answer ends the game. |
| Subject.Subject.AskNewGame | subject.py:235-236 | An answer holding 'y' starts a new game, and the session requests a new round. Any other answer ends the session, with nothing more sent. |
| Subject.Subject.PlayGame | subject.py:206-233 | What the game sends is what the session over the lines read sends. Unless the run stops, at least one round was played, the final score is the subject's points divided by its rounds, in [0, 100], and the ledger records it as the game's score while resetting its own points and rounds. |
| Subject.Subject.Run | subject.py:199-236 | What the run sends is exactly what the session over the lines it read sends. It stops only at the end of input, on "--quit", on no new game, or when a verdict is missing. Its final scores are the ledger's: each is the mean points per round of its game, in [0, 100]. The state stays valid. |
| Tester.FallbackWritingSpeed | tester.py:77 | For a random() value in [0, 1), the fallback writing speed lies in [0.15, 0.35). |
| Tester.PacingDelay | tester.py:154-156 | The delay is never negative, and it is zero exactly when the bot took at least the estimated writing time. Otherwise the bot time plus the delay equals the estimated writing time. |
| Tester.PacingMonotone | tester.py:154-156 | A longer reply is never held back for less time. |
| Tester.PacingExamples | tester.py:154-156 | 40 characters at 0.2 s each are held back 6 s after 2 s of latency, and not at all after 10 s. |
| Tester.Tester.constructor | tester.py:69-77 | No respondent type is set yet. The writing speed is the measured one if the answer contains 'y', else the random fallback. |
| Tester.Tester.StartNewRound | tester.py:80-105 | A confirmation is returned exactly when some answer is valid. The first valid answer becomes the respondent type. If no answer is valid, nothing changes. |
| Tester.Tester.CheckGuess | tester.py:114-127 | The verdict is "correct" or "wrong", and it is "correct" exactly when the guess equals the round's respondent type. |
| Tester.Tester.ReceiveAndSendMessage | tester.py:129-162 | For the bot, the reply is `Humanize(NormalizeText(botReply))`, of the normalised length, held back by `PacingDelay`. Otherwise the reply is the normalised operator reply, with no delay. The delay is never negative. |
| Scenarios.ScoringScenario | subject.py:147-154 | Correct guesses with 9, 5 and 0 questions left give the score 170/3. |
| Scenarios.HumanRoundScenario | tester.py:125-162 | In a round the operator answers, one question leaves 9, the reply is the normalised text with no delay, guessing "bot" is wrong and the score stays 0. |

## Left out

- The HTTP transport is not modelled: connect_to_tester, the Bottle routes and the request and response bodies. The requests appear only as the `Request` transcript returned by `Run`.
- has_connected and game_ended are not modelled: they only print a line and return a constant string.
- estimate_writing_speed is not modelled: it times keyboard input with the clock, so the model takes the value it would measure as a constructor parameter.
- The Cleverbot connection is not modelled (connect_to_cleverbot, `say`, `reset`): it is a foreign service, so the bot reply and its latency are parameters.
- The message a bot is asked is therefore not passed anywhere.
- Printing, `time.sleep` and `time()` are not modelled. The delay that would be slept is returned instead, and the one-second pause in `_make_guess` is dropped.
- get_header, get_chat_line_separator, `_display_help`, `_display_questions_left` and `_display_score` are not modelled: they only print.
- `--score` is modelled as computing the score, and the other display commands as doing nothing.
- Subject.Subject.constructor: the counters start as `None` in the source; here they start at 0. `Run` resets the counters before it reads any of them, so this makes no difference to the model.
- Helper.NormalizeText: the Unicode character classes of Python's `re` are not modelled. Whitespace and punctuation are classified on ASCII only.
- Helper.NormalizeText: every non-ASCII character counts as a word character.
- Helper.NormalizeText: lowercasing only affects A-Z.
- Helper.NormalizeTextIdempotent: proved for the model's lowercasing, which maps only A-Z. Python's `str.lower` can turn one non-ASCII character into several, and `re` may count some of them as punctuation: 'İ' becomes 'i' followed by the combining dot U+0307, which a second pass would delete. So over such text the program's normaliser is not idempotent.
- Helper.NormalizeTextAscii: the claim that the output holds only a-z, 0-9 and whitespace is proved for ASCII input only, because of the point above.
- Points, scores and writing speeds are exact reals, not binary floating point.
- Subject.Subject.Run: the lines the tester prints back as chat replies are not part of the model.
- Subject.Subject.Run: the outcome of a run that stops because the keyboard input ran out is not distinguished from one that stops on "--quit".
