/** The subject's side of the game (subject.py): the question budget, the
    points and the round count of the `Subject` object, the commands the
    player can type, and the game / round / question loop of `run`.

    What `run` sends to the tester is recorded as a transcript of requests,
    and `Replay` is the protocol those requests must follow: a round starts,
    at most MaxQuestions questions are asked, a guess comes only after at
    least one question, and a game ends only after a guessed round. */
module Subject {
  import opened Config

  /** A request the subject sends to the tester. */
  datatype Request = NewRound | Ask(text: string) | Guess(kind: string) | EndedGame

  /** Where the exchange with the tester stands. */
  datatype Phase = Idle | Asking(asked: nat) | Guessed

  /** The protocol: which request is legal in which phase, and the phase after it. */
  function Step(phase: Phase, request: Request): Option<Phase>
  {
    match request
    case NewRound => if phase.Asking? then None else Some(Asking(0))
    case Ask(_) => if phase.Asking? && phase.asked < MaxQuestions then Some(Asking(phase.asked + 1)) else None
    case Guess(_) => if phase.Asking? && phase.asked >= 1 then Some(Guessed) else None
    case EndedGame => if phase == Guessed then Some(Idle) else None
  }

  /** The phase a transcript leads to from Idle, or None if it breaks the protocol. */
  function Replay(t: seq<Request>): Option<Phase>
  {
    if t == [] then Some(Idle)
    else match Replay(t[..|t| - 1])
      case None => None
      case Some(phase) => Step(phase, t[|t| - 1])
  }

  lemma ReplayAppend(t: seq<Request>, r: Request)
    requires Replay(t).Some?
    ensures Replay(t + [r]) == Step(Replay(t).value, r)
  {
    assert (t + [r])[..|t|] == t;
  }

  lemma {:induction false} ReplayPrefix(t: seq<Request>, n: nat)
    requires n <= |t| && Replay(t).Some?
    ensures Replay(t[..n]).Some?
    decreases |t| - n
  {
    if n < |t| {
      ReplayPrefix(t, n + 1);
      assert t[..n + 1][..n] == t[..n];
    } else {
      assert t[..n] == t;
    }
  }

  lemma ReplayAskingAfterAsk(t: seq<Request>)
    requires Replay(t).Some? && Replay(t).value.Asking? && Replay(t).value.asked >= 1
    ensures t != [] && t[|t| - 1].Ask?
  {
  }

  /** In every transcript the protocol accepts, each guess comes right after
      a question, and each question comes inside a round. */
  lemma GuessFollowsQuestion(t: seq<Request>, j: nat)
    requires Replay(t).Some? && j < |t| && t[j].Guess?
    ensures 0 < j && t[j - 1].Ask?
  {
    ReplayPrefix(t, j + 1);
    ReplayPrefix(t, j);
    assert t[..j + 1] == t[..j] + [t[j]];
    ReplayAppend(t[..j], t[j]);
    ReplayAskingAfterAsk(t[..j]);
  }

  /** A round asks at most MaxQuestions questions: after a NewRound the
      protocol accepts no more than that many Asks in a row. */
  lemma {:induction false} QuestionsPerRound(t: seq<Request>)
    requires Replay(t).Some? && Replay(t).value.Asking?
    ensures Replay(t).value.asked <= MaxQuestions
    ensures Replay(t).value.asked <= |t|
    ensures forall j :: |t| - Replay(t).value.asked <= j < |t| ==> t[j].Ask?
  {
    var last := t[|t| - 1];
    var before := t[..|t| - 1];
    if !last.NewRound? {
      assert Replay(before).Some? && Replay(before).value.Asking?;
      QuestionsPerRound(before);
    }
  }

  /** Typed input starting with two dashes is a command, all else is a question. */
  predicate IsCommand(line: string) {
    |line| >= 2 && line[..2] == "--"
  }

  /** The commands the subject knows. */
  const Commands: set<string> := {"--help", "--questionsleft", "--score", "--guess", "--quit"}

  /** A line is a command exactly when its first two characters are dashes;
      every known command is one, and a line of one character is none. */
  lemma CommandPrefix(line: string)
    ensures IsCommand(line) <==> |line| >= 2 && line[0] == '-' && line[1] == '-'
    ensures |line| < 2 ==> !IsCommand(line)
    ensures forall c :: c in Commands ==> IsCommand(c)
  {
    if |line| >= 2 && line[0] == '-' && line[1] == '-' {
      assert line[..2] == "--";
    }
  }

  /** Every question in `t` is no command, and every guess is "bot" or "human". */
  predicate WellFormed(t: seq<Request>) {
    && (forall j :: 0 <= j < |t| && t[j].Ask? ==> !IsCommand(t[j].text))
    && (forall j :: 0 <= j < |t| && t[j].Guess? ==> IsTesterType(t[j].kind))
  }

  /** What a correct guess earns when `questionsLeft` questions were unused. */
  function Award(questionsLeft: int): (award: real)
    ensures 0 <= questionsLeft < MaxQuestions ==> 0.0 < award <= 100.0
    ensures 0 <= questionsLeft < MaxQuestions ==> award == 10.0 * (questionsLeft + 1) as real
  {
    100.0 * (questionsLeft + 1) as real / MaxQuestions as real
  }

  // ---------------------------------------------------------------------
  // Reading the typed lines
  // ---------------------------------------------------------------------

  /** What the subject reads the next typed line as: a question or command in
      a round with `asked` questions so far, a guess, the answer to "Start
      new round", the answer to "Start new game", or nothing any more. */
  datatype Reading = Questioning(asked: nat) | Guessing | AnsweringRound | AnsweringGame | Done

  /** What the subject reads the line after `line` as. */
  function Read(st: Reading, line: string): Reading
  {
    match st
    case Questioning(asked) =>
      if line == "--quit" then Done
      else if line == "--guess" && asked >= 1 then Guessing
      else if IsCommand(line) then st
      else if asked + 1 >= MaxQuestions then Guessing
      else Questioning(asked + 1)
    case Guessing => if IsTesterType(line) then AnsweringRound else Guessing
    case AnsweringRound => if 'y' in line then Questioning(0) else AnsweringGame
    case AnsweringGame => if 'y' in line then Questioning(0) else Done
    case Done => Done
  }

  /** The requests the subject sends when it reads `line` as `st`. */
  function Emitted(st: Reading, line: string): seq<Request>
  {
    match st
    case Questioning(_) => if IsCommand(line) then [] else [Ask(line)]
    case Guessing => if IsTesterType(line) then [Guess(line)] else []
    case AnsweringRound => if 'y' in line then [NewRound] else [EndedGame]
    case AnsweringGame => if 'y' in line then [NewRound] else []
    case Done => []
  }

  datatype Progress = Progress(state: Reading, sent: seq<Request>)

  /** Reading `lines` one after the other from `st`: where it ends and what it sends. */
  function Feed(st: Reading, lines: seq<string>): Progress
  {
    if lines == [] then Progress(st, [])
    else
      var before := Feed(st, lines[..|lines| - 1]);
      var line := lines[|lines| - 1];
      Progress(Read(before.state, line), before.sent + Emitted(before.state, line))
  }

  /** A whole session over the typed `lines`: the first round is requested
      before any line is read. */
  function Session(lines: seq<string>): Progress
  {
    var fed := Feed(Questioning(0), lines);
    Progress(fed.state, [NewRound] + fed.sent)
  }

  // Generic sequence facts. They are stated as lemmas of their own so that
  // the proofs about Feed, Session and Ledger below call them instead of
  // asserting the sequence equalities in place, which keeps those
  // verification conditions small.

  /** A prefix of `s` is a shorter prefix and the slice after it. */
  lemma SplitPrefix<T>(s: seq<T>, b: nat, c: nat)
    requires b <= c <= |s|
    ensures s[..c] == s[..b] + s[b..c]
  {
  }

  /** A slice of `s` is a shorter slice and its last element. */
  lemma SplitLast<T>(s: seq<T>, a: nat, c: nat)
    requires a < c <= |s|
    ensures s[a..c] == s[a..c - 1] + [s[c - 1]]
  {
  }

  lemma Assoc<T>(a: seq<T>, b: seq<T>, c: seq<T>)
    ensures a + (b + c) == (a + b) + c
  {
  }

  lemma AppendNil<T>(a: seq<T>)
    ensures a + [] == a
  {
  }

  lemma DropLast<T>(s: seq<T>)
    requires s != []
    ensures s == s[..|s| - 1] + [s[|s| - 1]]
  {
  }

  lemma FeedAppend(st: Reading, lines: seq<string>, line: string)
    ensures Feed(st, lines + [line]) ==
      Progress(Read(Feed(st, lines).state, line), Feed(st, lines).sent + Emitted(Feed(st, lines).state, line))
  {
    assert (lines + [line])[..|lines|] == lines;
  }

  /** Reading `a` and then `b` is reading `a + b`. */
  lemma {:induction false} FeedConcat(st: Reading, a: seq<string>, b: seq<string>)
    ensures Feed(st, a + b) ==
      Progress(Feed(Feed(st, a).state, b).state, Feed(st, a).sent + Feed(Feed(st, a).state, b).sent)
    decreases |b|
  {
    if b == [] {
      AppendNil(a);
    } else {
      var init, line := b[..|b| - 1], b[|b| - 1];
      DropLast(b);
      Assoc(a, init, [line]);
      FeedConcat(st, a, init);
      FeedAppend(st, a + init, line);
      var fa, fi := Feed(st, a), Feed(Feed(st, a).state, init);
      Assoc(fa.sent, fi.sent, Emitted(fi.state, line));
    }
  }

  /** One more line read in a session. */
  lemma SessionLine(lines: seq<string>, n: nat)
    requires n < |lines|
    ensures Session(lines[..n + 1]) == Progress(Read(Session(lines[..n]).state, lines[n]),
      Session(lines[..n]).sent + Emitted(Session(lines[..n]).state, lines[n]))
  {
    assert lines[..n + 1] == lines[..n] + [lines[n]];
    FeedAppend(Questioning(0), lines[..n], lines[n]);
  }

  /** A round read from position `a` to `b` of a session that stood at the
      start of a round. */
  lemma SessionRound(lines: seq<string>, a: nat, b: nat, before: seq<Request>)
    requires a <= b <= |lines|
    requires Session(lines[..a]) == Progress(Questioning(0), before + [NewRound])
    ensures Session(lines[..b]) == Progress(Feed(Questioning(0), lines[a..b]).state,
      before + [NewRound] + Feed(Questioning(0), lines[a..b]).sent)
  {
    var fa, fb := Feed(Questioning(0), lines[..a]), Feed(Questioning(0), lines[a..b]);
    assert fa.state == Questioning(0) && [NewRound] + fa.sent == before + [NewRound];
    SplitPrefix(lines, a, b);
    FeedConcat(Questioning(0), lines[..a], lines[a..b]);
    assert Feed(Questioning(0), lines[..b]) == Progress(fb.state, fa.sent + fb.sent);
    Assoc([NewRound], fa.sent, fb.sent);
  }

  /** The answer `lines[n]` to "Start new round": yes requests a new round,
      anything else ends the game. */
  lemma RoundAnswered(lines: seq<string>, n: nat, sent: seq<Request>, yes: bool)
    requires n < |lines| && Session(lines[..n]) == Progress(AnsweringRound, sent) && yes == ('y' in lines[n])
    ensures Session(lines[..n + 1]) ==
      if yes then Progress(Questioning(0), sent + [NewRound]) else Progress(AnsweringGame, sent + [EndedGame])
  {
    SessionLine(lines, n);
  }

  /** The answer `lines[n]` to "Start new game": yes requests a new round,
      anything else ends the session. */
  lemma GameAnswered(lines: seq<string>, n: nat, sent: seq<Request>)
    requires n < |lines| && Session(lines[..n]) == Progress(AnsweringGame, sent)
    ensures Session(lines[..n + 1]) ==
      if 'y' in lines[n] then Progress(Questioning(0), sent + [NewRound]) else Progress(Done, sent)
  {
    SessionLine(lines, n);
  }

  /** The questions among `lines`: every line that is no command, in order. */
  function Questions(lines: seq<string>): (qs: seq<Request>)
    ensures |qs| <= |lines|
    ensures forall j :: 0 <= j < |qs| ==> qs[j].Ask? && !IsCommand(qs[j].text)
  {
    if lines == [] then []
    else
      var line := lines[|lines| - 1];
      Questions(lines[..|lines| - 1]) + (if IsCommand(line) then [] else [Ask(line)])
  }

  lemma QuestionsAppend(lines: seq<string>, line: string)
    ensures Questions(lines + [line]) == Questions(lines) + (if IsCommand(line) then [] else [Ask(line)])
  {
    assert (lines + [line])[..|lines|] == lines;
  }

  /** After the lines `read` of a round's question loop, `left` questions
      remain, and the reading went as the questions say. */
  predicate ReadQuestions(read: seq<string>, left: int)
  {
    && left == MaxQuestions - |Questions(read)| && left >= 0
    && Feed(Questioning(0), read) ==
      Progress(if left == 0 then Guessing else Questioning(MaxQuestions - left), Questions(read))
  }

  /** The same for the lines `lines[start..p]`; the budget is used up only
      once a line was read. */
  predicate QuestionsRead(lines: seq<string>, start: nat, p: nat, left: int)
    requires start <= p <= |lines|
  {
    ReadQuestions(lines[start..p], left) && (left == 0 ==> start < p)
  }

  /** One line `m` read by the question loop: a question uses one question
      of the budget, "--quit" ends the reading, "--guess" after a question
      moves to the guess, and any other command changes nothing. */
  lemma QuestionStep(read: seq<string>, m: string, left: int)
    requires ReadQuestions(read, left) && left > 0
    ensures IsCommand(m) ==> Questions(read + [m]) == Questions(read)
    ensures !IsCommand(m) ==> Questions(read + [m]) == Questions(read) + [Ask(m)] && ReadQuestions(read + [m], left - 1)
    ensures m == "--quit" ==> Feed(Questioning(0), read + [m]) == Progress(Done, Questions(read))
    ensures m == "--guess" && left != MaxQuestions ==> Feed(Questioning(0), read + [m]) == Progress(Guessing, Questions(read))
    ensures IsCommand(m) && m != "--quit" && !(m == "--guess" && left != MaxQuestions) ==> ReadQuestions(read + [m], left)
  {
    FeedAppend(Questioning(0), read, m);
    QuestionsAppend(read, m);
    assert IsCommand("--quit") && IsCommand("--guess");
  }

  /** How a round's question loop over `lines[start..p]` ended, with `left`
      questions remaining: with `stop` when the input ran out or on
      "--quit", otherwise in the guess, after the budget was used up or
      after "--guess" once a question was asked. */
  predicate AskEnded(lines: seq<string>, start: nat, p: nat, left: int, stop: bool)
    requires start <= p <= |lines|
  {
    var read := lines[start..p];
    && left == MaxQuestions - |Questions(read)| && left >= 0
    && if stop then
         (p == |lines| && Feed(Questioning(0), read) == Progress(Questioning(MaxQuestions - left), Questions(read)))
         || (start < p && lines[p - 1] == "--quit" && Feed(Questioning(0), read) == Progress(Done, Questions(read)))
       else
         && start < p && (left == 0 || (lines[p - 1] == "--guess" && left < MaxQuestions))
         && Feed(Questioning(0), read) == Progress(Guessing, Questions(read))
  }

  /** The question loop after reading `lines[start..p]`: `sent` extends
      `sent0` by the questions asked so far. */
  predicate AskingAt(lines: seq<string>, start: nat, p: nat, left: int, sent0: seq<Request>, sent: seq<Request>)
    requires start <= p <= |lines|
  {
    sent == sent0 + Questions(lines[start..p]) && QuestionsRead(lines, start, p, left)
  }

  /** The question loop has ended at `p`, as AskEnded says, having sent the
      questions read after `sent0`. */
  predicate AskedUntil(lines: seq<string>, start: nat, p: nat, left: int, stop: bool, sent0: seq<Request>, sent: seq<Request>)
    requires start <= p <= |lines|
  {
    sent == sent0 + Questions(lines[start..p]) && AskEnded(lines, start, p, left, stop)
  }

  /** The question loop ends when the budget is used up or the input runs out. */
  lemma AskRanOut(lines: seq<string>, start: nat, p: nat, left: int, sent0: seq<Request>, sent: seq<Request>)
    requires start <= p <= |lines| && AskingAt(lines, start, p, left, sent0, sent)
    ensures left == 0 ==> AskedUntil(lines, start, p, left, false, sent0, sent)
    ensures p == |lines| && left > 0 ==> AskedUntil(lines, start, p, left, true, sent0, sent)
  {
  }

  /** QuestionStep at position `p` of the typed lines. */
  lemma QuestionLine(lines: seq<string>, start: nat, p: nat, left: int, sent0: seq<Request>, sent: seq<Request>)
    requires start <= p < |lines| && AskingAt(lines, start, p, left, sent0, sent) && left > 0
    ensures !IsCommand(lines[p]) ==> AskingAt(lines, start, p + 1, left - 1, sent0, sent + [Ask(lines[p])])
    ensures lines[p] == "--quit" ==> AskedUntil(lines, start, p + 1, left, true, sent0, sent)
    ensures lines[p] == "--guess" && left != MaxQuestions ==> AskedUntil(lines, start, p + 1, left, false, sent0, sent)
    ensures IsCommand(lines[p]) && lines[p] != "--quit" && !(lines[p] == "--guess" && left != MaxQuestions) ==>
      AskingAt(lines, start, p + 1, left, sent0, sent)
  {
    var read, m := lines[start..p], lines[p];
    QuestionStep(read, m, left);
    SplitLast(lines, start, p + 1);
    if !IsCommand(m) {
      Assoc(sent0, Questions(read), [Ask(m)]);
    }
  }

  /** Reading guess prompts: invalid answers send nothing, the first valid
      one is sent as the guess. */
  lemma {:induction false} GuessPrompt(lines: seq<string>)
    requires forall j :: 0 <= j < |lines| - 1 ==> !IsTesterType(lines[j])
    ensures Feed(Guessing, lines) ==
      if lines != [] && IsTesterType(lines[|lines| - 1]) then Progress(AnsweringRound, [Guess(lines[|lines| - 1])])
      else Progress(Guessing, [])
  {
    if lines != [] {
      var init := lines[..|lines| - 1];
      GuessPrompt(init);
      if init != [] {
        assert init[|init| - 1] == lines[|lines| - 2];
      }
    }
  }

  /** The guess prompt reading `lines[q..p]`, where no line but the last
      can be a tester type: it ends answering the round with the guess sent
      when the last line is one, and is still guessing otherwise. */
  lemma PromptRead(lines: seq<string>, q: nat, p: nat)
    requires q <= p <= |lines|
    requires forall j :: q <= j < p - 1 ==> !IsTesterType(lines[j])
    ensures Feed(Guessing, lines[q..p]) ==
      if q < p && IsTesterType(lines[p - 1]) then Progress(AnsweringRound, [Guess(lines[p - 1])])
      else Progress(Guessing, [])
  {
    PromptLines(lines, q, p);
    GuessPrompt(lines[q..p]);
  }

  /** The slice read by a guess prompt, position by position. */
  lemma PromptLines(lines: seq<string>, q: nat, p: nat)
    requires q <= p <= |lines|
    requires forall j :: q <= j < p - 1 ==> !IsTesterType(lines[j])
    ensures forall j :: 0 <= j < |lines[q..p]| - 1 ==> !IsTesterType(lines[q..p][j])
    ensures q < p ==> lines[q..p] != [] && lines[q..p][|lines[q..p]| - 1] == lines[p - 1]
  {
    assert forall j :: 0 <= j < |lines[q..p]| ==> lines[q..p][j] == lines[q + j];
  }

  /** The question loop of a round that started at `start` after `sent0`:
      the session has sent what the loop sent, and stands in the guess unless
      the loop stopped the run. */
  lemma RoundAsked(lines: seq<string>, start: nat, q: nat, left: int, stop: bool, sent0: seq<Request>, sent: seq<Request>)
    requires start <= q <= |lines|
    requires Session(lines[..start]) == Progress(Questioning(0), sent0 + [NewRound])
    requires AskedUntil(lines, start, q, left, stop, sent0 + [NewRound], sent)
    ensures Session(lines[..q]).sent == sent
    ensures stop ==> q == |lines| || Session(lines[..q]).state == Done
    ensures !stop ==> Session(lines[..q]).state == Guessing
  {
    SessionRound(lines, start, q, sent0);
  }

  /** The guess prompt reading `lines[q..p]` in a session that stood in the
      guess at `q`, after `sent`. */
  lemma SessionGuess(lines: seq<string>, q: nat, p: nat, sent: seq<Request>)
    requires q <= p <= |lines| && Session(lines[..q]) == Progress(Guessing, sent)
    ensures Session(lines[..p]) == Progress(Feed(Guessing, lines[q..p]).state, sent + Feed(Guessing, lines[q..p]).sent)
  {
    var fq, fp := Feed(Questioning(0), lines[..q]), Feed(Guessing, lines[q..p]);
    assert fq.state == Guessing && [NewRound] + fq.sent == sent;
    SplitPrefix(lines, q, p);
    FeedConcat(Questioning(0), lines[..q], lines[q..p]);
    assert Feed(Questioning(0), lines[..p]) == Progress(fp.state, fq.sent + fp.sent);
    Assoc([NewRound], fq.sent, fp.sent);
  }

  /** How a phase of the protocol and a reading state fit together. */
  predicate Corresponds(st: Reading, phase: Phase) {
    match st
    case Questioning(asked) => phase == Asking(asked) && asked < MaxQuestions
    case Guessing => phase.Asking? && phase.asked >= 1
    case AnsweringRound => phase == Guessed
    case AnsweringGame => phase == Idle
    case Done => true
  }

  lemma ReadFollowsProtocol(st: Reading, phase: Phase, line: string)
    requires Corresponds(st, phase)
    ensures |Emitted(st, line)| <= 1 && WellFormed(Emitted(st, line))
    ensures Emitted(st, line) == [] ==> Corresponds(Read(st, line), phase)
    ensures |Emitted(st, line)| == 1 ==>
      Step(phase, Emitted(st, line)[0]).Some? && Corresponds(Read(st, line), Step(phase, Emitted(st, line)[0]).value)
  {
  }

  /** Whatever is typed, a session sends requests that follow the protocol:
      no question is a command and every guess is "bot" or "human". */
  lemma {:induction false} SessionFollowsProtocol(lines: seq<string>)
    ensures Replay(Session(lines).sent).Some? && WellFormed(Session(lines).sent)
    ensures Corresponds(Session(lines).state, Replay(Session(lines).sent).value)
  {
    if lines == [] {
      assert Session(lines).sent == [] + [NewRound];
      ReplayAppend([], NewRound);
    } else {
      var n := |lines| - 1;
      assert lines[..n + 1] == lines;
      SessionFollowsProtocol(lines[..n]);
      SessionLine(lines, n);
      var before := Session(lines[..n]);
      ReadFollowsProtocol(before.state, Replay(before.sent).value, lines[n]);
      var e := Emitted(before.state, lines[n]);
      if e == [] {
        assert before.sent + e == before.sent;
      } else {
        assert e == [e[0]];
        ReplayAppend(before.sent, e[0]);
      }
    }
  }

  // ---------------------------------------------------------------------
  // The score ledger
  // ---------------------------------------------------------------------

  /** The counters a transcript implies when the `j`-th guess gets the
      tester's answer `verdicts[j]`, and the final scores of its games. */
  datatype Tally = Tally(points: real, rounds: nat, asked: nat, guesses: nat, scores: seq<real>)

  /** The points a guess earns after `asked` questions, when it is guess
      number `g` and so is answered by `verdicts[g]`. */
  function GuessAward(verdicts: seq<string>, g: nat, asked: nat): real
  {
    if g < |verdicts| && verdicts[g] == GuessCorrect then Award(MaxQuestions - asked) else 0.0
  }

  function LedgerStep(tally: Tally, r: Request, verdicts: seq<string>): Tally
  {
    match r
    case NewRound => tally.(rounds := tally.rounds + 1, asked := 0)
    case Ask(_) => tally.(asked := tally.asked + 1)
    case Guess(_) =>
      tally.(points := tally.points + GuessAward(verdicts, tally.guesses, tally.asked), guesses := tally.guesses + 1)
    case EndedGame =>
      var score := if tally.rounds == 0 then 0.0 else tally.points / tally.rounds as real;
      tally.(points := 0.0, rounds := 0, scores := tally.scores + [score])
  }

  function Ledger(t: seq<Request>, verdicts: seq<string>): Tally
  {
    if t == [] then Tally(0.0, 0, 0, 0, [])
    else LedgerStep(Ledger(t[..|t| - 1], verdicts), t[|t| - 1], verdicts)
  }

  lemma LedgerAppend(t: seq<Request>, r: Request, verdicts: seq<string>)
    ensures Ledger(t + [r], verdicts) == LedgerStep(Ledger(t, verdicts), r, verdicts)
  {
    assert (t + [r])[..|t|] == t;
  }

  /** Ending a game resets the points and the rounds and records the mean
      points per round as the game's final score. */
  lemma LedgerEndedGame(t: seq<Request>, verdicts: seq<string>)
    ensures var before, after := Ledger(t, verdicts), Ledger(t + [EndedGame], verdicts);
      && after.points == 0.0 && after.rounds == 0 && after.guesses == before.guesses
      && after.scores == before.scores + [if before.rounds == 0 then 0.0 else before.points / before.rounds as real]
  {
    LedgerAppend(t, EndedGame, verdicts);
  }

  /** Questions only count up the questions of the round. */
  lemma {:induction false} LedgerQuestions(t: seq<Request>, lines: seq<string>, verdicts: seq<string>)
    ensures Ledger(t + Questions(lines), verdicts) ==
      Ledger(t, verdicts).(asked := Ledger(t, verdicts).asked + |Questions(lines)|)
  {
    if lines == [] {
      AppendNil(t);
    } else {
      var init, line := lines[..|lines| - 1], lines[|lines| - 1];
      LedgerQuestions(t, init, verdicts);
      if !IsCommand(line) {
        Assoc(t, Questions(init), [Ask(line)]);
        LedgerAppend(t + Questions(init), Ask(line), verdicts);
      } else {
        AppendNil(Questions(init));
      }
    }
  }

  /** A new round and its questions: one more round, and the questions of
      this round counted from zero. */
  lemma LedgerRound(t: seq<Request>, lines: seq<string>, verdicts: seq<string>)
    ensures Ledger(t + [NewRound] + Questions(lines), verdicts) ==
      Ledger(t, verdicts).(rounds := Ledger(t, verdicts).rounds + 1, asked := |Questions(lines)|)
  {
    LedgerAppend(t, NewRound, verdicts);
    LedgerQuestions(t + [NewRound], lines, verdicts);
  }

  /** The mean of points earned at most 100 at a time lies in [0, 100]. */
  lemma MeanBounded(points: real, rounds: nat)
    requires rounds >= 1 && 0.0 <= points <= 100.0 * rounds as real
    ensures 0.0 <= points / rounds as real <= 100.0
  {
    var r := rounds as real;
    assert (points / r) * r == points;
  }

  /** Along any transcript the protocol accepts, a round earns at most 100
      points, the number of questions of the round is counted, and every
      final score lies in [0, 100]. */
  lemma {:induction false} LedgerBounded(t: seq<Request>, verdicts: seq<string>)
    requires Replay(t).Some?
    ensures forall j :: 0 <= j < |Ledger(t, verdicts).scores| ==> 0.0 <= Ledger(t, verdicts).scores[j] <= 100.0
    ensures Replay(t).value == Idle ==> Ledger(t, verdicts).points == 0.0 && Ledger(t, verdicts).rounds == 0
    ensures Replay(t).value.Asking? ==>
      Ledger(t, verdicts).rounds >= 1 && Ledger(t, verdicts).asked == Replay(t).value.asked
      && 0.0 <= Ledger(t, verdicts).points <= 100.0 * (Ledger(t, verdicts).rounds - 1) as real
    ensures Replay(t).value == Guessed ==>
      Ledger(t, verdicts).rounds >= 1 && 0.0 <= Ledger(t, verdicts).points <= 100.0 * Ledger(t, verdicts).rounds as real
  {
    if t != [] {
      var before := t[..|t| - 1];
      var r := t[|t| - 1];
      LedgerBounded(before, verdicts);
      var phase := Replay(before).value;
      var tally := Ledger(before, verdicts);
      match r
      case NewRound =>
      case Ask(_) =>
      case Guess(_) =>
        assert 0 <= MaxQuestions - tally.asked < MaxQuestions;
      case EndedGame =>
        MeanBounded(tally.points, tally.rounds);
    }
  }

  /** Every final score a session reports lies in [0, 100]. */
  lemma SessionScoresBounded(lines: seq<string>, verdicts: seq<string>)
    ensures forall j :: 0 <= j < |Ledger(Session(lines).sent, verdicts).scores| ==>
      0.0 <= Ledger(Session(lines).sent, verdicts).scores[j] <= 100.0
  {
    SessionFollowsProtocol(lines);
    LedgerBounded(Session(lines).sent, verdicts);
  }

  class Subject {
    var nQuestionsLeft: int
    var points: real
    var nRounds: int

    /** The invariant `run` keeps: the budget lies in [0, MaxQuestions] and
        the points are at most 100 per round played. */
    predicate Valid()
      reads this
    {
      0 <= nQuestionsLeft <= MaxQuestions && 0 <= nRounds && 0.0 <= points <= 100.0 * nRounds as real
    }

    /** The counters start unset in the source; here they start at zero. */
    constructor ()
      ensures nQuestionsLeft == 0 && points == 0.0 && nRounds == 0
      ensures Valid()
    {
      nQuestionsLeft, points, nRounds := 0, 0.0, 0;
    }

    /** subject.py: _start_new_game. */
    method StartNewGame()
      modifies this
      ensures nRounds == 0 && points == 0.0
      ensures nQuestionsLeft == old(nQuestionsLeft)
    {
      nRounds := 0;
      points := 0.0;
    }

    /** subject.py: _start_new_round, without the NEW_ROUND request. */
    method StartNewRound()
      modifies this
      ensures nQuestionsLeft == MaxQuestions && nRounds == old(nRounds) + 1
      ensures points == old(points)
    {
      nQuestionsLeft := MaxQuestions;
      nRounds := nRounds + 1;
    }

    /** One question sent to the tester uses one question of the budget. */
    method ConsumeQuestion()
      requires nQuestionsLeft > 0
      modifies this
      ensures nQuestionsLeft == old(nQuestionsLeft) - 1
      ensures points == old(points) && nRounds == old(nRounds)
    {
      nQuestionsLeft := nQuestionsLeft - 1;
    }

    /** subject.py: _execute_command. `wasGuess` is its return value; `exits`
        stands for the sys.exit of "--quit". No command changes a counter;
        "--score" computes the score, so it needs a round to have started. */
    method ExecuteCommand(command: string) returns (wasGuess: bool, exits: bool)
      requires command == "--score" ==> nRounds != 0
      ensures wasGuess <==> command == "--guess" && nQuestionsLeft != MaxQuestions
      ensures exits <==> command == "--quit"
    {
      if command == "--guess" {
        if nQuestionsLeft == MaxQuestions {
          return false, false;
        } else {
          return true, false;
        }
      }
      if command in Commands {
        if command == "--score" {
          var score := ComputeScore();
        } else if command == "--quit" {
          return false, true;
        }
      }
      return false, false;
    }

    /** subject.py: _update_points. */
    method UpdatePoints()
      modifies this
      ensures points == old(points) + Award(nQuestionsLeft)
      ensures nQuestionsLeft == old(nQuestionsLeft) && nRounds == old(nRounds)
    {
      points := points + Award(nQuestionsLeft);
    }

    /** subject.py: _compute_score, the mean points per round. On a valid
        state it lies in [0, 100]. */
    function ComputeScore(): (score: real)
      reads this
      requires nRounds != 0
      ensures Valid() ==> 0.0 <= score <= 100.0
      ensures score * nRounds as real == points
    {
      points / nRounds as real
    }

    /** subject.py: the end of _make_guess, once the tester has answered the
        guess with `verdict`: points are added only for a correct guess. */
    method ScoreGuess(verdict: string)
      requires nRounds != 0
      modifies this
      ensures points == old(points) + if verdict == GuessCorrect then Award(nQuestionsLeft) else 0.0
      ensures nQuestionsLeft == old(nQuestionsLeft) && nRounds == old(nRounds)
    {
      if verdict == GuessCorrect {
        UpdatePoints();
      }
      var score := ComputeScore();
    }

    /** subject.py: _make_guess. The guess is read from the typed lines from
        `q` on, sent, and scored with the tester's verdict `verdicts[g0]`.
        `stop` is set when the typed input runs out before a valid guess or
        the tester gives no verdict. `sent0` is what was sent before, and the
        ledger of it must agree with the counters. */
    method MakeGuess(lines: seq<string>, q: nat, sent0: seq<Request>, verdicts: seq<string>, g0: nat)
      returns (p: nat, sent: seq<Request>, g: nat, stop: bool)
      requires q <= |lines| && g0 <= |verdicts| && nRounds != 0
      requires Session(lines[..q]) == Progress(Guessing, sent0)
      requires Ledger(sent0, verdicts).points == points && Ledger(sent0, verdicts).guesses == g0
      requires Ledger(sent0, verdicts).asked == MaxQuestions - nQuestionsLeft
      modifies this
      ensures q <= p <= |lines| && g <= |verdicts|
      ensures nQuestionsLeft == old(nQuestionsLeft) && nRounds == old(nRounds)
      ensures Session(lines[..p]).sent == sent
      ensures Ledger(sent, verdicts).points == points
      ensures Ledger(sent, verdicts).rounds == Ledger(sent0, verdicts).rounds
      ensures Ledger(sent, verdicts).asked == Ledger(sent0, verdicts).asked
      ensures Ledger(sent, verdicts).scores == Ledger(sent0, verdicts).scores
      ensures !stop ==> Session(lines[..p]).state == AnsweringRound
      ensures !stop ==> q < p && IsTesterType(lines[p - 1]) && sent == sent0 + [Guess(lines[p - 1])]
      ensures !stop ==> g == g0 + 1 && Ledger(sent, verdicts).guesses == g
      ensures !stop ==> points == old(points) + if verdicts[g0] == GuessCorrect then Award(nQuestionsLeft) else 0.0
      ensures stop ==> g == g0 && points == old(points)
      ensures stop ==> ((p == |lines| && Session(lines[..p]).state == Guessing)
        || Ledger(sent, verdicts).guesses > |verdicts|)
    {
      var kind;
      kind, p := PromptTesterType(lines, q);
      PromptRead(lines, q, p);
      SessionGuess(lines, q, p, sent0);
      g, stop := g0, true;
      if kind.None? {
        assert sent0 + [] == sent0;
        return p, sent0, g, stop;
      }
      LedgerAppend(sent0, Guess(kind.value), verdicts);
      sent := sent0 + [Guess(kind.value)];
      if g0 == |verdicts| {
        return;
      }
      ScoreGuess(verdicts[g0]);
      g, stop := g0 + 1, false;
    }

    /** subject.py: one pass of the question loop. The message is the
        typed line `p`: a command is executed, anything else is sent as a
        question and uses one question of the budget. `done` is set when the
        loop ends here, with `stop` on "--quit", otherwise on "--guess" after
        a question. */
    method ReadMessage(lines: seq<string>, start: nat, p: nat, sent0: seq<Request>, sent: seq<Request>)
      returns (next: nat, after: seq<Request>, done: bool, stop: bool)
      requires start <= p < |lines| && nRounds >= 1 && nQuestionsLeft > 0
      requires AskingAt(lines, start, p, nQuestionsLeft, sent0, sent)
      modifies this
      ensures next == p + 1
      ensures nRounds == old(nRounds) && points == old(points)
      ensures done ==> AskedUntil(lines, start, next, nQuestionsLeft, stop, sent0, after)
      ensures !done ==> AskingAt(lines, start, next, nQuestionsLeft, sent0, after)
    {
      var message := lines[p];
      QuestionLine(lines, start, p, nQuestionsLeft, sent0, sent);
      next, after, done, stop := p + 1, sent, false, false;
      if IsCommand(message) {
        var wasGuess, exits := ExecuteCommand(message);
        done, stop := exits || wasGuess, exits;
      } else {
        after := sent + [Ask(message)];
        ConsumeQuestion();
      }
    }

    /** subject.py: the question loop of run. Typed lines are read from
        `start` on: a question is sent and uses one question of the budget, a
        command is executed. The loop ends when the budget is used up or on
        "--guess" after a question; `stop` is set when the run ends instead,
        on "--quit" or when the input runs out. */
    method AskQuestions(lines: seq<string>, start: nat, sent0: seq<Request>)
      returns (p: nat, sent: seq<Request>, stop: bool)
      requires start <= |lines| && nRounds >= 1 && nQuestionsLeft == MaxQuestions
      modifies this
      ensures start <= p <= |lines|
      ensures nRounds == old(nRounds) && points == old(points)
      ensures AskedUntil(lines, start, p, nQuestionsLeft, stop, sent0, sent)
    {
      p, sent := start, sent0;
      while nQuestionsLeft > 0
        invariant start <= p <= |lines|
        invariant nRounds == old(nRounds) && points == old(points)
        invariant AskingAt(lines, start, p, nQuestionsLeft, sent0, sent)
        decreases |lines| - p
      {
        if p == |lines| {
          AskRanOut(lines, start, p, nQuestionsLeft, sent0, sent);
          return p, sent, true;
        }
        var done;
        p, sent, done, stop := ReadMessage(lines, start, p, sent0, sent);
        if done {
          return;
        }
      }
      AskRanOut(lines, start, p, nQuestionsLeft, sent0, sent);
      stop := false;
    }

    /** subject.py: one round of run. A new round is requested, questions
        are asked, and the guess is read, sent and scored with the tester's
        verdict `verdicts[g0]`; the session then waits for the answer to
        "Start new round". `stop` is set when the run ends inside the
        round: on "--quit", when the typed input runs out before the guess,
        or when the tester gives no verdict. The session stood at the start of a round at
        `start`, after `sent0`, and the ledger of `sent0` must agree with the
        counters. */
    method PlayRound(lines: seq<string>, start: nat, sent0: seq<Request>, verdicts: seq<string>, g0: nat)
      returns (p: nat, sent: seq<Request>, g: nat, stop: bool)
      requires start <= |lines| && g0 <= |verdicts|
      requires Session(lines[..start]) == Progress(Questioning(0), sent0 + [NewRound])
      requires 0 <= nRounds && 0.0 <= points <= 100.0 * nRounds as real
      requires Ledger(sent0, verdicts).points == points && Ledger(sent0, verdicts).rounds == nRounds
      requires Ledger(sent0, verdicts).guesses == g0
      modifies this
      ensures start <= p <= |lines| && g <= |verdicts|
      ensures Valid() && nRounds == old(nRounds) + 1
      ensures Ledger(sent, verdicts).points == points && Ledger(sent, verdicts).rounds == nRounds
      ensures Ledger(sent, verdicts).asked == MaxQuestions - nQuestionsLeft
      ensures Ledger(sent, verdicts).scores == Ledger(sent0, verdicts).scores
      ensures stop ==> g == g0 && points == old(points) && sent == Session(lines[..p]).sent
      ensures stop ==> (p == |lines| || Session(lines[..p]).state == Done || Ledger(sent, verdicts).guesses > |verdicts|)
      ensures !stop ==> start < p && g == g0 + 1 && Ledger(sent, verdicts).guesses == g
      ensures !stop ==> nQuestionsLeft < MaxQuestions
      ensures !stop ==> points == old(points) + if verdicts[g0] == GuessCorrect then Award(nQuestionsLeft) else 0.0
      ensures !stop ==> Session(lines[..p]) == Progress(AnsweringRound, sent)
    {
      StartNewRound();
      var q;
      q, sent, stop := AskQuestions(lines, start, sent0 + [NewRound]);
      RoundAsked(lines, start, q, nQuestionsLeft, stop, sent0, sent);
      LedgerRound(sent0, lines[start..q], verdicts);
      p, g := q, g0;
      if stop {
        return;
      }
      var asked := sent;
      p, sent, g, stop := MakeGuess(lines, q, asked, verdicts, g0);
    }

    /** subject.py: the "Start new round" question after a guess. The
        answer is the typed line `p`; one holding a 'y' starts a new round,
        anything else ends the game. */
    method AskNewRound(lines: seq<string>, p: nat, sent: seq<Request>) returns (next: nat, again: bool)
      requires p < |lines| && Session(lines[..p]) == Progress(AnsweringRound, sent)
      ensures next == p + 1 && again == ('y' in lines[p])
      ensures Session(lines[..next]) ==
        if again then Progress(Questioning(0), sent + [NewRound]) else Progress(AnsweringGame, sent + [EndedGame])
    {
      again := 'y' in lines[p];
      RoundAnswered(lines, p, sent, again);
      next := p + 1;
    }

    /** subject.py: one game of run, from _start_new_game to the request
        that ends the game. Rounds are played from the typed line `start` on
        while the player answers yes to "Start new round"; the session stood
        at the start of a round there, after `sent0`. The final score is the
        mean points per round, and the ledger records it. `stop` is set when
        the run ends inside the game. */
    method PlayGame(lines: seq<string>, start: nat, sent0: seq<Request>, verdicts: seq<string>, g0: nat)
      returns (p: nat, sent: seq<Request>, g: nat, score: real, stop: bool)
      requires start <= |lines| && g0 <= |verdicts|
      requires Session(lines[..start]) == Progress(Questioning(0), sent0 + [NewRound])
      requires Ledger(sent0, verdicts).points == 0.0 && Ledger(sent0, verdicts).rounds == 0
      requires Ledger(sent0, verdicts).guesses == g0
      modifies this
      ensures start <= p <= |lines| && g <= |verdicts|
      ensures sent == Session(lines[..p]).sent
      ensures Valid()
      ensures stop ==> (p == |lines| || Session(lines[..p]).state == Done || Ledger(sent, verdicts).guesses > |verdicts|)
      ensures stop ==> Ledger(sent, verdicts).scores == Ledger(sent0, verdicts).scores
      ensures !stop ==> Session(lines[..p]) == Progress(AnsweringGame, sent)
      ensures !stop ==> Ledger(sent, verdicts).points == 0.0 && Ledger(sent, verdicts).rounds == 0
      ensures !stop ==> Ledger(sent, verdicts).guesses == g
      ensures !stop ==> Ledger(sent, verdicts).scores == Ledger(sent0, verdicts).scores + [score]
      ensures !stop ==> 0.0 <= score <= 100.0
      ensures !stop ==> nRounds >= 1 && score == points / nRounds as real
    {
      StartNewGame();
      p, sent, g, score := start, sent0, g0, 0.0;
      var again := true;
      while again
        invariant start <= p <= |lines| && g <= |verdicts|
        invariant again ==> Session(lines[..p]) == Progress(Questioning(0), sent + [NewRound])
        invariant !again ==> Session(lines[..p]) == Progress(AnsweringGame, sent + [EndedGame]) && nRounds >= 1 && Valid()
        invariant Ledger(sent, verdicts).points == points && Ledger(sent, verdicts).rounds == nRounds
        invariant Ledger(sent, verdicts).guesses == g && Ledger(sent, verdicts).scores == Ledger(sent0, verdicts).scores
        invariant 0 <= nRounds && 0.0 <= points <= 100.0 * nRounds as real
        decreases |lines| - p
      {
        p, sent, g, stop := PlayRound(lines, p, sent, verdicts, g);
        if stop || p == |lines| {
          return p, sent, g, score, true;
        }
        p, again := AskNewRound(lines, p, sent);
      }
      score := ComputeScore();
      LedgerEndedGame(sent, verdicts);
      sent := sent + [EndedGame];
      stop := false;
      assert score == points / nRounds as real;
    }

    /** subject.py: the "Start new game" question after a game. The answer
        is the typed line `p`; one holding a 'y' starts a new game, anything
        else ends the session. */
    method AskNewGame(lines: seq<string>, p: nat, sent: seq<Request>) returns (next: nat, again: bool)
      requires p < |lines| && Session(lines[..p]) == Progress(AnsweringGame, sent)
      ensures next == p + 1 && again == ('y' in lines[p])
      ensures Session(lines[..next]) ==
        if again then Progress(Questioning(0), sent + [NewRound]) else Progress(Done, sent)
    {
      again := 'y' in lines[p];
      GameAnswered(lines, p, sent);
      next := p + 1;
    }

    /** subject.py: run. `lines` is everything the player types, in order;
        `verdicts` are the tester's answers to the guesses, in order. The run
        ends on "--quit", on answering no to "Start new game", when the typed
        input runs out, or when the tester gives no verdict. It returns how
        many lines it read, the requests sent to the tester, and the final
        score reported at the end of each game: exactly what the session over
        the lines read sends, and the scores its ledger gives. */
    method Run(lines: seq<string>, verdicts: seq<string>)
      returns (consumed: nat, sent: seq<Request>, finalScores: seq<real>)
      modifies this
      ensures consumed <= |lines|
      ensures sent == Session(lines[..consumed]).sent
      ensures consumed == |lines| || Session(lines[..consumed]).state == Done
        || Ledger(sent, verdicts).guesses > |verdicts|
      ensures finalScores == Ledger(sent, verdicts).scores
      ensures forall j :: 0 <= j < |finalScores| ==> 0.0 <= finalScores[j] <= 100.0
      ensures Valid()
    {
      consumed, sent, finalScores := 0, [], [];
      var g := 0;
      assert lines[..0] == [];
      var again := true;
      while again
        invariant consumed <= |lines| && g <= |verdicts|
        invariant again ==> Session(lines[..consumed]) == Progress(Questioning(0), sent + [NewRound])
        invariant !again ==> Session(lines[..consumed]) == Progress(Done, sent)
        invariant Ledger(sent, verdicts).points == 0.0 && Ledger(sent, verdicts).rounds == 0
        invariant Ledger(sent, verdicts).guesses == g && Ledger(sent, verdicts).scores == finalScores
        invariant forall j :: 0 <= j < |finalScores| ==> 0.0 <= finalScores[j] <= 100.0
        invariant !again ==> Valid()
        decreases |lines| - consumed
      {
        var score, stop;
        consumed, sent, g, score, stop := PlayGame(lines, consumed, sent, verdicts, g);
        if stop {
          return;
        }
        finalScores := finalScores + [score];
        if consumed == |lines| {
          return;
        }
        consumed, again := AskNewGame(lines, consumed, sent);
      }
    }
  }
}
