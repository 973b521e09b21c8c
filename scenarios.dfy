/** Whole rounds played through the subject's and the tester's operations,
    as a client of their contracts. */
module Scenarios {
  import opened Config
  import opened Helper
  import Subject
  import Tester

  /** Three correct guesses, made with 9, 5 and 0 questions left, give a
      score of (100 + 60 + 10) / 3. */
  method ScoringScenario() returns (score: real)
    ensures score == 170.0 / 3.0
  {
    var s := new Subject.Subject();
    s.StartNewGame();

    s.StartNewRound();
    s.ConsumeQuestion();
    s.ScoreGuess(GuessCorrect);

    s.StartNewRound();
    var asked := 0;
    while asked < 5
      invariant 0 <= asked <= 5
      invariant s.nQuestionsLeft == MaxQuestions - asked && s.nRounds == 2 && s.points == 100.0
    {
      s.ConsumeQuestion();
      asked := asked + 1;
    }
    s.ScoreGuess(GuessCorrect);

    s.StartNewRound();
    asked := 0;
    while asked < MaxQuestions
      invariant 0 <= asked <= MaxQuestions
      invariant s.nQuestionsLeft == MaxQuestions - asked && s.nRounds == 3 && s.points == 160.0
    {
      s.ConsumeQuestion();
      asked := asked + 1;
    }
    s.ScoreGuess(GuessCorrect);

    score := s.ComputeScore();
  }

  /** A round answered by the operator: one question uses one of the ten,
      the operator's reply comes back normalised and without delay, guessing
      "bot" is wrong, and the score stays 0. */
  method HumanRoundScenario(operatorReply: string)
    returns (reply: TextResult, delay: real, verdict: string, questionsLeft: int, score: real)
    ensures reply == Ok(NormalizeText(operatorReply)) && delay == 0.0
    ensures verdict == GuessWrong
    ensures questionsLeft == MaxQuestions - 1
    ensures score == 0.0
  {
    var tester := new Tester.Tester("", 0.0, 0.5);
    var subject := new Subject.Subject();
    subject.StartNewGame();
    subject.StartNewRound();
    var confirmation := tester.StartNewRound([TesterHuman]);

    subject.ConsumeQuestion();
    reply, delay := tester.ReceiveAndSendMessage("", 0.0, operatorReply, _ => 1.0);
    assert reply == Ok(NormalizeText(operatorReply)) && delay == 0.0;

    verdict := tester.CheckGuess(TesterBot);
    subject.ScoreGuess(verdict);
    questionsLeft := subject.nQuestionsLeft;
    score := subject.ComputeScore();
  }
}
