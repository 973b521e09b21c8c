/** The tester's side of the game (tester.py): the respondent type chosen
    for each round, the check of the subject's guess, and the reply to a
    question, normalised, humanized and paced for the bot. The chat bot,
    the clock and the operator's terminal are parameters. */
module Tester {
  import opened Config
  import opened Helper

  /** The writing speed used when the operator skips the estimate:
      `0.15 + draw * 0.2` for a random() value `draw`. */
  function FallbackWritingSpeed(draw: real): (speed: real)
    requires 0.0 <= draw < 1.0
    ensures 0.15 <= speed < 0.35
  {
    0.15 + draw * 0.2
  }

  /** How long a bot reply of `replyLength` characters is held back after
      the bot took `t` seconds: until the time a person would have needed
      at `writingSpeed`. A reply that was already slow is not held back. */
  function PacingDelay(replyLength: nat, writingSpeed: real, t: real): (delay: real)
    ensures delay >= 0.0
    ensures t + delay >= replyLength as real * writingSpeed
    ensures delay == 0.0 <==> t >= replyLength as real * writingSpeed
    ensures delay > 0.0 ==> t + delay == replyLength as real * writingSpeed
  {
    var estimatedWritingTime := replyLength as real * writingSpeed;
    if t < estimatedWritingTime then estimatedWritingTime - t else 0.0
  }

  /** A longer reply is never held back for less time. */
  lemma PacingMonotone(len1: nat, len2: nat, writingSpeed: real, t: real)
    requires len1 <= len2 && writingSpeed >= 0.0
    ensures PacingDelay(len1, writingSpeed, t) <= PacingDelay(len2, writingSpeed, t)
  {
    assert len1 as real * writingSpeed <= len2 as real * writingSpeed;
  }

  /** A 40-character reply at 0.2 seconds per character takes 8 seconds to
      type: after 2 seconds of bot latency it is held back 6 more, after 10
      seconds not at all. */
  lemma PacingExamples()
    ensures PacingDelay(40, 0.2, 2.0) == 6.0
    ensures PacingDelay(40, 0.2, 10.0) == 0.0
  {
  }

  class Tester {
    /** None until the first round; then "bot" or "human". */
    var testerType: Option<string>
    /** Seconds per character. */
    var writingSpeed: real

    /** tester.py: Tester.__init__ without the routes and the bot connection.
        `answer` is the reply to "Estimate writing speed (y/N)",
        `measuredSpeed` what the estimate would give and `draw` the random()
        value for the fallback. */
    constructor (answer: string, measuredSpeed: real, draw: real)
      requires 0.0 <= draw < 1.0
      ensures testerType == None
      ensures writingSpeed == if 'y' in answer then measuredSpeed else FallbackWritingSpeed(draw)
    {
      testerType := None;
      writingSpeed := if 'y' in answer then measuredSpeed else FallbackWritingSpeed(draw);
    }

    /** tester.py: start_new_round. The operator's answers are read until one
        is "bot" or "human", which becomes the respondent type. If the input
        ends first nothing changes and no confirmation is sent. */
    method StartNewRound(answers: seq<string>) returns (confirmation: Option<string>)
      modifies this
      ensures writingSpeed == old(writingSpeed)
      ensures confirmation.Some? <==> exists j :: 0 <= j < |answers| && IsTesterType(answers[j])
      ensures confirmation.Some? ==> confirmation.value == "New round ready"
      ensures confirmation.Some? ==> exists j :: (0 <= j < |answers| && testerType == Some(answers[j])
        && IsTesterType(answers[j]) && forall m :: 0 <= m < j ==> !IsTesterType(answers[m]))
      ensures confirmation.None? ==> testerType == old(testerType)
    {
      var kind, next := PromptTesterType(answers, 0);
      if kind.None? {
        return None;
      }
      testerType := kind;
      return Some("New round ready");
    }

    /** tester.py: check_guess. */
    function CheckGuess(guess: string): (verdict: string)
      reads this
      ensures verdict == GuessCorrect || verdict == GuessWrong
      ensures verdict == GuessCorrect <==> testerType == Some(guess)
    {
      if testerType == Some(guess) then GuessCorrect else GuessWrong
    }

    /** tester.py: receive_and_send_message. For the bot, `botReply` is what
        the chat bot answered and `t` how long it took; the reply is
        normalised, humanized with random() values `draws`, and held back by
        `delay` seconds. Otherwise the operator's `humanReply` is normalised
        and sent at once. */
    method ReceiveAndSendMessage(botReply: string, t: real, humanReply: string, draws: nat -> real)
      returns (reply: TextResult, delay: real)
      ensures testerType == Some(TesterBot) ==> reply == Humanize(NormalizeText(botReply), draws)
      ensures testerType == Some(TesterBot) && reply.Ok? ==>
        |reply.text| == |NormalizeText(botReply)| && delay == PacingDelay(|reply.text|, writingSpeed, t)
      ensures testerType != Some(TesterBot) ==> reply == Ok(NormalizeText(humanReply)) && delay == 0.0
      ensures delay >= 0.0
    {
      if testerType == Some(TesterBot) {
        var normalized := NormalizeText(botReply);
        reply := HumanizeText(normalized, draws);
        if reply.IndexError? {
          return reply, 0.0;
        }
        assert |reply.text| == |normalized|;
        delay := PacingDelay(|reply.text|, writingSpeed, t);
        return;
      }
      return Ok(NormalizeText(humanReply)), 0.0;
    }
  }
}
