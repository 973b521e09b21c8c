/** Constants shared by the subject and the tester (config.py), and the
    re-prompt loop both sides use to read a tester type from the keyboard. */
module Config {

  /** Questions the subject may ask per round. */
  const MaxQuestions: nat := 10

  /** The two respondent kinds. */
  const TesterBot: string := "bot"
  const TesterHuman: string := "human"

  /** The two answers to a guess. */
  const GuessCorrect: string := "correct"
  const GuessWrong: string := "wrong"

  datatype Option<T> = None | Some(value: T)

  predicate IsTesterType(s: string) {
    s == TesterBot || s == TesterHuman
  }

  /** The re-prompt loop of subject.py:161-163 and tester.py:90-92: reads
      typed lines from position `start` on until one is "bot" or "human" and
      returns it with the position after it. The keyboard is the
      finite sequence `lines`; when it runs out before a valid line, the
      result is None (the program would stop on end of input). */
  method PromptTesterType(lines: seq<string>, start: nat) returns (kind: Option<string>, next: nat)
    requires start <= |lines|
    ensures start <= next <= |lines|
    ensures kind.Some? ==> start < next && kind.value == lines[next - 1] && IsTesterType(kind.value)
    ensures kind.Some? ==> forall j :: start <= j < next - 1 ==> !IsTesterType(lines[j])
    ensures kind.None? ==> next == |lines| && forall j :: start <= j < |lines| ==> !IsTesterType(lines[j])
  {
    next := start;
    while next < |lines|
      invariant start <= next <= |lines|
      invariant forall j :: start <= j < next ==> !IsTesterType(lines[j])
    {
      var line := lines[next];
      next := next + 1;
      if IsTesterType(line) {
        return Some(line), next;
      }
    }
    return None, next;
  }
}
