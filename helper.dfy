/** Text helpers of the game (helper.py): chat tags, info messages, the
    normalisation applied to every reply, the QWERTY neighbour table and the
    humanizer that injects typing mistakes into a bot reply.

    Character classes follow Python's `str` semantics restricted to ASCII:
    whitespace is 9..13 and 28..32 (what `\s` and `str.strip` accept among
    ASCII code points), word characters are letters, digits and `_`. Every
    non-ASCII character is treated as a word character that lowercasing
    leaves alone. */
module Helper {

  // ---------------------------------------------------------------------
  // Chat tags and info messages
  // ---------------------------------------------------------------------

  /** `s` left-justified in a field of `width` characters, padded with spaces. */
  function PadRight(s: string, width: nat): (r: string)
    ensures |r| == if |s| < width then width else |s|
    ensures r[..|s|] == s
    ensures forall j :: |s| <= j < |r| ==> r[j] == ' '
  {
    if |s| >= width then s else s + seq(width - |s|, _ => ' ')
  }

  /** The prefix printed before a chat line: the name in a 5-wide field, then " >> ". */
  function ChatTag(displayName: string): (tag: string)
    ensures |tag| == (if |displayName| < 5 then 5 else |displayName|) + 4
    ensures tag[..|displayName|] == displayName
    ensures forall j :: |displayName| <= j < |tag| - 4 ==> tag[j] == ' '
    ensures tag[|tag| - 4..] == " >> "
  {
    PadRight(displayName, 5) + " >> "
  }

  /** An information line: the message behind the fixed marker "INFO: ". */
  function InfoMessage(message: string): (line: string)
    ensures |line| == |message| + 6
    ensures line[..6] == "INFO: " && line[6..] == message
  {
    "INFO: " + message
  }

  // ---------------------------------------------------------------------
  // Normalisation
  // ---------------------------------------------------------------------

  predicate IsAscii(c: char) {
    (c as int) < 128
  }

  /** Python's whitespace among ASCII code points: \t \n \v \f \r, the four
      information separators 0x1c..0x1f, and the space. */
  predicate IsSpace(c: char) {
    9 <= c as int <= 13 || 28 <= c as int <= 32
  }

  predicate IsWordChar(c: char) {
    'a' <= c <= 'z' || 'A' <= c <= 'Z' || '0' <= c <= '9' || c == '_' || !IsAscii(c)
  }

  /** The characters the substitution of `([^\w\s]|_)` by "" keeps. */
  predicate Kept(c: char) {
    (IsWordChar(c) || IsSpace(c)) && c != '_'
  }

  /** Lowercases an ASCII capital; every other character is kept. */
  function ToLower(c: char): (l: char)
    ensures 'a' <= l <= 'z' <==> 'a' <= c <= 'z' || 'A' <= c <= 'Z'
    ensures 'A' <= c <= 'Z' ==> l == "abcdefghijklmnopqrstuvwxyz"[c as int - 'A' as int]
    ensures !('A' <= c <= 'Z') ==> l == c
    ensures IsAscii(l) <==> IsAscii(c)
  {
    if 'A' <= c <= 'Z' then (c as int + 32) as char else c
  }

  /** Deletes every punctuation character and every underscore. */
  function RemovePunctuation(s: string): (r: string)
    ensures |r| <= |s|
    ensures forall j :: 0 <= j < |r| ==> Kept(r[j]) && r[j] in s
    ensures (forall j :: 0 <= j < |s| ==> Kept(s[j])) ==> r == s
  {
    if s == [] then []
    else (if Kept(s[0]) then [s[0]] else []) + RemovePunctuation(s[1..])
  }

  /** Deleting characters is done character by character, keeping order:
      over a concatenation it is the concatenation of the results. */
  lemma {:induction false} RemovePunctuationConcat(a: string, b: string)
    ensures RemovePunctuation(a + b) == RemovePunctuation(a) + RemovePunctuation(b)
  {
    if a == [] {
      assert a + b == b;
    } else {
      var head := if Kept(a[0]) then [a[0]] else [];
      assert (a + b)[0] == a[0] && (a + b)[1..] == a[1..] + b;
      RemovePunctuationConcat(a[1..], b);
      assert head + (RemovePunctuation(a[1..]) + RemovePunctuation(b))
        == (head + RemovePunctuation(a[1..])) + RemovePunctuation(b);
    }
  }

  /** A single character is kept exactly when it is not punctuation or '_'. */
  lemma RemovePunctuationChar(c: char)
    ensures RemovePunctuation([c]) == if Kept(c) then [c] else []
  {
  }

  /** Every kept character occurs in the result as often as in `s`, and
      every other character not at all. */
  lemma {:induction false} RemovePunctuationCounts(s: string)
    ensures forall c :: multiset(RemovePunctuation(s))[c] == if Kept(c) then multiset(s)[c] else 0
  {
    if s != [] {
      RemovePunctuationCounts(s[1..]);
      assert s == [s[0]] + s[1..];
    }
  }

  /** `str.lower` on the ASCII letters: character by character. */
  function Lower(s: string): (r: string)
    ensures |r| == |s|
    ensures forall j :: 0 <= j < |s| ==> r[j] == ToLower(s[j])
  {
    seq(|s|, j requires 0 <= j < |s| => ToLower(s[j]))
  }

  /** Drops leading whitespace: the result is the suffix of `s` that starts
      at its first non-space character. */
  function TrimStart(s: string): (r: string)
    ensures |r| <= |s| && r == s[|s| - |r|..]
    ensures forall j :: 0 <= j < |s| - |r| ==> IsSpace(s[j])
    ensures r != [] ==> !IsSpace(r[0])
  {
    if s != [] && IsSpace(s[0]) then TrimStart(s[1..]) else s
  }

  /** Drops trailing whitespace: the result is the prefix of `s` that ends
      at its last non-space character. */
  function TrimEnd(s: string): (r: string)
    ensures |r| <= |s| && r == s[..|r|]
    ensures forall j :: |r| <= j < |s| ==> IsSpace(s[j])
    ensures r != [] ==> !IsSpace(r[|r| - 1])
  {
    if s != [] && IsSpace(s[|s| - 1]) then TrimEnd(s[..|s| - 1]) else s
  }

  /** `str.strip`: `s` cut between its first and last non-space characters. */
  function Strip(s: string): (r: string)
    ensures exists a, b :: (0 <= a <= b <= |s| && r == s[a..b]
      && (forall j :: 0 <= j < a ==> IsSpace(s[j])) && (forall j :: b <= j < |s| ==> IsSpace(s[j])))
    ensures r != [] ==> !IsSpace(r[0]) && !IsSpace(r[|r| - 1])
  {
    var t := TrimStart(s);
    var r := TrimEnd(t);
    assert r == s[|s| - |t|..|s| - |t| + |r|];
    r
  }

  /** helper.py: normalize_text. Punctuation and underscores removed,
      lowercased, stripped. */
  function NormalizeText(text: string): (r: string)
    ensures |r| <= |text|
    ensures r != [] ==> !IsSpace(r[0]) && !IsSpace(r[|r| - 1])
  {
    Strip(Lower(RemovePunctuation(text)))
  }

  /** A character the normaliser can leave in its output. */
  predicate IsNormalChar(c: char) {
    'a' <= c <= 'z' || '0' <= c <= '9' || IsSpace(c) || !IsAscii(c)
  }

  /** A property every character of `s` has, every character of its strip has. */
  lemma StripKeepsChars(s: string, P: char -> bool)
    requires forall j :: 0 <= j < |s| ==> P(s[j])
    ensures forall j :: 0 <= j < |Strip(s)| ==> P(Strip(s)[j])
  {
    var r := Strip(s);
    var a, b :| 0 <= a <= b <= |s| && r == s[a..b];
    forall j | 0 <= j < |r| ensures P(r[j]) {
      assert r[j] == s[a + j];
    }
  }

  lemma NormalizedChars(text: string)
    ensures forall j :: 0 <= j < |NormalizeText(text)| ==> IsNormalChar(NormalizeText(text)[j])
  {
    var kept := RemovePunctuation(text);
    var s := Lower(kept);
    forall j | 0 <= j < |s| ensures IsNormalChar(s[j]) {
      assert Kept(kept[j]);
    }
    StripKeepsChars(s, IsNormalChar);
  }

  predicate AllAscii(s: string) {
    forall j :: 0 <= j < |s| ==> IsAscii(s[j])
  }

  lemma NormalizeKeepsAscii(text: string)
    requires AllAscii(text)
    ensures AllAscii(NormalizeText(text))
  {
    var kept := RemovePunctuation(text);
    forall j | 0 <= j < |kept| ensures IsAscii(kept[j]) {
      assert kept[j] in text;
    }
    var s := Lower(kept);
    forall j | 0 <= j < |s| ensures IsAscii(s[j]) {
      assert s[j] == ToLower(kept[j]);
    }
    StripKeepsChars(s, IsAscii);
  }

  /** Over ASCII text the normalised text holds only lowercase letters, digits
      and whitespace, and never starts or ends with whitespace. */
  lemma NormalizeTextAscii(text: string)
    requires AllAscii(text)
    ensures forall j :: 0 <= j < |NormalizeText(text)| ==>
      ('a' <= NormalizeText(text)[j] <= 'z' || '0' <= NormalizeText(text)[j] <= '9' || IsSpace(NormalizeText(text)[j]))
    ensures NormalizeText(text) != [] ==>
      !IsSpace(NormalizeText(text)[0]) && !IsSpace(NormalizeText(text)[|NormalizeText(text)| - 1])
  {
    NormalizedChars(text);
    NormalizeKeepsAscii(text);
  }

  lemma LowerOfNormal(s: string)
    requires forall j :: 0 <= j < |s| ==> IsNormalChar(s[j])
    ensures Lower(s) == s
  {
  }

  /** The normaliser's output characters are all kept by RemovePunctuation. */
  lemma NormalKept(s: string)
    requires forall j :: 0 <= j < |s| ==> IsNormalChar(s[j])
    ensures RemovePunctuation(s) == s
  {
    assert forall j :: 0 <= j < |s| ==> Kept(s[j]);
  }

  /** Normalising twice is normalising once. */
  lemma NormalizeTextIdempotent(text: string)
    ensures NormalizeText(NormalizeText(text)) == NormalizeText(text)
  {
    var r := NormalizeText(text);
    NormalizedChars(text);
    NormalKept(r);
    LowerOfNormal(r);
    assert TrimStart(r) == r;
    assert TrimEnd(r) == r;
  }

  // ---------------------------------------------------------------------
  // The keyboard table
  // ---------------------------------------------------------------------

  /** The three letter rows of a QWERTY keyboard. */
  const Keyboard: seq<string> := ["qwertyuiop", "asdfghjkl", "zxcvbnm"]

  predicate OnKeyboard(c: char) {
    exists r, j :: 0 <= r < |Keyboard| && 0 <= j < |Keyboard[r]| && Keyboard[r][j] == c
  }

  /** The key left of position `j` in `row`, then the key right of it, where they exist. */
  function RowNeighbors(row: string, j: nat): string
    requires j < |row|
  {
    (if j > 0 then [row[j - 1]] else []) + (if j < |row| - 1 then [row[j + 1]] else [])
  }

  /** The first position at or after `j` where `c` stands in `row`, or -1. */
  function IndexFrom(row: string, c: char, j: nat): (k: int)
    requires j <= |row|
    ensures k == -1 || j <= k < |row|
    ensures k >= 0 ==> row[k] == c && forall m :: j <= m < k ==> row[m] != c
    ensures k == -1 ==> forall m :: j <= m < |row| ==> row[m] != c
    decreases |row| - j
  {
    if j == |row| then -1 else if row[j] == c then j else IndexFrom(row, c, j + 1)
  }

  /** The neighbours of `c` in the first of `rows` that holds it. */
  function NeighborsIn(rows: seq<string>, c: char): string
  {
    if rows == [] then []
    else
      var j := IndexFrom(rows[0], c, 0);
      if j >= 0 then RowNeighbors(rows[0], j) else NeighborsIn(rows[1..], c)
  }

  /** The specification of get_keyboard_neighbors. */
  function Neighbors(c: char): string
  {
    NeighborsIn(Keyboard, c)
  }

  /** helper.py: get_keyboard_neighbors, with its loop over the rows and
      its early return. */
  method GetKeyboardNeighbors(c: char) returns (neighbors: string)
    ensures neighbors == Neighbors(c)
  {
    var r := 0;
    while r < |Keyboard|
      invariant 0 <= r <= |Keyboard|
      invariant NeighborsIn(Keyboard[r..], c) == Neighbors(c)
    {
      var row := Keyboard[r];
      assert Keyboard[r..][0] == row;
      var j := 0;
      while j < |row|
        invariant 0 <= j <= |row|
        invariant forall m :: 0 <= m < j ==> row[m] != c
      {
        if row[j] == c {
          assert IndexFrom(row, c, 0) == j;
          neighbors := [];
          if j > 0 {
            neighbors := neighbors + [row[j - 1]];
          }
          if j < |row| - 1 {
            neighbors := neighbors + [row[j + 1]];
          }
          return;
        }
        j := j + 1;
      }
      assert IndexFrom(row, c, 0) == -1;
      assert Keyboard[r..][1..] == Keyboard[r + 1..];
      r := r + 1;
    }
    return [];
  }

  /** Every key appears once on the keyboard. */
  lemma KeysDistinct()
    ensures forall r, j, s, m ::
      (0 <= r < |Keyboard| && 0 <= j < |Keyboard[r]| && 0 <= s < |Keyboard| && 0 <= m < |Keyboard[s]|
       && Keyboard[r][j] == Keyboard[s][m]) ==> r == s && j == m
  {
  }

  /** Searching the rows from row `s` on finds key (r, j) in its own row. */
  lemma {:induction false} NeighborsInAt(s: nat, r: nat, j: nat)
    requires s <= r < |Keyboard| && j < |Keyboard[r]|
    ensures NeighborsIn(Keyboard[s..], Keyboard[r][j]) == RowNeighbors(Keyboard[r], j)
    decreases r - s
  {
    KeysDistinct();
    var c := Keyboard[r][j];
    var rows := Keyboard[s..];
    assert rows[0] == Keyboard[s];
    var k := IndexFrom(Keyboard[s], c, 0);
    if s == r {
      assert k == j;
    } else {
      assert k == -1;
      assert rows[1..] == Keyboard[s + 1..];
      NeighborsInAt(s + 1, r, j);
    }
  }

  lemma {:induction false} NeighborsInOff(s: nat, c: char)
    requires s <= |Keyboard|
    requires !OnKeyboard(c)
    ensures NeighborsIn(Keyboard[s..], c) == []
    decreases |Keyboard| - s
  {
    if s < |Keyboard| {
      var rows := Keyboard[s..];
      assert rows[0] == Keyboard[s];
      assert IndexFrom(Keyboard[s], c, 0) == -1;
      assert rows[1..] == Keyboard[s + 1..];
      NeighborsInOff(s + 1, c);
    }
  }

  /** A key's neighbours are the keys beside it in its row, left one first;
      any other character has none. */
  lemma NeighborsOfKey(r: nat, j: nat)
    requires r < |Keyboard| && j < |Keyboard[r]|
    ensures Neighbors(Keyboard[r][j]) == RowNeighbors(Keyboard[r], j)
    ensures |Neighbors(Keyboard[r][j])| == if j == 0 || j == |Keyboard[r]| - 1 then 1 else 2
    ensures j > 0 ==> Neighbors(Keyboard[r][j])[0] == Keyboard[r][j - 1]
    ensures j < |Keyboard[r]| - 1 ==> Neighbors(Keyboard[r][j])[|Neighbors(Keyboard[r][j])| - 1] == Keyboard[r][j + 1]
  {
    assert Keyboard[0..] == Keyboard;
    NeighborsInAt(0, r, j);
  }

  lemma NeighborsOfNonKey(c: char)
    requires !OnKeyboard(c)
    ensures Neighbors(c) == []
  {
    assert Keyboard[0..] == Keyboard;
    NeighborsInOff(0, c);
  }

  /** Every key is a lowercase letter. */
  lemma KeysAreLetters(r: nat, j: nat)
    requires r < |Keyboard| && j < |Keyboard[r]|
    ensures 'a' <= Keyboard[r][j] <= 'z'
  {
    var row := Keyboard[r];
    if r == 0 {
      assert row == "qwertyuiop";
    } else if r == 1 {
      assert row == "asdfghjkl";
    } else {
      assert row == "zxcvbnm";
    }
  }

  /** A neighbour in a row stands beside the key, and the key is its neighbour. */
  lemma RowNeighborsAdjacent(row: string, j: nat, d: char) returns (m: nat)
    requires j < |row| && d in RowNeighbors(row, j)
    ensures m < |row| && row[m] == d && (m + 1 == j || m == j + 1)
    ensures row[j] in RowNeighbors(row, m)
  {
    if j > 0 && d == row[j - 1] {
      m := j - 1;
    } else {
      m := j + 1;
    }
  }

  /** Every neighbour is a lowercase letter, hence never a space. */
  lemma NeighborsAreLetters(c: char)
    ensures forall m :: 0 <= m < |Neighbors(c)| ==> 'a' <= Neighbors(c)[m] <= 'z'
  {
    if OnKeyboard(c) {
      var r, j :| 0 <= r < |Keyboard| && 0 <= j < |Keyboard[r]| && Keyboard[r][j] == c;
      NeighborsOfKey(r, j);
      var nb := Neighbors(c);
      forall m | 0 <= m < |nb| ensures 'a' <= nb[m] <= 'z' {
        var at := RowNeighborsAdjacent(Keyboard[r], j, nb[m]);
        KeysAreLetters(r, at);
      }
    } else {
      NeighborsOfNonKey(c);
    }
  }

  lemma NeighborsSymmetricHalf(c: char, d: char)
    requires d in Neighbors(c)
    ensures c in Neighbors(d)
  {
    if !OnKeyboard(c) {
      NeighborsOfNonKey(c);
      assert false;
    }
    var r, j :| 0 <= r < |Keyboard| && 0 <= j < |Keyboard[r]| && Keyboard[r][j] == c;
    NeighborsOfKey(r, j);
    var m := RowNeighborsAdjacent(Keyboard[r], j, d);
    NeighborsOfKey(r, m);
  }

  /** Being neighbours is a symmetric relation. */
  lemma NeighborsSymmetric(c: char, d: char)
    ensures d in Neighbors(c) <==> c in Neighbors(d)
  {
    if d in Neighbors(c) {
      NeighborsSymmetricHalf(c, d);
    }
    if c in Neighbors(d) {
      NeighborsSymmetricHalf(d, c);
    }
  }

  /** No key is its own neighbour. */
  lemma NeighborsIrreflexive(c: char)
    ensures c !in Neighbors(c)
  {
    if OnKeyboard(c) {
      var r, j :| 0 <= r < |Keyboard| && 0 <= j < |Keyboard[r]| && Keyboard[r][j] == c;
      NeighborsOfKey(r, j);
      KeysDistinct();
    } else {
      NeighborsOfNonKey(c);
    }
  }

  // ---------------------------------------------------------------------
  // Humanizing
  // ---------------------------------------------------------------------

  /** Draws below these make humanize_text swap two letters, substitute a
      keyboard neighbour, and (for a key with two neighbours) take the left one. */
  const SwapChance: real := 0.005
  const TypoChance: real := 0.005
  const LeftNeighborChance: real := 0.5

  /** The outcome of humanize_text: the new text, or the IndexError Python
      raises at position `at` when it indexes an empty neighbour list. */
  datatype TextResult = Ok(text: string) | IndexError(at: nat)

  function Prepend(prefix: string, r: TextResult): TextResult
  {
    match r
    case Ok(t) => Ok(prefix + t)
    case IndexError(at) => IndexError(at)
  }

  /** One iteration of the loop: the characters appended, the next position
      and the index of the next random() value; or the IndexError. */
  datatype Step = Emit(chars: string, next: nat, nextDraw: nat) | Fail

  /** The iteration of humanize_text at position `i` when the next random()
      value is `draws(k)`. Every call of random() in the source, including
      the ones whose outcome does not matter, consumes one draw. */
  function HumanizeStep(text: string, draws: nat -> real, i: nat, k: nat): (s: Step)
    requires i < |text|
    ensures s.Emit? ==> i < s.next <= |text| && |s.chars| == s.next - i
  {
    if i == 0 then Emit([text[0]], 1, k)
    else
      var swapTried := i < |text| - 2;
      if swapTried && draws(k) < SwapChance then
        Emit([text[i + 1], text[i]], i + 2, k + 1)
      else
        var k1 := if swapTried then k + 1 else k;
        if text[i] != ' ' && draws(k1) < TypoChance then
          var nb := Neighbors(text[i]);
          if |nb| == 1 then Emit([nb[0]], i + 1, k1 + 1)
          else if draws(k1 + 1) < LeftNeighborChance then
            (if |nb| > 0 then Emit([nb[0]], i + 1, k1 + 2) else Fail)
          else if |nb| > 1 then Emit([nb[1]], i + 1, k1 + 2)
          else Fail
        else
          Emit([text[i]], i + 1, if text[i] != ' ' then k1 + 1 else k1)
  }

  /** The pass of humanize_text from position `i` on. */
  function HumanizeFrom(text: string, draws: nat -> real, i: nat, k: nat): (r: TextResult)
    requires i <= |text|
    ensures r.Ok? ==> |r.text| == |text| - i
    decreases |text| - i
  {
    if i == |text| then Ok([])
    else
      match HumanizeStep(text, draws, i, k)
      case Fail => IndexError(i)
      case Emit(chars, next, nextDraw) => Prepend(chars, HumanizeFrom(text, draws, next, nextDraw))
  }

  /** The specification of humanize_text with its random() values supplied by `draws`. */
  function Humanize(text: string, draws: nat -> real): (r: TextResult)
    ensures r.Ok? ==> |r.text| == |text|
    ensures r.Ok? && text != [] ==> r.text[0] == text[0]
  {
    HumanizeFrom(text, draws, 0, 0)
  }

  /** helper.py: the body of humanize_text's loop at position `i`, where
      `k` indexes the next random() value. */
  method HumanizeIteration(text: string, draws: nat -> real, i: nat, k: nat) returns (step: Step)
    requires i < |text|
    ensures step == HumanizeStep(text, draws, i, k)
  {
    var n := |text|;
    var next := k;
    if i > 0 {
      if i < n - 2 {
        var d := draws(next);
        next := next + 1;
        if d < SwapChance {
          return Emit([text[i + 1], text[i]], i + 2, next);
        }
      }
      if text[i] != ' ' {
        var d := draws(next);
        next := next + 1;
        if d < TypoChance {
          var nb := GetKeyboardNeighbors(text[i]);
          if |nb| == 1 {
            return Emit([nb[0]], i + 1, next);
          }
          var pick := draws(next);
          next := next + 1;
          if pick < LeftNeighborChance {
            if |nb| == 0 {
              return Fail;
            }
            return Emit([nb[0]], i + 1, next);
          }
          if |nb| < 2 {
            return Fail;
          }
          return Emit([nb[1]], i + 1, next);
        }
      }
    }
    return Emit([text[i]], i + 1, next);
  }

  /** helper.py: humanize_text, one left-to-right pass with index `i`. */
  method HumanizeText(text: string, draws: nat -> real) returns (r: TextResult)
    ensures r == Humanize(text, draws)
  {
    var humanized: string := "";
    var i: nat, k: nat := 0, 0;
    while i < |text|
      invariant i <= |text|
      invariant Humanize(text, draws) == Prepend(humanized, HumanizeFrom(text, draws, i, k))
      decreases |text| - i
    {
      var step := HumanizeIteration(text, draws, i, k);
      if step.Fail? {
        return IndexError(i);
      }
      HumanizeAdvance(text, draws, i, k, humanized);
      humanized := humanized + step.chars;
      i, k := step.next, step.nextDraw;
    }
    return Ok(humanized);
  }

  /** One iteration moves the loop invariant of HumanizeText forward. */
  lemma HumanizeAdvance(text: string, draws: nat -> real, i: nat, k: nat, done: string)
    requires i < |text| && HumanizeStep(text, draws, i, k).Emit?
    ensures Prepend(done, HumanizeFrom(text, draws, i, k))
      == Prepend(done + HumanizeStep(text, draws, i, k).chars,
                 HumanizeFrom(text, draws, HumanizeStep(text, draws, i, k).next, HumanizeStep(text, draws, i, k).nextDraw))
  {
    var step := HumanizeStep(text, draws, i, k);
    var rest := HumanizeFrom(text, draws, step.next, step.nextDraw);
    if rest.Ok? {
      assert done + (step.chars + rest.text) == (done + step.chars) + rest.text;
    }
  }

  /** How output character `out[p - base]` arose from `text[p]`: copied,
      replaced by a keyboard neighbour (never at a space), or one half of a
      transposition that lies strictly between the first and the last
      character. */
  predicate ExplainedAt(text: string, out: string, base: nat, p: nat)
    requires base <= p < |text| && |out| == |text| - base
  {
    || out[p - base] == text[p]
    || (text[p] != ' ' && out[p - base] in Neighbors(text[p]))
    || (0 < p < |text| - 2 && out[p - base] == text[p + 1] && out[p + 1 - base] == text[p])
    || (1 < p < |text| - 1 && base < p && out[p - base] == text[p - 1] && out[p - 1 - base] == text[p])
  }

  /** The characters one iteration appends are explained, whatever follows them. */
  lemma StepExplained(text: string, draws: nat -> real, i: nat, k: nat, rest: string)
    requires i < |text| && HumanizeStep(text, draws, i, k).Emit?
    requires |rest| == |text| - HumanizeStep(text, draws, i, k).next
    ensures forall p :: i <= p < HumanizeStep(text, draws, i, k).next ==>
      ExplainedAt(text, HumanizeStep(text, draws, i, k).chars + rest, i, p)
  {
  }

  /** Explanations of a suffix carry over once something is put in front of it. */
  lemma ExplainedShift(text: string, chars: string, rest: string, base: nat, p: nat)
    requires base + |chars| <= p < |text| && |rest| == |text| - (base + |chars|)
    requires ExplainedAt(text, rest, base + |chars|, p)
    ensures ExplainedAt(text, chars + rest, base, p)
  {
    var out := chars + rest;
    var b := base + |chars|;
    assert out[p - base] == rest[p - b];
    if p + 1 < |text| {
      assert out[p + 1 - base] == rest[p + 1 - b];
    }
    if b < p {
      assert out[p - 1 - base] == rest[p - 1 - b];
    }
  }

  lemma {:induction false} HumanizeFromExplained(text: string, draws: nat -> real, i: nat, k: nat)
    requires i <= |text|
    requires HumanizeFrom(text, draws, i, k).Ok?
    ensures forall p :: i <= p < |text| ==> ExplainedAt(text, HumanizeFrom(text, draws, i, k).text, i, p)
    decreases |text| - i
  {
    if i < |text| {
      var step := HumanizeStep(text, draws, i, k);
      var rest := HumanizeFrom(text, draws, step.next, step.nextDraw).text;
      var out := HumanizeFrom(text, draws, i, k).text;
      assert out == step.chars + rest;
      HumanizeFromExplained(text, draws, step.next, step.nextDraw);
      StepExplained(text, draws, i, k, rest);
      forall p | step.next <= p < |text| ensures ExplainedAt(text, out, i, p) {
        ExplainedShift(text, step.chars, rest, i, p);
      }
    }
  }

  /** Every character of a humanized text is explained by the original: the
      first character is always kept, the last is never part of a
      transposition, a space is never substituted, and a substituted
      character is a keyboard neighbour of the original one. */
  lemma HumanizeExplained(text: string, draws: nat -> real)
    requires Humanize(text, draws).Ok?
    ensures text != [] ==> Humanize(text, draws).text[0] == text[0]
    ensures forall p :: 0 <= p < |text| ==> ExplainedAt(text, Humanize(text, draws).text, 0, p)
  {
    HumanizeFromExplained(text, draws, 0, 0);
  }

  /** When every random() value comes back at or above the mutation chance,
      the pass copies the text. */
  lemma {:induction false} HumanizeFromIdentity(text: string, draws: nat -> real, i: nat, k: nat)
    requires i <= |text|
    requires forall m :: draws(m) >= SwapChance && draws(m) >= TypoChance
    ensures HumanizeFrom(text, draws, i, k) == Ok(text[i..])
    decreases |text| - i
  {
    if i < |text| {
      var step := HumanizeStep(text, draws, i, k);
      assert step.chars == [text[i]] && step.next == i + 1;
      HumanizeFromIdentity(text, draws, i + 1, step.nextDraw);
      assert text[i..] == [text[i]] + text[i + 1..];
    }
  }

  lemma HumanizeIdentity(text: string, draws: nat -> real)
    requires forall m :: draws(m) >= SwapChance && draws(m) >= TypoChance
    ensures Humanize(text, draws) == Ok(text)
  {
    HumanizeFromIdentity(text, draws, 0, 0);
  }

  /** A key has at most two neighbours. */
  lemma NeighborsAtMostTwo(c: char)
    ensures |Neighbors(c)| <= 2
  {
    if OnKeyboard(c) {
      var r, j :| 0 <= r < |Keyboard| && 0 <= j < |Keyboard[r]| && Keyboard[r][j] == c;
      NeighborsOfKey(r, j);
    } else {
      NeighborsOfNonKey(c);
    }
  }

  /** The pass fails only at an interior non-space character that has no
      keyboard neighbours. */
  lemma {:induction false} HumanizeFromError(text: string, draws: nat -> real, i: nat, k: nat)
    requires i <= |text|
    ensures HumanizeFrom(text, draws, i, k).IndexError? ==>
      var at := HumanizeFrom(text, draws, i, k).at;
      0 < at && i <= at < |text| && text[at] != ' ' && Neighbors(text[at]) == []
    decreases |text| - i
  {
    if i < |text| {
      var step := HumanizeStep(text, draws, i, k);
      if step.Fail? {
        NeighborsAtMostTwo(text[i]);
      } else {
        HumanizeFromError(text, draws, step.next, step.nextDraw);
      }
    }
  }

  /** Humanizing fails only at an interior non-space character that is no
      key, such as a digit; so a text of keys and spaces never fails. */
  lemma HumanizeFails(text: string, draws: nat -> real)
    ensures Humanize(text, draws).IndexError? ==>
      var at := Humanize(text, draws).at;
      0 < at < |text| && text[at] != ' ' && !OnKeyboard(text[at])
    ensures (forall p :: 0 < p < |text| ==> text[p] == ' ' || OnKeyboard(text[p])) ==> Humanize(text, draws).Ok?
  {
    HumanizeFromError(text, draws, 0, 0);
    var r := Humanize(text, draws);
    if r.IndexError? && OnKeyboard(text[r.at]) {
      var row, j :| 0 <= row < |Keyboard| && 0 <= j < |Keyboard[row]| && Keyboard[row][j] == text[r.at];
      NeighborsOfKey(row, j);
      assert false;
    }
  }

  /** A concrete failure: "a1" with every random() value 0.0. */
  lemma HumanizeDigitFails()
    ensures Humanize("a1", _ => 0.0) == IndexError(1)
  {
    assert !OnKeyboard('1');
    NeighborsOfNonKey('1');
    assert HumanizeStep("a1", _ => 0.0, 1, 0) == Fail;
  }
}
