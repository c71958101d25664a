/** The words of a text: what its separators leave between them. */
module Words {
  import opened Sequences
  import opened Splitting

  /** Keeps some characters, turns others into marks, and drops the rest. */
  function Marked(s: string, keep: char -> bool, separates: char -> bool, mark: char): string {
    if s == "" then ""
    else
      var before, c := Marked(s[..|s| - 1], keep, separates, mark), s[|s| - 1];
      if keep(c) then before + [c] else if separates(c) then before + [mark] else before
  }

  predicate IsWord(part: string) {
    part != ""
  }

  /** The words between the marks. */
  function Between(mark: char, marked: string): seq<string> {
    Filter(Split(mark, marked), IsWord)
  }

  function WordsOf(s: string, keep: char -> bool, separates: char -> bool, mark: char): seq<string> {
    Between(mark, Marked(s, keep, separates, mark))
  }

  /** What follows the last mark. */
  function Tail(mark: char, marked: string): string {
    var parts := Split(mark, marked);
    parts[|parts| - 1]
  }

  lemma SnocAfter(sep: char, s: string, k: nat, c: char)
    requires k < |s| && s[k] == sep && forall i | 0 <= i < k :: s[i] != sep
    ensures Split(sep, s + [c]) == [s[..k]] + Split(sep, s[k + 1..] + [c])
  {
    SplitFirst(sep, s + [c], k);
    assert (s + [c])[..k] == s[..k] && (s + [c])[k + 1..] == s[k + 1..] + [c];
  }

  lemma LastOfRest(first: string, rest: seq<string>, c: char)
    requires rest != []
    ensures var parts := [first] + rest;
            [first] + (rest[..|rest| - 1] + [rest[|rest| - 1] + [c]])
            == parts[..|parts| - 1] + [parts[|parts| - 1] + [c]]
  {
  }

  /** A character that is no separator goes on with the last part. */
  lemma {:induction false} SplitSnoc(sep: char, s: string, c: char)
    requires c != sep
    ensures var parts := Split(sep, s);
            Split(sep, s + [c]) == parts[..|parts| - 1] + [parts[|parts| - 1] + [c]]
    decreases |s|
  {
    var k := FirstOf(sep, s);
    if k == |s| {
      NoneInside(sep, s);
      NoneInside(sep, s + [c]);
    } else {
      var rest := s[k + 1..];
      SplitSnoc(sep, rest, c);
      SnocAfter(sep, s, k, c);
      SplitFirst(sep, s, k);
      LastOfRest(s[..k], Split(sep, rest), c);
    }
  }

  lemma FilterSnoc(s: seq<string>, x: string)
    ensures Filter(s + [x], IsWord) == Filter(s, IsWord) + if IsWord(x) then [x] else []
  {
    assert (s + [x])[..|s|] == s;
  }

  lemma OneMoreMark(mark: char, marked: string)
    ensures Between(mark, marked + [mark]) == Between(mark, marked) && Tail(mark, marked + [mark]) == ""
  {
    SplitConcat(mark, marked, "");
    assert marked + [mark] + "" == marked + [mark];
    assert Split(mark, "") == [""];
    FilterSnoc(Split(mark, marked), "");
  }

  /** The words before the last mark. */
  function Ended(mark: char, marked: string): seq<string> {
    var parts := Split(mark, marked);
    Filter(parts[..|parts| - 1], IsWord)
  }

  lemma WithTail(mark: char, marked: string)
    ensures Between(mark, marked)
         == Ended(mark, marked) + if Tail(mark, marked) != "" then [Tail(mark, marked)] else []
  {
    var parts := Split(mark, marked);
    assert parts == parts[..|parts| - 1] + [parts[|parts| - 1]];
    FilterSnoc(parts[..|parts| - 1], parts[|parts| - 1]);
  }

  lemma OneMoreChar(mark: char, marked: string, c: char)
    requires c != mark
    ensures Ended(mark, marked + [c]) == Ended(mark, marked)
    ensures Tail(mark, marked + [c]) == Tail(mark, marked) + [c]
  {
    SplitSnoc(mark, marked, c);
    var parts, more := Split(mark, marked), Split(mark, marked + [c]);
    assert more[..|more| - 1] == parts[..|parts| - 1];
  }

  lemma {:induction false} JoinSnoc(sep: string, words: seq<string>, word: string)
    ensures Join(sep, words + [word]) == if words == [] then word else Join(sep, words) + sep + word
  {
    if words != [] {
      var rest := words[1..];
      assert (words + [word])[1..] == rest + [word];
      JoinSnoc(sep, rest, word);
      if rest != [] {
        assert words[0] + sep + (Join(sep, rest) + sep + word) == words[0] + sep + Join(sep, rest) + sep + word;
      }
    }
  }

  lemma JoinGrows(sep: string, words: seq<string>, word: string, c: char)
    ensures Join(sep, words + [word + [c]]) == Join(sep, words + [word]) + [c]
  {
    JoinSnoc(sep, words, word);
    JoinSnoc(sep, words, word + [c]);
  }

  /** Joined words neither begin nor end with a mark. */
  lemma {:induction false} JoinEnds(sep: string, words: seq<string>, mark: char)
    requires words != [] && forall word | word in words :: word != "" && mark !in word
    ensures var joined := Join(sep, words);
            joined != "" && joined[0] != mark && joined[|joined| - 1] != mark
  {
    assert words[0] in words;
    if 1 < |words| {
      assert forall word | word in words[1..] :: word in words;
      JoinEnds(sep, words[1..], mark);
    }
  }

  lemma WordsHaveNoMark(mark: char, marked: string)
    ensures forall word | word in Between(mark, marked) :: word != "" && mark !in word
  {
    PartsHaveNoSeparator(mark, marked);
  }

  /** Joining the words of a text with its marks again, with one mark more if the text ends in marks after a word. */
  function Rejoined(mark: char, marked: string): string {
    var words := Between(mark, marked);
    Join([mark], words) + if words != [] && Tail(mark, marked) == "" then [mark] else ""
  }

  lemma RejoinedGrows(mark: char, marked: string, c: char)
    requires c != mark
    ensures Rejoined(mark, marked + [c]) == Rejoined(mark, marked) + [c]
  {
    OneMoreChar(mark, marked, c);
    WithTail(mark, marked);
    WithTail(mark, marked + [c]);
    var ended, tail := Ended(mark, marked), Tail(mark, marked);
    if tail == "" {
      JoinSnoc([mark], ended, [c]);
      assert tail + [c] == [c] && ended + [] == ended;
    } else {
      JoinGrows([mark], ended, tail, c);
      assert Rejoined(mark, marked) == Join([mark], ended + [tail]);
      assert Rejoined(mark, marked + [c]) == Join([mark], ended + [tail + [c]]);
    }
  }

  lemma RejoinedMarks(mark: char, marked: string)
    ensures Rejoined(mark, marked + [mark])
         == if Between(mark, marked) != [] && Tail(mark, marked) != "" then Rejoined(mark, marked) + [mark]
            else Rejoined(mark, marked)
  {
    OneMoreMark(mark, marked);
  }

  /** The text ends in a mark exactly when something is written and nothing follows the last mark. */
  lemma RejoinedEnds(mark: char, marked: string)
    ensures var text := Rejoined(mark, marked);
            && (text == "" <==> Between(mark, marked) == [])
            && (text != "" ==> text[0] != mark && (text[|text| - 1] == mark <==> Tail(mark, marked) == ""))
  {
    WordsHaveNoMark(mark, marked);
    if Between(mark, marked) != [] {
      JoinEnds([mark], Between(mark, marked), mark);
    }
  }
}
