/** Splitting a string at a separator and joining its parts again. */
module Splitting {

  /** Where the first separator is, or the length if there is none. */
  function FirstOf(sep: char, s: string): (k: nat)
    ensures k <= |s| && (k < |s| ==> s[k] == sep) && forall i | 0 <= i < k :: s[i] != sep
  {
    if s == "" || s[0] == sep then 0 else 1 + FirstOf(sep, s[1..])
  }

  function Split(sep: char, s: string): (parts: seq<string>)
    ensures parts != []
    decreases |s|
  {
    var k := FirstOf(sep, s);
    if k == |s| then [s] else [s[..k]] + Split(sep, s[k + 1..])
  }

  function Join(sep: string, parts: seq<string>): string {
    if parts == [] then "" else if |parts| == 1 then parts[0] else parts[0] + sep + Join(sep, parts[1..])
  }

  lemma {:induction false} FirstOfIs(sep: char, s: string, k: nat)
    requires k < |s| && s[k] == sep && forall i | 0 <= i < k :: s[i] != sep
    ensures FirstOf(sep, s) == k
  {
    if k != 0 {
      FirstOfIs(sep, s[1..], k - 1);
    }
  }

  lemma {:induction false} NoneInside(sep: char, s: string)
    requires sep !in s
    ensures FirstOf(sep, s) == |s| && Split(sep, s) == [s]
  {
    if s != "" {
      NoneInside(sep, s[1..]);
    }
  }

  lemma SplitFirst(sep: char, s: string, k: nat)
    requires k < |s| && s[k] == sep && forall i | 0 <= i < k :: s[i] != sep
    ensures Split(sep, s) == [s[..k]] + Split(sep, s[k + 1..])
  {
    FirstOfIs(sep, s, k);
  }

  lemma SplitAfter(sep: char, part: string, rest: string)
    requires sep !in part
    ensures Split(sep, part + [sep] + rest) == [part] + Split(sep, rest)
  {
    var s := part + [sep] + rest;
    SplitFirst(sep, s, |part|);
    assert s[..|part|] == part && s[|part| + 1..] == rest;
  }

  lemma {:induction false} PartsHaveNoSeparator(sep: char, s: string)
    ensures forall part | part in Split(sep, s) :: sep !in part
    decreases |s|
  {
    var k := FirstOf(sep, s);
    if k < |s| {
      PartsHaveNoSeparator(sep, s[k + 1..]);
    }
  }

  /** Joined lines, the last of them ended too, read back as those lines exactly when no line holds a line break. */
  lemma LinesReadBackIff(lines: seq<string>)
    requires lines != []
    ensures Split('\n', Join("\n", lines) + "\n") == lines + [""] <==> forall line | line in lines :: '\n' !in line
  {
    if forall line | line in lines :: '\n' !in line {
      LinesReadBack(lines);
    }
    PartsHaveNoSeparator('\n', Join("\n", lines) + "\n");
    if Split('\n', Join("\n", lines) + "\n") == lines + [""] {
      forall line | line in lines ensures '\n' !in line {
        assert line in lines + [""];
      }
    }
  }

  lemma {:induction false} LinesReadBack(lines: seq<string>)
    requires lines != [] && forall line | line in lines :: '\n' !in line
    ensures Split('\n', Join("\n", lines) + "\n") == lines + [""]
  {
    if |lines| == 1 {
      SplitAfter('\n', lines[0], "");
      assert lines[0] + "\n" + "" == lines[0] + "\n";
      assert Split('\n', "") == [""] && lines == [lines[0]];
    } else {
      var rest := lines[1..];
      LinesReadBack(rest);
      SplitAfter('\n', lines[0], Join("\n", rest) + "\n");
      assert lines[0] + "\n" + (Join("\n", rest) + "\n") == Join("\n", lines) + "\n";
      assert lines == [lines[0]] + rest;
    }
  }

  lemma Regrouped(part: string, sep: char, rest: string, b: string)
    ensures part + [sep] + (rest + [sep] + b) == part + [sep] + rest + [sep] + b
  {
  }

  lemma Grouped(first: seq<string>, parts: seq<string>, more: seq<string>)
    ensures first + (parts + more) == first + parts + more
  {
  }

  /** What follows one more part splits as before. */
  lemma OneMorePart(sep: char, part: string, rest: string, tail: string, more: seq<string>)
    requires sep !in part && Split(sep, tail) == Split(sep, rest) + more
    ensures Split(sep, part + [sep] + tail) == Split(sep, part + [sep] + rest) + more
  {
    SplitAfter(sep, part, tail);
    SplitAfter(sep, part, rest);
    Grouped([part], Split(sep, rest), more);
  }

  lemma {:induction false} SplitConcat(sep: char, a: string, b: string)
    ensures Split(sep, a + [sep] + b) == Split(sep, a) + Split(sep, b)
    decreases |a|
  {
    var k := FirstOf(sep, a);
    if k == |a| {
      NoneInside(sep, a);
      SplitAfter(sep, a, b);
    } else {
      var part, rest := a[..k], a[k + 1..];
      assert a == part + [sep] + rest;
      SplitConcat(sep, rest, b);
      OneMorePart(sep, part, rest, rest + [sep] + b, Split(sep, b));
      Regrouped(part, sep, rest, b);
    }
  }

  lemma SplitLast(sep: char, a: string, last: string)
    requires sep !in last
    ensures Split(sep, a + [sep] + last)[1..] == Split(sep, a)[1..] + [last]
  {
    var parts := Split(sep, a);
    SplitConcat(sep, a, last);
    NoneInside(sep, last);
    assert (parts + [last])[1..] == parts[1..] + [last];
  }

  /** What lines read back as: each as what its breaks make of it. */
  function Pieces(lines: seq<string>): seq<string> {
    if lines == [] then [] else Split('\n', lines[0]) + Pieces(lines[1..])
  }

  lemma {:induction false} LinesReadAsPieces(lines: seq<string>)
    requires lines != []
    ensures Split('\n', Join("\n", lines) + "\n") == Pieces(lines) + [""]
  {
    assert Split('\n', "") == [""];
    if |lines| == 1 {
      SplitConcat('\n', lines[0], "");
      assert lines[0] + ['\n'] + "" == lines[0] + "\n";
      assert Pieces(lines) == Split('\n', lines[0]) + [];
    } else {
      var rest := lines[1..];
      var text := Join("\n", rest) + "\n";
      LinesReadAsPieces(rest);
      SplitConcat('\n', lines[0], text);
      assert lines[0] + ['\n'] + text == Join("\n", lines) + "\n";
      assert Split('\n', lines[0]) + (Pieces(rest) + [""]) == (Split('\n', lines[0]) + Pieces(rest)) + [""];
    }
  }

  lemma {:induction false} PiecesAppend(lines: seq<string>, more: seq<string>)
    ensures Pieces(lines + more) == Pieces(lines) + Pieces(more)
  {
    if lines == [] {
      assert lines + more == more;
    } else {
      assert (lines + more)[1..] == lines[1..] + more;
      PiecesAppend(lines[1..], more);
    }
  }
}
