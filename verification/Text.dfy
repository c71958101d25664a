/** Strings as sequences of Unicode scalar values, with the few library operations the modules share. */
module Text {

  /** The characters with Unicode's White_Space property. */
  predicate IsSpace(c: char) {
    || '\t' <= c <= '\r'
    || c == ' ' || c == '\U{0085}' || c == '\U{00A0}' || c == '\U{1680}'
    || '\U{2000}' <= c <= '\U{200A}'
    || c == '\U{2028}' || c == '\U{2029}' || c == '\U{202F}' || c == '\U{205F}' || c == '\U{3000}'
  }

  function TrimLeft(s: string, cut: char -> bool): string {
    if s != "" && cut(s[0]) then TrimLeft(s[1..], cut) else s
  }

  function TrimRight(s: string, cut: char -> bool): string {
    if s != "" && cut(s[|s| - 1]) then TrimRight(s[..|s| - 1], cut) else s
  }

  function Trim(s: string, cut: char -> bool): string {
    TrimRight(TrimLeft(s, cut), cut)
  }

  function TrimSpace(s: string): string {
    Trim(s, IsSpace)
  }

  predicate Contains(s: string, part: string) {
    part <= s || (s != "" && Contains(s[1..], part))
  }

  function FirstNonEmpty(a: string, b: string): string {
    if a != "" then a else b
  }

  /** The first of two strings that is not blank. */
  function FirstNonBlank(a: string, b: string): string {
    if TrimSpace(a) != "" then a else if TrimSpace(b) != "" then b else ""
  }

  /** The part begins at some place. */
  lemma {:induction false} ContainsIff(s: string, part: string)
    ensures Contains(s, part) <==> exists k :: 0 <= k <= |s| && part <= s[k..]
  {
    assert s[0..] == s;
    if s != "" {
      ContainsIff(s[1..], part);
      if k :| 0 <= k <= |s[1..]| && part <= s[1..][k..] {
        assert s[1..][k..] == s[k + 1..];
      }
      if k :| 0 <= k <= |s| && part <= s[k..] {
        if 0 < k {
          assert s[1..][k - 1..] == s[k..];
        }
      }
    }
  }

  /** Trimming would change nothing. */
  ghost predicate Trimmed(s: string, cut: char -> bool) {
    s == "" || (!cut(s[0]) && !cut(s[|s| - 1]))
  }

  lemma {:induction false} TrimLeftCuts(s: string, cut: char -> bool) returns (k: nat)
    ensures k <= |s| && TrimLeft(s, cut) == s[k..] && forall i | 0 <= i < k :: cut(s[i])
    ensures k == |s| || !cut(s[k])
  {
    if s != "" && cut(s[0]) {
      var rest := TrimLeftCuts(s[1..], cut);
      k := rest + 1;
      forall i | 0 <= i < k ensures cut(s[i]) {
        if 0 < i {
          assert s[i] == s[1..][i - 1];
        }
      }
    } else {
      k := 0;
    }
  }

  lemma {:induction false} TrimRightCuts(s: string, cut: char -> bool) returns (k: nat)
    ensures k <= |s| && TrimRight(s, cut) == s[..k] && forall i | k <= i < |s| :: cut(s[i])
    ensures k == 0 || !cut(s[k - 1])
  {
    if s != "" && cut(s[|s| - 1]) {
      k := TrimRightCuts(s[..|s| - 1], cut);
      assert s[..|s| - 1][..k] == s[..k];
      forall i | k <= i < |s| ensures cut(s[i]) {
        if i < |s| - 1 {
          assert s[i] == s[..|s| - 1][i];
        }
      }
    } else {
      k := |s|;
    }
  }

  /** Trim returns the part of a string between its first and last kept characters. */
  lemma TrimIsMiddle(s: string, cut: char -> bool) returns (from: nat, to: nat)
    ensures from <= to <= |s| && Trim(s, cut) == s[from..to] && Trimmed(Trim(s, cut), cut)
    ensures forall i | 0 <= i < from || to <= i < |s| :: cut(s[i])
  {
    from := TrimLeftCuts(s, cut);
    var size := TrimRightCuts(s[from..], cut);
    to := from + size;
    assert s[from..][..size] == s[from..to];
    forall i | to <= i < |s| ensures cut(s[i]) {
      assert s[i] == s[from..][i - from];
    }
  }

  lemma TrimmedStays(s: string, cut: char -> bool)
    requires Trimmed(s, cut)
    ensures Trim(s, cut) == s
  {
  }

  lemma TrimTwice(s: string, cut: char -> bool)
    ensures Trimmed(Trim(s, cut), cut) && Trim(Trim(s, cut), cut) == Trim(s, cut)
  {
    var from, to := TrimIsMiddle(s, cut);
    TrimmedStays(Trim(s, cut), cut);
  }
}
