/** Database names: any text is normalised to a short identifier, and normalised names are left alone. */
module DatabaseName {
  import opened Text

  const MAX_BYTES := 63

  /** The library's character tables. */
  datatype Unicode = Unicode(lower: char -> char, isLetter: char -> bool, isDigit: char -> bool) {
    predicate IsWord(c: char) {
      isLetter(c) || isDigit(c)
    }

    /** What the tables are known to satisfy. */
    ghost predicate Sane() {
      && (forall c :: lower(lower(c)) == lower(c))
      && (forall c | 'a' <= c <= 'z' || '0' <= c <= '9' || c == '_' :: lower(c) == c)
      && (forall c | 'a' <= c <= 'z' || '0' <= c <= '9' :: IsWord(c))
      && (forall c | IsSpace(c) || c == '_' || c == '-' :: !IsWord(c))
    }
  }

  predicate IsUnderscore(c: char) {
    c == '_'
  }

  predicate IsAsciiDigit(c: char) {
    '0' <= c <= '9'
  }

  /** The length of a character in UTF-8. */
  function Utf8Length(c: char): nat {
    if c as int < 0x80 then 1 else if c as int < 0x800 then 2 else if c as int < 0x1_0000 then 3 else 4
  }

  function ByteLength(s: string): nat {
    if s == "" then 0 else ByteLength(s[..|s| - 1]) + Utf8Length(s[|s| - 1])
  }

  function Lowered(unicode: Unicode, s: string): string {
    seq(|s|, i requires 0 <= i < |s| => unicode.lower(s[i]))
  }

  /** Keeps letters and digits, turns separators into single underscores, drops the rest. */
  function Squeeze(unicode: Unicode, s: string): string {
    if s == "" then ""
    else
      var before, c := Squeeze(unicode, s[..|s| - 1]), s[|s| - 1];
      if unicode.IsWord(c) then before + [c]
      else if (c == '-' || c == '_' || IsSpace(c)) && before != "" && before[|before| - 1] != '_' then before + "_"
      else before
  }

  /** The number of leading characters that fit. */
  function Fitting(s: string, maxBytes: nat): (fitting: nat)
    ensures fitting <= |s|
  {
    if s == "" || ByteLength(s) <= maxBytes then |s| else Fitting(s[..|s| - 1], maxBytes)
  }

  function Truncated(name: string): string {
    var fitting := if name == "" then 0 else Fitting(name[..|name| - 1], MAX_BYTES);
    TrimRight(name[..fitting], IsUnderscore)
  }

  function Resolve(unicode: Unicode, instance: string, requested: string): string {
    var base := if TrimSpace(requested) == "" then instance else TrimSpace(requested);
    var squeezed := Trim(Squeeze(unicode, Lowered(unicode, base)), IsUnderscore);
    var named := if squeezed == "" then "db" else squeezed;
    var started := if IsAsciiDigit(named[0]) then "db_" + named else named;
    var fitted := if MAX_BYTES < ByteLength(started) then Truncated(started) else started;
    if fitted == "" then "db" else fitted
  }

  /** Ends at the last character boundary within the limit; the ranged-over boundaries do not include the end itself. */
  method TruncateDatabaseName(name: string) returns (truncated: string)
    ensures truncated == Truncated(name)
  {
    var end := 0;
    var start := 0;
    var i := 0;
    while i < |name|
      invariant 0 <= i <= |name| && start == ByteLength(name[..i])
      invariant i == 0 ==> end == 0
      invariant 0 < i ==> end == i - 1 && ByteLength(name[..end]) <= MAX_BYTES
    {
      if MAX_BYTES < start {
        break;
      }
      end := i;
      assert name[..i + 1][..i] == name[..i];
      start := start + Utf8Length(name[i]);
      i := i + 1;
    }
    if name != "" {
      ghost var rest := name[..|name| - 1];
      assert rest[..end] == name[..end];
      if end < |rest| {
        assert rest[..end + 1] == name[..i];
      }
      FittingIs(rest, end, MAX_BYTES);
    }
    truncated := TrimRight(name[..end], IsUnderscore);
  }

  method ResolveDatabaseName(unicode: Unicode, instance: string, requested: string) returns (name: string)
    requires unicode.Sane()
    ensures name == Resolve(unicode, instance, requested)
  {
    var base := TrimSpace(requested);
    if base == "" {
      base := instance;
    }
    var lowered := Lowered(unicode, base);
    var builder := "";
    var lastUnderscore := false;
    for i := 0 to |lowered|
      invariant builder == Squeeze(unicode, lowered[..i])
      invariant lastUnderscore <==> builder != "" && builder[|builder| - 1] == '_'
    {
      assert lowered[..i + 1][..i] == lowered[..i];
      var c := lowered[i];
      if unicode.IsWord(c) {
        builder := builder + [c];
        lastUnderscore := false;
      } else if c == '-' || c == '_' || IsSpace(c) {
        if builder != "" && !lastUnderscore {
          builder := builder + "_";
          lastUnderscore := true;
        }
      }
    }
    assert lowered[..|lowered|] == lowered;
    name := Trim(builder, IsUnderscore);
    if name == "" {
      name := "db";
    }
    if IsAsciiDigit(name[0]) {
      name := "db_" + name;
    }
    if MAX_BYTES < ByteLength(name) {
      name := TruncateDatabaseName(name);
    }
    if name == "" {
      return "db";
    }
  }

  lemma {:induction false} PrefixIsNoLonger(s: string, k: nat)
    requires k <= |s|
    ensures ByteLength(s[..k]) <= ByteLength(s)
    ensures k < |s| ==> ByteLength(s[..k]) < ByteLength(s)
  {
    if k == |s| {
      assert s[..k] == s;
    } else {
      PrefixIsNoLonger(s[..|s| - 1], k);
      assert s[..|s| - 1][..k] == s[..k];
    }
  }

  lemma {:induction false} ByteLengthBounds(s: string)
    ensures |s| <= ByteLength(s) <= 4 * |s|
  {
    if s != "" {
      ByteLengthBounds(s[..|s| - 1]);
    }
  }

  /** A prefix that fits, and is everything or would not fit with one more character, is the longest that fits. */
  lemma {:induction false} FittingIs(s: string, k: nat, maxBytes: nat)
    requires k <= |s| && ByteLength(s[..k]) <= maxBytes
    requires k < |s| ==> maxBytes < ByteLength(s[..k + 1])
    ensures Fitting(s, maxBytes) == k
  {
    if k == |s| {
      assert s[..k] == s;
    } else {
      PrefixIsNoLonger(s, k + 1);
      var rest := s[..|s| - 1];
      assert rest[..k] == s[..k];
      if k < |rest| {
        assert rest[..k + 1] == s[..k + 1];
      }
      FittingIs(rest, k, maxBytes);
    }
  }

  lemma {:induction false} FittingFits(s: string, maxBytes: nat)
    ensures ByteLength(s[..Fitting(s, maxBytes)]) <= maxBytes
    ensures forall k | Fitting(s, maxBytes) < k <= |s| :: maxBytes < ByteLength(s[..k])
  {
    if s == "" || ByteLength(s) <= maxBytes {
      assert s[..|s|] == s;
    } else {
      var rest := s[..|s| - 1];
      FittingFits(rest, maxBytes);
      assert rest[..Fitting(rest, maxBytes)] == s[..Fitting(s, maxBytes)];
      forall k | Fitting(s, maxBytes) < k <= |s| ensures maxBytes < ByteLength(s[..k]) {
        if k == |s| {
          assert s[..k] == s;
        } else {
          assert rest[..k] == s[..k];
        }
      }
    }
  }

  /** A name that is too long is cut to its longest prefix of whole characters within the limit, less any underscores
      that prefix ends in. */
  lemma TruncationKeepsLongestPrefix(name: string)
    requires MAX_BYTES < ByteLength(name)
    ensures exists k :: 0 <= k < |name| && ByteLength(name[..k]) <= MAX_BYTES < ByteLength(name[..k + 1])
                        && Truncated(name) == TrimRight(name[..k], IsUnderscore)
  {
    var rest := name[..|name| - 1];
    var k := Fitting(rest, MAX_BYTES);
    FittingFits(rest, MAX_BYTES);
    assert rest[..k] == name[..k];
    if k + 1 <= |rest| {
      assert rest[..k + 1] == name[..k + 1];
    } else {
      assert name[..k + 1] == name;
    }
  }

  /* ---------- The shape of a resolved name ---------- */

  /** Lower-case letters, digits and single inner underscores. */
  ghost predicate Squeezed(unicode: Unicode, s: string) {
    && (forall i | 0 <= i < |s| :: unicode.lower(s[i]) == s[i] && (unicode.IsWord(s[i]) || s[i] == '_'))
    && (forall i, j | 0 <= i < |s| && 0 <= j < |s| && j == i + 1 :: !(s[i] == '_' && s[j] == '_'))
    && (s != "" ==> s[0] != '_')
  }

  ghost predicate GoodName(unicode: Unicode, s: string) {
    && Squeezed(unicode, s) && s != "" && s[|s| - 1] != '_' && !IsAsciiDigit(s[0])
    && ByteLength(s) <= MAX_BYTES
  }

  lemma {:induction false} SqueezeSqueezes(unicode: Unicode, s: string)
    requires unicode.Sane() && forall i | 0 <= i < |s| :: unicode.lower(s[i]) == s[i]
    ensures Squeezed(unicode, Squeeze(unicode, s))
  {
    if s != "" {
      SqueezeSqueezes(unicode, s[..|s| - 1]);
    }
  }

  lemma {:induction false} SqueezeKeepsSqueezed(unicode: Unicode, s: string)
    requires unicode.Sane() && Squeezed(unicode, s)
    ensures Squeeze(unicode, s) == s
  {
    if s != "" {
      var rest := s[..|s| - 1];
      assert forall i | 0 <= i < |rest| :: rest[i] == s[i];
      SqueezeKeepsSqueezed(unicode, rest);
      assert s == rest + [s[|s| - 1]];
    }
  }

  lemma SqueezedPrefix(unicode: Unicode, s: string, k: nat)
    requires Squeezed(unicode, s) && k <= |s|
    ensures Squeezed(unicode, s[..k])
  {
    assert forall i | 0 <= i < k :: s[..k][i] == s[i];
  }

  /** Trimming underscores takes off at most the one at the end. */
  lemma TrimSqueezed(unicode: Unicode, s: string)
    requires unicode.Sane() && Squeezed(unicode, s)
    ensures Trim(s, IsUnderscore) == TrimRight(s, IsUnderscore)
    ensures Squeezed(unicode, TrimRight(s, IsUnderscore))
    ensures TrimRight(s, IsUnderscore) != "" ==> TrimRight(s, IsUnderscore)[|TrimRight(s, IsUnderscore)| - 1] != '_'
    ensures s != "" ==> TrimRight(s, IsUnderscore) != "" && TrimRight(s, IsUnderscore)[0] == s[0]
    ensures ByteLength(TrimRight(s, IsUnderscore)) <= ByteLength(s)
  {
    var k := TrimRightCuts(s, IsUnderscore);
    SqueezedPrefix(unicode, s, k);
    PrefixIsNoLonger(s, k);
  }

  lemma TruncatedIsGood(unicode: Unicode, name: string)
    requires unicode.Sane() && Squeezed(unicode, name) && name != "" && !IsAsciiDigit(name[0])
    requires MAX_BYTES < ByteLength(name)
    ensures GoodName(unicode, Truncated(name))
  {
    TruncationKeepsLongestPrefix(name);
    var k :| 0 <= k < |name| && ByteLength(name[..k]) <= MAX_BYTES < ByteLength(name[..k + 1])
             && Truncated(name) == TrimRight(name[..k], IsUnderscore);
    ByteLengthBounds(name[..k + 1]);
    SqueezedPrefix(unicode, name, k);
    TrimSqueezed(unicode, name[..k]);
  }

  /** Every input resolves to a good name: not empty, at most 63 bytes, no leading, trailing or doubled underscore, no
      leading ASCII digit, and nothing but lower-case letters, digits and underscores. */
  lemma ResolvedNamesAreGood(unicode: Unicode, instance: string, requested: string)
    requires unicode.Sane()
    ensures GoodName(unicode, Resolve(unicode, instance, requested))
  {
    var base := if TrimSpace(requested) == "" then instance else TrimSpace(requested);
    var squeezed := Trim(Squeeze(unicode, Lowered(unicode, base)), IsUnderscore);
    SqueezedBase(unicode, base);
    var named := if squeezed == "" then "db" else squeezed;
    assert Squeezed(unicode, named) && named[|named| - 1] != '_';
    var started := if IsAsciiDigit(named[0]) then "db_" + named else named;
    if IsAsciiDigit(named[0]) {
      PrefixedIsSqueezed(unicode, named);
    }
    if MAX_BYTES < ByteLength(started) {
      TruncatedIsGood(unicode, started);
    }
  }

  lemma SqueezedBase(unicode: Unicode, base: string)
    requires unicode.Sane()
    ensures var squeezed := Trim(Squeeze(unicode, Lowered(unicode, base)), IsUnderscore);
            Squeezed(unicode, squeezed) && (squeezed != "" ==> squeezed[|squeezed| - 1] != '_')
  {
    SqueezeSqueezes(unicode, Lowered(unicode, base));
    TrimSqueezed(unicode, Squeeze(unicode, Lowered(unicode, base)));
  }

  lemma PrefixedIsSqueezed(unicode: Unicode, name: string)
    requires unicode.Sane() && Squeezed(unicode, name) && name != "" && name[|name| - 1] != '_'
    ensures var prefixed := "db_" + name;
            Squeezed(unicode, prefixed) && prefixed[|prefixed| - 1] != '_' && !IsAsciiDigit(prefixed[0])
  {
    var prefixed := "db_" + name;
    assert prefixed[0] == 'd' && prefixed[1] == 'b' && prefixed[2] == '_';
    assert forall i | 3 <= i < |prefixed| :: prefixed[i] == name[i - 3];
  }

  /** Good names are exactly the names that resolving leaves alone, requested or taken from the instance. */
  lemma GoodNamesAreFixed(unicode: Unicode, instance: string, name: string)
    requires unicode.Sane()
    ensures GoodName(unicode, name) <==> Resolve(unicode, instance, name) == name && TrimSpace(name) != ""
    ensures GoodName(unicode, name) ==> Resolve(unicode, name, "") == name
  {
    ResolvedNamesAreGood(unicode, instance, name);
    if GoodName(unicode, name) {
      assert Trimmed(name, IsSpace);
      TrimmedStays(name, IsSpace);
      assert Lowered(unicode, name) == name;
      SqueezeKeepsSqueezed(unicode, name);
      TrimmedStays(name, IsUnderscore);
    } else if Resolve(unicode, instance, name) == name {
      assert false;
    }
  }

  /** Resolving a resolved name changes nothing. */
  lemma ResolveTwice(unicode: Unicode, instance: string, requested: string, instance': string)
    requires unicode.Sane()
    ensures Resolve(unicode, instance', Resolve(unicode, instance, requested)) == Resolve(unicode, instance, requested)
  {
    ResolvedNamesAreGood(unicode, instance, requested);
    GoodNamesAreFixed(unicode, instance', Resolve(unicode, instance, requested));
  }
}
