/** Names of the Argo CD secrets that mirror repositories. */
module MirrorNames {
  import opened Options
  import opened Text

  /** The library parts: URL canonicalisation (None when it rejects), per-character lower-casing, and the hexadecimal
      SHA-256 digest. */
  datatype Naming = Naming(canonical: string -> Option<string>, lower: char -> char, digest: string -> string) {
    ghost predicate Valid() {
      && (forall c | IsAlnum(c) || c == '-' :: lower(c) == c)
      && forall s :: |digest(s)| == 64 && forall i | 0 <= i < 64 :: IsAlnum(digest(s)[i])
    }
  }

  predicate IsAlnum(c: char) {
    'a' <= c <= 'z' || '0' <= c <= '9'
  }

  predicate IsDash(c: char) {
    c == '-'
  }

  /** A label of a DNS name: section 2.3.1 of RFC 1035, with a leading digit allowed by section 2.1 of RFC 1123. */
  ghost predicate DnsLabel(s: string) {
    && 1 <= |s| <= 63
    && (forall i | 0 <= i < |s| :: IsAlnum(s[i]) || s[i] == '-')
    && IsAlnum(s[0]) && IsAlnum(s[|s| - 1])
  }

  /** Only kept characters and single inner dashes. */
  ghost predicate Collapsed(s: string) {
    && (forall i | 0 <= i < |s| :: IsAlnum(s[i]) || s[i] == '-')
    && forall i, j | 0 <= i < |s| && 0 <= j < |s| && j == i + 1 :: !(s[i] == '-' && s[j] == '-')
  }

  ghost predicate SafePart(s: string) {
    Collapsed(s) && Trimmed(s, IsDash)
  }

  function Lowered(naming: Naming, s: string): string {
    seq(|s|, i requires 0 <= i < |s| => naming.lower(s[i]))
  }

  /** Each run of other characters becomes one dash. */
  function Collapse(s: string): string {
    if s == "" then ""
    else
      var before, c := Collapse(s[..|s| - 1]), s[|s| - 1];
      if IsAlnum(c) then before + [c]
      else if before != "" && before[|before| - 1] == '-' then before
      else before + "-"
  }

  function DnsSafe(naming: Naming, value: string): string {
    Trim(Collapse(Lowered(naming, value)), IsDash)
  }

  method DnsSafeNamePart(naming: Naming, value: string) returns (part: string)
    ensures part == DnsSafe(naming, value)
  {
    var builder := "";
    var lastDash := false;
    var lowered := Lowered(naming, value);
    for i := 0 to |lowered|
      invariant builder == Collapse(lowered[..i])
      invariant lastDash <==> builder != "" && builder[|builder| - 1] == '-'
    {
      assert lowered[..i + 1][..i] == lowered[..i];
      var c := lowered[i];
      if IsAlnum(c) {
        builder := builder + [c];
        lastDash := false;
        continue;
      }
      if !lastDash {
        builder := builder + "-";
        lastDash := true;
      }
    }
    assert lowered[..|lowered|] == lowered;
    part := Trim(builder, IsDash);
  }

  lemma {:induction false} CollapseCollapses(s: string)
    ensures Collapsed(Collapse(s))
  {
    if s != "" {
      CollapseCollapses(s[..|s| - 1]);
    }
  }

  lemma {:induction false} CollapseKeepsCollapsed(s: string)
    requires Collapsed(s)
    ensures Collapse(s) == s
  {
    if s != "" {
      var rest := s[..|s| - 1];
      assert forall i | 0 <= i < |rest| :: rest[i] == s[i];
      CollapseKeepsCollapsed(rest);
      assert s == rest + [s[|s| - 1]];
    }
  }

  /** For every input the result is safe, and safe parts are left alone. */
  lemma SafePartsAreFixed(naming: Naming, value: string)
    requires naming.Valid()
    ensures SafePart(DnsSafe(naming, value))
    ensures SafePart(value) ==> DnsSafe(naming, value) == value
  {
    var collapsed := Collapse(Lowered(naming, value));
    CollapseCollapses(Lowered(naming, value));
    var from, to := TrimIsMiddle(collapsed, IsDash);
    var part := collapsed[from..to];
    assert forall i | 0 <= i < |part| :: part[i] == collapsed[from + i];
    if SafePart(value) {
      assert Lowered(naming, value) == value;
      CollapseKeepsCollapsed(value);
      TrimmedStays(value, IsDash);
    }
  }

  lemma DnsSafeTwice(naming: Naming, value: string)
    requires naming.Valid()
    ensures DnsSafe(naming, DnsSafe(naming, value)) == DnsSafe(naming, value)
  {
    SafePartsAreFixed(naming, value);
    SafePartsAreFixed(naming, DnsSafe(naming, value));
  }

  const PREFIX := "argocd-repo-"
  const SUFFIX_LENGTH := 12
  const MAX_BODY := 63 - |PREFIX| - 1 - SUFFIX_LENGTH

  function CanonicalOrTrimmed(naming: Naming, url: string): string {
    var trimmed := TrimSpace(url);
    match naming.canonical(trimmed)
    case Some(normalized) => normalized
    case None => trimmed
  }

  function Body(naming: Naming, canonicalUrl: string): string {
    var part := DnsSafe(naming, canonicalUrl);
    var cut := if MAX_BODY < |part| then TrimRight(part[..MAX_BODY], IsDash) else part;
    if cut == "" then "git" else cut
  }

  /** The name of the mirror of a repository URL within a scope. */
  function MirrorName(naming: Naming, url: string, scopeKey: string): string {
    var canonicalUrl := CanonicalOrTrimmed(naming, url);
    PREFIX + Body(naming, canonicalUrl) + "-" + Suffix(naming, canonicalUrl, scopeKey)
  }

  /** The leading digits of the digest, of which there are always enough. */
  function Suffix(naming: Naming, canonicalUrl: string, scopeKey: string): string {
    var digits := naming.digest(canonicalUrl + "\n" + scopeKey);
    if SUFFIX_LENGTH <= |digits| then digits[..SUFFIX_LENGTH] else digits
  }

  ghost predicate LabelChars(s: string) {
    forall i | 0 <= i < |s| :: IsAlnum(s[i]) || s[i] == '-'
  }

  lemma BodyFits(naming: Naming, canonicalUrl: string)
    requires naming.Valid()
    ensures 1 <= |Body(naming, canonicalUrl)| <= MAX_BODY && LabelChars(Body(naming, canonicalUrl))
  {
    var part := DnsSafe(naming, canonicalUrl);
    SafePartsAreFixed(naming, canonicalUrl);
    if MAX_BODY < |part| {
      var k := TrimRightCuts(part[..MAX_BODY], IsDash);
    }
  }

  lemma LabelOfParts(body: string, suffix: string)
    requires |body| <= MAX_BODY && LabelChars(body)
    requires |suffix| == SUFFIX_LENGTH && forall i | 0 <= i < |suffix| :: IsAlnum(suffix[i])
    ensures DnsLabel(PREFIX + body + "-" + suffix)
  {
    var name := PREFIX + body + "-" + suffix;
    assert LabelChars(PREFIX) && LabelChars(PREFIX + body) && LabelChars(PREFIX + body + "-");
    assert name[0] == 'a' && name[|name| - 1] == suffix[|suffix| - 1];
  }

  lemma MirrorNameIsDnsLabel(naming: Naming, url: string, scopeKey: string)
    requires naming.Valid()
    ensures DnsLabel(MirrorName(naming, url, scopeKey))
  {
    var canonicalUrl := CanonicalOrTrimmed(naming, url);
    BodyFits(naming, canonicalUrl);
    LabelOfParts(Body(naming, canonicalUrl), Suffix(naming, canonicalUrl, scopeKey));
  }

  lemma SplitAtNewline(a: string, a': string, b: string, b': string)
    requires '\n' !in a && '\n' !in a' && a + "\n" + b == a' + "\n" + b'
    ensures a == a' && b == b'
  {
    var left, right := a + "\n" + b, a' + "\n" + b';
    assert left[|a|] == '\n' && right[|a'|] == '\n';
    assert a == left[..|a|] && a' == right[..|a'|];
    assert b == left[|a| + 1..] && b' == right[|a'| + 1..];
  }

  /** What is hashed into a mirror's name. */
  function HashInput(naming: Naming, url: string, scopeKey: string): string {
    CanonicalOrTrimmed(naming, url) + "\n" + scopeKey
  }

  /** When the twelve digits in their names do not collide, two repositories share a mirror exactly when they agree on
      the canonical URL and on the scope. */
  lemma SharedMirrorMeansSameTarget(naming: Naming, url: string, scopeKey: string, url': string, scopeKey': string)
    requires naming.Valid()
    requires var input, input' := HashInput(naming, url, scopeKey), HashInput(naming, url', scopeKey');
             naming.digest(input)[..SUFFIX_LENGTH] == naming.digest(input')[..SUFFIX_LENGTH] ==> input == input'
    requires '\n' !in CanonicalOrTrimmed(naming, url) && '\n' !in CanonicalOrTrimmed(naming, url')
    ensures MirrorName(naming, url, scopeKey) == MirrorName(naming, url', scopeKey')
       <==> CanonicalOrTrimmed(naming, url) == CanonicalOrTrimmed(naming, url') && scopeKey == scopeKey'
  {
    var u, u' := CanonicalOrTrimmed(naming, url), CanonicalOrTrimmed(naming, url');
    var name, name' := MirrorName(naming, url, scopeKey), MirrorName(naming, url', scopeKey');
    var suffix, suffix' := Suffix(naming, u, scopeKey), Suffix(naming, u', scopeKey');
    assert suffix == name[|name| - SUFFIX_LENGTH..] && suffix' == name'[|name'| - SUFFIX_LENGTH..];
    if name == name' {
      SplitAtNewline(u, u', scopeKey, scopeKey');
    }
  }
}
