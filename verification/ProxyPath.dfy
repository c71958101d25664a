/** The structural allowlist of the read-only namespace proxy. */
module ProxyPath {
  import opened Options
  import opened Sequences
  import opened Splitting
  import opened Text

  const PROXY_PREFIX := "/api/kubernetes/namespaces/"

  predicate IsSlash(c: char) {
    c == '/'
  }

  predicate IsDots(segment: string) {
    segment == "." || segment == ".."
  }

  predicate SegmentAllowed(segment: string) {
    segment != "" && !IsDots(segment) && '?' !in segment && '#' !in segment
  }

  /** The segments between the outer slashes, unless one of them is empty, relative or carries a query. */
  function Segments(path: string): Option<seq<string>> {
    var trimmed := Trim(path, IsSlash);
    if trimmed == "" then None
    else
      var segments := Split('/', trimmed);
      if forall s | s in segments :: SegmentAllowed(s) then Some(segments) else None
  }

  predicate NamespaceScoped(remaining: seq<string>, namespace: string) {
    2 <= |remaining| && remaining[0] == "namespaces" && remaining[1] == namespace
  }

  predicate SegmentsAllowed(namespace: string, segments: seq<string>) {
    if segments == [] then false
    else if segments[0] == "openapi" then true
    else if segments[0] == "version" then |segments| == 1
    else if segments[0] == "api" then
      if |segments| == 1 then true
      else if segments[1] != "v1" then false
      else if |segments| == 2 then true
      else NamespaceScoped(segments[2..], namespace)
    else if segments[0] == "apis" then
      if |segments| <= 3 then true else NamespaceScoped(segments[3..], namespace)
    else false
  }

  predicate PathAllowed(namespace: string, path: string) {
    namespace != "" && "/" <= path && Segments(path).Some? && SegmentsAllowed(namespace, Segments(path).value)
  }

  datatype Target = Target(namespace: string, path: string)

  /** The namespace and upstream path that a proxied request names. */
  function ProxyTarget(path: string): Option<Target> {
    if !(PROXY_PREFIX <= path) then None
    else
      var remaining := path[|PROXY_PREFIX|..];
      var k := FirstOf('/', remaining);
      var namespace := TrimSpace(remaining[..k]);
      if namespace == "" then None
      else if k == |remaining| || k + 1 == |remaining| then Some(Target(namespace, "/api"))
      else Some(Target(namespace, "/" + remaining[k + 1..]))
  }

  /* ---------- Section 5.2.4 of RFC 3986 ---------- */

  function SegmentEnd(input: string): (k: nat)
    requires input != ""
    ensures 1 <= k <= |input|
  {
    if input[0] == '/' then 1 + FirstOf('/', input[1..]) else FirstOf('/', input)
  }

  function LastSlash(s: string): (k: nat)
    ensures k <= |s|
  {
    if s == "" then 0 else if s[|s| - 1] == '/' then |s| - 1 else LastSlash(s[..|s| - 1])
  }

  /** Steps A to E of the algorithm, with an input and an output buffer. */
  function RemoveDots(input: string, output: string): string
    decreases |input|
  {
    if input == "" then output
    else if "../" <= input then RemoveDots(input[3..], output)
    else if "./" <= input then RemoveDots(input[2..], output)
    else if "/./" <= input then RemoveDots(input[2..], output)
    else if input == "/." then RemoveDots("/", output)
    else if "/../" <= input then RemoveDots(input[3..], output[..LastSlash(output)])
    else if input == "/.." then RemoveDots("/", output[..LastSlash(output)])
    else if input == "." || input == ".." then output
    else RemoveDots(input[SegmentEnd(input)..], output + input[..SegmentEnd(input)])
  }

  function RemoveDotSegments(path: string): string {
    RemoveDots(path, "")
  }

  ghost predicate NoDots(s: string) {
    forall segment | segment in Split('/', s) :: !IsDots(segment)
  }

  lemma DotDotSegment(rest: string)
    ensures 3 <= |rest| && rest[0] == '.' && rest[1] == '.' && rest[2] == '/' ==> rest[..FirstOf('/', rest)] == ".."
  {
    if 3 <= |rest| && rest[0] == '.' && rest[1] == '.' && rest[2] == '/' {
      FirstOfIs('/', rest, 2);
      assert rest[..2] == "..";
    }
  }

  lemma NotDotPrefix(input: string, rest: string)
    requires input != "" && input[0] == '/' && rest == input[1..] && !IsDots(rest[..FirstOf('/', rest)])
    ensures !("/./" <= input) && input != "/." && !("/../" <= input) && input != "/.."
  {
    DotDotSegment(rest);
  }

  /** A segment that is not relative moves to the output as it is. */
  lemma OneSegment(input: string, output: string)
    requires input != "" && input[0] == '/' && !IsDots(input[1..][..FirstOf('/', input[1..])])
    ensures var end := 1 + FirstOf('/', input[1..]);
            RemoveDots(input, output) == RemoveDots(input[end..], output + input[..end])
  {
    NotDotPrefix(input, input[1..]);
  }

  lemma NextSegments(rest: string)
    requires NoDots(rest)
    ensures !IsDots(rest[..FirstOf('/', rest)])
    ensures FirstOf('/', rest) < |rest| ==> NoDots(rest[FirstOf('/', rest) + 1..])
  {
    var k := FirstOf('/', rest);
    assert Split('/', rest)[0] in Split('/', rest) && rest[..k] == Split('/', rest)[0];
    if k < |rest| {
      assert Split('/', rest) == [rest[..k]] + Split('/', rest[k + 1..]);
    }
  }

  ghost predicate Clean(path: string) {
    path == "" || (path[0] == '/' && NoDots(path[1..]))
  }

  /** The first segment of a clean path is not relative, and what follows it is a clean path. */
  lemma CleanStep(input: string, end: nat)
    requires Clean(input) && input != "" && end == 1 + FirstOf('/', input[1..])
    ensures !IsDots(input[1..][..FirstOf('/', input[1..])]) && Clean(input[end..])
  {
    var rest, next := input[1..], input[end..];
    NextSegments(rest);
    if next != "" {
      assert next[0] == rest[end - 1] && next[1..] == rest[end..];
    }
  }

  lemma Moved(output: string, input: string, end: nat)
    requires end <= |input|
    ensures output + input[..end] + input[end..] == output + input
  {
  }

  lemma {:induction false} CleanPathStays(input: string, output: string)
    requires Clean(input)
    ensures RemoveDots(input, output) == output + input
    decreases |input|
  {
    if input == "" {
      assert output + input == output;
    } else {
      var end := 1 + FirstOf('/', input[1..]);
      CleanStep(input, end);
      OneSegment(input, output);
      CleanPathStays(input[end..], output + input[..end]);
      Moved(output, input, end);
    }
  }

  /* ---------- What outer slashes add ---------- */

  predicate NonEmpty(segment: string) {
    segment != ""
  }

  /** The nonempty segments of a path. */
  function Names(s: string): seq<string> {
    Filter(Split('/', s), NonEmpty)
  }

  lemma SplitLeadingSlash(s: string)
    requires s != "" && s[0] == '/'
    ensures Split('/', s) == [""] + Split('/', s[1..])
  {
    assert s[..0] == "";
  }

  lemma SlashAppended(s: string, k: nat)
    requires k <= |s|
    ensures (s + "/")[..k] == s[..k] && (s + "/")[k] == if k < |s| then s[k] else '/'
    ensures (s + "/")[k + 1..] == if k < |s| then s[k + 1..] + "/" else ""
  {
  }

  lemma SplitWhole(s: string)
    requires FirstOf('/', s) == |s|
    ensures Split('/', s + "/") == [s, ""]
  {
    SlashAppended(s, |s|);
    SplitFirst('/', s + "/", |s|);
    assert s[..|s|] == s;
    assert Split('/', "") == [""];
  }

  lemma SplitLonger(s: string, k: nat)
    requires k == FirstOf('/', s) < |s|
    ensures Split('/', s + "/") == [s[..k]] + Split('/', s[k + 1..] + "/")
  {
    SlashAppended(s, k);
    SplitFirst('/', s + "/", k);
  }

  lemma {:induction false} SplitTrailingSlash(s: string)
    ensures Split('/', s + "/") == Split('/', s) + [""]
    decreases |s|
  {
    var k := FirstOf('/', s);
    if k == |s| {
      SplitWhole(s);
    } else {
      var first, rest := [s[..k]], s[k + 1..];
      SplitLonger(s, k);
      SplitTrailingSlash(rest);
      assert first + (Split('/', rest) + [""]) == (first + Split('/', rest)) + [""];
    }
  }

  lemma {:induction false} FilterAppends(s: seq<string>, t: seq<string>, keep: string -> bool)
    ensures Filter(s + t, keep) == Filter(s, keep) + Filter(t, keep)
  {
    if t == [] {
      assert s + t == s;
    } else {
      assert (s + t)[..|s + t| - 1] == s + t[..|t| - 1];
      FilterAppends(s, t[..|t| - 1], keep);
    }
  }

  /** Stripping outer slashes removes empty segments only. */
  lemma {:induction false} OuterSlashesAddEmpties(s: string)
    ensures Names(TrimLeft(s, IsSlash)) == Names(s)
    ensures NoDots(TrimLeft(s, IsSlash)) ==> NoDots(s)
  {
    if s != "" && IsSlash(s[0]) {
      OuterSlashesAddEmpties(s[1..]);
      SplitLeadingSlash(s);
      FilterAppends([""], Split('/', s[1..]), NonEmpty);
    }
  }

  lemma TrailingSlashAddsEmpty(s: string, shorter: string)
    requires s == shorter + "/"
    ensures Names(s) == Names(shorter)
    ensures NoDots(shorter) ==> NoDots(s)
  {
    SplitTrailingSlash(shorter);
    FilterAppends(Split('/', shorter), [""], NonEmpty);
    assert Filter([""], NonEmpty) == [];
  }

  lemma {:induction false} TrailingSlashesAddEmpties(s: string)
    ensures Names(TrimRight(s, IsSlash)) == Names(s)
    ensures NoDots(TrimRight(s, IsSlash)) ==> NoDots(s)
  {
    if s != "" && IsSlash(s[|s| - 1]) {
      var shorter := s[..|s| - 1];
      assert s == shorter + "/";
      TrailingSlashAddsEmpty(s, shorter);
      TrailingSlashesAddEmpties(shorter);
    }
  }

  lemma SegmentsOfPath(path: string)
    requires Segments(path).Some?
    ensures NoDots(path) && Names(path) == Segments(path).value
  {
    var left := TrimLeft(path, IsSlash);
    TrailingSlashesAddEmpties(left);
    OuterSlashesAddEmpties(path);
    FilterAll(Segments(path).value, NonEmpty);
  }

  /** An accepted path is left unchanged by the removal of dot segments, and the nonempty segments an upstream server
      finds in it are exactly the ones the decision was made on. */
  lemma AllowedPathsAreNormal(namespace: string, path: string)
    requires PathAllowed(namespace, path)
    ensures RemoveDotSegments(path) == path
    ensures Names(RemoveDotSegments(path)) == Segments(path).value
  {
    SegmentsOfPath(path);
    SplitLeadingSlash(path);
    CleanPathStays(path, "");
  }

  /** Discovery documents name an API, at most with its version. */
  predicate Discovery(segments: seq<string>) {
    || segments == ["version"] || segments == ["api"] || segments == ["api", "v1"]
    || (1 <= |segments| <= 3 && segments[0] == "apis")
  }

  /** The segments that follow the API version of a resource path. */
  function AfterVersion(segments: seq<string>): Option<seq<string>> {
    if 2 <= |segments| && segments[0] == "api" && segments[1] == "v1" then Some(segments[2..])
    else if 3 <= |segments| && segments[0] == "apis" then Some(segments[3..])
    else None
  }

  /** Openapi, discovery, or a resource of the namespace. */
  predicate InScope(namespace: string, segments: seq<string>) {
    && segments != []
    && (segments[0] == "openapi" || Discovery(segments)
        || (AfterVersion(segments).Some? && ["namespaces", namespace] <= AfterVersion(segments).value))
  }

  lemma ScopedIsPrefix(remaining: seq<string>, namespace: string)
    ensures NamespaceScoped(remaining, namespace) <==> ["namespaces", namespace] <= remaining
  {
    if NamespaceScoped(remaining, namespace) {
      assert remaining[..2] == ["namespaces", namespace];
    }
  }

  lemma DecisionIsScope(namespace: string, segments: seq<string>)
    ensures SegmentsAllowed(namespace, segments) <==> InScope(namespace, segments)
  {
    if 1 <= |segments| {
      if 2 <= |segments| && segments[0] == "api" {
        ScopedIsPrefix(segments[2..], namespace);
      }
      if 3 <= |segments| && segments[0] == "apis" {
        ScopedIsPrefix(segments[3..], namespace);
      }
      if |segments| == 1 {
        assert segments == [segments[0]];
      } else if |segments| == 2 {
        assert segments == [segments[0], segments[1]];
      }
    }
  }

  /** Whatever an upstream server makes of an accepted path, it is an openapi or discovery document, or a resource of
      the token's namespace; and every such well-formed path is accepted. */
  lemma AllowedIff(namespace: string, path: string)
    ensures PathAllowed(namespace, path)
       <==> && namespace != "" && "/" <= path && Segments(path).Some?
            && InScope(namespace, Names(RemoveDotSegments(path)))
  {
    if "/" <= path && Segments(path).Some? {
      SegmentsOfPath(path);
      SplitLeadingSlash(path);
      CleanPathStays(path, "");
      DecisionIsScope(namespace, Segments(path).value);
    }
  }

  /** The path that is forwarded for what follows the namespace. */
  function Upstream(rest: string): string {
    if rest == "" then "/api" else "/" + rest
  }

  /** A request names a target when it is the prefix and a namespace, possibly with blanks around it, and then nothing
      or a slash and the rest. */
  ghost predicate Addresses(path: string, raw: string, rest: string) {
    && '/' !in raw && TrimSpace(raw) != ""
    && ((path == PROXY_PREFIX + raw && rest == "") || path == PROXY_PREFIX + raw + "/" + rest)
  }

  lemma AddressedTarget(path: string, raw: string, rest: string)
    requires Addresses(path, raw, rest)
    ensures ProxyTarget(path) == Some(Target(TrimSpace(raw), Upstream(rest)))
  {
    if path == PROXY_PREFIX + raw && rest == "" {
      assert path[|PROXY_PREFIX|..] == raw;
      NoneInside('/', raw);
      assert raw[..|raw|] == raw;
    } else {
      var remaining := raw + "/" + rest;
      assert path == PROXY_PREFIX + remaining;
      assert path[|PROXY_PREFIX|..] == remaining;
      FirstOfIs('/', remaining, |raw|);
      assert remaining[..|raw|] == raw && remaining[|raw| + 1..] == rest;
    }
  }

  lemma TargetIsAddressed(path: string) returns (raw: string, rest: string)
    requires ProxyTarget(path).Some?
    ensures Addresses(path, raw, rest)
  {
    var remaining := path[|PROXY_PREFIX|..];
    var k := FirstOf('/', remaining);
    assert path == PROXY_PREFIX + remaining;
    raw, rest := remaining[..k], if k == |remaining| then "" else remaining[k + 1..];
    if k < |remaining| {
      assert remaining == raw + "/" + rest;
      assert path == PROXY_PREFIX + raw + "/" + rest;
    }
  }

  /** A proxied request is forwarded to a namespace and path exactly when it names them; all other requests are
      refused. */
  lemma TargetIff(path: string, target: Target)
    ensures ProxyTarget(path) == Some(target)
       <==> exists raw, rest :: Addresses(path, raw, rest) && target == Target(TrimSpace(raw), Upstream(rest))
  {
    if ProxyTarget(path) == Some(target) {
      var raw, rest := TargetIsAddressed(path);
      AddressedTarget(path, raw, rest);
    }
    if raw, rest :| Addresses(path, raw, rest) && target == Target(TrimSpace(raw), Upstream(rest)) {
      AddressedTarget(path, raw, rest);
    }
  }

  /** What is asked for a namespace is forwarded to it. */
  lemma TargetRoundTrips(namespace: string, rest: string)
    requires namespace != "" && Trimmed(namespace, IsSpace) && '/' !in namespace
    ensures ProxyTarget(PROXY_PREFIX + namespace + "/" + rest) == Some(Target(namespace, Upstream(rest)))
  {
    TrimmedStays(namespace, IsSpace);
    AddressedTarget(PROXY_PREFIX + namespace + "/" + rest, namespace, rest);
  }
}
