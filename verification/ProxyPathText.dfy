/** Which proxy paths are well formed, told by the text of the path, without splitting it. */
module ProxyPathText {
  import opened ProxyPath
  import opened Splitting
  import opened Text

  ghost predicate Slashes(s: string, from: int, end: int)
    requires 0 <= from <= end <= |s|
  {
    forall k | from <= k < end :: s[k] == '/'
  }

  ghost predicate NoSlashes(s: string, from: int, end: int)
    requires 0 <= from <= end <= |s|
  {
    forall k | from <= k < end :: s[k] != '/'
  }

  /** The ends of the string or slashes are on both sides. */
  ghost predicate Bounded(s: string, i: int, j: int)
    requires 0 <= i <= j <= |s|
  {
    (i == 0 || s[i - 1] == '/') && (j == |s| || s[j] == '/')
  }

  /** The text from `i` to `j` holds no slash and is bounded by slashes or ends. */
  ghost predicate Piece(s: string, i: int, j: int) {
    0 <= i <= j <= |s| && NoSlashes(s, i, j) && Bounded(s, i, j)
  }

  /** A double slash with names on both sides. */
  ghost predicate Doubled(path: string, i: int) {
    && 0 < i < |path| && path[i - 1] == '/' && path[i] == '/'
    && !Slashes(path, 0, i) && !Slashes(path, i, |path|)
  }

  /** There is a name, no query and no fragment, no piece is relative, and only outer slashes are doubled. */
  ghost predicate WellFormed(path: string) {
    && !Slashes(path, 0, |path|) && '?' !in path && '#' !in path
    && (forall i, j | Piece(path, i, j) :: path[i..j] != "." && path[i..j] != "..")
    && forall i :: !Doubled(path, i)
  }

  ghost predicate PieceIn(s: string, from: int, end: int, part: string)
    requires 0 <= from <= end <= |s|
  {
    exists i, j :: from <= i && j <= end && Piece(s, i, j) && s[i..j] == part
  }

  /** The first slash of a range, or its end. */
  ghost function FirstSlash(s: string, from: int, end: int): (mid: int)
    requires 0 <= from <= end <= |s|
    ensures from <= mid <= end && NoSlashes(s, from, mid) && (mid < end ==> s[mid] == '/')
    decreases end - from
  {
    if from == end || s[from] == '/' then from else FirstSlash(s, from + 1, end)
  }

  /** One of the parts that splitting yields. */
  ghost predicate IsPart(part: string, s: string) {
    part in Split('/', s)
  }

  lemma InCons(part: string, first: string, rest: seq<string>)
    ensures part in [first] + rest <==> part == first || part in rest
  {
  }

  lemma SplitRange(s: string, from: int, mid: int, end: int, part: string)
    requires 0 <= from <= mid < end <= |s| && NoSlashes(s, from, mid) && s[mid] == '/'
    ensures IsPart(part, s[from..end]) <==> part == s[from..mid] || IsPart(part, s[mid + 1..end])
  {
    SplitAfter('/', s[from..mid], s[mid + 1..end]);
    assert s[from..end] == s[from..mid] + ['/'] + s[mid + 1..end];
    InCons(part, s[from..mid], Split('/', s[mid + 1..end]));
  }

  lemma SplitLastRange(s: string, from: int, end: int, part: string)
    requires 0 <= from <= end <= |s| && NoSlashes(s, from, end)
    ensures IsPart(part, s[from..end]) <==> part == s[from..end]
  {
    NoneInside('/', s[from..end]);
  }

  lemma FirstPart(s: string, from: int, end: int, part: string)
    requires 0 <= from <= end <= |s|
    ensures var mid := FirstSlash(s, from, end);
            IsPart(part, s[from..end])
            <==> part == s[from..mid] || (mid < end && IsPart(part, s[mid + 1..end]))
  {
    var mid := FirstSlash(s, from, end);
    if mid < end {
      SplitRange(s, from, mid, end, part);
    } else {
      SplitLastRange(s, from, end, part);
    }
  }

  /** A piece is what comes before the first slash, or a piece of what follows. */
  lemma FirstPieceIn(s: string, from: int, end: int, part: string)
    requires 0 <= from <= end <= |s| && Bounded(s, from, end)
    ensures var mid := FirstSlash(s, from, end);
            PieceIn(s, from, end, part) <==> part == s[from..mid] || (mid < end && PieceIn(s, mid + 1, end, part))
  {
    var mid := FirstSlash(s, from, end);
    assert Piece(s, from, mid);
    if i, j :| from <= i && j <= end && Piece(s, i, j) && s[i..j] == part {
      if i <= mid {
        assert i == from && j == mid;
      }
    }
  }

  /** Splitting a range that is bounded by slashes or ends yields its pieces. */
  lemma {:induction false} PartsArePieces(s: string, from: int, end: int, part: string)
    requires 0 <= from <= end <= |s| && Bounded(s, from, end)
    ensures IsPart(part, s[from..end]) <==> PieceIn(s, from, end, part)
    decreases end - from
  {
    var mid := FirstSlash(s, from, end);
    FirstPart(s, from, end, part);
    FirstPieceIn(s, from, end, part);
    if mid < end {
      PartsArePieces(s, mid + 1, end, part);
    }
  }

  /** Every character but the slashes is in some piece. */
  lemma {:induction false} PieceAround(s: string, from: int, end: int, k: int) returns (i: int, j: int)
    requires 0 <= from <= k < end <= |s| && Bounded(s, from, end) && s[k] != '/'
    ensures from <= i <= k < j <= end && Piece(s, i, j)
    decreases end - from
  {
    if l :| from <= l < end && s[l] == '/' {
      if l < k {
        i, j := PieceAround(s, l + 1, end, k);
      } else {
        i, j := PieceAround(s, from, l, k);
      }
    } else {
      i, j := from, end;
    }
  }

  /** Where the outer slashes of a path end and begin again. */
  ghost predicate Outer(path: string, from: int, end: int) {
    && 0 <= from <= end <= |path| && Slashes(path, 0, from) && Slashes(path, end, |path|)
    && (from < end ==> path[from] != '/' && path[end - 1] != '/')
  }

  lemma OuterSlashes(path: string) returns (from: int, end: int)
    ensures Outer(path, from, end) && Trim(path, IsSlash) == path[from..end] && Bounded(path, from, end)
    ensures from < end <==> !Slashes(path, 0, |path|)
  {
    from, end := TrimIsMiddle(path, IsSlash);
    var inner := path[from..end];
    assert inner != "" ==> inner[0] == path[from] && inner[|inner| - 1] == path[end - 1];
  }

  /** A piece of a path that is not empty lies within the outer slashes. */
  lemma PieceWithin(path: string, from: int, end: int, i: int, j: int)
    requires Outer(path, from, end) && Piece(path, i, j) && i < j
    ensures from <= i && j <= end
  {
    assert path[i] != '/' && path[j - 1] != '/';
  }

  /** A mark that is no slash is in a segment exactly when it is in the path. */
  lemma MarkStays(path: string, c: char)
    requires c != '/'
    ensures c in path <==> exists part | part in Split('/', Trim(path, IsSlash)) :: c in part
  {
    var from, end := OuterSlashes(path);
    if c in path {
      var k :| 0 <= k < |path| && path[k] == c;
      assert from <= k < end;
      var i, j := PieceAround(path, from, end, k);
      assert path[i..j][k - i] == c;
      PartsArePieces(path, from, end, path[i..j]);
    }
    if part :| part in Split('/', path[from..end]) && c in part {
      PartsArePieces(path, from, end, part);
      var i, j :| from <= i && j <= end && Piece(path, i, j) && path[i..j] == part;
      assert c in path[i..j];
    }
  }

  lemma RelativeStays(path: string, dots: string)
    requires dots == "." || dots == ".."
    ensures dots in Split('/', Trim(path, IsSlash)) <==> exists i, j :: Piece(path, i, j) && path[i..j] == dots
  {
    var from, end := OuterSlashes(path);
    PartsArePieces(path, from, end, dots);
    if i, j :| Piece(path, i, j) && path[i..j] == dots {
      PieceWithin(path, from, end, i, j);
    }
  }

  /** Within the outer slashes an empty piece is a double slash with names on both sides. */
  lemma EmptyPieceIff(path: string, from: int, end: int, i: int)
    requires Outer(path, from, end) && from < end
    ensures from <= i <= end && Piece(path, i, i) <==> Doubled(path, i)
  {
    if Doubled(path, i) {
      assert from < i < end;
    }
  }

  lemma EmptyIsDoubled(path: string)
    requires !Slashes(path, 0, |path|)
    ensures "" in Split('/', Trim(path, IsSlash)) <==> exists i :: Doubled(path, i)
  {
    var from, end := OuterSlashes(path);
    PartsArePieces(path, from, end, "");
    if i, j :| from <= i && j <= end && Piece(path, i, j) && path[i..j] == "" {
      EmptyPieceIff(path, from, end, i);
    }
    if i :| Doubled(path, i) {
      EmptyPieceIff(path, from, end, i);
      assert path[i..i] == "";
    }
  }

  /** A path splits into segments exactly when it is well formed. */
  lemma SegmentsIff(path: string)
    ensures Segments(path).Some? <==> WellFormed(path)
  {
    var from, end := OuterSlashes(path);
    if from < end {
      MarkStays(path, '?');
      MarkStays(path, '#');
      RelativeStays(path, ".");
      RelativeStays(path, "..");
      EmptyIsDoubled(path);
      PartsAllowedIff(Split('/', Trim(path, IsSlash)));
    }
  }

  lemma PartsAllowedIff(parts: seq<string>)
    ensures (forall part | part in parts :: SegmentAllowed(part))
       <==> && "" !in parts && "." !in parts && ".." !in parts
            && !(exists part | part in parts :: '?' in part) && !(exists part | part in parts :: '#' in part)
  {
  }

  /** A path is accepted exactly when it is a well-formed absolute path that, normalised, names an openapi or discovery
      document or a resource of the token's namespace. */
  lemma AllowedTextIff(namespace: string, path: string)
    ensures PathAllowed(namespace, path)
       <==> namespace != "" && "/" <= path && WellFormed(path) && InScope(namespace, Names(RemoveDotSegments(path)))
  {
    AllowedIff(namespace, path);
    SegmentsIff(path);
  }
}
