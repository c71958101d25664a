/** Database and mirror names keep the words of the text they are made from. */
module NameWords {
  import D = DatabaseName
  import M = MirrorNames
  import opened Splitting
  import opened Text
  import opened Words

  /* ---------- Database names ---------- */

  predicate Separates(c: char) {
    c == '-' || c == '_' || IsSpace(c)
  }

  /** The words of a text: its lowered letters and digits, in order, as separators divide them. */
  function DatabaseWords(unicode: D.Unicode, text: string): seq<string> {
    WordsOf(D.Lowered(unicode, text), c => unicode.isLetter(c) || unicode.isDigit(c), Separates, '_')
  }

  lemma {:induction false} SqueezeRejoins(unicode: D.Unicode, s: string)
    requires unicode.Sane()
    ensures D.Squeeze(unicode, s)
         == Rejoined('_', Marked(s, c => unicode.isLetter(c) || unicode.isDigit(c), Separates, '_'))
  {
    var keep := c => unicode.isLetter(c) || unicode.isDigit(c);
    if s == "" {
      assert Split('_', "") == [""];
    } else {
      var rest, c := s[..|s| - 1], s[|s| - 1];
      var marked := Marked(rest, keep, Separates, '_');
      SqueezeRejoins(unicode, rest);
      if keep(c) {
        assert unicode.IsWord(c) && !unicode.IsWord('_');
        RejoinedGrows('_', marked, c);
      } else if Separates(c) {
        RejoinedMarks('_', marked);
        RejoinedEnds('_', marked);
      }
    }
  }

  lemma TrimRejoined(mark: char, marked: string, cut: char -> bool)
    requires forall c :: cut(c) <==> c == mark
    ensures Trim(Rejoined(mark, marked), cut) == Join([mark], Between(mark, marked))
  {
    var joined := Join([mark], Between(mark, marked));
    WordsHaveNoMark(mark, marked);
    if Between(mark, marked) != [] {
      JoinEnds([mark], Between(mark, marked), mark);
      TrimmedStays(joined, cut);
      assert (joined + [mark])[..|joined|] == joined;
    }
  }

  /** Trimmed and squeezed, a text is its words with one underscore between them. */
  lemma SqueezedIsWords(unicode: D.Unicode, text: string)
    requires unicode.Sane()
    ensures Trim(D.Squeeze(unicode, D.Lowered(unicode, text)), D.IsUnderscore)
         == Join("_", DatabaseWords(unicode, text))
  {
    SqueezeRejoins(unicode, D.Lowered(unicode, text));
    TrimRejoined('_', Marked(D.Lowered(unicode, text), c => unicode.isLetter(c) || unicode.isDigit(c), Separates, '_'),
                 D.IsUnderscore);
  }

  /** A name before it is cut: the words with an underscore between them, `db` if there is none, and `db_` before a
      leading digit. */
  function Started(words: seq<string>): string {
    var joined := Join("_", words);
    if joined == "" then "db" else if '0' <= joined[0] <= '9' then "db_" + joined else joined
  }

  /** The name is that of the words of the request or, if the request is blank, of the instance; a name that is too long
      is cut to the longest prefix that fits, less the underscores it ends in. */
  lemma ResolvedKeepsWords(unicode: D.Unicode, instance: string, requested: string)
    requires unicode.Sane()
    ensures var name := D.Resolve(unicode, instance, requested);
            var base := if TrimSpace(requested) == "" then instance else TrimSpace(requested);
            var started := Started(DatabaseWords(unicode, base));
            if D.ByteLength(started) <= 63 then name == started
            else exists k | 0 <= k < |started| && D.ByteLength(started[..k]) <= 63 < D.ByteLength(started[..k + 1]) ::
              name == TrimRight(started[..k], D.IsUnderscore)
  {
    var base := if TrimSpace(requested) == "" then instance else TrimSpace(requested);
    SqueezedIsWords(unicode, base);
    D.ResolvedNamesAreGood(unicode, instance, requested);
    var started := Started(DatabaseWords(unicode, base));
    if 63 < D.ByteLength(started) {
      CutIsNotEmpty(unicode, base);
      D.TruncationKeepsLongestPrefix(started);
    }
  }

  lemma StartedIsSqueezed(unicode: D.Unicode, base: string)
    requires unicode.Sane()
    ensures var started := Started(DatabaseWords(unicode, base));
            D.Squeezed(unicode, started) && started != "" && !D.IsAsciiDigit(started[0])
  {
    SqueezedIsWords(unicode, base);
    D.SqueezedBase(unicode, base);
    StartedKeepsSqueezed(unicode, Join("_", DatabaseWords(unicode, base)));
  }

  lemma StartedKeepsSqueezed(unicode: D.Unicode, joined: string)
    requires unicode.Sane() && D.Squeezed(unicode, joined) && (joined != "" ==> joined[|joined| - 1] != '_')
    ensures D.Squeezed(unicode, "db")
    ensures joined != "" && '0' <= joined[0] <= '9' ==> D.Squeezed(unicode, "db_" + joined)
  {
    if joined != "" && '0' <= joined[0] <= '9' {
      D.PrefixedIsSqueezed(unicode, joined);
    }
  }

  lemma CutIsNotEmpty(unicode: D.Unicode, base: string)
    requires unicode.Sane() && 63 < D.ByteLength(Started(DatabaseWords(unicode, base)))
    ensures D.Truncated(Started(DatabaseWords(unicode, base))) != ""
  {
    StartedIsSqueezed(unicode, base);
    D.TruncatedIsGood(unicode, Started(DatabaseWords(unicode, base)));
  }

  /* ---------- Mirror names ---------- */

  predicate Any(c: char) {
    true
  }

  /** The words of a URL: its lowered ASCII letters and digits, in order, as all other characters divide them. */
  function UrlWords(naming: M.Naming, url: string): seq<string> {
    WordsOf(M.Lowered(naming, url), c => 'a' <= c <= 'z' || '0' <= c <= '9', Any, '-')
  }

  /** Of marks at the start of a text one is left. */
  function Leading(marked: string): string {
    if marked != "" && marked[0] == '-' then "-" else ""
  }

  /** What has been written for marks and words so far. */
  function Written(marked: string): string {
    Leading(marked) + Rejoined('-', marked)
  }

  lemma LeadingStays(marked: string, c: char)
    requires marked != "" || c != '-'
    ensures Leading(marked + [c]) == Leading(marked)
  {
    assert marked != "" ==> (marked + [c])[0] == marked[0];
  }

  lemma WrittenGrows(marked: string, c: char)
    requires c != '-'
    ensures Written(marked + [c]) == Written(marked) + [c]
  {
    RejoinedGrows('-', marked, c);
    LeadingStays(marked, c);
    var leading, text := Leading(marked), Rejoined('-', marked);
    assert leading + (text + [c]) == leading + text + [c];
  }

  lemma {:induction false} OnlyMarks(marked: string)
    requires Between('-', marked) == []
    ensures forall c | c in marked :: c == '-'
  {
    if marked != "" {
      var rest, c := marked[..|marked| - 1], marked[|marked| - 1];
      assert marked == rest + [c];
      if c == '-' {
        OneMoreMark('-', rest);
        OnlyMarks(rest);
      } else {
        RejoinedGrows('-', rest, c);
        RejoinedEnds('-', marked);
        assert false;
      }
    }
  }

  lemma WrittenMarksFirst(marked: string)
    requires Between('-', marked) == []
    ensures Written(marked + ['-']) == "-" && (marked == "" || Written(marked) == "-")
  {
    OneMoreMark('-', marked);
    OnlyMarks(marked);
    assert marked != "" ==> marked[0] in marked;
    LeadingStays(marked + ['-'], '-');
  }

  lemma Prepended(leading: string, text: string)
    requires text != ""
    ensures var whole := leading + text;
            whole != "" && whole[|whole| - 1] == text[|text| - 1] && leading + (text + "-") == whole + "-"
  {
  }

  lemma WrittenMarksWord(marked: string)
    requires marked != "" && Between('-', marked) != []
    ensures var text := Written(marked);
            text != "" && Written(marked + ['-']) == if text[|text| - 1] == '-' then text else text + "-"
  {
    RejoinedMarks('-', marked);
    RejoinedEnds('-', marked);
    LeadingStays(marked, '-');
    Prepended(Leading(marked), Rejoined('-', marked));
  }

  lemma NothingWritten()
    ensures Between('-', "") == [] && Written("") == ""
  {
    assert Split('-', "") == [""];
  }

  lemma WrittenMarks(marked: string)
    ensures var text := Written(marked);
            Written(marked + ['-']) == if text != "" && text[|text| - 1] == '-' then text else text + "-"
  {
    NothingWritten();
    if Between('-', marked) == [] {
      WrittenMarksFirst(marked);
    } else {
      WrittenMarksWord(marked);
    }
  }

  lemma {:induction false} CollapseRejoins(s: string)
    ensures M.Collapse(s) == Written(Marked(s, c => 'a' <= c <= 'z' || '0' <= c <= '9', Any, '-'))
  {
    var keep := c => 'a' <= c <= 'z' || '0' <= c <= '9';
    if s == "" {
      assert Split('-', "") == [""];
    } else {
      var rest, c := s[..|s| - 1], s[|s| - 1];
      var marked := Marked(rest, keep, Any, '-');
      CollapseRejoins(rest);
      if keep(c) {
        WrittenGrows(marked, c);
      } else {
        WrittenMarks(marked);
      }
    }
  }

  /** A safe name part is the words of the text with one dash between them. */
  lemma DnsSafeIsWords(naming: M.Naming, url: string)
    ensures M.DnsSafe(naming, url) == Join("-", UrlWords(naming, url))
  {
    var marked := Marked(M.Lowered(naming, url), c => 'a' <= c <= 'z' || '0' <= c <= '9', Any, '-');
    CollapseRejoins(M.Lowered(naming, url));
    TrimRejoined('-', marked, M.IsDash);
    assert "-" + Rejoined('-', marked) != "" && ("-" + Rejoined('-', marked))[1..] == Rejoined('-', marked);
    assert "" + Rejoined('-', marked) == Rejoined('-', marked);
  }

  /** The words' first 38 characters, less the dashes they end in, or `git` if there are no words. */
  function Shortened(joined: string): string {
    if joined == "" then "git" else TrimRight(joined[..if |joined| < 38 then |joined| else 38], M.IsDash)
  }

  lemma ShortenedStays(part: string)
    requires M.SafePart(part)
    ensures |part| <= 38 ==> Shortened(part) == if part == "" then "git" else part
    ensures 38 < |part| ==> Shortened(part) == TrimRight(part[..38], M.IsDash) != ""
  {
    if 38 < |part| {
      var k := TrimRightCuts(part[..38], M.IsDash);
      assert part[..38][0] == part[0];
    } else {
      assert part[..|part|] == part;
    }
  }

  lemma BodyKeepsWords(naming: M.Naming, canonicalUrl: string)
    requires naming.Valid()
    ensures M.Body(naming, canonicalUrl) == Shortened(Join("-", UrlWords(naming, canonicalUrl)))
  {
    DnsSafeIsWords(naming, canonicalUrl);
    M.SafePartsAreFixed(naming, canonicalUrl);
    ShortenedStays(M.DnsSafe(naming, canonicalUrl));
  }

  /** A mirror is named after the words of the canonical URL and the first digits of the digest of URL and scope. */
  lemma MirrorNameKeepsWords(naming: M.Naming, url: string, scopeKey: string)
    requires naming.Valid()
    ensures var canonicalUrl := M.CanonicalOrTrimmed(naming, url);
            M.MirrorName(naming, url, scopeKey)
            == "argocd-repo-" + Shortened(Join("-", UrlWords(naming, canonicalUrl)))
               + "-" + naming.digest(canonicalUrl + "\n" + scopeKey)[..12]
  {
    BodyKeepsWords(naming, M.CanonicalOrTrimmed(naming, url));
  }
}
