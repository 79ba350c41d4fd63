/** How the NFT preview turns an NFT's description into the text it shows
    (ui/components/NFTS_update/NFTPreview.tsx): markdown links are replaced
    by their labels, then the text is cut to 180 characters plus "...". */
module NftDescription {
  import opened Wrappers
  import opened JsText

  const MAX_DESCRIPTION_LENGTH: nat := 180

  /** `[\w\s\d]`: the characters of a link label. */
  predicate IsLabelChar(c: char) {
    IsWordChar(c) || IsJsWhitespace(c)
  }

  /** `[\w\d./?=#]`: the characters of a link URL after its scheme. */
  predicate IsUrlChar(c: char) {
    IsWordChar(c) || c == '.' || c == '/' || c == '?' || c == '=' || c == '#'
  }

  /** A markdown link `[text](http[s]://url)` as `LINK_REGEX` recognises it. */
  datatype Link = Link(text: string, secure: bool, url: string)

  predicate WellFormed(link: Link) {
    && |link.text| >= 1 && (forall i :: 0 <= i < |link.text| ==> IsLabelChar(link.text[i]))
    && |link.url| >= 1 && (forall i :: 0 <= i < |link.url| ==> IsUrlChar(link.url[i]))
  }

  function Scheme(secure: bool): string {
    if secure then "https://" else "http://"
  }

  /** The text of a link. */
  function Render(link: Link): string {
    "[" + link.text + "](" + Scheme(link.secure) + link.url + ")"
  }

  /** The end of the run of label characters starting at `i`. */
  function LabelEnd(s: string, i: nat): (j: nat)
    requires i <= |s|
    ensures i <= j <= |s|
    ensures forall k :: i <= k < j ==> IsLabelChar(s[k])
    ensures j < |s| ==> !IsLabelChar(s[j])
    decreases |s| - i
  {
    if i == |s| || !IsLabelChar(s[i]) then i else LabelEnd(s, i + 1)
  }

  /** The end of the run of URL characters starting at `i`. */
  function UrlEnd(s: string, i: nat): (j: nat)
    requires i <= |s|
    ensures i <= j <= |s|
    ensures forall k :: i <= k < j ==> IsUrlChar(s[k])
    ensures j < |s| ==> !IsUrlChar(s[j])
    decreases |s| - i
  {
    if i == |s| || !IsUrlChar(s[i]) then i else UrlEnd(s, i + 1)
  }

  /** `s` holds `p` from index `i` on. */
  predicate HasPrefixAt(s: string, i: nat, p: string) {
    i + |p| <= |s| && s[i..i + |p|] == p
  }

  /** `LINK_REGEX` anchored at the start of `s`. The label class excludes ']'
      and the URL class excludes ')', so the greedy runs are the only way a
      match can go, and backtracking never finds another. */
  function MatchLinkAt(s: string): (r: Option<Link>)
    ensures r.Some? ==> WellFormed(r.value) && |Render(r.value)| <= |s|
                        && s[..|Render(r.value)|] == Render(r.value)
  {
    if |s| == 0 || s[0] != '[' then None
    else
      var j := LabelEnd(s, 1);
      if j == 1 || j + 2 > |s| || s[j] != ']' || s[j + 1] != '(' then None
      else
        var secure := HasPrefixAt(s, j + 2, "https://");
        if !secure && !HasPrefixAt(s, j + 2, "http://") then None
        else
          var u := j + 2 + |Scheme(secure)|;
          var e := UrlEnd(s, u);
          if e == u || e == |s| || s[e] != ')' then None
          else
            var link := Link(s[1..j], secure, s[u..e]);
            MatchedLink(s, j, secure, e);
            Some(link)
  }

  /** The pieces `MatchLinkAt` finds form a well-formed link, and put back
      together they are the start of `s`. */
  lemma MatchedLink(s: string, j: nat, secure: bool, e: nat)
    requires 1 < j && j + 2 <= |s| && s[0] == '[' && s[j] == ']' && s[j + 1] == '('
    requires forall k :: 1 <= k < j ==> IsLabelChar(s[k])
    requires HasPrefixAt(s, j + 2, Scheme(secure))
    requires j + 2 + |Scheme(secure)| < e < |s| && s[e] == ')'
    requires forall k :: j + 2 + |Scheme(secure)| <= k < e ==> IsUrlChar(s[k])
    ensures var link := Link(s[1..j], secure, s[j + 2 + |Scheme(secure)|..e]);
      WellFormed(link) && |Render(link)| <= |s| && s[..|Render(link)|] == Render(link)
  {
    var u := j + 2 + |Scheme(secure)|;
    var link := Link(s[1..j], secure, s[u..e]);
    assert WellFormed(link) by {
      forall i | 0 <= i < j - 1
        ensures IsLabelChar(link.text[i])
      {
        assert link.text[i] == s[i + 1];
      }
      forall i | 0 <= i < e - u
        ensures IsUrlChar(link.url[i])
      {
        assert link.url[i] == s[i + u];
      }
    }
    assert s[..1] == "[";
    assert s[j..j + 2] == "](";
    assert s[e..e + 1] == ")";
    assert s[..e + 1] == s[..1] + s[1..j] + s[j..j + 2] + s[j + 2..u] + s[u..e] + s[e..e + 1];
    assert |Render(link)| == e + 1;
  }

  /** A run of label characters ending before a non-label character is what
      `LabelEnd` finds. */
  lemma {:induction false} LabelEndAt(s: string, i: nat, j: nat)
    requires i <= j < |s| && !IsLabelChar(s[j])
    requires forall k :: i <= k < j ==> IsLabelChar(s[k])
    ensures LabelEnd(s, i) == j
    decreases j - i
  {
    if i < j {
      LabelEndAt(s, i + 1, j);
    }
  }

  lemma {:induction false} UrlEndAt(s: string, i: nat, j: nat)
    requires i <= j < |s| && !IsUrlChar(s[j])
    requires forall k :: i <= k < j ==> IsUrlChar(s[k])
    ensures UrlEnd(s, i) == j
    decreases j - i
  {
    if i < j {
      UrlEndAt(s, i + 1, j);
    }
  }

  /** Reading the label back out of text that starts with a link. */
  lemma RenderHead(link: Link, s: string)
    requires |Render(link)| <= |s| && s[..|Render(link)|] == Render(link)
    ensures var n := |link.text|;
      && n + 3 <= |s|
      && s[0] == '[' && s[n + 1] == ']' && s[n + 2] == '('
      && s[1..n + 1] == link.text
  {
    var n := |link.text|;
    var a := "[" + link.text;
    var b := a + "](";
    var text := Render(link);
    assert text[..|b|] == b;
    assert s[..|b|] == b by {
      assert s[..|b|] == s[..|text|][..|b|];
    }
    assert s[..|a|] == a by {
      assert s[..|a|] == s[..|b|][..|a|];
    }
    assert s[0] == a[0] && s[n + 1] == b[n + 1] && s[n + 2] == b[n + 2];
    assert s[1..n + 1] == a[1..];
  }

  /** Reading the scheme and URL back out of text that starts with a link. */
  lemma RenderTail(link: Link, s: string)
    requires |Render(link)| <= |s| && s[..|Render(link)|] == Render(link)
    ensures var n := |link.text|;
      var u := n + 3 + |Scheme(link.secure)|;
      var e := u + |link.url|;
      && e < |s| && s[e] == ')'
      && s[n + 3..u] == Scheme(link.secure)
      && s[u..e] == link.url
  {
    var b := "[" + link.text + "](";
    var c := b + Scheme(link.secure);
    var d := c + link.url;
    var text := Render(link);
    assert text == d + ")";
    assert s[|d|] == text[|d|] == ')';
    assert s[..|d|] == d by {
      assert s[..|d|] == s[..|text|][..|d|];
    }
    assert s[..|c|] == c by {
      assert s[..|c|] == s[..|d|][..|c|];
    }
    assert s[|c|..|d|] == link.url by {
      assert s[|c|..|d|] == s[..|d|][|c|..];
    }
    assert s[|b|..|c|] == Scheme(link.secure) by {
      assert s[|b|..|c|] == s[..|c|][|b|..];
    }
  }

  /** Where a well-formed link starts `s`, the pattern matches exactly it. */
  lemma MatchLinkAtComplete(link: Link, s: string)
    requires WellFormed(link)
    requires |Render(link)| <= |s| && s[..|Render(link)|] == Render(link)
    ensures MatchLinkAt(s) == Some(link)
  {
    RenderHead(link, s);
    RenderTail(link, s);
    var n := |link.text|;
    var u := n + 3 + |Scheme(link.secure)|;
    var e := u + |link.url|;
    forall k | 1 <= k < n + 1
      ensures IsLabelChar(s[k])
    {
      assert s[k] == s[1..n + 1][k - 1];
    }
    LabelEndAt(s, 1, n + 1);
    assert HasPrefixAt(s, n + 3, Scheme(link.secure));
    assert HasPrefixAt(s, n + 3, "https://") == link.secure by {
      if !link.secure {
        assert s[n + 7] == ':' by {
          assert s[n + 3..u][4] == ':';
        }
        if n + 11 <= |s| {
          assert s[n + 3..n + 11][4] == ':';
        }
      }
    }
    forall k | u <= k < e
      ensures IsUrlChar(s[k])
    {
      assert s[k] == s[u..e][k - u];
    }
    UrlEndAt(s, u, e);
  }

  /** `removeMarkdownLinks`: the global replace of every link by its label,
      scanning left to right and resuming after each match. */
  function RemoveMarkdownLinks(s: string): (r: string)
    ensures |r| <= |s|
    decreases |s|
  {
    if s == [] then []
    else
      match MatchLinkAt(s)
      case Some(link) => link.text + RemoveMarkdownLinks(s[|Render(link)|..])
      case None => [s[0]] + RemoveMarkdownLinks(s[1..])
  }

  /** A link at the front is replaced by its label and the scan resumes after
      it. */
  lemma RemoveLinkAtFront(link: Link, rest: string)
    requires WellFormed(link)
    ensures RemoveMarkdownLinks(Render(link) + rest) == link.text + RemoveMarkdownLinks(rest)
  {
    var s := Render(link) + rest;
    assert s[..|Render(link)|] == Render(link);
    MatchLinkAtComplete(link, s);
    assert s[|Render(link)|..] == rest;
  }

  /** Text with no '[' has no link and comes through unchanged. */
  lemma {:induction false} RemoveWithoutBrackets(s: string)
    requires forall i :: 0 <= i < |s| ==> s[i] != '['
    ensures RemoveMarkdownLinks(s) == s
  {
    if s != [] {
      RemoveWithoutBrackets(s[1..]);
      assert [s[0]] + s[1..] == s;
    }
  }

  /** A character that cannot begin a link is copied, and the scan moves on. */
  lemma RemoveCopiesNonLink(c: char, rest: string)
    requires c != '['
    ensures RemoveMarkdownLinks([c] + rest) == [c] + RemoveMarkdownLinks(rest)
  {
    assert ([c] + rest)[1..] == rest;
  }

  /** A character at which no link starts is copied, and the scan moves on. */
  lemma RemoveCopiesUnmatched(s: string)
    requires s != [] && MatchLinkAt(s).None?
    ensures RemoveMarkdownLinks(s) == [s[0]] + RemoveMarkdownLinks(s[1..])
  {
  }

  /** The same step, with what follows the first character named `t`. */
  lemma RemoveResumes(s: string, t: string)
    requires s != [] && MatchLinkAt(s).None? && s[1..] == t
    ensures RemoveMarkdownLinks(s) == [s[0]] + RemoveMarkdownLinks(t)
  {
    RemoveCopiesUnmatched(s);
  }

  /** Text in which no link starts anywhere comes through unchanged. */
  lemma {:induction false} NoMatchUnchanged(s: string)
    requires forall i :: 0 <= i < |s| ==> MatchLinkAt(s[i..]).None?
    ensures RemoveMarkdownLinks(s) == s
  {
    if s != [] {
      assert s[0..] == s;
      forall i | 0 <= i < |s| - 1
        ensures MatchLinkAt(s[1..][i..]).None?
      {
        assert s[1..][i..] == s[i + 1..];
      }
      NoMatchUnchanged(s[1..]);
      RemoveCopiesUnmatched(s);
      assert [s[0]] + s[1..] == s;
    }
  }

  /** The label and the "](" of text that opens with `[label](`. */
  lemma LinkOpening(text: string, rest: string)
    requires |text| >= 1 && forall i :: 0 <= i < |text| ==> IsLabelChar(text[i])
    ensures var s, n := "[" + text + "](" + rest, |text|;
      && LabelEnd(s, 1) == n + 1 && s[0] == '[' && s[n + 1] == ']' && s[n + 2] == '('
      && s[n + 3..] == rest
  {
    var s, n := "[" + text + "](" + rest, |text|;
    forall k | 1 <= k < n + 1
      ensures IsLabelChar(s[k])
    {
      assert s[k] == text[k - 1];
    }
    LabelEndAt(s, 1, n + 1);
    assert s[n + 3..] == rest;
  }

  /** `s` holds `p` at `i` exactly when what follows `i` starts with `p`. */
  lemma PrefixAt(s: string, i: nat, p: string)
    requires i <= |s|
    ensures HasPrefixAt(s, i, p) <==> |p| <= |s[i..]| && s[i..][..|p|] == p
  {
    if i + |p| <= |s| {
      assert s[i..i + |p|] == s[i..][..|p|];
    }
  }

  /** Only http and https links are recognised: after `[label](`, text that
      starts with neither scheme is no link. */
  lemma OtherSchemeNoMatch(text: string, rest: string)
    requires |text| >= 1 && forall i :: 0 <= i < |text| ==> IsLabelChar(text[i])
    requires !(|rest| >= 7 && rest[..7] == "http://") && !(|rest| >= 8 && rest[..8] == "https://")
    ensures MatchLinkAt("[" + text + "](" + rest) == None
  {
    var s := "[" + text + "](" + rest;
    LinkOpening(text, rest);
    PrefixAt(s, |text| + 3, "http://");
    PrefixAt(s, |text| + 3, "https://");
  }

  /** Text that starts with a scheme starts with "https://" exactly when the
      scheme is https, and otherwise starts with "http://". */
  lemma SchemeOpening(secure: bool, tail: string)
    requires |Scheme(secure)| <= |tail| && tail[..|Scheme(secure)|] == Scheme(secure)
    ensures (|tail| >= 8 && tail[..8] == "https://") <==> secure
    ensures !secure ==> |tail| >= 7 && tail[..7] == "http://"
  {
    if !secure && |tail| >= 8 {
      assert tail[..8][4] == tail[..7][4] == ':';
    }
  }

  /** A run of URL characters followed by `c` ends where `c` stands. */
  lemma UrlRun(s: string, u: nat, url: string, c: char, rest: string)
    requires u <= |s| && s[u..] == url + [c] + rest
    requires forall i :: 0 <= i < |url| ==> IsUrlChar(url[i])
    requires !IsUrlChar(c)
    ensures UrlEnd(s, u) == u + |url| && s[u + |url|] == c
  {
    forall k | u <= k < u + |url|
      ensures IsUrlChar(s[k])
    {
      assert s[k] == s[u..][k - u];
    }
    assert s[u + |url|] == s[u..][|url|];
    UrlEndAt(s, u, u + |url|);
  }

  /** After an opening `[label](`, a scheme and a URL run that ')' does not
      close make no link. */
  lemma UnclosedAfterOpening(s: string, n: nat, secure: bool, url: string, c: char, rest: string)
    requires n >= 1 && n + 3 <= |s| && LabelEnd(s, 1) == n + 1
    requires s[0] == '[' && s[n + 1] == ']' && s[n + 2] == '('
    requires s[n + 3..] == Scheme(secure) + (url + [c] + rest)
    requires forall i :: 0 <= i < |url| ==> IsUrlChar(url[i])
    requires !IsUrlChar(c) && c != ')'
    ensures MatchLinkAt(s) == None
  {
    var tail := s[n + 3..];
    assert tail[..|Scheme(secure)|] == Scheme(secure);
    SchemeOpening(secure, tail);
    PrefixAt(s, n + 3, "http://");
    PrefixAt(s, n + 3, "https://");
    var u := n + 3 + |Scheme(secure)|;
    assert s[u..] == url + [c] + rest by {
      assert s[u..] == tail[|Scheme(secure)|..];
    }
    UrlRun(s, u, url, c, rest);
  }

  /** A URL whose run of URL characters ends at a character that is neither
      a URL character nor ')' (a '-' or a '&', say) makes no link. */
  lemma UnmatchedUrlNoMatch(text: string, secure: bool, url: string, c: char, rest: string)
    requires |text| >= 1 && forall i :: 0 <= i < |text| ==> IsLabelChar(text[i])
    requires forall i :: 0 <= i < |url| ==> IsUrlChar(url[i])
    requires !IsUrlChar(c) && c != ')'
    ensures MatchLinkAt("[" + text + "](" + (Scheme(secure) + (url + [c] + rest))) == None
  {
    var tail := Scheme(secure) + (url + [c] + rest);
    LinkOpening(text, tail);
    UnclosedAfterOpening("[" + text + "](" + tail, |text|, secure, url, c, rest);
  }

  /** So a link whose URL is cut short by a character such as '-' or '&'
      is kept as written: its '[' is copied and the scan resumes after it. */
  lemma UnmatchedUrlStays(text: string, secure: bool, url: string, c: char, rest: string)
    requires |text| >= 1 && forall i :: 0 <= i < |text| ==> IsLabelChar(text[i])
    requires forall i :: 0 <= i < |url| ==> IsUrlChar(url[i])
    requires !IsUrlChar(c) && c != ')'
    ensures RemoveMarkdownLinks("[" + text + "](" + (Scheme(secure) + (url + [c] + rest)))
         == "[" + RemoveMarkdownLinks(text + "](" + (Scheme(secure) + (url + [c] + rest)))
  {
    var tail := Scheme(secure) + (url + [c] + rest);
    var s := "[" + text + "](" + tail;
    var t := text + "](" + tail;
    assert MatchLinkAt(s) == None by {
      UnmatchedUrlNoMatch(text, secure, url, c, rest);
    }
    assert s != [] && s[1..] == t;
    RemoveResumes(s, t);
  }

  /** So a link with a scheme other than http or https is kept as written:
      its '[' is copied and the scan resumes after it. */
  lemma OtherSchemeStays(text: string, rest: string)
    requires |text| >= 1 && forall i :: 0 <= i < |text| ==> IsLabelChar(text[i])
    requires !(|rest| >= 7 && rest[..7] == "http://") && !(|rest| >= 8 && rest[..8] == "https://")
    ensures RemoveMarkdownLinks("[" + text + "](" + rest) == "[" + RemoveMarkdownLinks(text + "](" + rest)
  {
    var s := "[" + text + "](" + rest;
    var t := text + "](" + rest;
    assert MatchLinkAt(s) == None by {
      OtherSchemeNoMatch(text, rest);
    }
    assert s != [] && s[1..] == t;
    RemoveResumes(s, t);
  }

  /** `trimDescription`: text over 180 characters is cut to 180 and marked
      with "...". */
  function TrimDescription(description: string): (r: string)
    ensures |r| <= MAX_DESCRIPTION_LENGTH + 3 && |r| <= |description| + 3
  {
    if |description| > MAX_DESCRIPTION_LENGTH
    then description[..MAX_DESCRIPTION_LENGTH] + "..."
    else description
  }

  /** The shown text is at most 183 characters and starts with the first 180
      characters of the text it was made from; a text of at most 180
      characters is kept whole, and a longer one becomes its first 180
      characters followed by "...". */
  lemma TrimDescriptionShape(description: string)
    ensures |TrimDescription(description)| <= MAX_DESCRIPTION_LENGTH + 3
    ensures var n := if |description| < MAX_DESCRIPTION_LENGTH then |description| else MAX_DESCRIPTION_LENGTH;
      TrimDescription(description)[..n] == description[..n]
    ensures |description| <= MAX_DESCRIPTION_LENGTH ==> TrimDescription(description) == description
    ensures |description| > MAX_DESCRIPTION_LENGTH ==>
      |TrimDescription(description)| == MAX_DESCRIPTION_LENGTH + 3
      && TrimDescription(description)[MAX_DESCRIPTION_LENGTH..] == "..."
  {
  }

  /** Cutting an already cut text changes nothing. */
  lemma TrimDescriptionIdempotent(description: string)
    ensures TrimDescription(TrimDescription(description)) == TrimDescription(description)
  {
    if |description| > MAX_DESCRIPTION_LENGTH {
      var once := TrimDescription(description);
      assert once[..MAX_DESCRIPTION_LENGTH] == description[..MAX_DESCRIPTION_LENGTH];
    }
  }

  /** `parseDescription`: a missing description reads as "", links give way
      to their labels, and the result is cut. */
  function ParseDescription(description: Option<string>): (r: string)
    ensures |r| <= MAX_DESCRIPTION_LENGTH + 3
    ensures |r| <= |description.GetOr("")| + 3
    ensures description.None? ==> r == ""
  {
    TrimDescriptionShape(RemoveMarkdownLinks(description.GetOr("")));
    TrimDescription(RemoveMarkdownLinks(description.GetOr("")))
  }

  /** A description that is one link with a short label shows as the label. */
  lemma ParseDescriptionOfLink(link: Link)
    requires WellFormed(link) && |link.text| <= MAX_DESCRIPTION_LENGTH
    ensures ParseDescription(Some(Render(link))) == link.text
  {
    RemoveLinkAtFront(link, []);
    assert Render(link) + [] == Render(link);
    assert link.text + RemoveMarkdownLinks([]) == link.text;
    assert Some(Render(link)).GetOr("") == Render(link);
  }
}
