/** `formatURL` (src/utilities/format_url.ts). The WHATWG URL parser behind
    `isValidUrl` is a parameter: a predicate on strings. */
module FormatUrl {
  import opened Outcomes
  import opened Text

  const Separator := "://"

  /** A valid URL without `://` makes `another.split(...)` read a property of
      `undefined`, which throws. */
  datatype TypeError = TypeError

  /** The first two pieces of `url.split('://')`: the text before the first
      separator and the text between it and the next one (or the end). */
  function SplitPieces(url: string): (r: Option<(string, string)>)
    ensures r.None? <==> !Contains(url, Separator)
    ensures r.Some? ==>
      var i := IndexOf(url, Separator).value;
      var rest := url[i + 3..];
      && r.value.0 == url[..i]
      && r.value.1 == (if Contains(rest, Separator) then rest[..IndexOf(rest, Separator).value] else rest)
      && !Contains(r.value.0, Separator)
      && !Contains(r.value.1, Separator)
  {
    match IndexOf(url, Separator)
    case None => None
    case Some(i) =>
      NoSeparatorBefore(url, i);
      var rest := url[i + 3..];
      match IndexOf(rest, Separator)
      case None => Some((url[..i], rest))
      case Some(j) =>
        NoSeparatorBefore(rest, j);
        Some((url[..i], rest[..j]))
  }

  /** The text before the first occurrence of the separator does not contain it. */
  lemma NoSeparatorBefore(s: string, i: nat)
    requires IndexOf(s, Separator) == Some(i)
    ensures !Contains(s[..i], Separator)
  {
    if Contains(s[..i], Separator) {
      var t := s[..i];
      var j := IndexOf(t, Separator).value;
      assert |Separator| == 3;
      assert OccursAt(t, Separator, j) && j + 3 <= i;
      assert t[j..j + 3] == s[j..j + 3];
      assert OccursAt(s, Separator, j) && j < i;
      assert false;
    }
  }

  /** `formatURL`: `undefined` for a URL the parser rejects; otherwise the
      protocol, `://`, and the next piece with every run of slashes reduced to
      one (`split(/\/{2,}/).join('/')`). */
  function FormatURL(url: string, isValidUrl: string -> bool): (r: Result<Option<string>, TypeError>)
    ensures r == Ok(None) <==> !isValidUrl(url)
    ensures r.Err? <==> isValidUrl(url) && !Contains(url, Separator)
  {
    if !isValidUrl(url) then Ok(None)
    else match SplitPieces(url)
      case None => Err(TypeError)
      case Some((protocol, another)) => Ok(Some(protocol + Separator + CollapseRuns(another, '/')))
  }

  /** A separator cannot start where there is no colon. */
  lemma NotAtNonColon(s: string, j: int)
    requires 0 <= j < |s| && s[j] != ':'
    ensures !OccursAt(s, Separator, j)
  {
  }

  /** A separator preceded by no colon is the first one. */
  lemma FirstSeparatorAt(s: string, k: nat)
    requires OccursAt(s, Separator, k) && ':' !in s[..k]
    ensures IndexOf(s, Separator) == Some(k)
  {
    forall j | 0 <= j < k ensures !OccursAt(s, Separator, j) {
      assert s[j] == s[..k][j];
      NotAtNonColon(s, j);
    }
  }

  /** For a valid URL with a separator: the result keeps everything up to and
      including the first `://`; after it comes the next piece with only
      slashes removed and no `//` left. */
  lemma FormattedShape(url: string, isValidUrl: string -> bool)
    requires isValidUrl(url) && Contains(url, Separator)
    ensures
      var i := IndexOf(url, Separator).value;
      var another := SplitPieces(url).value.1;
      var f := FormatURL(url, isValidUrl).value.value;
      && f[..i + 3] == url[..i + 3]
      && f[i + 3..] == CollapseRuns(another, '/')
      && NoPair(f[i + 3..], '/')
      && Without(f[i + 3..], '/') == Without(another, '/')
  {
    var i := IndexOf(url, Separator).value;
    var f := FormatURL(url, isValidUrl).value.value;
    CollapseKeepsOtherChars(SplitPieces(url).value.1, '/');
    assert url[..i + 3] == url[..i] + Separator by { assert url[i..i + 3] == Separator; }
    assert f == url[..i] + Separator + CollapseRuns(SplitPieces(url).value.1, '/');
  }

  lemma NoColonNoSeparator(s: string)
    requires ':' !in s
    ensures !Contains(s, Separator)
  {
    if Contains(s, Separator) {
      var j := IndexOf(s, Separator).value;
      NotAtNonColon(s, j);
    }
  }

  /** Once the two pieces are known, the result is the protocol, the
      separator and the collapsed second piece. */
  lemma FormatFromPieces(url: string, isValidUrl: string -> bool, protocol: string, another: string)
    requires isValidUrl(url) && SplitPieces(url) == Some((protocol, another))
    ensures FormatURL(url, isValidUrl) == Ok(Some(protocol + Separator + CollapseRuns(another, '/')))
  {
  }

  /** In a URL that starts with `http://` the first separator follows the
      protocol `http`. */
  lemma HttpSeparator(url: string)
    requires |url| >= 7 && url[..7] == "http://"
    ensures IndexOf(url, Separator) == Some(4)
  {
    assert url[0] == 'h' && url[1] == 't' && url[2] == 't' && url[3] == 'p' by {
      assert url[..7][0] == 'h' && url[..7][1] == 't' && url[..7][2] == 't' && url[..7][3] == 'p';
    }
    assert url[4] == ':' && url[5] == '/' && url[6] == '/' by {
      assert url[..7][4] == ':' && url[..7][5] == '/' && url[..7][6] == '/';
    }
    assert url[4..7] == Separator;
    assert ':' !in url[..4];
    FirstSeparatorAt(url, 4);
  }

  /** The text after the first separator of `http://x.com/r?to=https://y.com`
      has its own separator after `x.com/r?to=https`. */
  lemma RedirectRest(rest: string)
    requires rest == "x.com/r?to=https://y.com"
    ensures IndexOf(rest, Separator) == Some(16) && rest[..16] == "x.com/r?to=https"
  {
    assert rest[16..19] == Separator && rest[..16] == "x.com/r?to=https";
    FirstSeparatorAt(rest, 16);
  }

  lemma RedirectSlices(url: string)
    requires url == "http://x.com/r?to=https://y.com"
    ensures url[..7] == "http://" && url[..4] == "http" && url[7..] == "x.com/r?to=https://y.com"
  {
  }

  /** `http://x.com/r?to=https://y.com` splits into `http` and
      `x.com/r?to=https`: the text after the second separator is lost. */
  lemma RedirectUrlPieces(url: string)
    requires url == "http://x.com/r?to=https://y.com"
    ensures SplitPieces(url) == Some(("http", "x.com/r?to=https"))
  {
    RedirectSlices(url);
    HttpSeparator(url);
    RedirectRest(url[7..]);
  }

  lemma UnchangedByCollapse(s: string)
    requires s == "x.com/r?to=https"
    ensures CollapseRuns(s, '/') == s
  {
    assert NoPair(s, '/');
    CollapseNoPair(s, '/');
  }

  lemma RedirectJoin()
    ensures "http" + Separator + "x.com/r?to=https" == "http://x.com/r?to=https"
  {
  }

  /** Everything after a second `://` is dropped. */
  lemma SecondSeparatorTruncates(url: string, isValidUrl: string -> bool)
    requires url == "http://x.com/r?to=https://y.com" && isValidUrl(url)
    ensures FormatURL(url, isValidUrl) == Ok(Some("http://x.com/r?to=https"))
  {
    RedirectUrlPieces(url);
    FormatFromPieces(url, isValidUrl, "http", "x.com/r?to=https");
    UnchangedByCollapse("x.com/r?to=https");
    RedirectJoin();
  }

  lemma SlashySlices(url: string)
    requires url == "http://a//b///c"
    ensures url[..7] == "http://" && url[..4] == "http" && url[7..] == "a//b///c"
  {
  }

  /** `http://a//b///c` splits into `http` and `a//b///c`. */
  lemma SlashyUrlPieces(url: string)
    requires url == "http://a//b///c"
    ensures SplitPieces(url) == Some(("http", "a//b///c"))
  {
    SlashySlices(url);
    HttpSeparator(url);
    NoColonNoSeparator(url[7..]);
  }

  lemma CollapsedAlready()
    ensures CollapseRuns("a/b/c", '/') == "a/b/c"
  {
    CollapseNoPair("a/b/c", '/');
  }

  lemma CollapseLastRun()
    ensures CollapseRuns("a/b//c", '/') == "a/b/c"
  {
    CollapsedAlready();
    CollapseDropsOneOfPair("a/b", "c", '/');
    assert "a/b" + ['/'] + "c" == "a/b/c";
    assert "a/b" + ['/', '/'] + "c" == "a/b//c";
  }

  lemma CollapseTripleRun()
    ensures CollapseRuns("a/b///c", '/') == "a/b/c"
  {
    CollapseLastRun();
    CollapseDropsOneOfPair("a/b", "/c", '/');
    assert "a/b" + ['/'] + "/c" == "a/b//c";
    assert "a/b" + ['/', '/'] + "/c" == "a/b///c";
  }

  lemma CollapseBothRuns()
    ensures CollapseRuns("a//b///c", '/') == "a/b/c"
  {
    CollapseTripleRun();
    CollapseDropsOneOfPair("a", "b///c", '/');
    assert "a" + ['/'] + "b///c" == "a/b///c";
    assert "a" + ['/', '/'] + "b///c" == "a//b///c";
  }

  lemma SlashyJoin()
    ensures "http" + Separator + "a/b/c" == "http://a/b/c"
  {
  }

  /** Doubled and tripled slashes after the protocol collapse to one. */
  lemma CollapsesSlashRuns(url: string, isValidUrl: string -> bool)
    requires url == "http://a//b///c" && isValidUrl(url)
    ensures FormatURL(url, isValidUrl) == Ok(Some("http://a/b/c"))
  {
    SlashyUrlPieces(url);
    FormatFromPieces(url, isValidUrl, "http", "a//b///c");
    CollapseBothRuns();
    SlashyJoin();
  }
}
