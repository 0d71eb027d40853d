/**
 Searching with SQL LIKE: the escaping of user-supplied terms against a matcher with backslash as
 the escape character, and the proxy-app lookup by host built on it.
 */
module LikeSearch {
  import opened Basics

  // ---------------------------------------------------------------- escaping

  /** `str.replace` of one character. */
  function Replace(s: string, c: char, text: string): (r: string) {
    if s == "" then "" else (if s[0] == c then text else [s[0]]) + Replace(s[1..], c, text)
  }

  /** `escape_like`: three replacements, one after the other. */
  function EscapeLike(s: string): (r: string) {
    Replace(Replace(Replace(s, '\\', "\\\\"), '%', "\\%"), '_', "\\_")
  }

  predicate Special(c: char) {
    c == '\\' || c == '%' || c == '_'
  }

  /** Escaping in one pass: a backslash before each special character. */
  function Escaped(s: string): (r: string) {
    if s == "" then "" else (if Special(s[0]) then ['\\', s[0]] else [s[0]]) + Escaped(s[1..])
  }

  lemma {:induction false} ReplaceConcat(a: string, b: string, c: char, text: string)
    ensures Replace(a + b, c, text) == Replace(a, c, text) + Replace(b, c, text)
    decreases |a|
  {
    if a == "" {
      assert a + b == b;
    } else {
      assert (a + b)[1..] == a[1..] + b;
      ReplaceConcat(a[1..], b, c, text);
    }
  }

  lemma ReplaceOne(x: char, c: char, text: string)
    ensures Replace([x], c, text) == if x == c then text else [x]
  {
  }

  lemma EscapeLikeConcat(a: string, b: string)
    ensures EscapeLike(a + b) == EscapeLike(a) + EscapeLike(b)
  {
    var a1, b1 := Replace(a, '\\', "\\\\"), Replace(b, '\\', "\\\\");
    ReplaceConcat(a, b, '\\', "\\\\");
    ReplaceConcat(a1, b1, '%', "\\%");
    ReplaceConcat(Replace(a1, '%', "\\%"), Replace(b1, '%', "\\%"), '_', "\\_");
  }

  lemma EscapeLikeOne(x: char)
    ensures EscapeLike([x]) == if Special(x) then ['\\', x] else [x]
  {
    ReplaceOne(x, '\\', "\\\\");
    ReplaceOne(x, '%', "\\%");
    ReplaceOne(x, '_', "\\_");
    ReplaceOne('\\', '%', "\\%");
    ReplaceOne('\\', '_', "\\_");
    ReplaceOne('%', '_', "\\_");
    assert "\\\\" == ['\\'] + ['\\'] && "\\%" == ['\\'] + ['%'];
    ReplaceConcat(['\\'], ['\\'], '%', "\\%");
    ReplaceConcat(['\\'], ['\\'], '_', "\\_");
    ReplaceConcat(['\\'], ['%'], '_', "\\_");
  }

  /** The chained replacements do what one pass would: no replacement disturbs what an earlier one wrote. */
  lemma {:induction false} ChainedReplaceIsOnePass(s: string)
    ensures EscapeLike(s) == Escaped(s)
    decreases |s|
  {
    if s != "" {
      assert s == [s[0]] + s[1..];
      EscapeLikeConcat([s[0]], s[1..]);
      EscapeLikeOne(s[0]);
      ChainedReplaceIsOnePass(s[1..]);
    }
  }

  // ---------------------------------------------------------------- matching

  /** `s like p escape '\'`. */
  predicate Like(p: string, s: string)
    decreases |p| + |s|
  {
    if p == "" then s == ""
    else if p[0] == '\\' then |p| >= 2 && s != "" && s[0] == p[1] && Like(p[2..], s[1..])
    else if p[0] == '%' then Like(p[1..], s) || (s != "" && Like(p, s[1..]))
    else s != "" && (p[0] == '_' || s[0] == p[0]) && Like(p[1..], s[1..])
  }

  /** An escaped term matches itself and nothing else, whatever pattern follows it. */
  lemma {:induction false} EscapedMatchesItself(t: string, rest: string, s: string)
    ensures Like(EscapeLike(t) + rest, s) <==> t <= s && Like(rest, s[|t|..])
    decreases |t|
  {
    ChainedReplaceIsOnePass(t);
    EscapedMatches(t, rest, s);
  }

  lemma {:induction false} EscapedMatches(t: string, rest: string, s: string)
    ensures Like(Escaped(t) + rest, s) <==> t <= s && Like(rest, s[|t|..])
    decreases |t|
  {
    if t == "" {
      assert Escaped(t) + rest == rest;
    } else {
      var p, tail := Escaped(t) + rest, Escaped(t[1..]) + rest;
      if Special(t[0]) {
        assert p[0] == '\\' && p[1] == t[0] && p[2..] == tail;
      } else {
        assert p[0] == t[0] && p[1..] == tail;
      }
      if s != "" {
        EscapedMatches(t[1..], rest, s[1..]);
        assert s == [s[0]] + s[1..] && t == [t[0]] + t[1..];
        assert t <= s <==> t[0] == s[0] && t[1..] <= s[1..];
        if t <= s {
          assert s[1..][|t[1..]|..] == s[|t|..];
        }
      }
    }
  }

  lemma {:induction false} PercentMatchesAll(s: string)
    ensures Like("%", s)
    decreases |s|
  {
    assert "%"[1..] == "";
    if s != "" {
      PercentMatchesAll(s[1..]);
    }
  }

  lemma {:induction false} PercentSkips(p: string, s: string)
    ensures Like("%" + p, s) <==> exists i :: 0 <= i <= |s| && Like(p, s[i..])
    decreases |s|
  {
    var q := "%" + p;
    assert q[0] == '%' && q[1..] == p;
    assert s[0..] == s;
    if s != "" {
      PercentSkips(p, s[1..]);
      if i :| 0 <= i <= |s[1..]| && Like(p, s[1..][i..]) {
        assert s[1..][i..] == s[i + 1..];
      }
      if i :| 0 < i <= |s| && Like(p, s[i..]) {
        assert s[1..][i - 1..] == s[i..];
      }
    }
  }

  /** The search box: `%` + escaped term + `%` matches exactly the strings that contain the term literally. */
  lemma ContainsIsExact(t: string, s: string)
    ensures Like("%" + (EscapeLike(t) + "%"), s) <==> exists i :: 0 <= i <= |s| && t <= s[i..]
  {
    PercentSkips(EscapeLike(t) + "%", s);
    forall i | 0 <= i <= |s|
      ensures Like(EscapeLike(t) + "%", s[i..]) <==> t <= s[i..]
    {
      EscapedMatchesItself(t, "%", s[i..]);
      if t <= s[i..] {
        PercentMatchesAll(s[i..][|t|..]);
      }
    }
  }

  /** The term fits at the start of the string, an underscore standing for any character. */
  predicate Fits(q: string, s: string) {
    |q| <= |s| && forall i :: 0 <= i < |q| ==> q[i] == '_' || q[i] == s[i]
  }

  lemma {:induction false} UnderscoresMatchAny(q: string, rest: string, s: string)
    requires '\\' !in q && '%' !in q
    ensures Like(q + rest, s) <==> Fits(q, s) && Like(rest, s[|q|..])
    decreases |q|
  {
    if q == "" {
      assert q + rest == rest;
    } else {
      var p := q + rest;
      assert p[0] == q[0] && p[1..] == q[1..] + rest;
      if s != "" {
        UnderscoresMatchAny(q[1..], rest, s[1..]);
        assert Fits(q, s) <==> (q[0] == '_' || q[0] == s[0]) && Fits(q[1..], s[1..]) by {
          assert forall i :: 0 < i < |q| ==> q[i] == q[1..][i - 1];
          assert forall i :: 0 < i < |s| ==> s[i] == s[1..][i - 1];
        }
        if Fits(q, s) {
          assert s[1..][|q[1..]|..] == s[|q|..];
        }
      }
    }
  }

  /**
   What escaping is for: of a term without backslash and percent sign, put into the pattern as it is, the
   search finds exactly the strings that contain it with any character in place of each underscore.
   */
  lemma UnescapedContains(q: string, s: string)
    requires '\\' !in q && '%' !in q
    ensures Like("%" + (q + "%"), s) <==> exists i :: 0 <= i <= |s| && Fits(q, s[i..])
  {
    PercentSkips(q + "%", s);
    forall i | 0 <= i <= |s|
      ensures Like(q + "%", s[i..]) <==> Fits(q, s[i..])
    {
      UnderscoresMatchAny(q, "%", s[i..]);
      if Fits(q, s[i..]) {
        PercentMatchesAll(s[i..][|q|..]);
      }
    }
  }

  // ---------------------------------------------------------------- ignoring case

  /** A case folding, one character at a time, that leaves the special characters alone. */
  ghost predicate Folding(fold: char -> char) {
    forall c :: (Special(c) ==> fold(c) == c) && (Special(fold(c)) ==> Special(c))
  }

  function Folded(s: string, fold: char -> char): (r: string)
    ensures |r| == |s| && forall i :: 0 <= i < |s| ==> r[i] == fold(s[i])
  {
    seq(|s|, i requires 0 <= i < |s| => fold(s[i]))
  }

  /** `s ilike p escape '\'`: both sides folded. */
  predicate ILike(p: string, s: string, fold: char -> char) {
    Like(Folded(p, fold), Folded(s, fold))
  }

  lemma FoldedConcat(a: string, b: string, fold: char -> char)
    ensures Folded(a + b, fold) == Folded(a, fold) + Folded(b, fold)
  {
  }

  lemma {:induction false} EscapeThenFold(t: string, fold: char -> char)
    requires Folding(fold)
    ensures Folded(Escaped(t), fold) == Escaped(Folded(t, fold))
    decreases |t|
  {
    if t != "" {
      var head := if Special(t[0]) then ['\\', t[0]] else [t[0]];
      EscapeThenFold(t[1..], fold);
      FoldedConcat(head, Escaped(t[1..]), fold);
      assert Folded(t, fold)[1..] == Folded(t[1..], fold);
      assert Special('\\');
      assert Folded(head, fold) == if Special(t[0]) then ['\\', fold(t[0])] else [fold(t[0])];
    }
  }

  lemma PercentFolds(fold: char -> char)
    requires Folding(fold)
    ensures Folded("%", fold) == "%"
  {
    assert Special('%');
  }

  /**
   The search box ignores case: `%` + escaped term + `%` finds exactly the strings that contain the
   term up to case.
   */
  lemma ContainsIgnoringCase(t: string, s: string, fold: char -> char)
    requires Folding(fold)
    ensures ILike("%" + (EscapeLike(t) + "%"), s, fold) <==>
            exists i :: 0 <= i <= |s| && Folded(t, fold) <= Folded(s, fold)[i..]
  {
    var ft, fs := Folded(t, fold), Folded(s, fold);
    ChainedReplaceIsOnePass(t);
    ChainedReplaceIsOnePass(ft);
    EscapeThenFold(t, fold);
    PercentFolds(fold);
    FoldedConcat("%", EscapeLike(t) + "%", fold);
    FoldedConcat(EscapeLike(t), "%", fold);
    ContainsIsExact(ft, fs);
  }

  // ---------------------------------------------------------------- lookup by host

  /** `f"{scheme}{escaped}{delimiter}%"`. */
  function HostPattern(scheme: string, host: string, delimiter: char): string {
    scheme + (EscapeLike(host) + [delimiter, '%'])
  }

  predicate Plain(s: string) {
    forall i :: 0 <= i < |s| ==> !Special(s[i])
  }

  lemma {:induction false} PlainIsUnchanged(s: string)
    requires Plain(s)
    ensures Escaped(s) == s
    decreases |s|
  {
    if s != "" {
      PlainIsUnchanged(s[1..]);
    }
  }

  lemma PlainIsEscaped(s: string)
    requires Plain(s)
    ensures EscapeLike(s) == s
  {
    ChainedReplaceIsOnePass(s);
    PlainIsUnchanged(s);
  }

  lemma PlainAround(before: string, host: string, after: string)
    requires Plain(before) && Plain(after)
    ensures before + EscapeLike(host) + after == EscapeLike(before + host + after)
  {
    PlainIsEscaped(before);
    PlainIsEscaped(after);
    EscapeLikeConcat(before, host);
    EscapeLikeConcat(before + host, after);
  }

  /** A host pattern matches exactly the URLs with that literal prefix. */
  lemma HostPatternIsPrefix(scheme: string, host: string, delimiter: char, url: string)
    requires Plain(scheme) && !Special(delimiter)
    ensures Like(HostPattern(scheme, host, delimiter), url) <==> scheme + host + [delimiter] <= url
  {
    var t := scheme + host + [delimiter];
    PlainAround(scheme, host, [delimiter]);
    assert HostPattern(scheme, host, delimiter) == EscapeLike(t) + "%";
    EscapedMatchesItself(t, "%", url);
    if t <= url {
      PercentMatchesAll(url[|t|..]);
    }
  }

  /** The three alternatives of the lookup's `where` condition. */
  predicate Fronted(scheme: string, url: string, host: string) {
    || url == scheme + host
    || Like(HostPattern(scheme, host, '/'), url)
    || Like(HostPattern(scheme, host, ':'), url)
  }

  predicate PlainHost(host: string) {
    '/' !in host && ':' !in host
  }

  /** The part of a URL's tail before the first `/` or `:`. */
  function UpToDelimiter(s: string): (h: string)
    ensures h <= s && PlainHost(h)
    ensures |h| < |s| ==> s[|h|] == '/' || s[|h|] == ':'
  {
    if s == "" || s[0] == '/' || s[0] == ':' then "" else [s[0]] + UpToDelimiter(s[1..])
  }

  lemma PrefixOfTail(scheme: string, host: string, c: char, tail: string)
    ensures scheme + host + [c] <= scheme + tail <==> host < tail && tail[|host|] == c
  {
    var s, t := scheme + host + [c], scheme + tail;
    if s <= t {
      assert t[|scheme|..] == tail;
      assert s[|scheme|..] == host + [c];
      assert host + [c] == t[|scheme|..|s|];
      assert host == tail[..|host|];
    }
    if host < tail && tail[|host|] == c {
      assert tail[..|host| + 1] == host + [c];
    }
  }

  lemma FrontedTail(scheme: string, host: string, tail: string)
    requires Plain(scheme)
    ensures Fronted(scheme, scheme + tail, host) <==>
            host <= tail && (|host| < |tail| ==> tail[|host|] == '/' || tail[|host|] == ':')
  {
    HostPatternIsPrefix(scheme, host, '/', scheme + tail);
    HostPatternIsPrefix(scheme, host, ':', scheme + tail);
    PrefixOfTail(scheme, host, '/', tail);
    PrefixOfTail(scheme, host, ':', tail);
    assert (scheme + tail)[|scheme|..] == tail && (scheme + host)[|scheme|..] == host;
  }

  lemma FrontedHasScheme(scheme: string, url: string, host: string)
    requires Plain(scheme) && Fronted(scheme, url, host)
    ensures scheme <= url
  {
    HostPatternIsPrefix(scheme, host, '/', url);
    HostPatternIsPrefix(scheme, host, ':', url);
    assert scheme <= scheme + host;
  }

  lemma DelimiterIsUnique(s: string, a: string, b: string)
    requires PlainHost(a) && PlainHost(b) && a <= s && b <= s
    requires |a| < |s| ==> s[|a|] == '/' || s[|a|] == ':'
    requires |b| < |s| ==> s[|b|] == '/' || s[|b|] == ':'
    ensures a == b
  {
  }

  lemma FrontedIsAuthority(scheme: string, url: string, host: string)
    requires Plain(scheme) && PlainHost(host)
    ensures Fronted(scheme, url, host) <==> scheme <= url && UpToDelimiter(url[|scheme|..]) == host
  {
    if Fronted(scheme, url, host) {
      FrontedHasScheme(scheme, url, host);
    }
    if scheme <= url {
      var tail := url[|scheme|..];
      assert url == scheme + tail;
      FrontedTail(scheme, host, tail);
      if Fronted(scheme, url, host) {
        DelimiterIsUnique(tail, host, UpToDelimiter(tail));
      }
    }
  }

  const SCHEME: string := "https://"

  predicate MatchesHost(url: string, host: string) {
    Fronted(SCHEME, url, host)
  }

  /** The lookup matches exactly the https URLs whose authority, without port, is the host. */
  lemma MatchIsAuthority(url: string, host: string)
    requires PlainHost(host)
    ensures MatchesHost(url, host) <==> SCHEME <= url && UpToDelimiter(url[|SCHEME|..]) == host
  {
    FrontedIsAuthority(SCHEME, url, host);
  }

  /** No URL is matched for two different hosts. */
  lemma OneHostPerUrl(url: string, a: string, b: string)
    requires PlainHost(a) && PlainHost(b) && MatchesHost(url, a) && MatchesHost(url, b)
    ensures a == b
  {
    MatchIsAuthority(url, a);
    MatchIsAuthority(url, b);
  }

  datatype ProxyApp = ProxyApp(id: int, domainId: int, enabled: bool, externalUrl: string, createdAt: Time)

  predicate Fronts(app: ProxyApp, domainId: int, host: string) {
    app.domainId == domainId && app.enabled && MatchesHost(app.externalUrl, host)
  }

  /** `get_enabled_proxy_app_for_domain_and_host`: the oldest enabled app of the domain that fronts the host. */
  method EnabledProxyAppFor(apps: seq<ProxyApp>, domainId: int, host: string) returns (r: Option<ProxyApp>)
    ensures r.None? <==> forall app :: app in apps ==> !Fronts(app, domainId, host)
    ensures r.Some? ==> r.value in apps && Fronts(r.value, domainId, host)
    ensures r.Some? ==> r.value.domainId == domainId && r.value.enabled && MatchesHost(r.value.externalUrl, host)
    ensures r.None? ==> forall app :: app in apps ==>
              app.domainId != domainId || !app.enabled || !MatchesHost(app.externalUrl, host)
    ensures r.Some? ==> forall app :: app in apps && Fronts(app, domainId, host) ==> r.value.createdAt <= app.createdAt
  {
    r := None;
    for i := 0 to |apps|
      invariant r.None? <==> forall app :: app in apps[..i] ==> !Fronts(app, domainId, host)
      invariant r.Some? ==> r.value in apps[..i] && Fronts(r.value, domainId, host)
      invariant r.Some? ==> forall app :: app in apps[..i] && Fronts(app, domainId, host) ==>
                r.value.createdAt <= app.createdAt
    {
      assert apps[..i + 1] == apps[..i] + [apps[i]];
      if Fronts(apps[i], domainId, host) && (r.None? || apps[i].createdAt < r.value.createdAt) {
        r := Some(apps[i]);
      }
    }
    assert apps[..|apps|] == apps;
  }
}
