/** The open-redirect guard of the login view: the `next` parameter is
    followed only when `urlsplit` finds no network location in it. The
    functions below follow the steps `urllib.parse.urlsplit` takes before
    it reports the netloc: strip leading C0 controls and spaces, delete tab,
    carriage return and line feed everywhere, drop a valid `scheme:` prefix,
    then take what follows `//` up to the first `/`, `?` or `#`. */
module Urls {
  import opened Base
  import opened Seqs

  /** The characters `urlsplit` deletes wherever they occur. */
  predicate IsUnsafe(c: char)
  {
    c == '\t' || c == '\r' || c == '\n'
  }

  predicate NoUnsafe(s: string)
  {
    forall i | 0 <= i < |s| :: !IsUnsafe(s[i])
  }

  /** Removes the leading C0 control characters and spaces. */
  function StripLeading(s: string): (r: string)
    ensures |r| <= |s| && r == s[|s| - |r|..]
    ensures forall i | 0 <= i < |s| - |r| :: s[i] <= ' '
    ensures r == [] || r[0] > ' '
  {
    if s != [] && s[0] <= ' ' then StripLeading(s[1..]) else s
  }

  /** A character `urlsplit` keeps. */
  predicate IsKept(c: char)
  {
    !IsUnsafe(c)
  }

  /** Deletes every tab, carriage return and line feed, keeping the order of
      the other characters. */
  function RemoveUnsafe(s: string): (r: string)
    ensures NoUnsafe(r)
    ensures NoUnsafe(s) ==> r == s
    ensures |r| <= |s|
  {
    if s == [] then []
    else if IsUnsafe(s[0]) then RemoveUnsafe(s[1..])
    else [s[0]] + RemoveUnsafe(s[1..])
  }

  /** Deleting the unsafe characters keeps every other character, in order
      and as often as it occurs. */
  lemma {:induction false} RemoveUnsafeIsFilter(s: string)
    ensures RemoveUnsafe(s) == Filter(s, IsKept)
  {
    if s != [] {
      RemoveUnsafeIsFilter(s[1..]);
    }
  }

  predicate IsAsciiLetter(c: char)
  {
    'a' <= c <= 'z' || 'A' <= c <= 'Z'
  }

  /** The characters a URL scheme may hold. */
  predicate IsSchemeChar(c: char)
  {
    IsAsciiLetter(c) || '0' <= c <= '9' || c == '+' || c == '-' || c == '.'
  }

  predicate IsColon(c: char)
  {
    c == ':'
  }

  predicate IsNetlocDelimiter(c: char)
  {
    c == '/' || c == '?' || c == '#'
  }

  /** A scheme: an ASCII letter followed by scheme characters. */
  predicate IsScheme(s: string)
  {
    s != [] && IsAsciiLetter(s[0]) && forall k | 0 <= k < |s| :: IsSchemeChar(s[k])
  }

  /** The url without its `scheme:` prefix when the text before the first
      colon is a scheme; otherwise the url itself. */
  function AfterScheme(u: string): (r: string)
    ensures |r| <= |u| && r == u[|u| - |r|..]
    ensures |r| < |u| ==> u[|u| - |r| - 1] == ':' && IsScheme(u[..|u| - |r| - 1])
    ensures |r| == |u| ==> forall i | 0 <= i < |u| && u[i] == ':' :: !IsScheme(u[..i])
  {
    match FindFirst(u, IsColon)
    case Some(i) => if IsScheme(u[..i]) then u[i + 1..] else u
    case None => u
  }

  /** What follows a leading `//` up to the first `/`, `?` or `#`; empty
      when `u` does not start with `//`. */
  function Authority(u: string): (r: string)
    ensures forall i | 0 <= i < |r| :: !IsNetlocDelimiter(r[i])
    ensures |u| >= 2 && u[..2] == "//" ==>
              && 2 + |r| <= |u| && u[2..2 + |r|] == r
              && (2 + |r| == |u| || IsNetlocDelimiter(u[2 + |r|]))
    ensures !(|u| >= 2 && u[..2] == "//") ==> r == ""
  {
    if |u| >= 2 && u[..2] == "//" then
      var rest := u[2..];
      match FindFirst(rest, IsNetlocDelimiter)
      case Some(k) => rest[..k]
      case None => rest
    else ""
  }

  /** `urlsplit(url).netloc`. */
  function Netloc(url: string): (r: string)
    ensures forall i | 0 <= i < |r| :: !IsNetlocDelimiter(r[i])
    ensures var v := AfterScheme(RemoveUnsafe(StripLeading(url)));
            r != "" ==> && |v| >= 2 + |r| && v[..2] == "//" && v[2..2 + |r|] == r
                        && (|v| == 2 + |r| || IsNetlocDelimiter(v[2 + |r|]))
    ensures var v := AfterScheme(RemoveUnsafe(StripLeading(url)));
            |v| > 2 && v[..2] == "//" && !IsNetlocDelimiter(v[2]) ==> r != ""
  {
    Authority(AfterScheme(RemoveUnsafe(StripLeading(url))))
  }

  /** The redirect after a successful login: the `next` page when it is
      given, non-empty and names no host; `None` means the index page. */
  function SafeNext(next: Option<string>): (r: Option<string>)
    ensures r.Some? ==> r == next && next.value != "" && Netloc(next.value) == ""
  {
    if next.None? || next.value == "" || Netloc(next.value) != "" then None else next
  }

  /** A followed `next` is always a non-empty url with no network location,
      and every such url is followed. */
  lemma SafeNextFollowsOnlyLocalUrls(next: Option<string>)
    ensures SafeNext(next).Some? <==> next.Some? && next.value != "" && Netloc(next.value) == ""
    ensures SafeNext(next).Some? ==> SafeNext(next) == next
  {
  }

  /** Text the first steps of `urlsplit` leave untouched. */
  lemma CleanUrlIsKept(s: string)
    requires s != [] && s[0] > ' ' && NoUnsafe(s)
    ensures Netloc(s) == Authority(AfterScheme(s))
  {
    assert StripLeading(s) == s;
  }

  lemma NoUnsafeConcat(a: string, b: string)
    requires NoUnsafe(a) && NoUnsafe(b)
    ensures NoUnsafe(a + b)
  {
    forall i | 0 <= i < |a + b| ensures !IsUnsafe((a + b)[i]) {
      if i >= |a| {
        assert (a + b)[i] == b[i - |a|];
      }
    }
  }

  /** A url starting with `/` has no scheme. */
  lemma SlashHasNoScheme(u: string)
    requires u != [] && u[0] == '/'
    ensures AfterScheme(u) == u
  {
    match FindFirst(u, IsColon)
    case Some(i) =>
      if i > 0 {
        assert u[..i][0] == u[0];
      }
    case None =>
  }

  /** `//host...` names the host. */
  lemma SlashSlashHasAuthority(host: string, rest: string)
    requires host != [] && !IsNetlocDelimiter(host[0])
    ensures Authority("//" + host + rest) != ""
  {
    var u := "//" + host + rest;
    assert u[..2] == "//";
    assert u[2..] == host + rest;
    assert (host + rest)[0] == host[0];
  }

  /** The first colon of `scheme:tail` is the one after the scheme. */
  lemma SchemeIsStripped(scheme: string, tail: string)
    requires IsScheme(scheme)
    ensures AfterScheme(scheme + ":" + tail) == tail
  {
    var url := scheme + ":" + tail;
    var n := |scheme|;
    assert url[n] == ':';
    forall j | 0 <= j < n ensures !IsColon(url[j]) {
      assert url[j] == scheme[j];
    }
    assert FindFirst(url, IsColon) == Some(n);
    assert url[..n] == scheme;
    assert url[n + 1..] == tail;
  }

  /** A scheme-relative url `//host...` is refused. */
  lemma SchemeRelativeUrlRefused(host: string, rest: string)
    requires host != [] && !IsNetlocDelimiter(host[0])
    requires NoUnsafe(host + rest)
    ensures SafeNext(Some("//" + host + rest)).None?
  {
    var url := "//" + host + rest;
    assert url == "//" + (host + rest);
    NoUnsafeConcat("//", host + rest);
    CleanUrlIsKept(url);
    SlashHasNoScheme(url);
    SlashSlashHasAuthority(host, rest);
  }

  /** An absolute url `scheme://host...` is refused, whatever the scheme. */
  lemma AbsoluteUrlRefused(scheme: string, host: string, rest: string)
    requires IsScheme(scheme)
    requires host != [] && !IsNetlocDelimiter(host[0])
    requires NoUnsafe(host + rest)
    ensures SafeNext(Some(scheme + "://" + host + rest)).None?
  {
    var tail := "//" + host + rest;
    var url := scheme + ":" + tail;
    assert url == scheme + "://" + host + rest;
    assert NoUnsafe(scheme) by {
      forall i | 0 <= i < |scheme| ensures !IsUnsafe(scheme[i]) {
        assert IsSchemeChar(scheme[i]);
      }
    }
    assert tail == "//" + (host + rest);
    NoUnsafeConcat("//", host + rest);
    NoUnsafeConcat(":", tail);
    NoUnsafeConcat(scheme, ":" + tail);
    assert url == scheme + (":" + tail);
    assert url[0] == scheme[0];
    CleanUrlIsKept(url);
    SchemeIsStripped(scheme, tail);
    SlashSlashHasAuthority(host, rest);
  }

  /** A path on this site, `/...` without a second leading slash, is followed. */
  lemma LocalPathFollowed(path: string)
    requires path != [] && path[0] == '/' && (|path| == 1 || path[1] != '/')
    requires NoUnsafe(path)
    ensures SafeNext(Some(path)) == Some(path)
  {
    CleanUrlIsKept(path);
    SlashHasNoScheme(path);
    assert |path| < 2 || path[..2][1] != '/';
  }

  /** A tab, carriage return or line feed between the two slashes is
      deleted before the netloc is taken, so `/<TAB>/host...` counts as
      naming a host and is refused. */
  /** An unsafe character in front of clean text is deleted. */
  lemma RemoveUnsafeDropsFront(c: char, t: string)
    requires IsUnsafe(c) && NoUnsafe(t)
    ensures RemoveUnsafe([c] + t) == t
  {
    assert ([c] + t)[1..] == t;
  }

  /** A kept character in front is kept. */
  lemma RemoveUnsafeKeepsFront(c: char, t: string)
    requires !IsUnsafe(c)
    ensures RemoveUnsafe([c] + t) == [c] + RemoveUnsafe(t)
  {
    assert ([c] + t)[1..] == t;
  }

  lemma UnsafeBetweenSlashesRefused(c: char, host: string, rest: string)
    requires IsUnsafe(c)
    requires host != [] && !IsNetlocDelimiter(host[0])
    requires NoUnsafe(host + rest)
    ensures SafeNext(Some("/" + [c] + "/" + host + rest)).None?
  {
    var clean := "//" + host + rest;
    var url := "/" + [c] + "/" + host + rest;
    assert clean == "//" + (host + rest);
    NoUnsafeConcat("//", host + rest);
    assert url == ['/'] + ([c] + clean[1..]);
    assert StripLeading(url) == url;
    RemoveUnsafeDropsFront(c, clean[1..]);
    RemoveUnsafeKeepsFront('/', [c] + clean[1..]);
    assert ['/'] + clean[1..] == clean;
    SlashHasNoScheme(clean);
    SlashSlashHasAuthority(host, rest);
  }
}
