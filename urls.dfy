/**
 * A reference reading of the URLs and paths the handlers build: where the first `/`
 * of a text falls, and how an `http://` or `https://` URL splits into scheme, host
 * and path. The handlers never parse URLs; these definitions exist so that what the
 * built strings denote can be stated and proved.
 */
module Urls {
  import opened Wrappers

  /** The index of the first `/` in `s`, or `|s|` when there is none. */
  function FirstSlash(s: string): (i: nat)
    ensures i <= |s|
    ensures i < |s| ==> s[i] == '/'
    ensures forall j :: 0 <= j < i ==> s[j] != '/'
  {
    if |s| == 0 then 0
    else if s[0] == '/' then 0
    else 1 + FirstSlash(s[1..])
  }

  /** Joining is associative. */
  lemma Associate(a: string, b: string, c: string)
    ensures a + b + c == a + (b + c)
  {
  }

  /** Joining two strings without a '/' gives one without a '/'. */
  lemma NoSlashJoin(a: string, b: string)
    requires '/' !in a && '/' !in b
    ensures '/' !in a + b
  {
  }

  /** The first `/` of `a + b` is that of `b`, shifted, when `a` has none. */
  lemma {:induction false} FirstSlashAfter(a: string, b: string)
    requires '/' !in a
    ensures FirstSlash(a + b) == |a| + FirstSlash(b)
    decreases |a|
  {
    if |a| > 0 {
      assert (a + b)[0] == a[0];
      assert (a + b)[1..] == a[1..] + b;
      FirstSlashAfter(a[1..], b);
    } else {
      assert a + b == b;
    }
  }

  /** The parts of an absolute URL with an authority. */
  datatype Url = Url(scheme: string, host: string, path: string)

  /** The host runs to the first `/`; the path is the rest, starting with that `/`. */
  function SplitAuthority(scheme: string, rest: string): (u: Url)
    ensures u.scheme == scheme && u.host + u.path == rest && '/' !in u.host
    ensures u.path == [] || u.path[0] == '/'
  {
    var i := FirstSlash(rest);
    Url(scheme, rest[..i], rest[i..])
  }

  /** Reads an `http://` or `https://` URL; anything else is not one. */
  function ParseUrl(s: string): Option<Url> {
    if |s| >= 8 && s[..8] == "https://" then Some(SplitAuthority("https", s[8..]))
    else if |s| >= 7 && s[..7] == "http://" then Some(SplitAuthority("http", s[7..]))
    else None
  }

  /** A host without `/` followed by a path written from `/` splits into that host and path. */
  lemma SplitComposed(scheme: string, host: string, path: string)
    requires '/' !in host
    requires |path| > 0 && path[0] == '/'
    ensures SplitAuthority(scheme, host + path) == Url(scheme, host, path)
  {
    FirstSlashAfter(host, path);
    assert (host + path)[..|host|] == host;
    assert (host + path)[|host|..] == path;
  }

  /** A prefix followed by a host and a path: the prefix, then what comes after it. */
  lemma AfterPrefix(prefix: string, host: string, path: string)
    ensures (prefix + host + path)[..|prefix|] == prefix
    ensures (prefix + host + path)[|prefix|..] == host + path
  {
    var s := prefix + host + path;
    assert forall i :: 0 <= i < |host + path| ==> s[|prefix| + i] == (host + path)[i];
  }

  /** An `https` URL built from a host and a path reads back as that host and path. */
  lemma ParseHttps(host: string, path: string)
    requires '/' !in host
    requires |path| > 0 && path[0] == '/'
    ensures ParseUrl("https://" + host + path) == Some(Url("https", host, path))
  {
    AfterPrefix("https://", host, path);
    SplitComposed("https", host, path);
  }

  /** A text whose fifth character is `:` does not start with `https://`. */
  lemma NotHttps(s: string)
    requires |s| >= 8 && s[4] == ':'
    ensures s[..8] != "https://"
  {
    assert s[..8][4] == ':';
  }

  /** An `http` URL built from a host and a path reads back as that host and path. */
  lemma ParseHttp(host: string, path: string)
    requires '/' !in host
    requires |path| > 0 && path[0] == '/'
    ensures ParseUrl("http://" + host + path) == Some(Url("http", host, path))
  {
    AfterPrefix("http://", host, path);
    var s := "http://" + host + path;
    assert s[4] == s[..7][4] == ':';
    NotHttps(s);
    SplitComposed("http", host, path);
  }
}
