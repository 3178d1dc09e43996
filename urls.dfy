/**
  The part of `urllib.parse.urlparse` the fetch stage reads, `netloc`, and the `domain`
  derived from it with `netloc.replace("www.", "")`.

  `urlparse` takes a scheme off the front when the text before the first `:` is a letter
  followed by letters, digits, `+`, `-` or `.`; if what is left starts with `//`, the
  network location is everything after it up to the first `/`, `?` or `#`.
*/
module Urls {
  import opened PyText

  predicate IsAsciiLetter(c: char) {
    ('a' <= c <= 'z') || ('A' <= c <= 'Z')
  }

  /** `urllib.parse.scheme_chars`. */
  predicate IsSchemeChar(c: char) {
    IsAsciiLetter(c) || ('0' <= c <= '9') || c == '+' || c == '-' || c == '.'
  }

  /** A string `urlparse` accepts as a scheme in front of `:`. */
  predicate IsScheme(s: string) {
    s != [] && IsAsciiLetter(s[0]) && forall k :: 0 <= k < |s| ==> IsSchemeChar(s[k])
  }

  /** The characters that end the network location. */
  predicate IsDelimiter(c: char) {
    c == '/' || c == '?' || c == '#'
  }

  /** Position of the first `c` in `s`, or `|s|` when there is none (`s.find(c)`). */
  function Find(s: string, c: char): (i: nat)
    ensures i <= |s|
    ensures forall k :: 0 <= k < i ==> s[k] != c
    ensures i < |s| ==> s[i] == c
  {
    if s == [] || s[0] == c then 0 else 1 + Find(s[1..], c)
  }

  /** The text before the first `:` is a scheme. */
  predicate HasScheme(url: string) {
    var i := Find(url, ':');
    i < |url| && IsScheme(url[..i])
  }

  /** What `urlsplit` goes on parsing once the scheme is taken off. */
  function AfterScheme(url: string): string {
    if HasScheme(url) then url[Find(url, ':') + 1..] else url
  }

  /** Length of the leading run of non-delimiter characters. */
  function AuthorityLen(s: string): (k: nat)
    ensures k <= |s|
    ensures forall i :: 0 <= i < k ==> !IsDelimiter(s[i])
    ensures k < |s| ==> IsDelimiter(s[k])
  {
    if s == [] || IsDelimiter(s[0]) then 0 else 1 + AuthorityLen(s[1..])
  }

  /** `urlparse(url).netloc`. */
  function Netloc(url: string): string {
    var rest := AfterScheme(url);
    if |rest| >= 2 && rest[0] == '/' && rest[1] == '/' then
      rest[2..2 + AuthorityLen(rest[2..])]
    else ""
  }

  /** `urlparse(url).netloc.replace("www.", "")`. */
  function Domain(url: string): string {
    RemoveAll(Netloc(url), "www.")
  }

  lemma {:induction false} FindIs(s: string, c: char, i: nat)
    requires i <= |s|
    requires forall k :: 0 <= k < i ==> s[k] != c
    requires i < |s| ==> s[i] == c
    ensures Find(s, c) == i
  {
    if s != [] && i > 0 {
      FindIs(s[1..], c, i - 1);
    }
  }

  lemma {:induction false} AuthorityLenIs(s: string, k: nat)
    requires k <= |s|
    requires forall i :: 0 <= i < k ==> !IsDelimiter(s[i])
    requires k < |s| ==> IsDelimiter(s[k])
    ensures AuthorityLen(s) == k
  {
    if s != [] && k > 0 {
      AuthorityLenIs(s[1..], k - 1);
    }
  }

  /**
    Reference characterisation: for `scheme://host` followed by nothing or by a path,
    query or fragment, the network location is exactly `host` (a port and user
    information stay part of it).
  */
  lemma NetlocOfUrl(scheme: string, host: string, tail: string)
    requires IsScheme(scheme)
    requires forall i :: 0 <= i < |host| ==> !IsDelimiter(host[i])
    requires tail == [] || IsDelimiter(tail[0])
    ensures Netloc(scheme + "://" + host + tail) == host
  {
    var url := scheme + "://" + host + tail;
    var rest := [':', '/', '/'] + (host + tail);
    assert "://" == [':', '/', '/'];
    assert url == scheme + rest;
    SchemeTakenOff(scheme, rest);
    assert rest[1..] == ['/', '/'] + (host + tail);
    AuthorityAfterSlashes(url, host, tail);
  }

  /** A scheme followed by `:` is taken off, and parsing goes on after the `:`. */
  lemma SchemeTakenOff(scheme: string, rest: string)
    requires IsScheme(scheme)
    requires rest != [] && rest[0] == ':'
    ensures AfterScheme(scheme + rest) == rest[1..]
  {
    var url := scheme + rest;
    forall k | 0 <= k < |scheme| ensures url[k] != ':' {
      assert url[k] == scheme[k] && IsSchemeChar(scheme[k]);
    }
    FindIs(url, ':', |scheme|);
    assert url[..|scheme|] == scheme;
    assert url[|scheme| + 1..] == rest[1..];
  }

  /** After `//`, the network location runs up to the first delimiter. */
  lemma AuthorityAfterSlashes(url: string, host: string, tail: string)
    requires AfterScheme(url) == ['/', '/'] + (host + tail)
    requires forall i :: 0 <= i < |host| ==> !IsDelimiter(host[i])
    requires tail == [] || IsDelimiter(tail[0])
    ensures Netloc(url) == host
  {
    var rest := AfterScheme(url);
    assert rest[2..] == host + tail;
    AuthorityLenIs(host + tail, |host|);
    assert rest[2..2 + |host|] == host;
  }

  /** Without `//` after the scheme there is no network location. */
  lemma NoAuthority(url: string)
    requires !(|AfterScheme(url)| >= 2 && AfterScheme(url)[0] == '/' && AfterScheme(url)[1] == '/')
    ensures Netloc(url) == ""
  {
  }

  /** The network location is a piece of the URL that holds no `/`, `?` or `#`. */
  lemma NetlocShape(url: string)
    ensures Netloc(url) == [] || Contains(url, Netloc(url))
    ensures forall k :: 0 <= k < |Netloc(url)| ==> !IsDelimiter(Netloc(url)[k])
  {
    var n := Netloc(url);
    var off := if HasScheme(url) then Find(url, ':') + 1 else 0;
    assert AfterScheme(url) == url[off..];
    if n != "" {
      assert url[off + 2..][..|n|] == n;
      assert StartsWith(url[off + 2..], n);
    }
  }

  /** The domain of `scheme://host...` is `host.replace("www.", "")`. */
  lemma DomainOfUrl(scheme: string, host: string, tail: string)
    requires IsScheme(scheme)
    requires forall i :: 0 <= i < |host| ==> !IsDelimiter(host[i])
    requires tail == [] || IsDelimiter(tail[0])
    ensures Domain(scheme + "://" + host + tail) == RemoveAll(host, "www.")
  {
    NetlocOfUrl(scheme, host, tail);
  }

  /** `s` does not start with `www.` as soon as one of its first four characters differs. */
  lemma NotWwwAt(s: string)
    requires |s| < 4 || s[0] != 'w' || s[1] != 'w' || s[2] != 'w' || s[3] != '.'
    ensures !StartsWith(s, "www.")
  {
  }

  /** A text in which no four consecutive characters spell `www.` holds no `www.`. */
  lemma NoWww(t: string)
    requires forall k :: 0 <= k < |t| - 3 ==> !(t[k] == 'w' && t[k + 1] == 'w' && t[k + 2] == 'w' && t[k + 3] == '.')
    ensures !Contains(t, "www.")
  {
    forall i | 0 <= i <= |t| - 4 ensures !StartsWith(t[i..], "www.") {
      NotWwwAt(t[i..]);
    }
  }

  /** A single leading `www.` is dropped when the rest holds no other `www.`. */
  lemma DomainDropsLeadingWww(h: string)
    requires !Contains(h, "www.")
    ensures RemoveAll("www." + h, "www.") == h
  {
    var s := "www." + h;
    assert StartsWith(s, "www.") by { assert s[..4] == "www."; }
    assert s[4..] == h;
    RemoveAllAbsent(h, "www.");
  }

  /** No occurrence can start inside a prefix without the letter `w`. */
  lemma KeepsPrefixWithoutW(a: string, x: string)
    requires forall k :: 0 <= k < |a| ==> a[k] != 'w'
    ensures RemoveAll(a + x, "www.") == a + RemoveAll(x, "www.")
  {
    KeepsPrefixWithoutFirst(a, x, "www.");
  }

  /** `replace` removes an inner `www.` too, not only a leading one. */
  lemma DomainDropsInnerWww(a: string, t: string)
    requires forall k :: 0 <= k < |a| ==> a[k] != 'w'
    requires !Contains(t, "www.")
    ensures RemoveAll(a + "www." + t, "www.") == a + t
  {
    assert a + "www." + t == a + ("www." + t);
    KeepsPrefixWithoutW(a, "www." + t);
    DomainDropsLeadingWww(t);
  }

  /** An article URL of the feeds: the host without `www.`, the path and query ignored. */
  lemma DomainOfArticleUrl(host: string, tail: string)
    requires forall i :: 0 <= i < |host| ==> !IsDelimiter(host[i])
    requires !Contains(host, "www.")
    requires tail == [] || IsDelimiter(tail[0])
    ensures Domain("https://www." + host + tail) == host
  {
    assert IsScheme("https");
    assert "https" + "://" + ("www." + host) + tail == "https://www." + host + tail;
    DomainOfUrl("https", "www." + host, tail);
    DomainDropsLeadingWww(host);
  }
}
