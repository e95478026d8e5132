/** Hostnames of URLs, with the authority delimited as in section 3.2 of RFC 3986 and read the way
    Python's urlparse does. */
module Urls {
  import opened Wrappers
  import opened Text

  predicate IsLetter(c: char) {
    'a' <= c <= 'z' || 'A' <= c <= 'Z'
  }

  predicate IsSchemeChar(c: char) {
    IsLetter(c) || '0' <= c <= '9' || c == '+' || c == '-' || c == '.'
  }

  predicate EndsAuthority(c: char) {
    c == '/' || c == '?' || c == '#'
  }

  // The index of the first c in s, or |s|.
  function FirstIndex(s: string, c: char): (r: nat)
    ensures r <= |s|
    ensures forall i | 0 <= i < r :: s[i] != c
    ensures r < |s| ==> s[r] == c
  {
    if s == [] || s[0] == c then 0 else 1 + FirstIndex(s[1..], c)
  }

  // What follows the last c in s; all of s when there is none (str.rpartition).
  function AfterLast(s: string, c: char): (r: string)
    ensures c !in r
  {
    var i := FirstIndex(s, c);
    if i < |s| then AfterLast(s[i + 1..], c) else s
  }

  predicate HasScheme(url: string) {
    var i := FirstIndex(url, ':');
    0 < i < |url| && IsLetter(url[0]) && forall k | 0 <= k < i :: IsSchemeChar(url[k])
  }

  function AfterScheme(url: string): string {
    if HasScheme(url) then url[FirstIndex(url, ':') + 1..] else url
  }

  function AuthorityEnd(s: string, from: nat): (r: nat)
    requires from <= |s|
    ensures from <= r <= |s|
    ensures forall i | from <= i < r :: !EndsAuthority(s[i])
    ensures r < |s| ==> EndsAuthority(s[r])
    decreases |s| - from
  {
    if from == |s| || EndsAuthority(s[from]) then from else AuthorityEnd(s, from + 1)
  }

  // The authority of url, when it has one.
  function Authority(url: string): Option<string> {
    var rest := AfterScheme(url);
    if |rest| >= 2 && rest[0] == '/' && rest[1] == '/' then Some(rest[2..AuthorityEnd(rest, 2)]) else None
  }

  // The host inside an authority: after the user information, inside brackets or before the port.
  // An unmatched bracket is an error.
  function HostOf(authority: string): Option<string> {
    if ('[' in authority) != (']' in authority) then None
    else
      var hostPort := AfterLast(authority, '@');
      var open := FirstIndex(hostPort, '[');
      var host := if open < |hostPort|
                  then var inside := hostPort[open + 1..]; inside[..FirstIndex(inside, ']')]
                  else hostPort[..FirstIndex(hostPort, ':')];
      if host == "" then None else Some(Lower(host))
  }

  function Hostname(url: string): Option<string> {
    if Authority(url).None? then None else HostOf(Authority(url).value)
  }

  // The text already contains the character that ends its authority.
  predicate ClosesAuthority(url: string) {
    var rest := AfterScheme(url);
    |rest| >= 2 && rest[0] == '/' && rest[1] == '/' && AuthorityEnd(rest, 2) < |rest|
  }

  lemma FirstIndexUnique(s: string, c: char, i: nat)
    requires i <= |s| && (i < |s| ==> s[i] == c)
    requires forall k | 0 <= k < i :: s[k] != c
    ensures FirstIndex(s, c) == i
  {
  }

  lemma AuthorityEndUnique(s: string, from: nat, r: nat)
    requires from <= r <= |s| && (r < |s| ==> EndsAuthority(s[r]))
    requires forall i | from <= i < r :: !EndsAuthority(s[i])
    ensures AuthorityEnd(s, from) == r
  {
  }

  // When "//" follows, extending the text never changes where the scheme ends.
  lemma SchemeIsSettled(url: string, more: string)
    requires |AfterScheme(url)| >= 2 && AfterScheme(url)[0] == '/' && AfterScheme(url)[1] == '/'
    ensures AfterScheme(url + more) == AfterScheme(url) + more
  {
    hide FirstIndex;
    var i := FirstIndex(url, ':');
    if HasScheme(url) {
      FirstIndexUnique(url + more, ':', i);
      assert forall k | 0 <= k < |url| :: (url + more)[k] == url[k];
      assert (url + more)[i + 1..] == url[i + 1..] + more;
    } else {
      assert url[0] == '/';
      assert !HasScheme(url + more) by {
        assert (url + more)[0] == '/';
      }
    }
  }

  // A closed authority, and so the host, does not depend on what follows.
  lemma ClosedAuthorityIsSettled(url: string, more: string)
    requires ClosesAuthority(url)
    ensures Hostname(url + more) == Hostname(url)
  {
    var rest := AfterScheme(url);
    SchemeIsSettled(url, more);
    var r := AuthorityEnd(rest, 2);
    AuthorityEndUnique(rest + more, 2, r);
    assert (rest + more)[2..r] == rest[2..r];
  }

  // A host name without the characters that delimit one.
  predicate IsPlainHost(host: string) {
    host != "" && forall i | 0 <= i < |host| :: host[i] !in ['/', '?', '#', '@', '[', ']', ':']
  }

  lemma ExtensionAt(rest: string, plain: string, tail: string, i: nat)
    requires i < |rest| + |plain| + |tail|
    ensures (rest + (plain + tail))[i]
         == if i < |rest| then rest[i]
            else if i < |rest| + |plain| then plain[i - |rest|]
            else tail[i - |rest| - |plain|]
  {
  }

  lemma ExtensionSlice(rest: string, plain: string, tail: string)
    requires |rest| >= 2
    ensures (rest + (plain + tail))[2..|rest| + |plain|] == rest[2..] + plain
  {
    assert rest + (plain + tail) == rest[..2] + ((rest[2..] + plain) + tail);
  }

  // Text without a delimiter, and whatever delimits it, extend an open authority.
  lemma ExtendedAuthority(rest: string, plain: string, tail: string)
    requires |rest| >= 2 && AuthorityEnd(rest, 2) == |rest|
    requires forall i | 0 <= i < |plain| :: !EndsAuthority(plain[i])
    requires tail != "" ==> EndsAuthority(tail[0])
    ensures AuthorityEnd(rest + (plain + tail), 2) == |rest| + |plain|
  {
    hide EndsAuthority;
    var longer, end := rest + (plain + tail), |rest| + |plain|;
    forall i | 2 <= i < end
      ensures !EndsAuthority(longer[i])
    {
      ExtensionAt(rest, plain, tail, i);
    }
    if tail != "" {
      ExtensionAt(rest, plain, tail, end);
    }
    AuthorityEndUnique(longer, 2, end);
  }

  lemma ExtendedHost(url: string, plain: string, tail: string)
    requires var rest := AfterScheme(url); |rest| >= 2 && rest[0] == '/' && rest[1] == '/'
    requires !ClosesAuthority(url)
    requires forall i | 0 <= i < |plain| :: !EndsAuthority(plain[i])
    requires tail != "" ==> EndsAuthority(tail[0])
    ensures Hostname(url + (plain + tail)) == HostOf(AfterScheme(url)[2..] + plain)
  {
    hide AfterScheme, AuthorityEnd, HostOf, EndsAuthority;
    var rest := AfterScheme(url);
    SchemeIsSettled(url, plain + tail);
    ExtendedAuthority(rest, plain, tail);
    ExtensionSlice(rest, plain, tail);
    ExtensionAt(rest, plain, tail, 0);
    ExtensionAt(rest, plain, tail, 1);
  }

  // An open authority can still become any host.
  lemma OpenAuthorityIsUnsettled(url: string, host: string)
    requires Hostname(url).Some? && !ClosesAuthority(url) && IsPlainHost(host)
    ensures Hostname(url + "@" + host) == Some(Lower(host))
  {
    OpenAuthority(url);
    hide AfterScheme, AuthorityEnd, HostOf, ClosesAuthority, Hostname, IsPlainHost, Lower;
    UserInformationIsPlain(url, host);
    ExtendedHost(url, "@" + host, "");
    UserInformationHides(AfterScheme(url)[2..], host);
  }

  lemma UserInformationIsPlain(text: string, host: string)
    requires IsPlainHost(host)
    ensures forall i | 0 <= i < |"@" + host| :: !EndsAuthority(("@" + host)[i])
    ensures text + ("@" + host + "") == text + "@" + host
    ensures forall authority: string :: authority + ("@" + host) == authority + "@" + host
  {
    forall i | 0 <= i < |"@" + host|
      ensures !EndsAuthority(("@" + host)[i])
    {
      assert i > 0 ==> ("@" + host)[i] == host[i - 1];
    }
  }

  lemma OpenAuthority(url: string)
    requires Hostname(url).Some? && !ClosesAuthority(url)
    ensures var rest := AfterScheme(url);
            && |rest| >= 2 && rest[0] == '/' && rest[1] == '/'
            && (('[' in rest[2..]) == (']' in rest[2..]))
  {
    var rest := AfterScheme(url);
    assert rest[2..|rest|] == rest[2..];
  }

  lemma UserInformationHides(authority: string, host: string)
    requires ('[' in authority) == (']' in authority) && IsPlainHost(host)
    ensures HostOf(authority + "@" + host) == Some(Lower(host))
  {
    AfterLastAt(authority, host);
    PlainHostStands(host);
    assert forall c | c == '[' || c == ']' :: c in authority + "@" + host <==> c in authority;
  }

  lemma PlainHostStands(host: string)
    requires IsPlainHost(host)
    ensures FirstIndex(host, '[') == FirstIndex(host, ':') == FirstIndex(host, '@') == |host|
    ensures host[..|host|] == host && Lower(host) != "" && '[' !in host && ']' !in host
  {
    FirstIndexUnique(host, '[', |host|);
    FirstIndexUnique(host, ':', |host|);
    FirstIndexUnique(host, '@', |host|);
  }

  lemma {:induction false} AfterLastAt(s: string, host: string)
    requires IsPlainHost(host)
    ensures AfterLast(s + "@" + host, '@') == host
    decreases |s|
  {
    hide IsPlainHost;
    var t := s + "@" + host;
    var i := FirstIndex(s, '@');
    FirstIndexUnique(t, '@', i);
    if i < |s| {
      assert t[i + 1..] == s[i + 1..] + "@" + host;
      AfterLastAt(s[i + 1..], host);
    } else {
      assert t[|s| + 1..] == host;
      PlainHostStands(host);
    }
  }

  // An ordinary https URL: its authority is closed and its host is the one written.
  lemma PlainUrl(host: string, path: string)
    requires IsPlainHost(host)
    ensures var url := "https://" + host + "/" + path;
            ClosesAuthority(url) && Hostname(url) == Some(Lower(host))
  {
    var url := "https://" + host + "/" + path;
    FirstIndexUnique(url, ':', 5);
    assert forall k | 0 <= k < 5 :: IsSchemeChar(url[k]);
    var rest := "//" + host + "/" + path;
    assert url[6..] == rest;
    var end := 2 + |host|;
    assert forall i | 2 <= i < end :: rest[i] == host[i - 2];
    AuthorityEndUnique(rest, 2, end);
    assert rest[2..end] == host;
    PlainHostStands(host);
    NoUserInformation(host);
  }

  lemma NoUserInformation(host: string)
    requires IsPlainHost(host)
    ensures AfterLast(host, '@') == host
  {
    PlainHostStands(host);
  }

  const ELSEWHERE := "evil.example"

  // What, appended to a text whose authority is open, leads elsewhere whatever follows.
  function Diversion(text: string): string {
    var rest := AfterScheme(text);
    if |rest| >= 2 && rest[0] == '/' && rest[1] == '/' then "@" + ELSEWHERE + "/" else "?"
  }

  lemma OpenAuthorityIsDiverted(text: string, more: string)
    requires !ClosesAuthority(text)
    ensures Hostname(text + (Diversion(text) + more)) in {None, Some(ELSEWHERE)}
  {
    var rest := AfterScheme(text);
    if |rest| >= 2 && rest[0] == '/' && rest[1] == '/' {
      DivertedAuthority(text, more);
    } else {
      NoAuthorityAfter(text, more);
    }
  }

  lemma DivertedAuthority(text: string, more: string)
    requires var rest := AfterScheme(text); |rest| >= 2 && rest[0] == '/' && rest[1] == '/'
    requires !ClosesAuthority(text)
    ensures Hostname(text + (Diversion(text) + more)) in {None, Some(ELSEWHERE)}
  {
    hide AfterScheme, AuthorityEnd, HostOf, ClosesAuthority, Hostname;
    var authority := AfterScheme(text)[2..];
    assert forall i | 0 <= i < |"@" + ELSEWHERE| :: !EndsAuthority(("@" + ELSEWHERE)[i]);
    ExtendedHost(text, "@" + ELSEWHERE, "/" + more);
    assert "@" + ELSEWHERE + ("/" + more) == Diversion(text) + more;
    assert authority + ("@" + ELSEWHERE) == authority + "@" + ELSEWHERE;
    DivertedHost(authority);
  }

  lemma DivertedHost(authority: string)
    ensures HostOf(authority + "@" + ELSEWHERE) in {None, Some(ELSEWHERE)}
  {
    assert Lower(ELSEWHERE) == ELSEWHERE && IsPlainHost(ELSEWHERE);
    if ('[' in authority) == (']' in authority) {
      UserInformationHides(authority, ELSEWHERE);
    } else {
      assert forall c | c == '[' || c == ']' :: c in authority + "@" + ELSEWHERE <==> c in authority;
    }
  }

  // A question mark never becomes part of a scheme.
  lemma SchemeBeforeQuestion(text: string, more: string)
    ensures AfterScheme(text + ("?" + more)) == AfterScheme(text) + ("?" + more)
  {
    hide FirstIndex;
    var url := text + ("?" + more);
    var i, k := FirstIndex(text, ':'), |text|;
    assert forall j | 0 <= j < k :: url[j] == text[j];
    if i < k {
      FirstIndexUnique(url, ':', i);
      assert url[i + 1..] == text[i + 1..] + ("?" + more);
    } else {
      ColonAfterQuestion(text, more);
    }
  }

  lemma ColonAfterQuestion(text: string, more: string)
    requires FirstIndex(text, ':') == |text|
    ensures !HasScheme(text + ("?" + more))
  {
    var url := text + ("?" + more);
    assert url[|text|] == '?' && forall j | 0 <= j < |text| :: url[j] == text[j];
    assert FirstIndex(url, ':') > |text|;
    assert !IsSchemeChar(url[|text|]);
  }

  // Before "//" has come, it rules it out.
  lemma NoAuthorityAfter(text: string, more: string)
    requires var rest := AfterScheme(text); !(|rest| >= 2 && rest[0] == '/' && rest[1] == '/')
    ensures Hostname(text + (Diversion(text) + more)) == None
  {
    hide AfterScheme, AuthorityEnd, HostOf;
    SchemeBeforeQuestion(text, more);
    var rest, longer := AfterScheme(text), AfterScheme(text) + ("?" + more);
    assert longer[|rest|] == '?' && forall j | 0 <= j < |rest| :: longer[j] == rest[j];
  }

  // ---------- The parts of an authority ----------

  predicate IsPort(s: string) {
    forall i | 0 <= i < |s| :: '0' <= s[i] <= '9'
  }

  // User information and a port are no part of the host.
  lemma HostBeforePort(user: string, host: string, port: string)
    requires IsPlainHost(host) && IsPort(port) && '[' !in user && ']' !in user
    ensures HostOf(user + "@" + host + ":" + port) == Some(Lower(host))
  {
    var hostPort := host + ":" + port;
    var authority := user + "@" + hostPort;
    assert user + "@" + host + ":" + port == authority;
    PlainHostStands(host);
    BehindLastAt(user, hostPort);
    assert '[' !in authority && ']' !in authority;
    FirstIndexUnique(hostPort, '[', |hostPort|);
    FirstIndexUnique(hostPort, ':', |host|);
    assert hostPort[..|host|] == host;
  }

  // A host in brackets may hold colons.
  lemma HostInBrackets(user: string, inside: string, port: string)
    requires inside != "" && '@' !in inside && '[' !in inside && ']' !in inside && IsPort(port)
    ensures HostOf(user + "@" + "[" + inside + "]:" + port) == Some(Lower(inside))
  {
    hide FirstIndex, AfterLast, IsPort;
    var hostPort := "[" + inside + "]:" + port;
    var authority := user + "@" + hostPort;
    assert user + "@" + "[" + inside + "]:" + port == authority;
    assert '@' !in hostPort by {
      PortHasNoAt(port);
    }
    BehindLastAt(user, hostPort);
    assert authority[|user| + 1] == '[' && authority[|user| + 2 + |inside|] == ']';
    InsideBrackets(inside, port);
    assert Lower(inside) != "";
  }

  lemma PortHasNoAt(port: string)
    requires IsPort(port)
    ensures '@' !in port
  {
  }

  lemma InsideBrackets(inside: string, port: string)
    requires ']' !in inside
    ensures var hostPort := "[" + inside + "]:" + port;
            var rest := hostPort[FirstIndex(hostPort, '[') + 1..];
            FirstIndex(hostPort, '[') == 0 && rest[..FirstIndex(rest, ']')] == inside
  {
    var hostPort := "[" + inside + "]:" + port;
    FirstIndexUnique(hostPort, '[', 0);
    var rest := hostPort[1..];
    assert rest == inside + "]:" + port;
    FirstIndexUnique(rest, ']', |inside|);
    assert rest[..|inside|] == inside;
  }

  // What stands behind the last at-sign.
  lemma {:induction false} BehindLastAt(user: string, rest: string)
    requires '@' !in rest
    ensures AfterLast(user + "@" + rest, '@') == rest
    decreases |user|
  {
    var s := user + "@" + rest;
    var i := FirstIndex(user, '@');
    FirstIndexUnique(s, '@', i);
    if i < |user| {
      assert s[i + 1..] == user[i + 1..] + "@" + rest;
      BehindLastAt(user[i + 1..], rest);
    } else {
      assert s[i + 1..] == rest;
      FirstIndexUnique(rest, '@', |rest|);
    }
  }

  // A bracket without its partner is no host.
  lemma UnmatchedBracket(authority: string)
    requires '[' in authority <==> ']' !in authority
    ensures HostOf(authority) == None
  {
  }
}
