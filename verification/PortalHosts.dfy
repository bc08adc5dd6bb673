/** The host that a rule's address names, and the order the lists of a portal policy keep. */
module PortalHosts {
  import opened Wrappers
  import opened Config
  import opened Text
  import opened PortalPolicy

  /* ---- hosts ---- */

  /** The marks a path, a query or a fragment begins with. */
  predicate EndsAuthority(c: char) { c in ['/', '?', '#'] }

  /** A host as it is written in an address, other than one of four octets. */
  ghost predicate PlainHost(host: string) {
    && host != "" && host[0] != '[' && host[|host| - 1] != '.' && !DottedOctets(Lower(host), 0, 4)
    && forall i :: 0 <= i < |host| ==> !IsBlank(host[i]) && !EndsAuthority(host[i]) && host[i] != '@' && host[i] != ':'
  }

  /** The user part in front of a host: nothing, or a text that ends in an at sign. */
  ghost predicate UserPart(user: string) {
    user == "" || (user[|user| - 1] == '@' && forall i :: 0 <= i < |user| ==> !EndsAuthority(user[i]))
  }

  /** The port behind it: nothing, or a colon and a text without any of the other marks. */
  ghost predicate PortPart(port: string) {
    port == "" || (port[0] == ':' && (forall i :: 0 <= i < |port| ==> !IsBlank(port[i]) && !EndsAuthority(port[i]) && port[i] != '@')
                   && forall i :: 1 <= i < |port| ==> port[i] != ':')
  }

  /** What comes after: nothing, or a path, query or fragment that does not end in a blank. */
  ghost predicate PathPart(path: string) { path == "" || (EndsAuthority(path[0]) && !IsBlank(path[|path| - 1])) }

  /** The host of an address is the one between user and port, in lower case. */
  lemma HostOfUrl(scheme: string, user: string, host: string, port: string, path: string)
    requires scheme != "" && !IsBlank(scheme[0]) && Free(scheme, ':')
    requires UserPart(user) && PlainHost(host) && PortPart(port) && PathPart(path)
    ensures HostFromUrlish(scheme + ("://" + ((user + (host + port)) + path))) == Lower(host)
  {
    var authority := user + (host + port);
    var raw := scheme + ("://" + (authority + path));
    WholeTrimmed(scheme, user, host, port, path);
    SchemeCut(scheme, authority + path);
    NoEnds(user, host, port);
    AuthorityCut(authority, path);
    UserCut(user, host, port);
    PortCut(host, port);
    HostTrimmed(host);
    PlainIs(host);
    hide *;
    Compose(raw, authority + path, authority, host + port, host);
  }

  /** The same without a scheme, perhaps after two slashes, as long as nothing in the text looks like one. */
  lemma HostWithoutScheme(lead: string, user: string, host: string, port: string, path: string)
    requires lead == "" || lead == "//"
    requires UserPart(user) && PlainHost(host) && PortPart(port) && PathPart(path)
    requires lead == "" && user != "" ==> !IsBlank(user[0])
    requires var raw := lead + ((user + (host + port)) + path); forall i :: 0 <= i < |raw| ==> !StartsAt(raw, i, "://")
    ensures HostFromUrlish(lead + ((user + (host + port)) + path)) == Lower(host)
  {
    var authority := user + (host + port);
    var raw := lead + (authority + path);
    FirstOf(lead, user, host, port, path);
    NoEnds(user, host, port);
    LeadCut(lead, authority, path);
    AuthorityCut(authority, path);
    UserCut(user, host, port);
    PortCut(host, port);
    HostTrimmed(host);
    PlainIs(host);
    hide *;
    Compose(raw, authority + path, authority, host + port, host);
  }

  lemma FirstOf(lead: string, user: string, host: string, port: string, path: string)
    requires lead == "" || lead == "//"
    requires UserPart(user) && PlainHost(host) && PortPart(port) && PathPart(path)
    requires lead == "" && user != "" ==> !IsBlank(user[0])
    ensures var raw := lead + ((user + (host + port)) + path); raw != "" && Trim(raw) == raw
  {
    hide DottedOctets, Lower, Trim;
    var rest := (user + (host + port)) + path;
    var raw := lead + rest;
    var first := if lead != "" then lead else if user != "" then user else host;
    LastOf(user, host, port, path);
    assert raw[0] == first[0] && raw[|raw| - 1] == rest[|rest| - 1];
    assert !IsBlank(host[0]);
    hide PlainHost, UserPart, PortPart, PathPart;
    TrimmedStays(raw);
  }

  lemma LeadCut(lead: string, authority: string, path: string)
    requires lead == "" || lead == "//"
    requires authority != "" && !EndsAuthority(authority[0])
    requires var raw := lead + (authority + path); forall i :: 0 <= i < |raw| ==> !StartsAt(raw, i, "://")
    ensures WithoutScheme(lead + (authority + path)) == authority + path
  {
    var rest := authority + path;
    var raw := lead + rest;
    assert Find(raw, "://", 0) == |raw|;
    if lead == "" {
      assert raw == rest;
      NotThere(raw, 0, "//");
    } else {
      assert raw[0..2] == "//" && raw[2..] == rest;
    }
  }

  lemma PlainIs(host: string)
    requires PlainHost(host)
    ensures host != "" && host[0] != '[' && !DottedOctets(Lower(host), 0, 4)
  {
    hide DottedOctets, Lower;
  }

  lemma Compose(raw: string, rest: string, authority: string, named: string, host: string)
    requires Trim(raw) == raw && raw != "" && WithoutScheme(raw) == rest
    requires rest[..HostLength(rest)] == authority && AfterLast(authority, '@') == named
    requires host != "" && |named| >= |host| && named[0] == host[0] && host[0] != '['
    requires DropDots(BeforeLast(named, ':')) == host && Trim(host) == host && !DottedOctets(Lower(host), 0, 4)
    ensures HostFromUrlish(raw) == Lower(host)
  {
    hide Trim, HostLength, AfterLast, BeforeLast, DropDots, WithoutScheme, DottedOctets, Lower;
  }

  lemma WholeTrimmed(scheme: string, user: string, host: string, port: string, path: string)
    requires scheme != "" && !IsBlank(scheme[0])
    requires UserPart(user) && PlainHost(host) && PortPart(port) && PathPart(path)
    ensures var raw := scheme + ("://" + ((user + (host + port)) + path)); raw != "" && Trim(raw) == raw
  {
    var rest := (user + (host + port)) + path;
    var raw := scheme + ("://" + rest);
    LastOf(user, host, port, path);
    assert raw[0] == scheme[0] && raw[|raw| - 1] == rest[|rest| - 1];
    hide Trim, PlainHost, UserPart, PortPart, PathPart;
    TrimmedStays(raw);
  }

  lemma HostTrimmed(host: string)
    requires PlainHost(host)
    ensures Trim(host) == host
  {
    hide Trim, DottedOctets, Lower;
    TrimmedStays(host);
  }

  lemma LastOf(user: string, host: string, port: string, path: string)
    requires UserPart(user) && PlainHost(host) && PortPart(port) && PathPart(path)
    ensures var rest := (user + (host + port)) + path; !IsBlank(rest[|rest| - 1])
  {
    hide DottedOctets, Lower;
    var rest := (user + (host + port)) + path;
    var last := if path != "" then path else if port != "" then port else host;
    assert rest[|rest| - 1] == last[|last| - 1];
  }

  lemma NoEnds(user: string, host: string, port: string)
    requires UserPart(user) && PlainHost(host) && PortPart(port)
    ensures forall i :: 0 <= i < |user + (host + port)| ==> !EndsAuthority((user + (host + port))[i])
  {
    hide DottedOctets, Lower;
  }

  lemma NotThere(s: string, i: nat, pattern: string)
    requires i < |s| && pattern != "" && s[i] != pattern[0]
    ensures !StartsAt(s, i, pattern)
  {
    if i + |pattern| <= |s| { assert s[i..i + |pattern|][0] == s[i]; }
  }

  lemma SchemeCut(scheme: string, rest: string)
    requires Free(scheme, ':')
    ensures WithoutScheme(scheme + ("://" + rest)) == rest
  {
    var raw := scheme + ("://" + rest);
    assert raw[|scheme|..|scheme| + 3] == "://" && raw[|scheme| + 3..] == rest;
    assert StartsAt(raw, |scheme|, "://");
    forall i | 0 <= i < |scheme| ensures !StartsAt(raw, i, "://") { NotThere(raw, i, "://"); }
    hide StartsAt;
    assert Find(raw, "://", 0) == |scheme|;
  }

  lemma AuthorityCut(authority: string, path: string)
    requires PathPart(path) && forall i :: 0 <= i < |authority| ==> !EndsAuthority(authority[i])
    ensures (authority + path)[..HostLength(authority + path)] == authority
  {
    var rest := authority + path;
    var n := HostLength(rest);
    assert forall c :: EndsHost(c) <==> EndsAuthority(c);
    assert forall i :: 0 <= i < |authority| ==> rest[i] == authority[i];
    if path != "" { assert rest[|authority|] == path[0]; }
    assert n == |authority|;
  }

  lemma AfterLastStep(s: string, last: char, c: char)
    ensures AfterLast(s + [last], c) == if last == c then "" else AfterLast(s, c) + [last]
  {
    assert (s + [last])[..|s|] == s;
  }

  lemma NothingAfter(front: string, c: char)
    requires front == "" || front[|front| - 1] == c
    ensures AfterLast(front, c) == ""
  {
  }

  lemma {:induction false} AfterLastIs(front: string, tail: string, c: char)
    requires Free(tail, c) && (front == "" || front[|front| - 1] == c)
    ensures AfterLast(front + tail, c) == tail
    decreases |tail|
  {
    if tail == "" {
      NothingAfter(front, c);
      hide AfterLast;
      assert front + tail == front;
    } else {
      var init, last := tail[..|tail| - 1], tail[|tail| - 1];
      assert Free(init, c) && last != c && tail == init + [last];
      hide *;
      AfterLastIs(front, init, c);
      AfterLastStep(front + init, last, c);
      Regroup(front, init, [last]);
    }
  }

  lemma UserCut(user: string, host: string, port: string)
    requires UserPart(user) && PlainHost(host) && PortPart(port)
    ensures AfterLast(user + (host + port), '@') == host + port && (host + port)[0] == host[0]
  {
    hide DottedOctets, Lower;
    AfterLastIs(user, host + port, '@');
  }

  lemma PortCut(host: string, port: string)
    requires PlainHost(host) && PortPart(port)
    ensures DropDots(BeforeLast(host + port, ':')) == host
  {
    NoDots(host);
    if port == "" {
      NoColon(host);
      assert host + port == host;
    } else {
      PortIs(port);
      hide *;
      CutAtColon(host, port[1..]);
      Regroup(host, [':'], port[1..]);
    }
  }

  lemma NoDots(host: string)
    requires PlainHost(host)
    ensures DropDots(host) == host
  {
    hide DottedOctets, Lower;
  }

  lemma PortIs(port: string)
    requires PortPart(port) && port != ""
    ensures port == [':'] + port[1..] && Free(port[1..], ':')
  {
  }

  lemma NoColon(host: string)
    requires PlainHost(host)
    ensures BeforeLast(host, ':') == host
  {
    hide DottedOctets, Lower;
    assert Free(host, ':') && "" + host == host;
    AfterLastIs("", host, ':');
    hide AfterLast, PlainHost;
  }

  lemma CutAtColon(host: string, port: string)
    requires Free(port, ':')
    ensures BeforeLast((host + [':']) + port, ':') == host
  {
    AfterLastIs(host + [':'], port, ':');
    hide AfterLast;
    assert ((host + [':']) + port)[..|host|] == host;
  }

  /* ---- order ---- */

  lemma {:induction false} AppendAllSplit(values: seq<string>, a: seq<string>, b: seq<string>)
    ensures AppendAll(values, a + b) == AppendAll(AppendAll(values, a), b)
    decreases |a|
  {
    hide AppendUnique;
    if a == [] {
      assert a + b == b;
    } else {
      assert (a + b)[0] == a[0] && (a + b)[1..] == a[1..] + b;
      AppendAllSplit(AppendUnique(values, a[0]), a[1..], b);
    }
  }

  lemma {:induction false} AppendAllKeeps(values: seq<string>, raw: seq<string>)
    ensures values <= AppendAll(values, raw)
    decreases |raw|
  {
    if raw != [] {
      hide Trim;
      AppendAllKeeps(AppendUnique(values, raw[0]), raw[1..]);
    }
  }

  lemma {:induction false} HostsSplit(a: seq<PortalUrlRule>, b: seq<PortalUrlRule>)
    ensures HostCandidates(a + b) == HostCandidates(a) + HostCandidates(b)
  {
    hide HostFromUrlish;
    if a == [] {
      assert a + b == b;
    } else {
      assert (a + b)[0] == a[0] && (a + b)[1..] == a[1..] + b;
      HostsSplit(a[1..], b);
    }
  }

  lemma {:induction false} RulesSplit(a: seq<PortalLayer2Rule>, b: seq<PortalLayer2Rule>)
    ensures RuleCandidates(a + b) == RuleCandidates(a) + RuleCandidates(b)
  {
    hide NetworkFromRule, AllowRule;
    if a == [] {
      assert a + b == b;
    } else {
      assert (a + b)[0] == a[0] && (a + b)[1..] == a[1..] + b;
      RulesSplit(a[1..], b);
    }
  }

  /** The lists keep the order of the rules: further rules only add at the end. */
  lemma ListsInOrder(networks: seq<PortalLayer2Rule>, moreNetworks: seq<PortalLayer2Rule>, urls: seq<PortalUrlRule>, moreUrls: seq<PortalUrlRule>)
    ensures var lists := ListsFromFreePolicy(Some(PortalFreePolicy(networks, urls)));
            var longer := ListsFromFreePolicy(Some(PortalFreePolicy(networks + moreNetworks, urls + moreUrls)));
            lists.fqdns <= longer.fqdns && lists.rules <= longer.rules
  {
    hide AppendAll, HostCandidates, RuleCandidates;
    HostsSplit(urls, moreUrls);
    RulesSplit(networks, moreNetworks);
    AppendAllSplit([], HostCandidates(urls), HostCandidates(moreUrls));
    AppendAllSplit([], RuleCandidates(networks), RuleCandidates(moreNetworks));
    AppendAllKeeps(AppendAll([], HostCandidates(urls)), HostCandidates(moreUrls));
    AppendAllKeeps(AppendAll([], RuleCandidates(networks)), RuleCandidates(moreNetworks));
  }
}
