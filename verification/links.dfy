/** The link extractor of main.ts: the markdown-link pattern is run over a
    text left to right, and each match whose target parses as an `http:` or
    `https:` URL becomes an endpoint whose URL ends with a slash. The URL
    parser is a parameter: it returns the protocol and the serialised URL, or
    nothing where `new URL` throws. */
module Links {
  import opened Wrappers
  import opened Text

  /** One match of `/\[([^\]]+)\]\(([^)]+)\)/`: where it starts, the two
      captured groups, and the index just past its closing parenthesis. */
  datatype Link = Link(start: nat, text: string, target: string, end: nat)

  /** The pattern matches at p with this text and target: `[`, a non-empty
      text without `]`, `](`, a non-empty target without `)`, and `)`. */
  predicate IsLinkAt(s: string, p: nat, l: Link)
  {
    var q := p + 1 + |l.text|;
    && l.start == p
    && l.text != [] && ']' !in l.text
    && l.target != [] && ')' !in l.target
    && l.end == q + 3 + |l.target| && l.end <= |s|
    && s[p] == '[' && s[p + 1..q] == l.text && s[q] == ']'
    && s[q + 1] == '(' && s[q + 2..l.end - 1] == l.target && s[l.end - 1] == ')'
  }

  /** The first position at or after `from` that holds c. */
  function FindFrom(s: string, from: nat, c: char): (r: Option<nat>)
    requires from <= |s|
    ensures r.Some? ==> from <= r.value < |s| && s[r.value] == c && c !in s[from..r.value]
    ensures r.None? ==> c !in s[from..]
    decreases |s| - from
  {
    if from == |s| then None
    else if s[from] == c then Some(from)
    else
      var r := FindFrom(s, from + 1, c);
      assert r.Some? ==> s[from..r.value] == [s[from]] + s[from + 1..r.value];
      assert s[from..] == [s[from]] + s[from + 1..];
      r
  }

  /** A position holding c with no c before it from `from` on is the one found. */
  lemma {:induction false} FindFromFirst(s: string, from: nat, k: nat, c: char)
    requires from <= k < |s| && s[k] == c && c !in s[from..k]
    ensures FindFrom(s, from, c) == Some(k)
    decreases k - from
  {
    if from < k {
      assert s[from..k] == [s[from]] + s[from + 1..k];
      FindFromFirst(s, from + 1, k, c);
    }
  }

  /** The match of the pattern at position p, if any. A text without `]` can
      only end at the first `]` after the bracket, and a target without `)`
      only at the first `)` after the parenthesis, so there is at most one. */
  function MatchAt(s: string, p: nat): (r: Option<Link>)
    ensures r.Some? ==> r.value.start == p < r.value.end <= |s|
  {
    if p >= |s| || s[p] != '[' then None
    else match FindFrom(s, p + 1, ']')
      case None => None
      case Some(q) =>
        if q == p + 1 || q + 1 >= |s| || s[q + 1] != '(' then None
        else match FindFrom(s, q + 2, ')')
          case None => None
          case Some(k) =>
            if k == q + 2 then None
            else Some(Link(p, s[p + 1..q], s[q + 2..k], k + 1))
  }

  /** A match found at p is a link at p. */
  lemma {:induction false} MatchAtSound(s: string, p: nat)
    requires MatchAt(s, p).Some?
    ensures IsLinkAt(s, p, MatchAt(s, p).value)
  {
  }

  /** A link at p is what the pattern finds at p: the match is unique. */
  lemma {:induction false} MatchAtComplete(s: string, p: nat, l: Link)
    requires IsLinkAt(s, p, l)
    ensures MatchAt(s, p) == Some(l)
  {
    var q := p + 1 + |l.text|;
    FindFromFirst(s, p + 1, q, ']');
    FindFromFirst(s, q + 2, l.end - 1, ')');
  }

  /** `linkRegex.exec(content)` with `lastIndex` at `from`: the leftmost match
      that starts at or after `from`. */
  function Exec(s: string, from: nat): (r: Option<Link>)
    ensures r.Some? ==> from <= r.value.start < r.value.end <= |s|
    decreases |s| - from
  {
    if from >= |s| then None
    else match MatchAt(s, from)
      case Some(l) => Some(l)
      case None => Exec(s, from + 1)
  }

  /** The match found is a link, and no link starts between `from` and it;
      when nothing is found, no link starts at or after `from`. */
  lemma {:induction false} ExecLeftmost(s: string, from: nat)
    ensures Exec(s, from).Some? ==>
      && IsLinkAt(s, Exec(s, from).value.start, Exec(s, from).value)
      && forall p :: from <= p < Exec(s, from).value.start ==> MatchAt(s, p).None?
    ensures Exec(s, from).None? ==> forall p :: from <= p ==> MatchAt(s, p).None?
    decreases |s| - from
  {
    if from < |s| {
      if MatchAt(s, from).Some? {
        MatchAtSound(s, from);
      } else {
        ExecLeftmost(s, from + 1);
      }
    }
  }

  /** Every match of the `while` loop from `from` on, in order: each search
      starts where the previous match ended. */
  function Scan(s: string, from: nat): (r: seq<Link>)
    decreases |s| - from
  {
    match Exec(s, from)
    case None => []
    case Some(l) => [l] + Scan(s, l.end)
  }

  /** The matches are links that start at or after `from`, in increasing
      order and without overlap. */
  lemma {:induction false} ScanOrdered(s: string, from: nat)
    ensures var r := Scan(s, from);
      && (forall i :: 0 <= i < |r| ==> from <= r[i].start && IsLinkAt(s, r[i].start, r[i]))
      && (forall i, j :: 0 <= i < j < |r| ==> r[i].end <= r[j].start)
    decreases |s| - from
  {
    var m := Exec(s, from);
    if m.Some? {
      ExecLeftmost(s, from);
      ScanOrdered(s, m.value.end);
      var r := Scan(s, from);
      assert r[1..] == Scan(s, m.value.end);
    }
  }

  /** Position `p` lies inside one of the matches `r`. */
  ghost predicate Covered(r: seq<Link>, p: nat)
  {
    exists i :: 0 <= i < |r| && r[i].start <= p < r[i].end
  }

  /** The loop misses no link: every position from `from` on where a link
      starts lies inside one of the matches reported. */
  lemma {:induction false} ScanCovers(s: string, from: nat)
    ensures forall p: nat :: from <= p && MatchAt(s, p).Some? ==> Covered(Scan(s, from), p)
    decreases |s| - from
  {
    var r := Scan(s, from);
    var m := Exec(s, from);
    ExecLeftmost(s, from);
    if m.Some? {
      var l := m.value;
      var rest := Scan(s, l.end);
      ScanCovers(s, l.end);
      assert r == [l] + rest;
      forall p: nat | from <= p && MatchAt(s, p).Some?
        ensures Covered(r, p)
      {
        if p < l.end {
          assert r[0] == l;
        } else {
          var j :| 0 <= j < |rest| && rest[j].start <= p < rest[j].end;
          assert r[j + 1] == rest[j];
        }
      }
    } else {
      assert r == [];
      forall p: nat | from <= p
        ensures MatchAt(s, p).None?
      {
      }
    }
  }

  /** The protocol and serialisation of a parsed URL (`protocol`, `toString()`). */
  datatype ParsedUrl = ParsedUrl(protocol: string, href: string)

  /** An `ApiEndpoint`: the URL and the link's description. */
  datatype Endpoint = Endpoint(url: string, description: string)

  /** The URL with a slash appended when it does not already end with one. */
  function WithTrailingSlash(u: string): (r: string)
    ensures EndsWith(r, "/") && StartsWith(r, u)
    ensures EndsWith(u, "/") ==> r == u
    ensures !EndsWith(u, "/") ==> r == u + "/"
  {
    if EndsWith(u, "/") then u else u + "/"
  }

  /** The protocols the extractor keeps. */
  predicate IsWeb(protocol: string)
  {
    protocol == "http:" || protocol == "https:"
  }

  /** The endpoint a match contributes: none when the target does not parse
      or its protocol is not a web one; otherwise the serialised URL with a
      trailing slash and the trimmed link text. */
  function EndpointOf(l: Link, parse: string -> Option<ParsedUrl>): (r: Option<Endpoint>)
    ensures r.Some? <==> parse(l.target).Some? && IsWeb(parse(l.target).value.protocol)
    ensures r.Some? ==> && r.value.url == WithTrailingSlash(parse(l.target).value.href)
                        && r.value.description == Trim(l.text)
  {
    match parse(l.target)
    case None => None
    case Some(u) =>
      if IsWeb(u.protocol) then Some(Endpoint(WithTrailingSlash(u.href), Trim(l.text))) else None
  }

  /** The endpoints of a sequence of matches, in match order; a match that
      gives none is skipped and the rest are still taken. */
  function Endpoints(links: seq<Link>, parse: string -> Option<ParsedUrl>): (r: seq<Endpoint>)
    decreases |links|
  {
    if links == [] then []
    else
      var rest := Endpoints(links[1..], parse);
      match EndpointOf(links[0], parse)
      case None => rest
      case Some(e) => [e] + rest
  }

  /** The endpoints of a concatenation are those of each part, in order. */
  lemma {:induction false} EndpointsAppend(a: seq<Link>, b: seq<Link>, parse: string -> Option<ParsedUrl>)
    ensures Endpoints(a + b, parse) == Endpoints(a, parse) + Endpoints(b, parse)
    decreases |a|
  {
    if a == [] {
      assert a + b == b;
    } else {
      assert (a + b)[0] == a[0];
      assert (a + b)[1..] == a[1..] + b;
      EndpointsAppend(a[1..], b, parse);
      var x, y := Endpoints(a[1..], parse), Endpoints(b, parse);
      match EndpointOf(a[0], parse)
      case None =>
      case Some(e) =>
        assert [e] + (x + y) == ([e] + x) + y;
    }
  }

  /** There are at most as many endpoints as matches, each URL ends with a
      slash, and each endpoint is what some match contributes. */
  lemma {:induction false} EndpointsFromLinks(links: seq<Link>, parse: string -> Option<ParsedUrl>)
    ensures var r := Endpoints(links, parse);
      && |r| <= |links|
      && (forall e :: e in r ==> EndsWith(e.url, "/"))
      && (forall e :: e in r ==> exists l :: l in links && EndpointOf(l, parse) == Some(e))
    decreases |links|
  {
    if links != [] {
      EndpointsFromLinks(links[1..], parse);
      var r := Endpoints(links, parse);
      forall e | e in r
        ensures exists l :: l in links && EndpointOf(l, parse) == Some(e)
      {
        if e !in Endpoints(links[1..], parse) {
          assert EndpointOf(links[0], parse) == Some(e);
        } else {
          var l :| l in links[1..] && EndpointOf(l, parse) == Some(e);
          assert l in links;
        }
      }
    }
  }

  /** Every match whose target is a web URL contributes, so no endpoint is lost. */
  lemma {:induction false} WebLinksKept(links: seq<Link>, parse: string -> Option<ParsedUrl>, i: nat)
    requires i < |links| && EndpointOf(links[i], parse).Some?
    ensures EndpointOf(links[i], parse).value in Endpoints(links, parse)
    decreases i
  {
    if i > 0 {
      WebLinksKept(links[1..], parse, i - 1);
    }
  }

  /** What `parseUrlsFromReadme` returns for a text. */
  function UrlsIn(content: string, parse: string -> Option<ParsedUrl>): seq<Endpoint>
  {
    Endpoints(Scan(content, 0), parse)
  }

  /** `parseUrlsFromReadme`: the `exec` loop, pushing an endpoint for every
      match with a web URL; a target the parser rejects is skipped. */
  method ParseUrlsFromReadme(content: string, parse: string -> Option<ParsedUrl>) returns (endpoints: seq<Endpoint>)
    ensures endpoints == UrlsIn(content, parse)
  {
    endpoints := [];
    var lastIndex: nat := 0;
    var m := Exec(content, lastIndex);
    while m.Some?
      invariant m == Exec(content, lastIndex)
      invariant endpoints + Endpoints(Scan(content, lastIndex), parse) == UrlsIn(content, parse)
      decreases |content| - lastIndex
    {
      var link := m.value;
      var e := EndpointOf(link, parse);
      ghost var rest := Scan(content, link.end);
      assert Scan(content, lastIndex) == [link] + rest;
      assert ([link] + rest)[1..] == rest;
      if e.Some? {
        endpoints := endpoints + [e.value];
      }
      lastIndex := link.end;
      m := Exec(content, lastIndex);
    }
  }
}
