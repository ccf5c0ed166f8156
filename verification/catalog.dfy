/** The catalogue logic of main.ts around the README: the description of a
    category, the starred-first order of a category's tools, the categories
    taken from the README's first heading, and the path arithmetic of the
    request handler that appends the requested repository path to every
    tool URL. */
module Catalog {
  import opened Wrappers
  import opened Text
  import opened SectionTree
  import opened Links

  /** The description of a category that has none of its own. */
  const DefaultDescription: string := "Tools for working with GitHub repositories."

  /** The fixed descriptions, by category name. */
  const Descriptions: seq<(string, string)> := [
    ("Editors", "Edit and modify repository code directly in your browser without cloning or downloading."),
    ("LLM Context", "Use AI to understand, analyze, and chat with your codebase for better insights."),
    ("LLM Conversions", "Convert and analyse the codebase using LLMs"),
    ("Various", "Other useful tools."),
    ("APIs", "Analyse GitHub Repos at scale with these APIs")
  ]

  /** The entry of a table under a name. */
  function Find(table: seq<(string, string)>, name: string): (r: Option<string>)
    ensures r.None? <==> forall i :: 0 <= i < |table| ==> table[i].0 != name
    ensures r.Some? ==> exists i :: 0 <= i < |table| && table[i] == (name, r.value)
    decreases |table|
  {
    if table == [] then None
    else if table[0].0 == name then Some(table[0].1)
    else
      var r := Find(table[1..], name);
      assert r.Some? ==> exists i :: 0 <= i < |table| && table[i] == (name, r.value) by {
        if r.Some? {
          var i :| 0 <= i < |table[1..]| && table[1..][i] == (name, r.value);
          assert table[i + 1] == (name, r.value);
        }
      }
      r
  }

  /** `getCategoryDescription`: the listed text for the five listed names and
      the default for every other name (an empty listed text would also give
      the default, which `||` does, but none is empty). */
  function CategoryDescription(name: string): (r: string)
    ensures r != []
    ensures forall i :: 0 <= i < |Descriptions| && Descriptions[i].0 == name ==> r == Descriptions[i].1
    ensures r == DefaultDescription <==> forall i :: 0 <= i < |Descriptions| ==> Descriptions[i].0 != name
  {
    match Find(Descriptions, name)
    case None => DefaultDescription
    case Some(d) => if d == [] then DefaultDescription else d
  }

  /** A tool of a category with its star from the browser's storage. */
  datatype Tool = Tool(url: string, description: string, isStarred: bool)

  /** `starredItems[encodeURIComponent(url)] || false`: the storage map and
      the URL encoder are parameters. */
  function IsStarred(url: string, starred: map<string, bool>, encode: string -> string): bool
  {
    encode(url) in starred && starred[encode(url)]
  }

  /** The `map` that gives every endpoint its star, in the same order. */
  function WithStars(urls: seq<Endpoint>, starred: map<string, bool>, encode: string -> string): (r: seq<Tool>)
    ensures |r| == |urls|
    ensures forall i :: 0 <= i < |r| ==>
      r[i] == Tool(urls[i].url, urls[i].description, IsStarred(urls[i].url, starred, encode))
  {
    seq(|urls|, i requires 0 <= i < |urls| => Tool(urls[i].url, urls[i].description, IsStarred(urls[i].url, starred, encode)))
  }

  /** The comparator of the sort: equal stars compare equal, a starred tool
      comes first. */
  function CompareStars(a: Tool, b: Tool): (r: int)
    ensures r == 0 <==> a.isStarred == b.isStarred
    ensures r < 0 <==> a.isStarred && !b.isStarred
  {
    if a.isStarred == b.isStarred then 0 else if a.isStarred then -1 else 1
  }

  /** Inserts x in front of the first tool that does not compare below it. */
  function Insert(x: Tool, ys: seq<Tool>): (r: seq<Tool>)
    decreases |ys|
  {
    if ys == [] || CompareStars(ys[0], x) >= 0 then [x] + ys
    else [ys[0]] + Insert(x, ys[1..])
  }

  /** A stable sort by the comparator: every tool is inserted into the sorted
      rest in front of the tools that do not compare below it, so tools that
      compare equal keep their order. */
  function SortByStars(xs: seq<Tool>): seq<Tool>
    decreases |xs|
  {
    if xs == [] then [] else Insert(xs[0], SortByStars(xs[1..]))
  }

  /** The starred tools, in their order. */
  function Starred(xs: seq<Tool>): (r: seq<Tool>)
    ensures forall t :: t in r ==> t.isStarred
    decreases |xs|
  {
    if xs == [] then []
    else if xs[0].isStarred then [xs[0]] + Starred(xs[1..])
    else Starred(xs[1..])
  }

  /** The tools without a star, in their order. */
  function Unstarred(xs: seq<Tool>): (r: seq<Tool>)
    ensures forall t :: t in r ==> !t.isStarred
    decreases |xs|
  {
    if xs == [] then []
    else if !xs[0].isStarred then [xs[0]] + Unstarred(xs[1..])
    else Unstarred(xs[1..])
  }

  /** Inserting a starred tool in front of starred-then-unstarred tools. */
  lemma {:induction false} InsertStarred(x: Tool, s: seq<Tool>, u: seq<Tool>)
    requires x.isStarred && (forall t :: t in s ==> t.isStarred)
    ensures Insert(x, s + u) == [x] + s + u
  {
    if s + u != [] {
      assert (s + u)[0] in s || (s + u)[0] in u;
    }
  }

  /** Inserting an unstarred tool passes over the starred ones and stops in
      front of the first unstarred one. */
  lemma {:induction false} InsertUnstarred(x: Tool, s: seq<Tool>, u: seq<Tool>)
    requires !x.isStarred && (forall t :: t in s ==> t.isStarred) && (forall t :: t in u ==> !t.isStarred)
    ensures Insert(x, s + u) == s + [x] + u
    decreases |s|
  {
    if s == [] {
      assert s + u == u;
    } else {
      assert (s + u)[0] == s[0];
      assert (s + u)[1..] == s[1..] + u;
      InsertUnstarred(x, s[1..], u);
      assert [s[0]] + (s[1..] + [x] + u) == s + [x] + u;
    }
  }

  /** The sort puts the starred tools first and the others after them, each
      group in its original order. */
  lemma {:induction false} SortIsPartition(xs: seq<Tool>)
    ensures SortByStars(xs) == Starred(xs) + Unstarred(xs)
    decreases |xs|
  {
    if xs != [] {
      SortIsPartition(xs[1..]);
      var s, u := Starred(xs[1..]), Unstarred(xs[1..]);
      if xs[0].isStarred {
        InsertStarred(xs[0], s, u);
      } else {
        InsertUnstarred(xs[0], s, u);
      }
    }
  }

  /** Splitting by star loses and adds nothing. */
  lemma {:induction false} PartitionPermutes(xs: seq<Tool>)
    ensures multiset(Starred(xs)) + multiset(Unstarred(xs)) == multiset(xs)
    decreases |xs|
  {
    if xs != [] {
      PartitionPermutes(xs[1..]);
      assert xs == [xs[0]] + xs[1..];
    }
  }

  /** The sorted tools are a permutation of the tools, and no unstarred tool
      comes before a starred one. */
  lemma {:induction false} SortByStarsSorted(xs: seq<Tool>)
    ensures multiset(SortByStars(xs)) == multiset(xs)
    ensures var r := SortByStars(xs);
      forall i, j :: 0 <= i < j < |r| && r[j].isStarred ==> r[i].isStarred
  {
    SortIsPartition(xs);
    PartitionPermutes(xs);
    var s, u := Starred(xs), Unstarred(xs);
    var r := s + u;
    forall i, j | 0 <= i < j < |r| && r[j].isStarred
      ensures r[i].isStarred
    {
      if j < |s| {
        assert r[i] == s[i] && s[i] in s;
      } else {
        assert false;
      }
    }
  }

  /** The comparator is a consistent order: swapping its arguments negates it,
      and "not after" is transitive, as `Array.prototype.sort` requires. */
  lemma {:induction false} CompareStarsConsistent(a: Tool, b: Tool, c: Tool)
    ensures CompareStars(a, b) == -CompareStars(b, a)
    ensures CompareStars(a, b) <= 0 && CompareStars(b, c) <= 0 ==> CompareStars(a, c) <= 0
  {
  }

  /** The sorted tools are in the comparator's order: no pair of them compares
      as out of order. */
  lemma {:induction false} SortRespectsComparator(xs: seq<Tool>)
    ensures var r := SortByStars(xs);
      forall i, j :: 0 <= i < j < |r| ==> CompareStars(r[i], r[j]) <= 0
  {
    SortByStarsSorted(xs);
  }

  /** The tools of a category in the order `renderCategory` renders them:
      starred first, each group in the category's order, none lost. */
  function RenderOrder(urls: seq<Endpoint>, starred: map<string, bool>, encode: string -> string): (r: seq<Tool>)
    ensures var tools := WithStars(urls, starred, encode);
      && r == Starred(tools) + Unstarred(tools)
      && multiset(r) == multiset(tools)
  {
    var tools := WithStars(urls, starred, encode);
    SortIsPartition(tools);
    SortByStarsSorted(tools);
    SortByStars(tools)
  }

  /** One category of the catalogue: its name, its text and the endpoints
      found in that text. */
  datatype Category = Category(category: string, content: string, urls: seq<Endpoint>)

  /** Why the catalogue cannot be built: the README's headings skip levels so
      that the section tree cannot be built, or the README has no heading, so
      the first root key does not exist and `Object.entries` throws. */
  datatype CatalogError = BadReadme(cause: BuildError) | NoFirstHeading

  /** One category per section, in key order. */
  function CategoriesOf(cs: seq<(string, Section)>, parse: string -> Option<ParsedUrl>): (r: seq<Category>)
    ensures |r| == |cs|
    ensures forall i :: 0 <= i < |r| ==>
      r[i] == Category(cs[i].0, cs[i].1.content, UrlsIn(cs[i].1.content, parse))
  {
    seq(|cs|, i requires 0 <= i < |cs| => Category(cs[i].0, cs[i].1.content, UrlsIn(cs[i].1.content, parse)))
  }

  /** `getSections`: the README is turned into its section tree; the first
      section under the root holds the categories, one per child section, in
      key order, each with the URLs found in its text. It fails exactly when
      the tree cannot be built or the root has no section. */
  function GetSections(readme: string, lexer: string -> seq<Token>, parse: string -> Option<ParsedUrl>): (r: Result<seq<Category>, CatalogError>)
    ensures var tree := Build(lexer(ReplaceCRLF(readme)));
      && (r.Success? <==> tree.Success? && tree.value.children != [])
      && (r == Failure(NoFirstHeading) <==> tree.Success? && tree.value.children == [])
      && (tree.Failure? ==> r == Failure(BadReadme(tree.error)))
      && (r.Success? ==> r.value == CategoriesOf(tree.value.children[0].1.children, parse))
  {
    match Build(lexer(ReplaceCRLF(readme)))
    case Failure(e) => Failure(BadReadme(e))
    case Success(root) =>
      if root.children == [] then Failure(NoFirstHeading)
      else Success(CategoriesOf(root.children[0].1.children, parse))
  }

  /** The categories have distinct names, since section titles are distinct at
      every level of the tree. */
  lemma {:induction false} CategoriesDistinct(readme: string, lexer: string -> seq<Token>, parse: string -> Option<ParsedUrl>)
    requires GetSections(readme, lexer, parse).Success?
    ensures var cats := GetSections(readme, lexer, parse).value;
      forall i, j :: 0 <= i < j < |cats| ==> cats[i].category != cats[j].category
  {
    var root := Build(lexer(ReplaceCRLF(readme))).value;
    var first := root.children[0];
    assert first in root.children;
    var cs := first.1.children;
    assert WellFormed(root);
    assert WellFormed(first.1);
    assert Distinct(Keys(cs));
    forall i, j | 0 <= i < j < |cs|
      ensures cs[i].0 != cs[j].0
    {
      KeysAt(cs, i);
      KeysAt(cs, j);
      assert Keys(cs)[i] != Keys(cs)[j];
    }
  }

  /** The key at a position is the title of the child there. */
  lemma {:induction false} KeysAt(cs: seq<(string, Section)>, i: nat)
    requires i < |cs|
    ensures Keys(cs)[i] == cs[i].0
    decreases i
  {
    if i > 0 {
      KeysAt(cs[1..], i - 1);
    }
  }

  /** `s.slice(1)`: everything after the first character. */
  function DropFirst(s: string): (r: string)
    ensures s != [] ==> r == s[1..]
    ensures s == [] ==> r == []
  {
    if s == [] then [] else s[1..]
  }

  /** The last element of `split`, which always has one. */
  function LastOf(parts: seq<string>): string
  {
    if parts == [] then [] else parts[|parts| - 1]
  }

  /** `const [owner, repo] = pathname.slice(1).split("/")`, kept when both are
      non-empty, as the page title requires. */
  function OwnerRepo(pathname: string): (r: Option<(string, string)>)
    ensures r.Some? ==> r.value.0 != [] && r.value.1 != [] && '/' !in r.value.0 && '/' !in r.value.1
  {
    var parts := SplitOn(DropFirst(pathname), '/');
    SplitOnPieces(DropFirst(pathname), '/');
    if |parts| >= 2 && parts[0] != [] && parts[1] != [] then Some((parts[0], parts[1])) else None
  }

  /** The two first segments of a path are read back from it. */
  lemma {:induction false} OwnerRepoOfPath(owner: string, repo: string, rest: string)
    requires owner != [] && repo != [] && '/' !in owner && '/' !in repo
    requires rest == [] || rest[0] == '/'
    ensures OwnerRepo("/" + owner + "/" + repo + rest) == Some((owner, repo))
  {
    var p := "/" + owner + "/" + repo + rest;
    assert DropFirst(p) == owner + ("/" + (repo + rest));
    SplitOnPrefix(owner, "/" + (repo + rest), '/');
    assert ("/" + (repo + rest))[1..] == repo + rest;
    if rest == [] {
      SplitOnPrefix(repo, [], '/');
      assert repo + rest == repo + [];
    } else {
      SplitOnPrefix(repo, rest, '/');
    }
  }

  /** Splitting a text that starts with a piece without the separator,
      followed by the separator or nothing. */
  lemma {:induction false} SplitOnPrefix(a: string, b: string, c: char)
    requires c !in a && (b == [] || b[0] == c)
    ensures SplitOn(a + b, c)[0] == a
    ensures b != [] ==> SplitOn(a + b, c)[1..] == SplitOn(b[1..], c)
    decreases |a|
  {
    if a == [] {
      assert a + b == b;
    } else {
      assert (a + b)[1..] == a[1..] + b;
      SplitOnPrefix(a[1..], b, c);
    }
  }

  /** The page title of the request handler. */
  function PageTitle(pathname: string): (r: string)
    ensures OwnerRepo(pathname).None? ==> r == "Accessible GitHub Tools For Any Repo"
    ensures OwnerRepo(pathname).Some? ==>
      r == "Tools For GitHub Repo: " + OwnerRepo(pathname).value.0 + "/" + OwnerRepo(pathname).value.1
  {
    match OwnerRepo(pathname)
    case None => "Accessible GitHub Tools For Any Repo"
    case Some((owner, repo)) => "Tools For GitHub Repo: " + owner + "/" + repo
  }

  /** A path that names a repository gets that repository's title. */
  lemma {:induction false} PageTitleOfRepoPath(owner: string, repo: string, rest: string)
    requires owner != [] && repo != [] && '/' !in owner && '/' !in repo
    requires rest == [] || rest[0] == '/'
    ensures PageTitle("/" + owner + "/" + repo + rest) == "Tools For GitHub Repo: " + owner + "/" + repo
  {
    OwnerRepoOfPath(owner, repo, rest);
  }

  /** A path of one segment, with or without a trailing slash, names no
      repository and gets the generic title. */
  lemma {:induction false} PageTitleWithoutRepo(segment: string)
    requires '/' !in segment
    ensures PageTitle("/" + segment) == "Accessible GitHub Tools For Any Repo"
    ensures PageTitle("/" + segment + "/") == "Accessible GitHub Tools For Any Repo"
  {
    assert DropFirst("/" + segment) == segment;
    SplitOnLast(segment, '/');
    assert DropFirst("/" + segment + "/") == segment + "/";
    SplitOnPrefix(segment, "/", '/');
    assert "/"[1..] == [];
    SplitOnLast([], '/');
  }

  /** The last segment of a path: what follows its last `/`, or the whole
      path when it has none. */
  function LastSegment(pathname: string): string
  {
    LastOf(SplitOn(pathname, '/'))
  }

  /** `segmentChunks` and `ext`: the text after the last `.` of the last
      segment, when the segment has a `.` at all. */
  function Extension(pathname: string): Option<string>
  {
    var chunks := SplitOn(LastSegment(pathname), '.');
    if |chunks| > 1 then Some(chunks[|chunks| - 1]) else None
  }

  /** The last segment has no `/` and ends the path. */
  lemma {:induction false} LastSegmentOfPath(pathname: string)
    ensures '/' !in LastSegment(pathname) && EndsWith(pathname, LastSegment(pathname))
    ensures '/' in pathname ==> EndsWith(pathname, "/" + LastSegment(pathname))
    ensures '/' !in pathname ==> LastSegment(pathname) == pathname
  {
    var parts := SplitOn(pathname, '/');
    var last := LastSegment(pathname);
    SplitOnPieces(pathname, '/');
    SplitOnLast(pathname, '/');
    assert last == parts[|parts| - 1];
    if '/' in pathname {
      var front := Join(parts[..|parts| - 1], "/") + "/";
      assert pathname == front + last;
      assert pathname[|pathname| - |last|..] == last;
      assert pathname == Join(parts[..|parts| - 1], "/") + ("/" + last);
      assert pathname[|pathname| - |"/" + last|..] == "/" + last;
    } else {
      assert pathname[|pathname| - |last|..] == pathname;
    }
  }

  /** The text after the last `.` of a segment ends it, after a `.`. */
  lemma {:induction false} LastChunkOfSegment(last: string)
    ensures var chunks := SplitOn(last, '.');
      && (|chunks| > 1 <==> '.' in last)
      && (|chunks| > 1 ==> '.' !in chunks[|chunks| - 1] && EndsWith(last, "." + chunks[|chunks| - 1]))
  {
    var chunks := SplitOn(last, '.');
    SplitOnPieces(last, '.');
    SplitOnLast(last, '.');
    if |chunks| > 1 {
      var e := chunks[|chunks| - 1];
      var front := Join(chunks[..|chunks| - 1], ".");
      assert last == front + ("." + e);
      assert last[|last| - |"." + e|..] == "." + e;
    }
  }

  /** There is an extension exactly when the last segment has a `.`; the
      extension has neither `.` nor `/`, and the path ends with `.` and it. */
  lemma {:induction false} ExtensionOfPath(pathname: string)
    ensures Extension(pathname).None? <==> '.' !in LastSegment(pathname)
    ensures Extension(pathname).Some? ==>
      var e := Extension(pathname).value;
      && '.' !in e && '/' !in e && EndsWith(pathname, "." + e)
  {
    var last := LastSegment(pathname);
    assert '/' !in last && EndsWith(pathname, last) by {
      LastSegmentOfPath(pathname);
    }
    LastChunkOfSegment(last);
    if Extension(pathname).Some? {
      var e := Extension(pathname).value;
      var tail := "." + e;
      assert last[|last| - |tail|..] == tail;
      assert '/' !in e by {
        forall k | 0 <= k < |e|
          ensures e[k] != '/'
        {
          assert e[k] == tail[k + 1] == last[|last| - |tail| + k + 1];
        }
      }
      EndsWithTrans(pathname, last, tail);
    }
  }

  /** `t.slice(0, -n)` for n at least 1: all but the last n characters, or
      nothing when t is shorter. */
  function CutEnd(t: string, n: nat): (r: string)
    requires n >= 1
    ensures n <= |t| ==> |r| == |t| - n && StartsWith(t, r)
    ensures n > |t| ==> r == []
  {
    if n <= |t| then t[..|t| - n] else []
  }

  /** `pathname.slice(1).slice(0, ext ? -1 * (ext.length + 1) : undefined)`:
      the path without its leading character, and without the last `.` and
      the extension when the extension is non-empty. */
  function PathSuffix(pathname: string): string
  {
    var t := DropFirst(pathname);
    match Extension(pathname)
    case Some(e) => if e != [] then CutEnd(t, |e| + 1) else t
    case None => t
  }

  /** On a path that starts with `/`, a non-empty extension and its dot are
      removed from the end and nothing else is: putting them back gives the
      path without its leading `/`. */
  lemma {:induction false} ExtensionRemoved(pathname: string)
    requires pathname != [] && pathname[0] == '/'
    requires Extension(pathname).Some? && Extension(pathname).value != []
    ensures PathSuffix(pathname) + "." + Extension(pathname).value == pathname[1..]
  {
    var e := Extension(pathname).value;
    var t := pathname[1..];
    ExtensionOfPath(pathname);
    var tail := "." + e;
    assert pathname[|pathname| - |tail|..] == tail;
    assert |tail| < |pathname|;
    assert t[|t| - |tail|..] == tail;
    assert t == t[..|t| - |tail|] + tail;
  }

  /** Without an extension, or with an empty one (a trailing dot), only the
      leading character is removed. */
  lemma {:induction false} NoExtensionKept(pathname: string)
    requires Extension(pathname).None? || Extension(pathname).value == []
    ensures PathSuffix(pathname) == DropFirst(pathname)
  {
  }

  /** One entry of the catalogue list: the endpoint with the path appended to
      its URL, and its category. */
  datatype Listed = Listed(url: string, description: string, category: string)

  /** The entries of one category, in endpoint order. */
  function EntriesOf(c: Category, suffix: string): (r: seq<Listed>)
    ensures |r| == |c.urls|
    ensures forall i :: 0 <= i < |r| ==>
      r[i] == Listed(c.urls[i].url + suffix, c.urls[i].description, c.category)
  {
    seq(|c.urls|, i requires 0 <= i < |c.urls| => Listed(c.urls[i].url + suffix, c.urls[i].description, c.category))
  }

  /** The `map`, `flat` and `map` of the handler: every category's entries,
      in category order. */
  function ListEntries(categories: seq<Category>, suffix: string): seq<Listed>
    decreases |categories|
  {
    if categories == [] then [] else EntriesOf(categories[0], suffix) + ListEntries(categories[1..], suffix)
  }

  /** The number of endpoints over all categories. */
  function TotalUrls(categories: seq<Category>): nat
    decreases |categories|
  {
    if categories == [] then 0 else |categories[0].urls| + TotalUrls(categories[1..])
  }

  /** The list has one entry per endpoint; each entry is an endpoint of some
      category with the suffix appended to its URL and that category's name. */
  lemma {:induction false} ListEntriesFromCategories(categories: seq<Category>, suffix: string)
    ensures |ListEntries(categories, suffix)| == TotalUrls(categories)
    ensures forall l :: l in ListEntries(categories, suffix) ==>
      && EndsWith(l.url, suffix)
      && exists c, x :: c in categories && x in c.urls && l == Listed(x.url + suffix, x.description, c.category)
    decreases |categories|
  {
    if categories != [] {
      var c := categories[0];
      ListEntriesFromCategories(categories[1..], suffix);
      forall l | l in ListEntries(categories, suffix)
        ensures EndsWith(l.url, suffix)
        ensures exists c, x :: c in categories && x in c.urls && l == Listed(x.url + suffix, x.description, c.category)
      {
        if l in EntriesOf(c, suffix) {
          var i :| 0 <= i < |EntriesOf(c, suffix)| && EntriesOf(c, suffix)[i] == l;
          assert c.urls[i] in c.urls;
          assert (c.urls[i].url + suffix)[|c.urls[i].url|..] == suffix;
        } else {
          assert l in ListEntries(categories[1..], suffix);
          var c', x :| c' in categories[1..] && x in c'.urls && l == Listed(x.url + suffix, x.description, c'.category);
          assert c' in categories;
        }
      }
    }
  }

  /** The list of two runs of categories is the two lists one after the other. */
  lemma {:induction false} ListEntriesAppend(a: seq<Category>, b: seq<Category>, suffix: string)
    ensures ListEntries(a + b, suffix) == ListEntries(a, suffix) + ListEntries(b, suffix)
    decreases |a|
  {
    if a == [] {
      assert a + b == b;
    } else {
      assert (a + b)[0] == a[0];
      assert (a + b)[1..] == a[1..] + b;
      ListEntriesAppend(a[1..], b, suffix);
    }
  }

  /** The list the handler serves for a path: every endpoint of every
      category, with the path suffix appended to its URL. */
  function ListAll(categories: seq<Category>, pathname: string): (r: seq<Listed>)
    ensures |r| == TotalUrls(categories)
    ensures forall l :: l in r ==> EndsWith(l.url, PathSuffix(pathname))
  {
    ListEntriesFromCategories(categories, PathSuffix(pathname));
    ListEntries(categories, PathSuffix(pathname))
  }
}
