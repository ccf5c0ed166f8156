/** The section-tree builder of mdToJson.ts. A fold over the lexer's tokens
    keeps a stack of open sections: a heading pops some of them by arithmetic on
    depths, registers a new empty section under its title in the section left on
    top and pushes it; any other block is normalised and appended to the content
    of the section on top. The result is the bottom entry of the stack, the root.

    The source shares section objects between the stack and the tree, so a
    section keeps changing after it has been attached to its parent. The model
    keeps the same information as values: every stack entry is a frame holding a
    section, a section is attached to its parent when it is opened (as the
    source does) and its final value is written back into the parent under its
    title when its frame is closed. Closing every frame gives exactly the tree
    the source's root object holds at that moment (View). */
module SectionTree {
  import opened Wrappers
  import opened Text
  import opened Normalize

  /** One lexer token, with the optional fields read as the source reads them:
      a missing or zero depth is 0, a missing title is "", a missing raw text is "". */
  datatype Token = Token(kind: string, depth: nat, text: string, raw: string)

  /** The token kind that opens a section. */
  const HeadingKind: string := "heading"

  /** A section: its own text (`_content`) and its children in key order. The
      content is a field of its own, so a child can never overwrite it. */
  datatype Section = Section(content: string, children: seq<(string, Section)>)

  /** `{ _content: "" }`. */
  const EmptySection: Section := Section("", [])

  /** The child titles in key order. */
  function Keys(cs: seq<(string, Section)>): (r: seq<string>)
    ensures |r| == |cs|
  {
    if cs == [] then [] else [cs[0].0] + Keys(cs[1..])
  }

  /** `section[title]`: the child stored under a title. */
  function Lookup(cs: seq<(string, Section)>, k: string): Option<Section>
  {
    if cs == [] then None
    else if cs[0].0 == k then Some(cs[0].1)
    else Lookup(cs[1..], k)
  }

  /** `section[title] = child`: a title already present keeps its position and
      gets the new child; a new title is added at the end. */
  function Put(cs: seq<(string, Section)>, k: string, v: Section): seq<(string, Section)>
  {
    if cs == [] then [(k, v)]
    else if cs[0].0 == k then [(k, v)] + cs[1..]
    else [cs[0]] + Put(cs[1..], k, v)
  }

  predicate Distinct(s: seq<string>)
  {
    forall i, j :: 0 <= i < j < |s| ==> s[i] != s[j]
  }

  /** No title occurs twice among the children, as in a JavaScript object. */
  predicate DistinctKeys(cs: seq<(string, Section)>)
  {
    Distinct(Keys(cs))
  }

  /** After a store, the title holds the new child and every other title holds
      what it held before. */
  lemma {:induction false} PutLookup(cs: seq<(string, Section)>, k: string, v: Section, other: string)
    ensures Lookup(Put(cs, k, v), k) == Some(v)
    ensures other != k ==> Lookup(Put(cs, k, v), other) == Lookup(cs, other)
    decreases |cs|
  {
    if cs != [] && cs[0].0 != k {
      PutLookup(cs[1..], k, v, other);
      assert ([cs[0]] + Put(cs[1..], k, v))[1..] == Put(cs[1..], k, v);
    } else if cs != [] {
      assert ([(k, v)] + cs[1..])[1..] == cs[1..];
    }
  }

  /** The two child lists agree on every title but k. */
  ghost predicate SameExcept(cs: seq<(string, Section)>, ds: seq<(string, Section)>, k: string)
  {
    forall t :: t != k ==> Lookup(cs, t) == Lookup(ds, t)
  }

  /** Storing under k leaves every other key's value as it was. */
  lemma {:induction false} PutKeepsOthers(cs: seq<(string, Section)>, k: string, v: Section)
    ensures SameExcept(Put(cs, k, v), cs, k)
  {
    forall t | t != k
      ensures Lookup(Put(cs, k, v), t) == Lookup(cs, t)
    {
      PutLookup(cs, k, v, t);
    }
  }

  /** A store keeps the order of the titles; it adds the title at the end
      exactly when the title was absent. */
  lemma {:induction false} PutKeys(cs: seq<(string, Section)>, k: string, v: Section)
    ensures k in Keys(cs) ==> Keys(Put(cs, k, v)) == Keys(cs)
    ensures k !in Keys(cs) ==> Keys(Put(cs, k, v)) == Keys(cs) + [k]
    decreases |cs|
  {
    if cs != [] {
      assert Keys(cs) == [cs[0].0] + Keys(cs[1..]);
      if cs[0].0 == k {
        assert ([(k, v)] + cs[1..])[1..] == cs[1..];
      } else {
        PutKeys(cs[1..], k, v);
        assert ([cs[0]] + Put(cs[1..], k, v))[1..] == Put(cs[1..], k, v);
      }
    }
  }

  /** Every child after a store is the stored one or was there before. */
  lemma {:induction false} PutElements(cs: seq<(string, Section)>, k: string, v: Section)
    ensures forall e :: e in Put(cs, k, v) ==> e == (k, v) || e in cs
    decreases |cs|
  {
    if cs != [] && cs[0].0 != k {
      PutElements(cs[1..], k, v);
    }
  }

  /** A store keeps the titles distinct. */
  lemma {:induction false} PutDistinct(cs: seq<(string, Section)>, k: string, v: Section)
    requires DistinctKeys(cs)
    ensures DistinctKeys(Put(cs, k, v))
  {
    PutKeys(cs, k, v);
  }

  /** Distinct titles at every level of the tree. */
  predicate WellFormed(sec: Section)
    decreases sec
  {
    && DistinctKeys(sec.children)
    && forall e :: e in sec.children ==> WellFormed(e.1)
  }

  /** An entry of the section stack: the title the section was opened under
      (unused for the root) and the section as it stands. */
  datatype Frame = Frame(title: string, section: Section)

  /** `ParserState` without its `currentSection` field, which the fold never reads. */
  datatype ParserState = ParserState(stack: seq<Frame>, currentDepth: nat, content: seq<string>)

  /** Why the fold stops: a heading popped the whole stack, so there was no
      parent to store it in (the source throws a TypeError there). */
  datatype BuildError = NoParent(title: string)

  /** `createInitialState()`: only the root on the stack, depth 0, no content yet. */
  function CreateInitialState(): (s: ParserState)
    ensures |s.stack| == 1 && s.stack[0].section == EmptySection
    ensures s.currentDepth == 0 && s.content == []
  {
    ParserState([Frame("", EmptySection)], 0, [])
  }

  /** The parent frame with the child's section stored under the child's title. */
  function Attach(parent: Frame, child: Frame): Frame
  {
    Frame(parent.title, Section(parent.section.content, Put(parent.section.children, child.title, child.section)))
  }

  /** Closes the top frame: its section is written back into the frame below. */
  function PopOne(stack: seq<Frame>): (r: seq<Frame>)
    requires |stack| >= 2
    ensures |r| == |stack| - 1
  {
    stack[..|stack| - 2] + [Attach(stack[|stack| - 2], stack[|stack| - 1])]
  }

  /** Closes the n top frames. */
  function PopN(stack: seq<Frame>, n: nat): (r: seq<Frame>)
    requires n < |stack|
    ensures |r| == |stack| - n
    decreases n
  {
    if n == 0 then stack else PopN(PopOne(stack), n - 1)
  }

  /** The whole tree as it stands: every open frame closed into the one below. */
  function CloseAll(stack: seq<Frame>): Section
    requires |stack| >= 1
  {
    PopN(stack, |stack| - 1)[0].section
  }

  /** What the source's `sectionStack[0]` holds at this point of the fold. */
  function View(s: ParserState): Section
    requires |s.stack| >= 1
  {
    CloseAll(s.stack)
  }

  /** The section on top of the stack, where content lands. */
  function Top(s: ParserState): Section
    requires |s.stack| >= 1
  {
    s.stack[|s.stack| - 1].section
  }

  /** Every open section is registered in the section below it under its title. */
  predicate Linked(stack: seq<Frame>)
  {
    forall i :: 1 <= i < |stack| ==> stack[i].title in Keys(stack[i - 1].section.children)
  }

  /** The invariant of the fold. The stack is never empty and never holds more
      than one entry per level up to the current depth; the content tracker is
      empty exactly when the top section has no text, and otherwise the text
      starts with the first block and ends with the last; every open section is
      registered in its parent and has distinct titles at every level. */
  predicate Valid(s: ParserState)
  {
    && 1 <= |s.stack| <= s.currentDepth + 1
    && (s.content == [] <==> Top(s).content == [])
    && (s.content != [] ==> StartsWith(Top(s).content, s.content[0]) && EndsWith(Top(s).content, s.content[|s.content| - 1]))
    && Linked(s.stack)
    && AllWellFormed(s.stack)
  }

  /** Every section on the stack has distinct titles at every level. */
  predicate AllWellFormed(stack: seq<Frame>)
  {
    forall i :: 0 <= i < |stack| ==> WellFormed(stack[i].section)
  }

  /** Storing a well-formed child in a well-formed parent keeps it well-formed. */
  lemma {:induction false} AttachWellFormed(parent: Frame, child: Frame)
    requires WellFormed(parent.section) && WellFormed(child.section)
    ensures WellFormed(Attach(parent, child).section)
  {
    PutDistinct(parent.section.children, child.title, child.section);
    PutElements(parent.section.children, child.title, child.section);
  }

  /** Closing the top frame keeps the frames below it and the title and text
      of the frame it writes into. */
  lemma {:induction false} PopOneBelow(stack: seq<Frame>)
    requires |stack| >= 2
    ensures var r := PopOne(stack); var m := |stack|;
      && r[..m - 2] == stack[..m - 2]
      && r[m - 2].title == stack[m - 2].title
      && r[m - 2].section.content == stack[m - 2].section.content
  {
    var m := |stack|;
    assert PopOne(stack)[..m - 2] == stack[..m - 2];
  }

  /** Closing the top frame of a linked stack keeps it linked, and keeps the key
      order of the new top because the closed title was registered there. */
  lemma {:induction false} PopOneLinked(stack: seq<Frame>)
    requires |stack| >= 2 && Linked(stack)
    ensures Linked(PopOne(stack))
    ensures Keys(PopOne(stack)[|stack| - 2].section.children) == Keys(stack[|stack| - 2].section.children)
  {
    var m := |stack|;
    var r := PopOne(stack);
    PutKeys(stack[m - 2].section.children, stack[m - 1].title, stack[m - 1].section);
    forall i | 1 <= i < |r|
      ensures r[i].title in Keys(r[i - 1].section.children)
    {
      assert r[i - 1] == stack[i - 1];
    }
  }

  /** Closing the top frame keeps every section on the stack well-formed. */
  lemma {:induction false} PopOneWellFormed(stack: seq<Frame>)
    requires |stack| >= 2 && AllWellFormed(stack)
    ensures AllWellFormed(PopOne(stack))
  {
    var m := |stack|;
    var r := PopOne(stack);
    AttachWellFormed(stack[m - 2], stack[m - 1]);
    forall i | 0 <= i < |r|
      ensures WellFormed(r[i].section)
    {
      if i < m - 2 {
        assert r[i] == stack[i];
      }
    }
  }

  /** Closing n frames keeps every frame below the new top, and the new top's
      title and text. */
  lemma {:induction false} PopNBelow(stack: seq<Frame>, n: nat)
    requires n < |stack|
    ensures var r := PopN(stack, n); var k := |stack| - n;
      && r[..k - 1] == stack[..k - 1]
      && r[k - 1].title == stack[k - 1].title
      && r[k - 1].section.content == stack[k - 1].section.content
    decreases n
  {
    if n > 0 {
      var p := PopOne(stack);
      var k := |stack| - n;
      PopOneBelow(stack);
      PopNBelow(p, n - 1);
      assert p[..k - 1] == stack[..k - 1] by {
        assert p[..|stack| - 2][..k - 1] == stack[..|stack| - 2][..k - 1];
      }
      if k - 1 < |stack| - 2 {
        assert p[k - 1] == p[..|stack| - 2][k - 1];
      }
    }
  }

  /** Closing n frames of a linked stack keeps it linked and keeps the key order
      of the new top. */
  lemma {:induction false} PopNLinked(stack: seq<Frame>, n: nat)
    requires n < |stack| && Linked(stack)
    ensures Linked(PopN(stack, n))
    ensures Keys(PopN(stack, n)[|stack| - n - 1].section.children) == Keys(stack[|stack| - n - 1].section.children)
    decreases n
  {
    if n > 0 {
      var p := PopOne(stack);
      var k := |stack| - n;
      PopOneLinked(stack);
      PopOneBelow(stack);
      PopNLinked(p, n - 1);
      if k - 1 < |stack| - 2 {
        assert p[k - 1] == p[..|stack| - 2][k - 1];
      }
    }
  }

  /** Closing n frames keeps every section on the stack well-formed. */
  lemma {:induction false} PopNWellFormed(stack: seq<Frame>, n: nat)
    requires n < |stack| && AllWellFormed(stack)
    ensures AllWellFormed(PopN(stack, n))
    decreases n
  {
    if n > 0 {
      PopOneWellFormed(stack);
      PopNWellFormed(PopOne(stack), n - 1);
    }
  }

  /** Closing n frames and then the rest is closing all of them. */
  lemma {:induction false} PopNPopN(stack: seq<Frame>, a: nat, b: nat)
    requires a + b < |stack|
    ensures PopN(PopN(stack, a), b) == PopN(stack, a + b)
    decreases a
  {
    if a > 0 {
      PopNPopN(PopOne(stack), a - 1, b);
    }
  }

  /** Closing frames does not change the tree: the source only shortens its
      stack, and the sections it drops are already part of the tree. */
  lemma {:induction false} PopNKeepsTree(stack: seq<Frame>, n: nat)
    requires n < |stack|
    ensures CloseAll(PopN(stack, n)) == CloseAll(stack)
  {
    PopNPopN(stack, n, |stack| - n - 1);
  }

  /** The tree held at the root is well-formed whenever the fold's invariant holds. */
  lemma {:induction false} ViewWellFormed(s: ParserState)
    requires Valid(s)
    ensures WellFormed(View(s))
  {
    PopNWellFormed(s.stack, |s.stack| - 1);
  }

  /** How many sections a heading of the given depth closes. */
  function LevelsUp(currentDepth: nat, depth: nat): nat
  {
    if depth <= currentDepth then currentDepth - depth + 1 else 0
  }

  /** `handleHeader`: closes LevelsUp sections, stores a new empty section under
      the heading's text in the section left on top and opens it. It fails
      exactly when no section is left to store it in. On success the sections
      below the parent are untouched, the parent keeps its title and text and
      has the new empty section under the heading's text and, under every
      other title, what it held once the closed sections were stored back,
      and the new section is the only one above it. */
  function HandleHeader(s: ParserState, tok: Token): (r: Result<ParserState, BuildError>)
    requires |s.stack| >= 1
    ensures r.Failure? <==> LevelsUp(s.currentDepth, tok.depth) >= |s.stack|
    ensures r.Failure? ==> r.error == NoParent(tok.text)
    ensures r.Success? ==>
      var k := |s.stack| - LevelsUp(s.currentDepth, tok.depth);
      && |r.value.stack| == k + 1
      && r.value.currentDepth == tok.depth && r.value.content == []
      && r.value.stack[k] == Frame(tok.text, EmptySection)
      && r.value.stack[..k - 1] == s.stack[..k - 1]
      && r.value.stack[k - 1].title == s.stack[k - 1].title
      && r.value.stack[k - 1].section.content == s.stack[k - 1].section.content
      && Lookup(r.value.stack[k - 1].section.children, tok.text) == Some(EmptySection)
      && SameExcept(r.value.stack[k - 1].section.children,
                    PopN(s.stack, LevelsUp(s.currentDepth, tok.depth))[k - 1].section.children, tok.text)
  {
    var up := LevelsUp(s.currentDepth, tok.depth);
    if up >= |s.stack| then Failure(NoParent(tok.text))
    else
      var kept := PopN(s.stack, up);
      PopNBelow(s.stack, up);
      PutLookup(kept[|kept| - 1].section.children, tok.text, EmptySection, tok.text);
      PutKeepsOthers(kept[|kept| - 1].section.children, tok.text, EmptySection);
      Success(ParserState(Open(kept, tok.text), tok.depth, []))
  }

  /** Opens a section: a new empty section is stored under the title in the
      section on top, and pushed. */
  function Open(stack: seq<Frame>, title: string): (r: seq<Frame>)
    requires |stack| >= 1
    ensures |r| == |stack| + 1
  {
    var child := Frame(title, EmptySection);
    stack[..|stack| - 1] + [Attach(stack[|stack| - 1], child), child]
  }

  /** Opening a section keeps a stack linked, and the titles of the section it
      is stored in keep their order, the new title coming last if it is new. */
  lemma {:induction false} OpenLinked(stack: seq<Frame>, title: string)
    requires |stack| >= 1 && Linked(stack)
    ensures Linked(Open(stack, title))
    ensures var before := Keys(stack[|stack| - 1].section.children);
      var after := Keys(Open(stack, title)[|stack| - 1].section.children);
      && (title in before ==> after == before)
      && (title !in before ==> after == before + [title])
  {
    var k := |stack|;
    var r := Open(stack, title);
    PutKeys(stack[k - 1].section.children, title, EmptySection);
    forall i | 1 <= i < |r|
      ensures r[i].title in Keys(r[i - 1].section.children)
    {
      if i < k - 1 {
        assert r[i] == stack[i] && r[i - 1] == stack[i - 1];
      } else if i == k - 1 {
        assert r[i - 1] == stack[i - 1];
      }
    }
  }

  /** Opening a section keeps every section on the stack well-formed. */
  lemma {:induction false} OpenWellFormed(stack: seq<Frame>, title: string)
    requires |stack| >= 1 && AllWellFormed(stack)
    ensures AllWellFormed(Open(stack, title))
  {
    var k := |stack|;
    var r := Open(stack, title);
    AttachWellFormed(stack[k - 1], Frame(title, EmptySection));
    forall i | 0 <= i < |r|
      ensures WellFormed(r[i].section)
    {
      if i < k - 1 {
        assert r[i] == stack[i];
      }
    }
  }

  /** On a valid state a heading leaves a valid state. */
  lemma {:induction false} HeaderKeepsValid(s: ParserState, tok: Token)
    requires Valid(s) && HandleHeader(s, tok).Success?
    ensures Valid(HandleHeader(s, tok).value)
  {
    var up := LevelsUp(s.currentDepth, tok.depth);
    var kept := PopN(s.stack, up);
    var r := ParserState(Open(kept, tok.text), tok.depth, []);
    assert HandleHeader(s, tok).value == r;
    PopNLinked(s.stack, up);
    PopNWellFormed(s.stack, up);
    OpenLinked(kept, tok.text);
    OpenWellFormed(kept, tok.text);
    assert |r.stack| <= r.currentDepth + 1;
    assert Top(r) == EmptySection;
  }

  /** The parent's titles keep their order: the heading's text is added at the
      end when it is new and keeps its place when the parent already had a
      section under it, which is replaced by the new empty one. */
  lemma {:induction false} HeaderKeyOrder(s: ParserState, tok: Token)
    requires Valid(s) && HandleHeader(s, tok).Success?
    ensures var k := |s.stack| - LevelsUp(s.currentDepth, tok.depth);
      var before := Keys(s.stack[k - 1].section.children);
      var after := Keys(HandleHeader(s, tok).value.stack[k - 1].section.children);
      && (tok.text in before ==> after == before)
      && (tok.text !in before ==> after == before + [tok.text])
  {
    var up := LevelsUp(s.currentDepth, tok.depth);
    var kept := PopN(s.stack, up);
    assert HandleHeader(s, tok).value.stack == Open(kept, tok.text);
    PopNLinked(s.stack, up);
    OpenLinked(kept, tok.text);
  }

  /** What `handleContent` puts between the text already in a section and the
      next block: one line feed before a list item or a code block, a blank
      line before anything else. */
  function Separator(normalized: string, kind: string): (r: string)
    ensures r == "\n" || r == "\n\n"
    ensures r == "\n" <==> StartsWith(normalized, "- ") || kind == CodeKind
  {
    if StartsWith(normalized, "- ") || kind == CodeKind then "\n" else "\n\n"
  }

  /** `handleContent`: a block without raw text, or whose normalised text is
      empty, changes nothing. Otherwise only the text of the section on top
      changes: it becomes the block's text when it is the first block since
      the last heading, and is extended by the separator and the block's text
      otherwise; the block is recorded in the content tracker. */
  function HandleContent(s: ParserState, tok: Token): (r: ParserState)
    requires |s.stack| >= 1
    ensures tok.raw == [] || NormalizeContent(tok.raw, tok.kind) == [] ==> r == s
    ensures tok.raw != [] && NormalizeContent(tok.raw, tok.kind) != [] ==>
      var n := NormalizeContent(tok.raw, tok.kind);
      var m := |s.stack|;
      && |r.stack| == m
      && r.stack[..m - 1] == s.stack[..m - 1]
      && r.stack[m - 1].title == s.stack[m - 1].title
      && Top(r).children == Top(s).children
      && Top(r).content == (if s.content == [] then n else Top(s).content + Separator(n, tok.kind) + n)
      && r.currentDepth == s.currentDepth
      && r.content == s.content + [n]
  {
    if tok.raw == [] then s
    else
      var n := NormalizeContent(tok.raw, tok.kind);
      if n == [] then s
      else
        var m := |s.stack|;
        var top := s.stack[m - 1];
        var text := if s.content == [] then n else top.section.content + Separator(n, tok.kind) + n;
        var stack := Retext(s.stack, text);
        assert stack[..m - 1] == s.stack[..m - 1];
        ParserState(stack, s.currentDepth, s.content + [n])
  }

  /** The stack with the text of its top section replaced. */
  function Retext(stack: seq<Frame>, text: string): (r: seq<Frame>)
    requires |stack| >= 1
    ensures |r| == |stack|
  {
    var top := stack[|stack| - 1];
    stack[..|stack| - 1] + [Frame(top.title, Section(text, top.section.children))]
  }

  /** Replacing the top section's text keeps the links and the well-formedness
      of the stack, which do not depend on texts. */
  lemma {:induction false} RetextKeeps(stack: seq<Frame>, text: string)
    requires |stack| >= 1
    ensures Linked(stack) ==> Linked(Retext(stack, text))
    ensures AllWellFormed(stack) ==> AllWellFormed(Retext(stack, text))
  {
    var m := |stack|;
    var r := Retext(stack, text);
    forall i | 0 <= i < m - 1
      ensures r[i] == stack[i]
    {
    }
  }

  /** On a valid state a content block leaves a valid state: the text of the
      section on top still starts with the first block since the last heading
      and ends with the last one. */
  lemma {:induction false} ContentKeepsValid(s: ParserState, tok: Token)
    requires Valid(s)
    ensures Valid(HandleContent(s, tok))
  {
    var r := HandleContent(s, tok);
    if tok.raw != [] && NormalizeContent(tok.raw, tok.kind) != [] {
      var n := NormalizeContent(tok.raw, tok.kind);
      var t := Top(r).content;
      assert r.stack == Retext(s.stack, t);
      RetextKeeps(s.stack, t);
      assert r.content == s.content + [n];
      if s.content == [] {
        assert t == n && r.content == [n];
      } else {
        var prev := Top(s).content;
        var sep := Separator(n, tok.kind);
        assert t == prev + sep + n;
        assert t[..|prev|] == prev;
        assert t[..|s.content[0]|] == prev[..|s.content[0]|];
        assert r.content[0] == s.content[0];
        assert t[|t| - |n|..] == n;
      }
    }
  }

  /** One step of the `reduce` in `mdToJson`: a heading goes to `handleHeader`,
      any other token to `handleContent`. Only a heading can fail, and every
      step keeps the fold's invariant. */
  function Step(s: ParserState, tok: Token): (r: Result<ParserState, BuildError>)
    requires Valid(s)
    ensures r.Failure? ==> tok.kind == HeadingKind && r.error == NoParent(tok.text)
    ensures r.Success? ==> Valid(r.value)
  {
    if tok.kind == HeadingKind then
      var r := HandleHeader(s, tok);
      if r.Success? then HeaderKeepsValid(s, tok); r else r
    else
      ContentKeepsValid(s, tok);
      Success(HandleContent(s, tok))
  }

  /** The `reduce` over the tokens from a given state; it stops at the first
      heading that has no parent left, which is the only way it fails. */
  function Fold(s: ParserState, tokens: seq<Token>): (r: Result<ParserState, BuildError>)
    requires Valid(s)
    ensures r.Success? ==> Valid(r.value)
    ensures r.Failure? ==> exists i :: 0 <= i < |tokens| && tokens[i].kind == HeadingKind && r.error == NoParent(tokens[i].text)
    decreases |tokens|
  {
    if tokens == [] then Success(s)
    else
      match Step(s, tokens[0])
      case Failure(e) => Failure(e)
      case Success(t) =>
        var r := Fold(t, tokens[1..]);
        assert r.Failure? ==> exists i :: 1 <= i < |tokens| && tokens[i].kind == HeadingKind && r.error == NoParent(tokens[i].text) by {
          if r.Failure? {
            var i :| 0 <= i < |tokens[1..]| && tokens[1..][i].kind == HeadingKind && r.error == NoParent(tokens[1..][i].text);
            assert tokens[i + 1] == tokens[1..][i];
          }
        }
        r
  }

  /** The tree `mdToJson` returns for a token sequence, or the heading it
      throws at. The tree has distinct titles at every level. */
  function Build(tokens: seq<Token>): (r: Result<Section, BuildError>)
    ensures r.Success? ==> WellFormed(r.value)
    ensures r.Failure? ==> exists i :: 0 <= i < |tokens| && tokens[i].kind == HeadingKind && r.error == NoParent(tokens[i].text)
  {
    match Fold(CreateInitialState(), tokens)
    case Failure(e) => Failure(e)
    case Success(s) => ViewWellFormed(s); Success(View(s))
  }

  /** `mdToJson`: CR LF pairs become line feeds, the lexer (a parameter here)
      turns the text into tokens, and the state is threaded through them from
      the initial state; the result is the root of the tree. */
  method MdToJson(markdown: string, lexer: string -> seq<Token>) returns (r: Result<Section, BuildError>)
    ensures r == Build(lexer(ReplaceCRLF(markdown)))
  {
    var tokens := lexer(ReplaceCRLF(markdown));
    var state := CreateInitialState();
    var i := 0;
    while i < |tokens|
      invariant 0 <= i <= |tokens|
      invariant Valid(state)
      invariant Fold(CreateInitialState(), tokens) == Fold(state, tokens[i..])
      decreases |tokens| - i
    {
      assert tokens[i..][1..] == tokens[i + 1..];
      var step := Step(state, tokens[i]);
      if step.Failure? {
        return Failure(step.error);
      }
      state := step.value;
      i := i + 1;
    }
    r := Success(View(state));
  }

  /** Every heading has depth at least 1 and at most one more than the
      heading before it (the first at most 1): no level is skipped. */
  predicate WellNested(depth: nat, tokens: seq<Token>)
    decreases |tokens|
  {
    if tokens == [] then true
    else if tokens[0].kind == HeadingKind then
      1 <= tokens[0].depth <= depth + 1 && WellNested(tokens[0].depth, tokens[1..])
    else WellNested(depth, tokens[1..])
  }

  /** Without skipped levels the stack holds exactly one section per level up
      to the current depth, so no heading runs out of parents. */
  lemma {:induction false} WellNestedFold(s: ParserState, tokens: seq<Token>)
    requires Valid(s) && |s.stack| == s.currentDepth + 1 && WellNested(s.currentDepth, tokens)
    ensures Fold(s, tokens).Success?
    ensures |Fold(s, tokens).value.stack| == Fold(s, tokens).value.currentDepth + 1
    decreases |tokens|
  {
    if tokens != [] {
      var t := Step(s, tokens[0]);
      assert t.Success?;
      WellNestedFold(t.value, tokens[1..]);
    }
  }

  /** A document whose headings skip no level always builds. */
  lemma {:induction false} WellNestedBuilds(tokens: seq<Token>)
    requires WellNested(0, tokens)
    ensures Build(tokens).Success?
  {
    WellNestedFold(CreateInitialState(), tokens);
  }

  /** A document without headings builds a root with no sections. */
  lemma {:induction false} NoHeadingNoSections(tokens: seq<Token>)
    requires forall i :: 0 <= i < |tokens| ==> tokens[i].kind != HeadingKind
    ensures Build(tokens).Success? && Build(tokens).value.children == []
  {
    FlatFold(CreateInitialState(), tokens);
  }

  /** Content tokens leave the stack's shape and the top's children alone. */
  lemma {:induction false} FlatFold(s: ParserState, tokens: seq<Token>)
    requires Valid(s)
    requires forall i :: 0 <= i < |tokens| ==> tokens[i].kind != HeadingKind
    ensures Fold(s, tokens).Success?
    ensures |Fold(s, tokens).value.stack| == |s.stack|
    ensures Top(Fold(s, tokens).value).children == Top(s).children
    decreases |tokens|
  {
    if tokens != [] {
      assert tokens[0].kind != HeadingKind;
      var t := HandleContent(s, tokens[0]);
      ContentKeepsValid(s, tokens[0]);
      assert Step(s, tokens[0]) == Success(t);
      FlatFold(t, tokens[1..]);
    }
  }

  /** A heading token as the lexer gives it. */
  function Heading(depth: nat, title: string): (t: Token)
    ensures t.kind == HeadingKind && t.depth == depth && t.text == title
  {
    Token(HeadingKind, depth, title, title)
  }

  /** The first heading of a document opens a section under the root. */
  lemma {:induction false} FirstHeading(a: string)
    ensures Step(CreateInitialState(), Heading(1, a))
      == Success(ParserState([Frame("", Section("", [(a, EmptySection)])), Frame(a, EmptySection)], 1, []))
  {
    var s0 := CreateInitialState();
    assert LevelsUp(0, 1) == 0;
    assert PopN(s0.stack, 0) == s0.stack;
    assert Open(s0.stack, a) == [Frame("", Section("", [(a, EmptySection)])), Frame(a, EmptySection)];
  }

  /** One step of the fold, unrolled. */
  lemma {:induction false} FoldStep(s: ParserState, tokens: seq<Token>, t: ParserState)
    requires Valid(s) && tokens != [] && Step(s, tokens[0]) == Success(t)
    ensures Fold(s, tokens) == Fold(t, tokens[1..])
  {
  }

  /** The initial state satisfies the fold's invariant. */
  lemma {:induction false} InitialValid()
    ensures Valid(CreateInitialState())
  {
  }

  /** A block right after the first heading becomes that section's text. */
  lemma {:induction false} BlockAfterHeading(a: string, tok: Token)
    requires tok.kind != HeadingKind && tok.raw != [] && NormalizeContent(tok.raw, tok.kind) != []
    ensures var n := NormalizeContent(tok.raw, tok.kind);
      var s1 := ParserState([Frame("", Section("", [(a, EmptySection)])), Frame(a, EmptySection)], 1, []);
      Step(s1, tok) == Success(ParserState([Frame("", Section("", [(a, EmptySection)])), Frame(a, Section(n, []))], 1, [n]))
  {
    var n := NormalizeContent(tok.raw, tok.kind);
    InitialValid();
    FirstHeading(a);
    var s1 := ParserState([Frame("", Section("", [(a, EmptySection)])), Frame(a, EmptySection)], 1, []);
    var s2 := ParserState([Frame("", Section("", [(a, EmptySection)])), Frame(a, Section(n, []))], 1, [n]);
    assert Retext(s1.stack, n) == s2.stack;
    assert HandleContent(s1, tok) == s2;
  }

  /** Closing a one-section stack stores that section in the root. */
  lemma {:induction false} CloseOne(a: string, sec: Section)
    ensures CloseAll([Frame("", Section("", [(a, EmptySection)])), Frame(a, sec)]) == Section("", [(a, sec)])
  {
    var stack := [Frame("", Section("", [(a, EmptySection)])), Frame(a, sec)];
    assert [(a, EmptySection)][1..] == [];
    assert Put([(a, EmptySection)], a, sec) == [(a, sec)];
    assert stack[..0] == [];
    assert PopOne(stack) == [Frame("", Section("", [(a, sec)]))];
    assert PopN(stack, 1) == PopN(PopOne(stack), 0);
  }

  /** A heading followed by a block: the block's normalised text becomes the
      content of the heading's section, which is the root's only child. */
  lemma {:induction false} HeadingThenBlock(a: string, tok: Token)
    requires tok.kind != HeadingKind && tok.raw != [] && NormalizeContent(tok.raw, tok.kind) != []
    ensures Build([Heading(1, a), tok]) == Success(Section("", [(a, Section(NormalizeContent(tok.raw, tok.kind), []))]))
  {
    var n := NormalizeContent(tok.raw, tok.kind);
    var tokens := [Heading(1, a), tok];
    var s0 := CreateInitialState();
    var s1 := ParserState([Frame("", Section("", [(a, EmptySection)])), Frame(a, EmptySection)], 1, []);
    var s2 := ParserState([Frame("", Section("", [(a, EmptySection)])), Frame(a, Section(n, []))], 1, [n]);
    InitialValid();
    FirstHeading(a);
    BlockAfterHeading(a, tok);
    CloseOne(a, Section(n, []));
    assert tokens[1..] == [tok] && tokens[1..][1..] == [];
    FoldStep(s0, tokens, s1);
    FoldStep(s1, tokens[1..], s2);
  }

  /** A heading two levels below the first one is pushed on top of it. */
  lemma {:induction false} SkipDown(a: string, b: string)
    ensures var s1 := ParserState([Frame("", Section("", [(a, EmptySection)])), Frame(a, EmptySection)], 1, []);
      Valid(s1) && Step(s1, Heading(3, b)) == Success(ParserState([Frame("", Section("", [(a, EmptySection)])), Frame(a, Section("", [(b, EmptySection)])), Frame(b, EmptySection)], 3, []))
  {
    FirstHeading(a);
    var s1 := ParserState([Frame("", Section("", [(a, EmptySection)])), Frame(a, EmptySection)], 1, []);
    assert LevelsUp(1, 3) == 0;
    assert PopN(s1.stack, 0) == s1.stack;
    assert s1.stack[..1] == [Frame("", Section("", [(a, EmptySection)]))];
    assert Attach(s1.stack[1], Frame(b, EmptySection)) == Frame(a, Section("", [(b, EmptySection)]));
    var s2 := ParserState([Frame("", Section("", [(a, EmptySection)])), Frame(a, Section("", [(b, EmptySection)])), Frame(b, EmptySection)], 3, []);
    assert Open(s1.stack, b) == s2.stack;
    assert HandleHeader(s1, Heading(3, b)) == Success(s2);
  }

  /** Closing the two sections above the root after depths 1 and 3. */
  lemma {:induction false} SkipPops(a: string, b: string)
    ensures PopN([Frame("", Section("", [(a, EmptySection)])), Frame(a, Section("", [(b, EmptySection)])), Frame(b, EmptySection)], 2)
      == [Frame("", Section("", [(a, Section("", [(b, EmptySection)]))]))]
  {
    var stack := [Frame("", Section("", [(a, EmptySection)])), Frame(a, Section("", [(b, EmptySection)])), Frame(b, EmptySection)];
    var kept := [Frame("", Section("", [(a, Section("", [(b, EmptySection)]))]))];
    assert [(a, EmptySection)][1..] == [];
    assert [(b, EmptySection)][1..] == [];
    assert stack[..1] == [stack[0]];
    assert Attach(stack[1], stack[2]) == stack[1];
    var p := PopOne(stack);
    assert p == [stack[0], stack[1]];
    assert p[..0] == [];
    assert Attach(p[0], p[1]) == kept[0];
    assert PopOne(p) == kept;
    assert PopN(stack, 2) == PopN(p, 1) == PopN(kept, 0);
  }

  /** A heading of depth 2 after depths 1 and 3 closes two sections and is
      stored in the root. */
  lemma {:induction false} SkipBackUp(a: string, b: string, c: string)
    requires a != c
    ensures var s2 := ParserState([Frame("", Section("", [(a, EmptySection)])), Frame(a, Section("", [(b, EmptySection)])), Frame(b, EmptySection)], 3, []);
      var tree := Section("", [(a, Section("", [(b, EmptySection)])), (c, EmptySection)]);
      Valid(s2) && Step(s2, Heading(2, c)) == Success(ParserState([Frame("", tree), Frame(c, EmptySection)], 2, []))
  {
    SkipDown(a, b);
    var s2 := ParserState([Frame("", Section("", [(a, EmptySection)])), Frame(a, Section("", [(b, EmptySection)])), Frame(b, EmptySection)], 3, []);
    var tree := Section("", [(a, Section("", [(b, EmptySection)])), (c, EmptySection)]);
    var s3 := ParserState([Frame("", tree), Frame(c, EmptySection)], 2, []);
    var kept := [Frame("", Section("", [(a, Section("", [(b, EmptySection)]))]))];
    assert LevelsUp(3, 2) == 2;
    SkipPops(a, b);
    assert Put(kept[0].section.children, c, EmptySection) == tree.children;
    assert Open(kept, c) == s3.stack;
    assert HandleHeader(s2, Heading(2, c)) == Success(s3);
  }

  /** The first two steps of the skipped-level examples: depth 1, then depth 3. */
  lemma {:induction false} SkipFold(a: string, b: string, x: Token)
    ensures var s2 := ParserState([Frame("", Section("", [(a, EmptySection)])), Frame(a, Section("", [(b, EmptySection)])), Frame(b, EmptySection)], 3, []);
      Valid(s2) && Fold(CreateInitialState(), [Heading(1, a), Heading(3, b), x]) == Fold(s2, [x])
  {
    var tokens := [Heading(1, a), Heading(3, b), x];
    var s0 := CreateInitialState();
    var s1 := ParserState([Frame("", Section("", [(a, EmptySection)])), Frame(a, EmptySection)], 1, []);
    var s2 := ParserState([Frame("", Section("", [(a, EmptySection)])), Frame(a, Section("", [(b, EmptySection)])), Frame(b, EmptySection)], 3, []);
    FirstHeading(a);
    SkipDown(a, b);
    assert tokens[1..] == [Heading(3, b), x];
    assert tokens[1..][1..] == [x];
    FoldStep(s0, tokens, s1);
    FoldStep(s1, tokens[1..], s2);
  }

  /** Closing the stack after the skipped-level headings: c is already stored
      in the root, so the root is unchanged. */
  lemma {:induction false} CloseRootChild(tree: Section, c: string)
    requires |tree.children| == 2 && tree.children[1] == (c, EmptySection) && tree.children[0].0 != c
    ensures CloseAll([Frame("", tree), Frame(c, EmptySection)]) == tree
  {
    var stack := [Frame("", tree), Frame(c, EmptySection)];
    assert tree.children[1..] == [(c, EmptySection)];
    assert [(c, EmptySection)][1..] == [];
    assert Put(tree.children, c, EmptySection) == tree.children;
    assert stack[..0] == [];
    assert PopOne(stack) == [Frame("", tree)];
    assert PopN(stack, 1) == PopN(PopOne(stack), 0);
  }

  /** The fold over the headings of SkippedLevelGoesToRoot ends with c open
      under the root. */
  lemma {:induction false} SkipRootFold(a: string, b: string, c: string)
    requires a != c
    ensures Fold(CreateInitialState(), [Heading(1, a), Heading(3, b), Heading(2, c)])
      == Success(ParserState([Frame("", Section("", [(a, Section("", [(b, EmptySection)])), (c, EmptySection)])), Frame(c, EmptySection)], 2, []))
  {
    var s2 := ParserState([Frame("", Section("", [(a, EmptySection)])), Frame(a, Section("", [(b, EmptySection)])), Frame(b, EmptySection)], 3, []);
    var tree := Section("", [(a, Section("", [(b, EmptySection)])), (c, EmptySection)]);
    var s3 := ParserState([Frame("", tree), Frame(c, EmptySection)], 2, []);
    SkipFold(a, b, Heading(2, c));
    SkipBackUp(a, b, c);
    assert [Heading(2, c)][1..] == [];
    FoldStep(s2, [Heading(2, c)], s3);
  }

  /** After a skipped level the stack is one entry short of the depth, so a
      heading one level up from the deepest one lands in the root, as a sibling
      of the section it was meant to be nested in. */
  lemma {:induction false} SkippedLevelGoesToRoot(a: string, b: string, c: string)
    requires a != c
    ensures Build([Heading(1, a), Heading(3, b), Heading(2, c)])
      == Success(Section("", [(a, Section("", [(b, EmptySection)])), (c, EmptySection)]))
  {
    SkipRootFold(a, b, c);
    CloseRootChild(Section("", [(a, Section("", [(b, EmptySection)])), (c, EmptySection)]), c);
  }

  /** After a skipped level, a heading back at the first level closes the whole
      stack, root included, and the build fails. */
  lemma {:induction false} SkippedLevelThenTopFails(a: string, b: string, c: string)
    ensures Build([Heading(1, a), Heading(3, b), Heading(1, c)]) == Failure(NoParent(c))
  {
    var s2 := ParserState([Frame("", Section("", [(a, EmptySection)])), Frame(a, Section("", [(b, EmptySection)])), Frame(b, EmptySection)], 3, []);
    SkipFold(a, b, Heading(1, c));
    assert LevelsUp(3, 1) == 3;
    assert Step(s2, Heading(1, c)) == Failure(NoParent(c));
  }

  /** A heading one level below the first one is stored in it and pushed. */
  lemma {:induction false} NestOne(a: string, b: string)
    ensures var s1 := ParserState([Frame("", Section("", [(a, EmptySection)])), Frame(a, EmptySection)], 1, []);
      Valid(s1) && Step(s1, Heading(2, b)) == Success(ParserState([Frame("", Section("", [(a, EmptySection)])), Frame(a, Section("", [(b, EmptySection)])), Frame(b, EmptySection)], 2, []))
  {
    FirstHeading(a);
    var s1 := ParserState([Frame("", Section("", [(a, EmptySection)])), Frame(a, EmptySection)], 1, []);
    assert LevelsUp(1, 2) == 0;
    assert PopN(s1.stack, 0) == s1.stack;
    assert s1.stack[..1] == [Frame("", Section("", [(a, EmptySection)]))];
    assert Attach(s1.stack[1], Frame(b, EmptySection)) == Frame(a, Section("", [(b, EmptySection)]));
    var s2 := ParserState([Frame("", Section("", [(a, EmptySection)])), Frame(a, Section("", [(b, EmptySection)])), Frame(b, EmptySection)], 2, []);
    assert Open(s1.stack, b) == s2.stack;
    assert HandleHeader(s1, Heading(2, b)) == Success(s2);
  }

  /** A second heading at the same depth closes the first and is stored
      beside it, after it. */
  lemma {:induction false} NextSibling(a: string, b: string, c: string)
    requires b != c
    ensures var s2 := ParserState([Frame("", Section("", [(a, EmptySection)])), Frame(a, Section("", [(b, EmptySection)])), Frame(b, EmptySection)], 2, []);
      Valid(s2) && Step(s2, Heading(2, c)) == Success(ParserState([Frame("", Section("", [(a, EmptySection)])), Frame(a, Section("", [(b, EmptySection), (c, EmptySection)])), Frame(c, EmptySection)], 2, []))
  {
    NestOne(a, b);
    var s2 := ParserState([Frame("", Section("", [(a, EmptySection)])), Frame(a, Section("", [(b, EmptySection)])), Frame(b, EmptySection)], 2, []);
    var kept := [Frame("", Section("", [(a, EmptySection)])), Frame(a, Section("", [(b, EmptySection)]))];
    var s3 := ParserState([Frame("", Section("", [(a, EmptySection)])), Frame(a, Section("", [(b, EmptySection), (c, EmptySection)])), Frame(c, EmptySection)], 2, []);
    assert LevelsUp(2, 2) == 1;
    assert [(b, EmptySection)][1..] == [];
    assert s2.stack[..2] == kept;
    assert Attach(s2.stack[1], s2.stack[2]) == kept[1];
    assert PopOne(s2.stack) == kept;
    assert PopN(s2.stack, 1) == PopN(kept, 0);
    assert Put([(b, EmptySection)], c, EmptySection) == [(b, EmptySection), (c, EmptySection)];
    assert kept[..1] == [kept[0]];
    assert Open(kept, c) == s3.stack;
    assert HandleHeader(s2, Heading(2, c)) == Success(s3);
  }

  /** Closing the stack after the two sibling headings. */
  lemma {:induction false} CloseSiblings(a: string, b: string, c: string)
    requires b != c
    ensures CloseAll([Frame("", Section("", [(a, EmptySection)])), Frame(a, Section("", [(b, EmptySection), (c, EmptySection)])), Frame(c, EmptySection)])
      == Section("", [(a, Section("", [(b, EmptySection), (c, EmptySection)]))])
  {
    var inner := Section("", [(b, EmptySection), (c, EmptySection)]);
    var stack := [Frame("", Section("", [(a, EmptySection)])), Frame(a, inner), Frame(c, EmptySection)];
    var p := [Frame("", Section("", [(a, EmptySection)])), Frame(a, inner)];
    assert [(c, EmptySection)][1..] == [];
    assert inner.children[1..] == [(c, EmptySection)];
    assert Put(inner.children, c, EmptySection) == inner.children;
    assert stack[..1] == [stack[0]];
    assert Attach(stack[1], stack[2]) == p[1];
    assert PopOne(stack) == p;
    assert [(a, EmptySection)][1..] == [];
    assert Put([(a, EmptySection)], a, inner) == [(a, inner)];
    assert p[..0] == [];
    assert PopOne(p) == [Frame("", Section("", [(a, inner)]))];
    assert PopN(stack, 2) == PopN(p, 1) == PopN(PopOne(p), 0);
  }

  /** The fold over the three headings of Siblings ends with c open under a,
      beside b. */
  lemma {:induction false} SiblingsFold(a: string, b: string, c: string)
    requires b != c
    ensures Fold(CreateInitialState(), [Heading(1, a), Heading(2, b), Heading(2, c)])
      == Success(ParserState([Frame("", Section("", [(a, EmptySection)])), Frame(a, Section("", [(b, EmptySection), (c, EmptySection)])), Frame(c, EmptySection)], 2, []))
  {
    var tokens := [Heading(1, a), Heading(2, b), Heading(2, c)];
    var s0 := CreateInitialState();
    var s1 := ParserState([Frame("", Section("", [(a, EmptySection)])), Frame(a, EmptySection)], 1, []);
    var s2 := ParserState([Frame("", Section("", [(a, EmptySection)])), Frame(a, Section("", [(b, EmptySection)])), Frame(b, EmptySection)], 2, []);
    var s3 := ParserState([Frame("", Section("", [(a, EmptySection)])), Frame(a, Section("", [(b, EmptySection), (c, EmptySection)])), Frame(c, EmptySection)], 2, []);
    FirstHeading(a);
    NestOne(a, b);
    NextSibling(a, b, c);
    assert tokens[1..] == [Heading(2, b), Heading(2, c)];
    assert tokens[1..][1..] == [Heading(2, c)];
    assert tokens[1..][1..][1..] == [];
    FoldStep(s0, tokens, s1);
    FoldStep(s1, tokens[1..], s2);
    FoldStep(s2, tokens[1..][1..], s3);
  }

  /** Two headings one level below the first are its children, in document
      order, and neither is nested in the other. */
  lemma {:induction false} Siblings(a: string, b: string, c: string)
    requires b != c
    ensures Build([Heading(1, a), Heading(2, b), Heading(2, c)])
      == Success(Section("", [(a, Section("", [(b, EmptySection), (c, EmptySection)]))]))
  {
    SiblingsFold(a, b, c);
    CloseSiblings(a, b, c);
  }

  /** Closing both frames of a > b writes b into a and a into the root. */
  lemma {:induction false} CloseNested(a: string, b: string)
    ensures PopN([Frame("", Section("", [(a, EmptySection)])), Frame(a, Section("", [(b, EmptySection)])), Frame(b, EmptySection)], 2)
      == [Frame("", Section("", [(a, Section("", [(b, EmptySection)]))]))]
  {
    var stack := [Frame("", Section("", [(a, EmptySection)])), Frame(a, Section("", [(b, EmptySection)])), Frame(b, EmptySection)];
    var kept := [Frame("", Section("", [(a, EmptySection)])), Frame(a, Section("", [(b, EmptySection)]))];
    var closed := [Frame("", Section("", [(a, Section("", [(b, EmptySection)]))]))];
    assert [(b, EmptySection)][1..] == [];
    assert Put([(b, EmptySection)], b, EmptySection) == [(b, EmptySection)];
    assert stack[..1] == [stack[0]];
    assert Attach(stack[1], stack[2]) == kept[1];
    assert PopOne(stack) == kept;
    assert [(a, EmptySection)][1..] == [];
    assert Put([(a, EmptySection)], a, Section("", [(b, EmptySection)])) == [(a, Section("", [(b, EmptySection)]))];
    assert kept[..0] == [];
    assert PopOne(kept) == closed;
    assert PopN(stack, 2) == PopN(kept, 1) == PopN(closed, 0);
  }

  /** A later depth-1 heading with the first heading's title closes the
      nested section and stores a fresh section under the same key. */
  lemma {:induction false} ReturnToTitle(a: string, b: string)
    ensures var s1 := ParserState([Frame("", Section("", [(a, EmptySection)])), Frame(a, EmptySection)], 1, []);
      var s2 := ParserState([Frame("", Section("", [(a, EmptySection)])), Frame(a, Section("", [(b, EmptySection)])), Frame(b, EmptySection)], 2, []);
      Valid(s2) && Step(s2, Heading(1, a)) == Success(s1)
  {
    NestOne(a, b);
    var s1 := ParserState([Frame("", Section("", [(a, EmptySection)])), Frame(a, EmptySection)], 1, []);
    var s2 := ParserState([Frame("", Section("", [(a, EmptySection)])), Frame(a, Section("", [(b, EmptySection)])), Frame(b, EmptySection)], 2, []);
    var closed := [Frame("", Section("", [(a, Section("", [(b, EmptySection)]))]))];
    assert LevelsUp(2, 1) == 2;
    CloseNested(a, b);
    assert [(a, Section("", [(b, EmptySection)]))][1..] == [];
    assert Put([(a, Section("", [(b, EmptySection)]))], a, EmptySection) == [(a, EmptySection)];
    assert closed[..0] == [];
    assert Open(closed, a) == s1.stack;
    assert HandleHeader(s2, Heading(1, a)) == Success(s1);
  }

  /** The fold over [# a, ## b, # a] ends with a fresh, empty a open. */
  lemma {:induction false} RepeatedTitleFold(a: string, b: string)
    ensures Fold(CreateInitialState(), [Heading(1, a), Heading(2, b), Heading(1, a)])
      == Success(ParserState([Frame("", Section("", [(a, EmptySection)])), Frame(a, EmptySection)], 1, []))
  {
    var tokens := [Heading(1, a), Heading(2, b), Heading(1, a)];
    var s0 := CreateInitialState();
    var s1 := ParserState([Frame("", Section("", [(a, EmptySection)])), Frame(a, EmptySection)], 1, []);
    var s2 := ParserState([Frame("", Section("", [(a, EmptySection)])), Frame(a, Section("", [(b, EmptySection)])), Frame(b, EmptySection)], 2, []);
    InitialValid();
    FirstHeading(a);
    NestOne(a, b);
    ReturnToTitle(a, b);
    assert tokens[1..] == [Heading(2, b), Heading(1, a)];
    assert tokens[1..][1..] == [Heading(1, a)];
    assert tokens[1..][1..][1..] == [];
    FoldStep(s0, tokens, s1);
    FoldStep(s1, tokens[1..], s2);
    FoldStep(s2, tokens[1..][1..], s1);
  }

  /** A repeated root-level title replaces the earlier section and keeps its
      place among the keys: in [# a, ## b, # a] the section b is lost, and
      the root's first section, the one getSections reads, has no children. */
  lemma {:induction false} RepeatedTitleReplaces(a: string, b: string)
    ensures Build([Heading(1, a), Heading(2, b), Heading(1, a)]) == Success(Section("", [(a, EmptySection)]))
  {
    RepeatedTitleFold(a, b);
    CloseOne(a, EmptySection);
  }

  /** An empty document is the root alone, with no text (stack entry 0 of
      the initial state). */
  lemma {:induction false} EmptyDocument()
    ensures Build([]) == Success(EmptySection)
  {
    InitialValid();
    assert PopN(CreateInitialState().stack, 0) == CreateInitialState().stack;
  }

  /** The key the source keeps a section's own text under. */
  const ContentKey: string := "_content"

  /** No section of the tree has a child titled k. */
  predicate Avoids(sec: Section, k: string)
    decreases sec
  {
    && k !in Keys(sec.children)
    && forall e :: e in sec.children ==> Avoids(e.1, k)
  }

  /** No open section has a child titled k, and none was opened under k. */
  predicate StackAvoids(stack: seq<Frame>, k: string)
  {
    forall i :: 0 <= i < |stack| ==> Avoids(stack[i].section, k) && (i >= 1 ==> stack[i].title != k)
  }

  /** Storing a child under another title keeps a tree free of the title k. */
  lemma {:induction false} AttachAvoids(parent: Frame, child: Frame, k: string)
    requires Avoids(parent.section, k) && Avoids(child.section, k) && child.title != k
    ensures Avoids(Attach(parent, child).section, k)
  {
    PutKeys(parent.section.children, child.title, child.section);
    PutElements(parent.section.children, child.title, child.section);
  }

  /** Closing the top frame keeps the stack free of the title k. */
  lemma {:induction false} PopOneAvoids(stack: seq<Frame>, k: string)
    requires |stack| >= 2 && StackAvoids(stack, k)
    ensures StackAvoids(PopOne(stack), k)
  {
    var m := |stack|;
    var r := PopOne(stack);
    AttachAvoids(stack[m - 2], stack[m - 1], k);
    forall i | 0 <= i < |r|
      ensures Avoids(r[i].section, k) && (i >= 1 ==> r[i].title != k)
    {
      if i < m - 2 {
        assert r[i] == stack[i];
      }
    }
  }

  /** Closing n frames keeps the stack free of the title k. */
  lemma {:induction false} PopNAvoids(stack: seq<Frame>, n: nat, k: string)
    requires n < |stack| && StackAvoids(stack, k)
    ensures StackAvoids(PopN(stack, n), k)
    decreases n
  {
    if n > 0 {
      PopOneAvoids(stack, k);
      PopNAvoids(PopOne(stack), n - 1, k);
    }
  }

  /** Opening a section under a title other than k keeps the stack free of k. */
  lemma {:induction false} OpenAvoids(stack: seq<Frame>, title: string, k: string)
    requires |stack| >= 1 && StackAvoids(stack, k) && title != k
    ensures StackAvoids(Open(stack, title), k)
  {
    AttachAvoids(stack[|stack| - 1], Frame(title, EmptySection), k);
    var r := Open(stack, title);
    forall i | 0 <= i < |r|
      ensures Avoids(r[i].section, k) && (i >= 1 ==> r[i].title != k)
    {
      if i < |stack| - 1 {
        assert r[i] == stack[i];
      }
    }
  }

  /** Replacing the top section's text keeps the stack free of k. */
  lemma {:induction false} RetextAvoids(stack: seq<Frame>, text: string, k: string)
    requires |stack| >= 1 && StackAvoids(stack, k)
    ensures StackAvoids(Retext(stack, text), k)
  {
    var r := Retext(stack, text);
    forall i | 0 <= i < |r|
      ensures Avoids(r[i].section, k) && (i >= 1 ==> r[i].title != k)
    {
      if i < |stack| - 1 {
        assert r[i] == stack[i];
      }
    }
  }

  /** A step with a heading not titled k keeps the stack free of k. */
  lemma {:induction false} StepAvoids(s: ParserState, tok: Token, k: string)
    requires Valid(s) && StackAvoids(s.stack, k) && Step(s, tok).Success?
    requires tok.kind == HeadingKind ==> tok.text != k
    ensures StackAvoids(Step(s, tok).value.stack, k)
  {
    if tok.kind == HeadingKind {
      var up := LevelsUp(s.currentDepth, tok.depth);
      PopNAvoids(s.stack, up, k);
      OpenAvoids(PopN(s.stack, up), tok.text, k);
      assert Step(s, tok).value.stack == Open(PopN(s.stack, up), tok.text);
    } else {
      var r := HandleContent(s, tok);
      if r != s {
        RetextAvoids(s.stack, Top(r).content, k);
        assert r.stack == Retext(s.stack, Top(r).content);
      }
    }
  }

  /** A fold whose headings are not titled k keeps the stack free of k. */
  lemma {:induction false} FoldAvoids(s: ParserState, tokens: seq<Token>, k: string)
    requires Valid(s) && StackAvoids(s.stack, k) && Fold(s, tokens).Success?
    requires forall i :: 0 <= i < |tokens| && tokens[i].kind == HeadingKind ==> tokens[i].text != k
    ensures StackAvoids(Fold(s, tokens).value.stack, k)
    decreases |tokens|
  {
    if tokens != [] {
      var t := Step(s, tokens[0]).value;
      StepAvoids(s, tokens[0], k);
      assert Fold(s, tokens) == Fold(t, tokens[1..]);
      forall i | 0 <= i < |tokens[1..]| && tokens[1..][i].kind == HeadingKind
        ensures tokens[1..][i].text != k
      {
        assert tokens[1..][i] == tokens[i + 1];
      }
      FoldAvoids(t, tokens[1..], k);
    }
  }

  /** The source stores a section's text and its children in one object, so a
      heading titled `_content` would overwrite the text of its parent. The
      model keeps them apart; when no heading has that title, no section of the
      tree has a child under it, so the two representations agree. */
  lemma {:induction false} ReservedKeyUnused(tokens: seq<Token>)
    requires forall i :: 0 <= i < |tokens| && tokens[i].kind == HeadingKind ==> tokens[i].text != ContentKey
    requires Build(tokens).Success?
    ensures Avoids(Build(tokens).value, ContentKey)
  {
    var s0 := CreateInitialState();
    InitialValid();
    FoldAvoids(s0, tokens, ContentKey);
    var s := Fold(s0, tokens).value;
    ViewAvoids(s, ContentKey);
    assert Build(tokens).value == View(s);
  }

  /** A stack free of k gives a tree free of k. */
  lemma {:induction false} ViewAvoids(s: ParserState, k: string)
    requires |s.stack| >= 1 && StackAvoids(s.stack, k)
    ensures Avoids(View(s), k)
  {
    PopNAvoids(s.stack, |s.stack| - 1, k);
  }
}
