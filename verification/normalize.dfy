/** The content normalizer of mdToJson.ts: how the raw text of one lexer block
    is canonicalised before it is stored in a section. Code blocks keep their
    lines; list-like text is only trimmed; other text is re-flowed into
    paragraphs separated by one blank line. */
module Normalize {
  import opened Text

  /** The block kind whose text keeps its indentation. */
  const CodeKind: string := "code"

  /** `s.split(/\n+/)`: the pieces between maximal runs of line feeds. A run at
      either end leaves an empty piece there; the empty text gives one empty piece. */
  function SplitRuns(s: string): (r: seq<string>)
    ensures |r| >= 1
    decreases |s|
  {
    if s == [] then [""]
    else
      var r := SplitRuns(s[1..]);
      if s[0] != '\n' then [[s[0]] + r[0]] + r[1..]
      else if |s| > 1 && s[1] == '\n' then r
      else [""] + r
  }

  /** The last piece of SplitRuns(s). */
  function LastPiece(s: string): string
  {
    var r := SplitRuns(s);
    r[|r| - 1]
  }

  /** No piece contains a line feed; a text without one is its own only piece. */
  lemma {:induction false} SplitRunsPieces(s: string)
    ensures var r := SplitRuns(s);
            && (forall i :: 0 <= i < |r| ==> '\n' !in r[i])
            && ('\n' !in s ==> r == [s])
            && ('\n' in s ==> |r| > 1)
    decreases |s|
  {
    if s != [] {
      SplitRunsPieces(s[1..]);
      var r := SplitRuns(s[1..]);
      assert s == [s[0]] + s[1..];
      if s[0] != '\n' {
        assert '\n' !in [s[0]] + r[0];
      }
    }
  }

  /** A text that starts with a line feed has an empty first piece. */
  lemma {:induction false} SplitRunsLeadingRun(s: string)
    requires s != [] && s[0] == '\n'
    ensures SplitRuns(s)[0] == []
    decreases |s|
  {
    if |s| > 1 && s[1] == '\n' {
      SplitRunsLeadingRun(s[1..]);
    }
  }

  /** A text that starts with anything but a line feed extends its first piece. */
  lemma {:induction false} SplitRunsHead(s: string)
    requires s != [] && s[0] != '\n'
    ensures SplitRuns(s)[0] == [s[0]] + SplitRuns(s[1..])[0]
  {
  }

  /** The first piece is the text before the first line feed. */
  lemma {:induction false} SplitRunsFirst(s: string)
    ensures var p := SplitRuns(s)[0];
            StartsWith(s, p) && (|p| == |s| || s[|p|] == '\n')
    decreases |s|
  {
    if s != [] {
      if s[0] == '\n' {
        SplitRunsLeadingRun(s);
      } else {
        SplitRunsFirst(s[1..]);
        SplitRunsHead(s);
        StartsWithCons(s, SplitRuns(s[1..])[0]);
      }
    }
  }

  /** Unless the text is one line-feed-free piece, its last piece is the last
      piece of the text without its first character. */
  lemma {:induction false} SplitRunsLastStep(s: string)
    requires s != [] && (s[0] == '\n' || '\n' in s[1..])
    ensures LastPiece(s) == LastPiece(s[1..])
  {
    var r := SplitRuns(s[1..]);
    if s[0] != '\n' {
      SplitRunsPieces(s[1..]);
      assert SplitRuns(s) == [[s[0]] + r[0]] + r[1..];
    } else if |s| > 1 && s[1] == '\n' {
      assert SplitRuns(s) == r;
    } else {
      assert SplitRuns(s) == [""] + r;
    }
  }

  /** The last piece is what follows the last run of line feeds. */
  lemma {:induction false} SplitRunsLast(s: string)
    ensures EndsWith(s, LastPiece(s))
    ensures '\n' in s ==> EndsWith(s, "\n" + LastPiece(s))
    decreases |s|
  {
    if s != [] {
      if s[0] == '\n' || '\n' in s[1..] {
        SplitRunsLast(s[1..]);
        SplitRunsLastStep(s);
        assert EndsWith(s, s[1..]);
        EndsWithTrans(s, s[1..], LastPiece(s[1..]));
        if '\n' in s[1..] {
          EndsWithTrans(s, s[1..], "\n" + LastPiece(s[1..]));
        } else {
          SplitRunsPieces(s[1..]);
          assert "\n" + LastPiece(s) == s;
        }
      } else {
        SplitRunsPieces(s);
        assert '\n' !in s by {
          assert s == [s[0]] + s[1..];
        }
      }
    }
  }

  /** The last piece is empty only when the text is empty or ends with a line feed. */
  lemma {:induction false} SplitRunsLastEmpty(s: string)
    ensures LastPiece(s) == [] ==> s == [] || s[|s| - 1] == '\n'
    decreases |s|
  {
    if s != [] {
      if s[0] == '\n' || '\n' in s[1..] {
        SplitRunsLastEmpty(s[1..]);
        SplitRunsLastStep(s);
        if s[1..] != [] {
          assert s[1..][|s| - 2] == s[|s| - 1];
        }
      } else {
        SplitRunsPieces(s);
        assert '\n' !in s by {
          assert s == [s[0]] + s[1..];
        }
      }
    }
  }

  /** A run of line feeds followed by text that does not start with one leaves
      an empty first piece. */
  lemma {:induction false} SplitRunsRun(sep: string, rest: string)
    requires sep != [] && All(sep, Newline)
    requires rest == [] || rest[0] != '\n'
    ensures SplitRuns(sep + rest) == [""] + SplitRuns(rest)
    decreases |sep|
  {
    var s := sep + rest;
    assert s[1..] == sep[1..] + rest;
    if |sep| > 1 {
      SplitRunsRun(sep[1..], rest);
    } else {
      assert s[1..] == rest;
    }
  }

  /** A line-feed-free piece, a run of line feeds, then text that does not
      start with a line feed: the piece is split off and the run dropped. */
  lemma {:induction false} SplitRunsCons(p: string, sep: string, rest: string)
    requires '\n' !in p
    requires sep != [] && All(sep, Newline)
    requires rest == [] || rest[0] != '\n'
    ensures SplitRuns(p + sep + rest) == [p] + SplitRuns(rest)
    decreases |p|
  {
    if p == [] {
      assert p + sep + rest == sep + rest;
      SplitRunsRun(sep, rest);
    } else {
      assert (p + sep + rest)[1..] == p[1..] + sep + rest;
      assert p[0] != '\n';
      SplitRunsCons(p[1..], sep, rest);
      assert [p[0]] + p[1..] == p;
    }
  }

  /** Pieces that are non-empty and free of line feeds are recovered by
      splitting their join on a run of line feeds. */
  lemma {:induction false} SplitRunsJoin(parts: seq<string>, sep: string)
    requires parts != [] && sep != [] && All(sep, Newline)
    requires forall i :: 0 <= i < |parts| ==> parts[i] != [] && '\n' !in parts[i]
    ensures SplitRuns(Join(parts, sep)) == parts
    decreases |parts|
  {
    if |parts| == 1 {
      SplitRunsPieces(parts[0]);
    } else {
      var tail := parts[1..];
      var rest := Join(tail, sep);
      assert Join(parts, sep) == parts[0] + sep + rest;
      JoinEnds(tail, sep);
      assert rest[0] == tail[0][0] && tail[0][0] in tail[0];
      SplitRunsCons(parts[0], sep, rest);
      assert forall i :: 0 <= i < |tail| ==> tail[i] == parts[i + 1];
      SplitRunsJoin(tail, sep);
      assert parts == [parts[0]] + tail;
    }
  }

  /** Each piece trimmed, as `.map((p) => p.trim())` does. */
  function TrimEach(parts: seq<string>): (r: seq<string>)
    ensures |r| == |parts|
    ensures forall i :: 0 <= i < |r| ==> r[i] == Trim(parts[i])
  {
    seq(|parts|, i requires 0 <= i < |parts| => Trim(parts[i]))
  }

  /** `normalizeContent(raw, type)`: line endings first, then the rule for the kind. */
  function NormalizeContent(raw: string, kind: string): string
  {
    var content := ReplaceCRLF(raw);
    if kind == CodeKind then Strip(content, Newline)
    else NormalizeText(Trim(content))
  }

  /** The rule for every kind but code, applied to the trimmed text: text with
      a line that starts a list item is kept as it is; any other text becomes
      paragraphs. */
  function NormalizeText(trimmed: string): string
  {
    if Contains(trimmed, "\n- ") then trimmed else Paragraphs(trimmed)
  }

  /** The separator the paragraph rule puts between pieces: one blank line. */
  const BlankLine: string := "\n\n"

  /** Split at runs of line feeds, trim each piece, join with one blank line. */
  function Paragraphs(trimmed: string): string
  {
    Join(TrimEach(SplitRuns(trimmed)), BlankLine)
  }

  /** The text a non-code block is split into paragraphs from. */
  function Trimmed(raw: string): string
  {
    Trim(ReplaceCRLF(raw))
  }

  /** Non-code text that takes the list branch. */
  predicate IsListText(raw: string)
  {
    Contains(Trimmed(raw), "\n- ")
  }

  /** No line of the text is blank (empty or whitespace only). */
  predicate NoBlankLine(t: string)
  {
    var lines := SplitRuns(t);
    forall i :: 0 <= i < |lines| ==> Trim(lines[i]) != []
  }

  /** Code: the CR LF-normalised text minus its leading and trailing line feeds;
      indentation, spaces and inner blank lines are kept as they are. */
  lemma {:induction false} NormalizeCode(raw: string)
    ensures var c := ReplaceCRLF(raw);
            var r := NormalizeContent(raw, CodeKind);
            var lead := |c| - |DropPrefixWhile(c, Newline)|;
            && lead + |r| <= |c|
            && r == c[lead..lead + |r|]
            && AllBetween(c, 0, lead, Newline)
            && AllBetween(c, lead + |r|, |c|, Newline)
            && (r == [] || (r[0] != '\n' && r[|r| - 1] != '\n'))
  {
    var c := ReplaceCRLF(raw);
    assert NormalizeContent(raw, CodeKind) == Strip(c, Newline);
    StripRemovesOnlyEdges(c, Newline);
  }

  /** Any kind but code: the result has no whitespace at either end, and text
      that takes the list branch comes back exactly as trimmed. */
  lemma {:induction false} NormalizeTrimmed(raw: string, kind: string)
    requires kind != CodeKind
    ensures var r := NormalizeContent(raw, kind);
            r == [] || (!IsSpace(r[0]) && !IsSpace(r[|r| - 1]))
    ensures IsListText(raw) ==> NormalizeContent(raw, kind) == Trimmed(raw)
  {
    if !IsListText(raw) {
      ParagraphsTrimmed(Trimmed(raw));
    }
  }

  /** A text that does not start with a line feed starts its first piece. */
  lemma {:induction false} FirstPieceKeepsStart(t: string)
    requires t != [] && t[0] != '\n'
    ensures SplitRuns(t)[0] != [] && SplitRuns(t)[0][0] == t[0]
  {
    SplitRunsFirst(t);
  }

  /** A text that does not end with a line feed ends its last piece. */
  lemma {:induction false} LastPieceKeepsEnd(t: string)
    requires t != [] && t[|t| - 1] != '\n'
    ensures LastPiece(t) != [] && LastPiece(t)[|LastPiece(t)| - 1] == t[|t| - 1]
  {
    SplitRunsLast(t);
    SplitRunsLastEmpty(t);
  }

  /** Paragraphs of a trimmed text are trimmed as a whole. */
  lemma {:induction false} ParagraphsTrimmed(t: string)
    requires t == [] || (!IsSpace(t[0]) && !IsSpace(t[|t| - 1]))
    ensures var r := Paragraphs(t);
            r == [] || (!IsSpace(r[0]) && !IsSpace(r[|r| - 1]))
  {
    var ps := SplitRuns(t);
    var qs := TrimEach(ps);
    if t == [] {
      assert qs == [[]];
    } else {
      FirstPieceKeepsStart(t);
      LastPieceKeepsEnd(t);
      var first, last := ps[0], LastPiece(t);
      TrimKeepsEnds(first);
      TrimKeepsEnds(last);
      assert qs[0] == Trim(first);
      assert qs[|qs| - 1] == Trim(last);
      JoinEnds(qs, BlankLine);
    }
  }

  /** Under NoBlankLine every trimmed piece is non-empty, free of line feeds
      and its own trim. */
  lemma {:induction false} TrimmedPieces(t: string, qs: seq<string>)
    requires NoBlankLine(t) && qs == TrimEach(SplitRuns(t))
    ensures forall i :: 0 <= i < |qs| ==> qs[i] != [] && '\n' !in qs[i] && Trim(qs[i]) == qs[i]
  {
    var ps := SplitRuns(t);
    SplitRunsPieces(t);
    forall i | 0 <= i < |qs|
      ensures qs[i] != [] && '\n' !in qs[i] && Trim(qs[i]) == qs[i]
    {
      assert '\n' !in ps[i];
      TrimKeepsAbsent(ps[i], '\n');
      TrimOfTrimmed(qs[i]);
    }
  }

  /** When no line is blank, the paragraphs are separated by exactly one blank
      line: splitting the result at runs of line feeds gives back the trimmed
      pieces, and joining those with a blank line gives back the result. */
  lemma {:induction false} ParagraphsSeparated(t: string)
    requires NoBlankLine(t)
    ensures var r := Paragraphs(t);
            && SplitRuns(r) == TrimEach(SplitRuns(t))
            && r == Join(SplitRuns(r), BlankLine)
  {
    var qs := TrimEach(SplitRuns(t));
    TrimmedPieces(t, qs);
    assert All(BlankLine, Newline);
    SplitRunsJoin(qs, BlankLine);
  }

  /** Joining line-feed-free pieces that do not end with a carriage return with
      a blank line creates no CR LF pair. */
  lemma {:induction false} JoinKeepsNoPair(parts: seq<string>)
    requires forall i :: 0 <= i < |parts| ==> '\n' !in parts[i] && (parts[i] == [] || parts[i][|parts[i]| - 1] != '\r')
    ensures ReplaceCRLF(Join(parts, BlankLine)) == Join(parts, BlankLine)
    decreases |parts|
  {
    if |parts| == 1 {
      ReplaceCRLFNoNewline(parts[0]);
    } else if |parts| > 1 {
      var p, tail := parts[0], parts[1..];
      var rest := Join(tail, BlankLine);
      assert Join(parts, BlankLine) == p + (BlankLine + rest);
      assert forall i :: 0 <= i < |tail| ==> tail[i] == parts[i + 1];
      JoinKeepsNoPair(tail);
      ReplaceCRLFNoNewline(p);
      ReplaceCRLFConcat(p, BlankLine + rest);
      var u := BlankLine + rest;
      assert u[1..] == "\n" + rest && u[1..][1..] == rest;
    }
  }

  /** Paragraph text normalises to itself: with no blank line, normalising the
      result again changes nothing. */
  lemma {:induction false} NormalizeParagraphsIdempotent(raw: string, kind: string)
    requires kind != CodeKind && !IsListText(raw)
    requires NoBlankLine(Trimmed(raw))
    ensures var r := NormalizeContent(raw, kind);
            NormalizeContent(r, kind) == r
  {
    var t := Trimmed(raw);
    var r := Paragraphs(t);
    var qs := TrimEach(SplitRuns(t));
    assert NormalizeContent(raw, kind) == r;
    TrimmedPieces(t, qs);
    forall i | 0 <= i < |qs|
      ensures '\n' !in qs[i] && (qs[i] == [] || qs[i][|qs[i]| - 1] != '\r')
    {
      assert qs[i] == Trim(SplitRuns(t)[i]);
    }
    JoinKeepsNoPair(qs);
    ParagraphsTrimmed(t);
    TrimOfTrimmed(r);
    if !Contains(r, "\n- ") {
      ParagraphsSeparated(t);
      assert TrimEach(qs) == qs;
    }
  }

  /** Code normalises to itself, provided the result holds no CR LF pair (a
      "\r\r\n" in the block leaves one behind). */
  lemma {:induction false} NormalizeCodeIdempotent(raw: string)
    requires !HasCRLF(NormalizeContent(raw, CodeKind))
    ensures var r := NormalizeContent(raw, CodeKind);
            NormalizeContent(r, CodeKind) == r
  {
    var r := NormalizeContent(raw, CodeKind);
    ReplaceCRLFNoPair(r);
    StripOfStripped(r, Newline);
  }

  /** List text normalises to itself, under the same proviso as code. */
  lemma {:induction false} NormalizeListIdempotent(raw: string, kind: string)
    requires kind != CodeKind && IsListText(raw)
    requires !HasCRLF(Trimmed(raw))
    ensures var r := NormalizeContent(raw, kind);
            NormalizeContent(r, kind) == r
  {
    var r := Trimmed(raw);
    assert NormalizeContent(raw, kind) == r;
    ReplaceCRLFNoPair(r);
    TrimOfTrimmed(r);
  }

  /** Text made only of whitespace trims to nothing. */
  lemma {:induction false} TrimBlank(w: string)
    requires All(w, Space)
    ensures Trim(w) == []
  {
    assert w + [] == w;
    DropPrefixWhileExact(w, [], Space);
    assert DropPrefixWhile(w, Space) == [];
  }

  /** Three line-feed-free lines, the last two non-empty, split into themselves. */
  lemma {:induction false} SplitRunsThree(a: string, w: string, b: string)
    requires '\n' !in a && '\n' !in w && '\n' !in b && w != [] && b != []
    ensures SplitRuns(a + "\n" + w + "\n" + b) == [a, w, b]
  {
    assert b[0] in b && w[0] in w;
    SplitRunsPieces(b);
    SplitRunsCons(w, "\n", b);
    assert a + "\n" + w + "\n" + b == a + "\n" + (w + "\n" + b);
    SplitRunsCons(a, "\n", w + "\n" + b);
  }

  /** A whitespace-only line between two lines becomes an empty paragraph, so
      the result holds two blank lines in a row. */
  lemma {:induction false} BlankLineGivesEmptyParagraph(a: string, w: string, b: string)
    requires a != [] && '\n' !in a && Trim(a) == a
    requires b != [] && '\n' !in b && Trim(b) == b
    requires w != [] && '\n' !in w && All(w, Space)
    ensures Paragraphs(a + "\n" + w + "\n" + b) == a + "\n\n\n\n" + b
  {
    SplitRunsThree(a, w, b);
    TrimBlank(w);
    var qs := TrimEach([a, w, b]);
    assert qs == [a, [], b];
    assert qs[1..] == [[], b] && qs[1..][1..] == [b];
    assert Join(qs[1..], BlankLine) == [] + BlankLine + b;
    assert Join(qs, BlankLine) == a + BlankLine + ([] + BlankLine + b);
    assert a + BlankLine + ([] + BlankLine + b) == a + "\n\n\n\n" + b;
  }

  /** ... and normalising that result again merges the two blank lines: the
      paragraph rule is not idempotent when a line is blank. */
  lemma {:induction false} EmptyParagraphMerged(a: string, b: string)
    requires a != [] && '\n' !in a && Trim(a) == a
    requires b != [] && '\n' !in b && Trim(b) == b
    ensures Paragraphs(a + "\n\n\n\n" + b) == a + BlankLine + b
  {
    assert b[0] in b;
    SplitRunsPieces(b);
    assert All("\n\n\n\n", Newline);
    SplitRunsCons(a, "\n\n\n\n", b);
    assert SplitRuns(a + "\n\n\n\n" + b) == [a, b];
    var qs := TrimEach([a, b]);
    assert qs == [a, b];
    assert qs[1..] == [b];
    assert Join(qs, BlankLine) == a + BlankLine + b;
  }

  /** A CR before a CR LF pair leaves a pair behind, which a second pass rewrites. */
  lemma LoneCRNotIdempotent()
    ensures NormalizeContent("x\r\r\ny", CodeKind) == "x\r\ny"
    ensures NormalizeContent("x\r\ny", CodeKind) == "x\ny"
  {
    assert ReplaceCRLF("y") == "y";
    assert ReplaceCRLF("\r\ny") == "\ny";
    assert ReplaceCRLF("\r\r\ny") == "\r\ny";
    assert ReplaceCRLF("x\r\r\ny") == "x\r\ny";
    assert ReplaceCRLF("x\r\ny") == "x\ny";
    StripOfStripped("x\r\ny", Newline);
    StripOfStripped("x\ny", Newline);
  }
}
