/** The JavaScript string operations the parser and the link extractor rely on,
    written out over `seq<char>`: `trim`, the CR LF rewrite, `split` on
    one character, `join`, `startsWith`, `endsWith` and `includes`. */
module Text {
  /** The code points `String.prototype.trim` removes: JavaScript's WhiteSpace
      (tab, vertical tab, form feed, space, no-break space, byte order mark and
      every other space separator) and LineTerminator (line feed, carriage
      return, line separator, paragraph separator). */
  predicate IsSpace(c: char) {
    || c == '\t' || c == '\n' || c == '\U{000B}' || c == '\U{000C}' || c == '\r'
    || c == ' ' || c == '\U{00A0}' || c == '\U{1680}'
    || ('\U{2000}' <= c <= '\U{200A}')
    || c == '\U{2028}' || c == '\U{2029}' || c == '\U{202F}' || c == '\U{205F}'
    || c == '\U{3000}' || c == '\U{FEFF}'
  }

  /** The two kinds of characters the parser strips from the ends of a text. */
  datatype CharClass = Space | Newline

  predicate In(cls: CharClass, c: char) {
    match cls
    case Space => IsSpace(c)
    case Newline => c == '\n'
  }

  predicate All(s: string, cls: CharClass) {
    forall i :: 0 <= i < |s| ==> In(cls, s[i])
  }

  /** Every character of s at a position in [lo, hi) belongs to the class. */
  predicate AllBetween(s: string, lo: int, hi: int, cls: CharClass)
    requires 0 <= lo <= hi <= |s|
  {
    forall i :: lo <= i < hi ==> In(cls, s[i])
  }

  predicate StartsWith(s: string, prefix: string) {
    |prefix| <= |s| && s[..|prefix|] == prefix
  }

  predicate EndsWith(s: string, suffix: string) {
    |suffix| <= |s| && s[|s| - |suffix|..] == suffix
  }

  /** A prefix of the text after its first character, with that character in front, is a prefix. */
  lemma {:induction false} StartsWithCons(s: string, p: string)
    requires s != [] && StartsWith(s[1..], p)
    ensures StartsWith(s, [s[0]] + p)
    ensures |p| < |s[1..]| ==> s[|p| + 1] == s[1..][|p|]
  {
    assert s[..|p| + 1] == [s[0]] + s[1..][..|p|];
  }

  /** A suffix of a suffix is a suffix. */
  lemma {:induction false} EndsWithTrans(a: string, b: string, c: string)
    requires EndsWith(a, b) && EndsWith(b, c)
    ensures EndsWith(a, c)
  {
    assert a[|a| - |c|..] == a[|a| - |b|..][|b| - |c|..];
  }

  /** `s.includes(t)`: t occurs somewhere in s. */
  predicate Contains(s: string, t: string)
    decreases |s|
  {
    StartsWith(s, t) || (s != [] && Contains(s[1..], t))
  }

  /** `includes` holds exactly when t starts at some position of s. */
  lemma {:induction false} ContainsAt(s: string, t: string)
    ensures Contains(s, t) <==> exists i :: 0 <= i <= |s| && StartsWith(s[i..], t)
    decreases |s|
  {
    if Contains(s, t) {
      if StartsWith(s, t) {
        assert s[0..] == s;
      } else {
        ContainsAt(s[1..], t);
        var j :| 0 <= j <= |s[1..]| && StartsWith(s[1..][j..], t);
        assert s[1..][j..] == s[j + 1..];
      }
    }
    if exists i :: 0 <= i <= |s| && StartsWith(s[i..], t) {
      var i :| 0 <= i <= |s| && StartsWith(s[i..], t);
      if i == 0 {
        assert s[0..] == s;
      } else {
        assert s[1..][i - 1..] == s[i..];
        ContainsAt(s[1..], t);
      }
    }
  }

  /** Removes the longest prefix whose characters all belong to the class. */
  function DropPrefixWhile(s: string, cls: CharClass): (r: string)
    ensures |r| <= |s|
    ensures r == [] || !In(cls, r[0])
    decreases |s|
  {
    if s != [] && In(cls, s[0]) then DropPrefixWhile(s[1..], cls) else s
  }

  /** What DropPrefixWhile keeps is a suffix of its input. */
  lemma {:induction false} DropPrefixWhileSuffix(s: string, cls: CharClass)
    ensures var r := DropPrefixWhile(s, cls); r == s[|s| - |r|..]
    decreases |s|
  {
    if s != [] && In(cls, s[0]) {
      DropPrefixWhileSuffix(s[1..], cls);
    }
  }

  /** What DropPrefixWhile removes belongs to the class. */
  lemma {:induction false} DropPrefixWhileDropped(s: string, cls: CharClass)
    ensures AllBetween(s, 0, |s| - |DropPrefixWhile(s, cls)|, cls)
    decreases |s|
  {
    if s != [] && In(cls, s[0]) {
      DropPrefixWhileDropped(s[1..], cls);
    }
  }

  /** Removes the longest suffix whose characters all belong to the class. */
  function DropSuffixWhile(s: string, cls: CharClass): (r: string)
    ensures |r| <= |s|
    ensures r == [] || !In(cls, r[|r| - 1])
    decreases |s|
  {
    if s != [] && In(cls, s[|s| - 1]) then DropSuffixWhile(s[..|s| - 1], cls) else s
  }

  /** What DropSuffixWhile keeps is a prefix of its input. */
  lemma {:induction false} DropSuffixWhilePrefix(s: string, cls: CharClass)
    ensures var r := DropSuffixWhile(s, cls); r == s[..|r|]
    decreases |s|
  {
    if s != [] && In(cls, s[|s| - 1]) {
      DropSuffixWhilePrefix(s[..|s| - 1], cls);
    }
  }

  /** What DropSuffixWhile removes belongs to the class. */
  lemma {:induction false} DropSuffixWhileDropped(s: string, cls: CharClass)
    ensures AllBetween(s, |DropSuffixWhile(s, cls)|, |s|, cls)
    decreases |s|
  {
    if s != [] && In(cls, s[|s| - 1]) {
      DropSuffixWhileDropped(s[..|s| - 1], cls);
    }
  }

  /** Removes both the longest prefix and the longest suffix made of characters of the class. */
  function Strip(s: string, cls: CharClass): (r: string)
    ensures r == [] || (!In(cls, r[0]) && !In(cls, r[|r| - 1]))
  {
    var t := DropPrefixWhile(s, cls);
    DropSuffixWhilePrefix(t, cls);
    DropSuffixWhile(t, cls)
  }

  /** Stripping removes characters of the class from the two ends and nothing else. */
  lemma {:induction false} StripRemovesOnlyEdges(s: string, cls: CharClass)
    ensures var lead := |s| - |DropPrefixWhile(s, cls)|;
            var r := Strip(s, cls);
            && lead + |r| <= |s|
            && r == s[lead..lead + |r|]
            && AllBetween(s, 0, lead, cls)
            && AllBetween(s, lead + |r|, |s|, cls)
  {
    DropPrefixWhileDropped(s, cls);
    StripIsSlice(s, cls);
    StripTail(s, cls);
  }

  lemma {:induction false} StripIsSlice(s: string, cls: CharClass)
    ensures var lead := |s| - |DropPrefixWhile(s, cls)|;
            var r := Strip(s, cls);
            lead + |r| <= |s| && r == s[lead..lead + |r|]
  {
    var t := DropPrefixWhile(s, cls);
    var r := DropSuffixWhile(t, cls);
    DropPrefixWhileSuffix(s, cls);
    DropSuffixWhilePrefix(t, cls);
    assert t == s[|s| - |t|..];
    assert r == t[..|r|];
  }

  lemma {:induction false} StripTail(s: string, cls: CharClass)
    ensures var lead := |s| - |DropPrefixWhile(s, cls)|;
            var r := Strip(s, cls);
            lead + |r| <= |s| && AllBetween(s, lead + |r|, |s|, cls)
  {
    var t := DropPrefixWhile(s, cls);
    var r := DropSuffixWhile(t, cls);
    var lead := |s| - |t|;
    DropPrefixWhileSuffix(s, cls);
    DropSuffixWhileDropped(t, cls);
    forall i | lead + |r| <= i < |s|
      ensures In(cls, s[i])
    {
      assert s[i] == t[i - lead];
    }
  }

  /** A text that neither starts nor ends with a character of the class is its own strip. */
  lemma {:induction false} StripOfStripped(s: string, cls: CharClass)
    requires s == [] || (!In(cls, s[0]) && !In(cls, s[|s| - 1]))
    ensures Strip(s, cls) == s
  {
    if s != [] {
      var t := DropPrefixWhile(s, cls);
      assert t == s;
      assert DropSuffixWhile(t, cls) == t;
    }
  }

  /** A prefix of characters of the class followed by text that does not start with one
      is exactly what DropPrefixWhile removes. */
  lemma {:induction false} DropPrefixWhileExact(a: string, b: string, cls: CharClass)
    requires All(a, cls)
    requires b == [] || !In(cls, b[0])
    ensures DropPrefixWhile(a + b, cls) == b
    decreases |a|
  {
    if a == [] {
      assert a + b == b;
    } else {
      assert (a + b)[1..] == a[1..] + b;
      DropPrefixWhileExact(a[1..], b, cls);
    }
  }

  /** `s.trim()`: the text between the leading and the trailing whitespace. */
  function Trim(s: string): (r: string)
    ensures r == [] || (!IsSpace(r[0]) && !IsSpace(r[|r| - 1]))
  {
    Strip(s, Space)
  }

  /** Trimming removes whitespace from the two ends and nothing else. */
  lemma {:induction false} TrimRemovesOnlyEdges(s: string)
    ensures var lead := |s| - |DropPrefixWhile(s, Space)|;
            && lead + |Trim(s)| <= |s|
            && Trim(s) == s[lead..lead + |Trim(s)|]
            && AllBetween(s, 0, lead, Space)
            && AllBetween(s, lead + |Trim(s)|, |s|, Space)
  {
    StripRemovesOnlyEdges(s, Space);
  }

  /** A first (last) character that is not whitespace survives the trim. */
  lemma {:induction false} TrimKeepsEnds(s: string)
    requires s != []
    ensures !IsSpace(s[0]) ==> Trim(s) != [] && Trim(s)[0] == s[0]
    ensures !IsSpace(s[|s| - 1]) ==> Trim(s) != [] && Trim(s)[|Trim(s)| - 1] == s[|s| - 1]
  {
    var t := DropPrefixWhile(s, Space);
    var r := DropSuffixWhile(t, Space);
    DropPrefixWhileSuffix(s, Space);
    DropSuffixWhilePrefix(t, Space);
    DropPrefixWhileDropped(s, Space);
    DropSuffixWhileDropped(t, Space);
    if !IsSpace(s[0]) {
      assert t == s;
    }
    if !IsSpace(s[|s| - 1]) {
      assert t[|t| - 1] == s[|s| - 1];
      assert r == t;
    }
  }

  /** A string that neither starts nor ends with whitespace is its own trim. */
  lemma {:induction false} TrimOfTrimmed(s: string)
    requires s == [] || (!IsSpace(s[0]) && !IsSpace(s[|s| - 1]))
    ensures Trim(s) == s
  {
    StripOfStripped(s, Space);
  }

  /** Trimming never introduces a character: what is absent from s is absent from its trim. */
  lemma {:induction false} TrimKeepsAbsent(s: string, c: char)
    requires c !in s
    ensures c !in Trim(s)
  {
    TrimRemovesOnlyEdges(s);
    var lead := |s| - |DropPrefixWhile(s, Space)|;
    forall i | 0 <= i < |Trim(s)| ensures Trim(s)[i] != c {
      assert Trim(s)[i] == s[lead + i];
    }
  }

  /** A carriage return immediately followed by a line feed at position i. */
  predicate CRLFAt(s: string, i: int) {
    0 <= i && i + 1 < |s| && s[i] == '\r' && s[i + 1] == '\n'
  }

  predicate HasCRLF(s: string) {
    exists i :: 0 <= i < |s| && CRLFAt(s, i)
  }

  /** `s.replace(/\r\n/g, "\n")`: a single left-to-right pass that turns each
      CR LF pair into one LF. A lone CR is kept. */
  function ReplaceCRLF(s: string): (r: string)
    ensures |r| <= |s|
    decreases |s|
  {
    if |s| >= 2 && s[0] == '\r' && s[1] == '\n' then "\n" + ReplaceCRLF(s[2..])
    else if s == [] then []
    else [s[0]] + ReplaceCRLF(s[1..])
  }

  /** Text without a CR LF pair, lone carriage returns included, passes unchanged. */
  lemma {:induction false} ReplaceCRLFNoPair(s: string)
    requires !HasCRLF(s)
    ensures ReplaceCRLF(s) == s
    decreases |s|
  {
    if s != [] {
      assert !CRLFAt(s, 0);
      forall i | CRLFAt(s[1..], i) ensures false {
        assert CRLFAt(s, i + 1);
      }
      ReplaceCRLFNoPair(s[1..]);
    }
  }

  /** The rewrite works piecewise, unless the cut separates a CR from its LF. */
  lemma {:induction false} ReplaceCRLFConcat(a: string, b: string)
    requires a == [] || b == [] || a[|a| - 1] != '\r' || b[0] != '\n'
    ensures ReplaceCRLF(a + b) == ReplaceCRLF(a) + ReplaceCRLF(b)
    decreases |a|, 1
  {
    if a == [] {
      assert a + b == b;
    } else if |a| >= 2 && a[0] == '\r' && a[1] == '\n' {
      ReplaceCRLFConcatPair(a, b);
    } else {
      ReplaceCRLFConcatOne(a, b);
    }
  }

  /** ReplaceCRLFConcat when a starts with a CR LF pair. */
  lemma {:induction false} ReplaceCRLFConcatPair(a: string, b: string)
    requires |a| >= 2 && a[0] == '\r' && a[1] == '\n'
    requires b == [] || a[|a| - 1] != '\r' || b[0] != '\n'
    ensures ReplaceCRLF(a + b) == ReplaceCRLF(a) + ReplaceCRLF(b)
    decreases |a|, 0
  {
    var ab := a + b;
    assert ab[0] == '\r' && ab[1] == '\n';
    assert ab[2..] == a[2..] + b;
    ReplaceCRLFConcat(a[2..], b);
  }

  /** ReplaceCRLFConcat when a starts with anything but a CR LF pair. */
  lemma {:induction false} ReplaceCRLFConcatOne(a: string, b: string)
    requires a != [] && !(|a| >= 2 && a[0] == '\r' && a[1] == '\n')
    requires b == [] || a[|a| - 1] != '\r' || b[0] != '\n'
    ensures ReplaceCRLF(a + b) == ReplaceCRLF(a) + ReplaceCRLF(b)
    decreases |a|, 0
  {
    var ab := a + b;
    assert ab[0] == a[0];
    assert !(|ab| >= 2 && ab[0] == '\r' && ab[1] == '\n') by {
      if |a| >= 2 {
        assert ab[1] == a[1];
      } else if |ab| >= 2 {
        assert ab[1] == b[0];
      }
    }
    assert ab[1..] == a[1..] + b;
    if |a| >= 2 {
      assert a[1..][|a| - 2] == a[|a| - 1];
    }
    ReplaceCRLFConcat(a[1..], b);
  }

  /** Text without a line feed has no CR LF pair, so it passes unchanged. */
  lemma {:induction false} ReplaceCRLFNoNewline(s: string)
    requires '\n' !in s
    ensures ReplaceCRLF(s) == s
    decreases |s|
  {
    if s != [] {
      assert |s| >= 2 ==> s[1] in s;
      assert s[1..] == [] || s[1..][0] in s;
      assert forall c :: c in s[1..] ==> c in s;
      ReplaceCRLFNoNewline(s[1..]);
    }
  }

  /** Text without a carriage return passes unchanged. */
  lemma {:induction false} ReplaceCRLFNoCR(s: string)
    requires '\r' !in s
    ensures ReplaceCRLF(s) == s
    decreases |s|
  {
    if s != [] {
      assert forall c :: c in s[1..] ==> c in s;
      ReplaceCRLFNoCR(s[1..]);
    }
  }

  /** Every CR LF pair becomes exactly one LF, whatever surrounds it. */
  lemma {:induction false} ReplaceCRLFSplice(a: string, b: string)
    ensures ReplaceCRLF(a + "\r\n" + b) == ReplaceCRLF(a) + "\n" + ReplaceCRLF(b)
  {
    assert a + "\r\n" + b == a + ("\r\n" + b);
    ReplaceCRLFConcat(a, "\r\n" + b);
    assert ("\r\n" + b)[2..] == b;
  }

  /** `parts.join(sep)`. */
  function Join(parts: seq<string>, sep: string): string
    decreases |parts|
  {
    if |parts| == 0 then ""
    else if |parts| == 1 then parts[0]
    else parts[0] + sep + Join(parts[1..], sep)
  }

  lemma {:induction false} JoinSnoc(parts: seq<string>, last: string, sep: string)
    requires parts != []
    ensures Join(parts + [last], sep) == Join(parts, sep) + sep + last
    decreases |parts|
  {
    if |parts| > 1 {
      assert (parts + [last])[1..] == parts[1..] + [last];
      JoinSnoc(parts[1..], last, sep);
    }
  }

  /** A joined text starts with its first part and ends with its last part. */
  lemma {:induction false} JoinEnds(parts: seq<string>, sep: string)
    requires parts != []
    ensures StartsWith(Join(parts, sep), parts[0])
    ensures EndsWith(Join(parts, sep), parts[|parts| - 1])
    decreases |parts|
  {
    if |parts| > 1 {
      JoinEnds(parts[1..], sep);
    }
  }

  /** `s.split(c)` for a one-character separator: the pieces between the
      occurrences of c, including empty ones. */
  function SplitOn(s: string, c: char): (r: seq<string>)
    ensures |r| >= 1
    decreases |s|
  {
    if s == [] then [""]
    else
      var r := SplitOn(s[1..], c);
      if s[0] == c then [""] + r else [[s[0]] + r[0]] + r[1..]
  }

  /** No piece contains the separator, and there is more than one piece
      exactly when the separator occurs. */
  lemma {:induction false} SplitOnPieces(s: string, c: char)
    ensures var r := SplitOn(s, c);
            && (forall i :: 0 <= i < |r| ==> c !in r[i])
            && (|r| > 1 <==> c in s)
    decreases |s|
  {
    if s != [] {
      SplitOnPieces(s[1..], c);
      var r := SplitOn(s[1..], c);
      if s[0] != c {
        assert c !in [s[0]] + r[0];
        assert c in s <==> c in s[1..] by {
          assert s == [s[0]] + s[1..];
        }
      }
    }
  }

  /** Joining a part that is extended at the front extends the join at the front. */
  lemma {:induction false} JoinConsHead(x: char, parts: seq<string>, sep: string)
    requires parts != []
    ensures Join([[x] + parts[0]] + parts[1..], sep) == [x] + Join(parts, sep)
  {
    var q := [[x] + parts[0]] + parts[1..];
    assert q[1..] == parts[1..];
  }

  /** Splitting and re-joining with the same separator gives the text back. */
  lemma {:induction false} JoinSplitOn(s: string, c: char)
    ensures Join(SplitOn(s, c), [c]) == s
    decreases |s|
  {
    if s != [] {
      var r := SplitOn(s[1..], c);
      JoinSplitOn(s[1..], c);
      if s[0] == c {
        assert ([""] + r)[1..] == r;
      } else {
        JoinConsHead(s[0], r, [c]);
      }
      assert s == [s[0]] + s[1..];
    }
  }

  /** When the separator occurs, the last piece is what follows its last
      occurrence; otherwise the text is the only piece. */
  lemma {:induction false} SplitOnLast(s: string, c: char)
    ensures var r := SplitOn(s, c);
            && (c !in s ==> r == [s])
            && (c in s ==> s == Join(r[..|r| - 1], [c]) + [c] + r[|r| - 1])
  {
    var r := SplitOn(s, c);
    SplitOnPieces(s, c);
    JoinSplitOn(s, c);
    if c in s {
      var init, last := r[..|r| - 1], r[|r| - 1];
      assert r == init + [last];
      JoinSnoc(init, last, [c]);
    } else {
      assert |r| == 1;
    }
  }
}
