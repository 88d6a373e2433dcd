/** The JavaScript string operations the chat page relies on: `trim`,
    `startsWith`, `includes`, `split` on one character, and `+=` folded over
    a list. Strings are sequences of characters. */
module JsString {

  /** The characters `String.prototype.trim` removes: the ECMAScript
      WhiteSpace set (tab, vertical tab, form feed, space, no-break space,
      byte-order mark and the Unicode space separators) and the
      LineTerminator set (line feed, carriage return, line and paragraph
      separators). Tab, line feed, vertical tab, form feed and carriage
      return are the consecutive code points 9 to 13. */
  predicate IsWhitespace(c: char) {
    || '\t' <= c <= '\r'
    || c == ' ' || c == '\U{00A0}' || c == '\U{1680}'
    || '\U{2000}' <= c <= '\U{200A}'
    || c == '\U{2028}' || c == '\U{2029}' || c == '\U{202F}' || c == '\U{205F}'
    || c == '\U{3000}' || c == '\U{FEFF}'
  }

  /** Every character of `s` is whitespace. */
  predicate AllWhitespace(s: string) {
    forall i :: 0 <= i < |s| ==> IsWhitespace(s[i])
  }

  /** Removes the leading whitespace. */
  function TrimStart(s: string): string {
    if |s| > 0 && IsWhitespace(s[0]) then TrimStart(s[1..]) else s
  }

  /** Removes the trailing whitespace. */
  function TrimEnd(s: string): string {
    if |s| > 0 && IsWhitespace(s[|s| - 1]) then TrimEnd(s[..|s| - 1]) else s
  }

  /** `s.trim()`. */
  function Trim(s: string): string {
    TrimEnd(TrimStart(s))
  }

  /** `r` is `s` with its leading run of whitespace removed: a suffix of
      `s` that does not start with whitespace, after only whitespace. */
  predicate LeadingTrimmed(s: string, r: string) {
    && |r| <= |s| && r == s[|s| - |r|..]
    && AllWhitespace(s[..|s| - |r|])
    && (r != [] ==> !IsWhitespace(r[0]))
  }

  /** `r` is `s` with its trailing run of whitespace removed: a prefix of
      `s` that does not end with whitespace, before only whitespace. */
  predicate TrailingTrimmed(s: string, r: string) {
    && |r| <= |s| && r == s[..|r|]
    && AllWhitespace(s[|r|..])
    && (r != [] ==> !IsWhitespace(r[|r| - 1]))
  }

  /** `TrimStart` removes exactly the leading run of whitespace. */
  lemma {:induction false} TrimStartSpec(s: string)
    ensures LeadingTrimmed(s, TrimStart(s))
  {
    if s != [] && IsWhitespace(s[0]) {
      TrimStartSpec(s[1..]);
      TrimStartStep(s, TrimStart(s[1..]));
    } else {
      assert s[..0] == [];
    }
  }

  /** Dropping one leading whitespace character more. */
  lemma TrimStartStep(s: string, r: string)
    requires s != [] && IsWhitespace(s[0])
    requires LeadingTrimmed(s[1..], r)
    ensures LeadingTrimmed(s, r)
  {
    var tail := s[1..];
    assert s[|s| - |r|..] == tail[|tail| - |r|..];
    var dropped := s[..|s| - |r|];
    forall i | 0 <= i < |dropped| ensures IsWhitespace(dropped[i]) {
      if i > 0 {
        assert dropped[i] == tail[..|tail| - |r|][i - 1];
      }
    }
  }

  /** `TrimEnd` removes exactly the trailing run of whitespace. */
  lemma {:induction false} TrimEndSpec(s: string)
    ensures TrailingTrimmed(s, TrimEnd(s))
  {
    if s != [] && IsWhitespace(s[|s| - 1]) {
      TrimEndSpec(s[..|s| - 1]);
      TrimEndStep(s, TrimEnd(s[..|s| - 1]));
    } else {
      assert s[|s|..] == [];
    }
  }

  /** Dropping one trailing whitespace character more. */
  lemma TrimEndStep(s: string, r: string)
    requires s != [] && IsWhitespace(s[|s| - 1])
    requires TrailingTrimmed(s[..|s| - 1], r)
    ensures TrailingTrimmed(s, r)
  {
    var init := s[..|s| - 1];
    assert s[..|r|] == init[..|r|];
    var dropped := s[|r|..];
    forall i | 0 <= i < |dropped| ensures IsWhitespace(dropped[i]) {
      if i < |dropped| - 1 {
        assert dropped[i] == init[|r|..][i];
      }
    }
  }

  /** `s.trim()` is the slice `s[k..k + |r|]` left once the whitespace at
      both ends is removed: all that lies around it is whitespace and it
      neither starts nor ends with whitespace. */
  lemma TrimSpec(s: string)
    ensures var r := Trim(s);
      && (exists k :: 0 <= k <= |s| - |r| && r == s[k..k + |r|]
                      && AllWhitespace(s[..k]) && AllWhitespace(s[k + |r|..]))
      && (r != [] ==> !IsWhitespace(r[0]) && !IsWhitespace(r[|r| - 1]))
  {
    var t := TrimStart(s);
    TrimStartSpec(s);
    TrimEndSpec(t);
    TrimBothEnds(s, t, TrimEnd(t));
  }

  /** Trimming the end of what trimming the start left: the result is the
      slice after the leading whitespace and before the trailing
      whitespace. */
  lemma TrimBothEnds(s: string, t: string, r: string)
    requires LeadingTrimmed(s, t) && TrailingTrimmed(t, r)
    ensures var k := |s| - |t|;
      && 0 <= k <= |s| - |r| && r == s[k..k + |r|]
      && AllWhitespace(s[..k]) && AllWhitespace(s[k + |r|..])
      && (r != [] ==> !IsWhitespace(r[0]) && !IsWhitespace(r[|r| - 1]))
  {
    var k := |s| - |t|;
    assert s[k + |r|..] == t[|r|..];
    assert r == t[..|r|] == s[k..k + |r|];
    if r != [] {
      assert r[0] == t[0];
    }
  }

  /** `s.trim()` is empty exactly when `s` is nothing but whitespace. */
  lemma TrimBlank(s: string)
    ensures Trim(s) == [] <==> AllWhitespace(s)
  {
    TrimSpec(s);
    var r := Trim(s);
    var k :| 0 <= k <= |s| - |r| && r == s[k..k + |r|] && AllWhitespace(s[..k]) && AllWhitespace(s[k + |r|..]);
    if r == [] {
      assert s == s[..k] + s[k..];
      forall i | 0 <= i < |s| ensures IsWhitespace(s[i]) {
        if i < k { assert s[i] == s[..k][i]; } else { assert s[i] == s[k..][i - k]; }
      }
    } else {
      assert r[0] == s[k];
    }
  }

  /** `s.startsWith(prefix)`. */
  predicate StartsWith(s: string, prefix: string) {
    |prefix| <= |s| && s[..|prefix|] == prefix
  }

  /** `sub` occurs in `s` starting at position `i`. */
  predicate OccursAt(s: string, sub: string, i: int) {
    0 <= i <= |s| - |sub| && s[i..i + |sub|] == sub
  }

  /** `s.includes(sub)`. */
  function Contains(s: string, sub: string): bool {
    if |s| < |sub| then false
    else if s[..|sub|] == sub then true
    else Contains(s[1..], sub)
  }

  /** `Contains` holds exactly when `sub` occurs in `s` at some position. */
  lemma {:induction false} ContainsSpec(s: string, sub: string)
    ensures Contains(s, sub) <==> exists i :: OccursAt(s, sub, i)
  {
    if |s| < |sub| {
    } else if s[..|sub|] == sub {
      assert OccursAt(s, sub, 0);
    } else {
      ContainsSpec(s[1..], sub);
      OccursInTail(s, sub);
      assert forall i :: OccursAt(s, sub, i) ==> OccursAt(s[1..], sub, i - 1);
    }
  }

  /** Past position 0, an occurrence in `s` is an occurrence in its tail. */
  lemma OccursInTail(s: string, sub: string)
    requires |s| > 0
    ensures forall j :: 0 <= j ==> (OccursAt(s, sub, j + 1) <==> OccursAt(s[1..], sub, j))
  {
    forall j | 0 <= j ensures OccursAt(s, sub, j + 1) <==> OccursAt(s[1..], sub, j) {
      if j <= |s| - 1 - |sub| {
        var here, there := s[j + 1..j + 1 + |sub|], s[1..][j..j + |sub|];
        assert |here| == |there|;
        forall k | 0 <= k < |sub| ensures here[k] == there[k] {
          assert here[k] == s[j + 1 + k] && there[k] == s[1..][j + k];
        }
        assert here == there;
      }
    }
  }

  /** A string that lacks one of the characters of `sub` cannot contain it. */
  lemma MissingCharNotContained(s: string, sub: string, c: char)
    requires c in sub && c !in s
    ensures !Contains(s, sub)
  {
    ContainsSpec(s, sub);
  }

  /** `s.split(sep)` for a one-character separator: the pieces between the
      occurrences of `sep`, in order. The empty string gives one empty
      piece, and a trailing separator gives a trailing empty piece. */
  function Split(s: string, sep: char): (r: seq<string>)
    ensures |r| >= 1
  {
    if |s| == 0 then [""]
    else if s[0] == sep then [""] + Split(s[1..], sep)
    else
      var rest := Split(s[1..], sep);
      [[s[0]] + rest[0]] + rest[1..]
  }

  /** No piece holds the separator. */
  lemma {:induction false} SplitPieces(s: string, sep: char)
    ensures forall k :: 0 <= k < |Split(s, sep)| ==> sep !in Split(s, sep)[k]
  {
    if s != [] {
      SplitPieces(s[1..], sep);
    }
  }

  /** `pieces.join(sep)`: the inverse of `Split`. */
  function Join(pieces: seq<string>, sep: char): string {
    if |pieces| == 0 then ""
    else if |pieces| == 1 then pieces[0]
    else pieces[0] + [sep] + Join(pieces[1..], sep)
  }

  /** Joining the pieces back with the separator gives the string again. */
  lemma {:induction false} JoinSplit(s: string, sep: char)
    ensures Join(Split(s, sep), sep) == s
  {
    if s == [] {
    } else if s[0] == sep {
      JoinSplit(s[1..], sep);
      var rest := Split(s[1..], sep);
      assert Split(s, sep)[1..] == rest;
    } else {
      JoinSplit(s[1..], sep);
      var rest := Split(s[1..], sep);
      if |rest| == 1 {
        assert Join(rest, sep) == rest[0];
      } else {
        assert Join(rest, sep) == rest[0] + [sep] + Join(rest[1..], sep);
        assert Split(s, sep)[1..] == rest[1..];
      }
    }
  }

  /** Splitting a join of separator-free pieces gives the pieces back. */
  lemma {:induction false} SplitJoin(pieces: seq<string>, sep: char)
    requires |pieces| >= 1
    requires forall k :: 0 <= k < |pieces| ==> sep !in pieces[k]
    ensures Split(Join(pieces, sep), sep) == pieces
  {
    if |pieces| == 1 {
      SplitWithoutSeparator(pieces[0], sep);
    } else {
      SplitJoin(pieces[1..], sep);
      var tail := Join(pieces[1..], sep);
      SplitAround(pieces[0], tail, sep);
      SplitWithoutSeparator(pieces[0], sep);
      assert Join(pieces, sep) == pieces[0] + [sep] + tail;
      assert [pieces[0]] + pieces[1..] == pieces;
    }
  }

  /** A string with no separator in it is a single piece. */
  lemma {:induction false} SplitWithoutSeparator(s: string, sep: char)
    requires sep !in s
    ensures Split(s, sep) == [s]
  {
    if s != [] {
      SplitWithoutSeparator(s[1..], sep);
      assert [s[0]] + s[1..] == s;
    }
  }

  /** Splitting at one occurrence of the separator splits the pieces list
      there: the pieces of `x` followed by the pieces of `y`. */
  lemma {:induction false} SplitAround(x: string, y: string, sep: char)
    ensures Split(x + [sep] + y, sep) == Split(x, sep) + Split(y, sep)
  {
    if x == [] {
      assert x + [sep] + y == [sep] + y;
      SplitCons(sep, y, sep);
    } else {
      SplitAround(x[1..], y, sep);
      SplitAroundStep(x, y, sep);
    }
  }

  /** The step of `SplitAround`: from the tail of `x` to `x`. */
  lemma SplitAroundStep(x: string, y: string, sep: char)
    requires x != []
    requires Split(x[1..] + [sep] + y, sep) == Split(x[1..], sep) + Split(y, sep)
    ensures Split(x + [sep] + y, sep) == Split(x, sep) + Split(y, sep)
  {
    if x[0] == sep {
      SplitAroundSeparator(x, y, sep);
    } else {
      SplitAroundPiece(x, y, sep);
    }
  }

  /** `SplitAroundStep` when `x` starts with the separator. */
  lemma SplitAroundSeparator(x: string, y: string, sep: char)
    requires x != [] && x[0] == sep
    requires Split(x[1..] + [sep] + y, sep) == Split(x[1..], sep) + Split(y, sep)
    ensures Split(x + [sep] + y, sep) == Split(x, sep) + Split(y, sep)
  {
    var s := x + [sep] + y;
    assert s[0] == x[0] && s[1..] == x[1..] + [sep] + y;
    var rest, more := Split(x[1..], sep), Split(y, sep);
    assert [""] + (rest + more) == ([""] + rest) + more;
  }

  /** `SplitAroundStep` when `x` starts with an ordinary character. */
  lemma SplitAroundPiece(x: string, y: string, sep: char)
    requires x != [] && x[0] != sep
    requires Split(x[1..] + [sep] + y, sep) == Split(x[1..], sep) + Split(y, sep)
    ensures Split(x + [sep] + y, sep) == Split(x, sep) + Split(y, sep)
  {
    var s := x + [sep] + y;
    assert s[0] == x[0] && s[1..] == x[1..] + [sep] + y;
    GrowFirstPiece([x[0]], Split(x[1..], sep), Split(y, sep));
  }

  /** Splitting a string that starts with character `c`. */
  lemma SplitCons(c: char, t: string, sep: char)
    ensures Split([c] + t, sep) ==
      if c == sep then [""] + Split(t, sep) else [[c] + Split(t, sep)[0]] + Split(t, sep)[1..]
  {
    assert ([c] + t)[0] == c && ([c] + t)[1..] == t;
  }

  /** Gluing `p` onto the first piece commutes with appending more pieces. */
  lemma GrowFirstPiece(p: string, pieces: seq<string>, more: seq<string>)
    requires |pieces| >= 1
    ensures [p + (pieces + more)[0]] + (pieces + more)[1..] == ([p + pieces[0]] + pieces[1..]) + more
  {
    assert (pieces + more)[1..] == pieces[1..] + more;
  }

  /** The strings of `ss` glued together in order (what repeated `+=` builds). */
  function Concat(ss: seq<string>): string {
    if |ss| == 0 then "" else Concat(ss[..|ss| - 1]) + ss[|ss| - 1]
  }

  /** Gluing one more string on the end. */
  lemma ConcatSnoc(ss: seq<string>, s: string)
    ensures Concat(ss + [s]) == Concat(ss) + s
  {
    assert (ss + [s])[..|ss|] == ss;
  }

  /** Gluing distributes over appending lists. */
  lemma {:induction false} ConcatAppend(a: seq<string>, b: seq<string>)
    ensures Concat(a + b) == Concat(a) + Concat(b)
  {
    if b == [] {
      assert a + b == a;
    } else {
      ConcatAppend(a, b[..|b| - 1]);
      assert (a + b)[..|a + b| - 1] == a + b[..|b| - 1];
    }
  }
}
