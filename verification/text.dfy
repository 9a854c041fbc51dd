/** The string operations the record store relies on: JavaScript's
    whitespace class, lower-casing, `trim`, `includes`, and the
    whitespace-collapsing rewrite used to derive column ids. */
module Text {
  import opened Seqs

  /** JavaScript's WhiteSpace and LineTerminator code points: what the
      regular expression class `\s` matches and what `trim` strips. */
  predicate IsSpace(c: char) {
    || c == '\t' || c == '\n' || c == '\U{000B}' || c == '\U{000C}' || c == '\r' || c == ' '
    || c == '\U{00A0}' || c == '\U{1680}' || ('\U{2000}' <= c <= '\U{200A}')
    || c == '\U{2028}' || c == '\U{2029}' || c == '\U{202F}' || c == '\U{205F}'
    || c == '\U{3000}' || c == '\U{FEFF}'
  }

  /** Every character of `s` is whitespace (vacuously so for the empty string). */
  predicate AllSpace(s: string) {
    forall i :: 0 <= i < |s| ==> IsSpace(s[i])
  }

  /** No character of `s` is whitespace. */
  predicate NoSpace(s: string) {
    forall i :: 0 <= i < |s| ==> !IsSpace(s[i])
  }

  /** Lower-casing of one character, restricted to ASCII letters. */
  function LowerChar(c: char): char {
    if 'A' <= c <= 'Z' then (c as int + 32) as char else c
  }

  /** `toLowerCase`, restricted to ASCII letters. */
  function Lower(s: string): (r: string)
    ensures |r| == |s|
    ensures forall i :: 0 <= i < |s| ==> r[i] == LowerChar(s[i])
  {
    seq(|s|, i requires 0 <= i < |s| => LowerChar(s[i]))
  }

  /** Lower-casing twice is lower-casing once. */
  lemma LowerIdempotent(s: string)
    ensures Lower(Lower(s)) == Lower(s)
  {
  }

  /** Lower-casing leaves whitespace where it was. */
  lemma LowerKeepsSpaces(s: string)
    ensures forall i :: 0 <= i < |s| ==> (IsSpace(Lower(s)[i]) <==> IsSpace(s[i]))
  {
  }

  // ---------------------------------------------------------------- trim

  /** `s` without its leading whitespace. */
  function TrimStart(s: string): (r: string)
    ensures |r| <= |s|
    ensures r == s[|s| - |r|..]
    ensures AllSpace(s[..|s| - |r|])
    ensures r == [] || !IsSpace(r[0])
    ensures AllSpace(s) ==> r == []
  {
    if |s| > 0 && IsSpace(s[0]) then TrimStart(s[1..]) else s
  }

  /** `s` without its trailing whitespace. */
  function TrimEnd(s: string): (r: string)
    ensures |r| <= |s|
    ensures r == s[..|r|]
    ensures AllSpace(s[|r|..])
    ensures r == [] || !IsSpace(r[|r| - 1])
    ensures AllSpace(s) ==> r == []
  {
    if |s| > 0 && IsSpace(s[|s| - 1]) then
      var r := TrimEnd(s[..|s| - 1]);
      assert s[|r|..] == s[..|s| - 1][|r|..] + [s[|s| - 1]];
      r
    else s
  }

  /** JavaScript's `trim`: both ends stripped of whitespace. */
  function Trim(s: string): string {
    TrimEnd(TrimStart(s))
  }

  /** A string counts as blank when `trim` leaves nothing: the test `!text.trim()`. */
  predicate IsBlank(s: string) {
    Trim(s) == []
  }

  /** Trimming leaves nothing exactly when the string is all whitespace. */
  lemma BlankIffAllSpace(s: string)
    ensures IsBlank(s) <==> AllSpace(s)
  {
    var t := TrimStart(s);
    if IsBlank(s) {
      assert AllSpace(t[0..]);
      assert t == [];
      assert s[..|s|] == s;
    }
  }

  // ---------------------------------------------------------------- includes

  /** `t` occurs in `s` starting at index `i`. */
  ghost predicate OccursAt(s: string, t: string, i: int) {
    0 <= i && i + |t| <= |s| && s[i..i + |t|] == t
  }

  /** JavaScript's `s.includes(t)`: scans the start positions from left to right. */
  function Includes(s: string, t: string): bool
    decreases |s|
  {
    if |t| > |s| then false
    else if s[..|t|] == t then true
    else Includes(s[1..], t)
  }

  /** The scan finds `t` exactly when `t` occurs somewhere in `s`. */
  lemma {:induction false} IncludesIff(s: string, t: string)
    ensures Includes(s, t) <==> exists i :: OccursAt(s, t, i)
    decreases |s|
  {
    if |t| > |s| {
    } else if s[..|t|] == t {
      assert OccursAt(s, t, 0);
    } else {
      IncludesIff(s[1..], t);
      if Includes(s[1..], t) {
        var i :| OccursAt(s[1..], t, i);
        assert s[1..][i..i + |t|] == s[i + 1..i + 1 + |t|];
        assert OccursAt(s, t, i + 1);
      }
      if exists i :: OccursAt(s, t, i) {
        var i :| OccursAt(s, t, i);
        assert s[0..|t|] == s[..|t|];
        assert i != 0;
        assert s[1..][i - 1..i - 1 + |t|] == s[i..i + |t|];
        assert OccursAt(s[1..], t, i - 1);
      }
    }
  }

  /** A string lacking the first character of `t` does not include `t`. */
  lemma MissingFirstCharExcludes(s: string, t: string)
    requires t != [] && t[0] !in s
    ensures !Includes(s, t)
  {
    IncludesIff(s, t);
  }

  /** The empty string is included in every string. */
  lemma IncludesEmpty(s: string)
    ensures Includes(s, [])
  {
  }

  // ---------------------------------------------------------------- id slugs

  /** `s.replace(/\s+/g, '_')`: every maximal run of whitespace becomes one `_`. */
  function CollapseSpaces(s: string): (r: string)
    ensures |r| <= |s|
    ensures NoSpace(r)
    decreases |s|
  {
    if |s| == 0 then []
    else if IsSpace(s[0]) then "_" + CollapseSpaces(TrimStart(s[1..]))
    else [s[0]] + CollapseSpaces(s[1..])
  }

  /** A string without whitespace is left alone by the collapse. */
  lemma {:induction false} CollapseWithoutSpaces(s: string)
    requires NoSpace(s)
    ensures CollapseSpaces(s) == s
  {
    if |s| > 0 {
      CollapseWithoutSpaces(s[1..]);
    }
  }

  /** Trimming the start of a whitespace run followed by text that does not start
      with whitespace leaves exactly that text. */
  lemma {:induction false} TrimStartRun(w: string, b: string)
    requires AllSpace(w)
    requires b == [] || !IsSpace(b[0])
    ensures TrimStart(w + b) == b
    decreases |w|
  {
    if |w| == 0 {
      assert w + b == b;
    } else {
      assert (w + b)[1..] == w[1..] + b;
      TrimStartRun(w[1..], b);
    }
  }

  /** A maximal whitespace run becomes a single `_`: a non-empty run followed by
      the end or by a non-space character collapses to one underscore. */
  lemma CollapseRun(w: string, b: string)
    requires |w| > 0 && AllSpace(w)
    requires b == [] || !IsSpace(b[0])
    ensures CollapseSpaces(w + b) == "_" + CollapseSpaces(b)
  {
    assert (w + b)[0] == w[0];
    assert (w + b)[1..] == w[1..] + b;
    TrimStartRun(w[1..], b);
  }

  /** A non-space character, `_` included, is copied through unchanged. */
  lemma CollapseCopies(c: char, b: string)
    requires !IsSpace(c)
    ensures CollapseSpaces([c] + b) == [c] + CollapseSpaces(b)
  {
    assert ([c] + b)[1..] == b;
  }

  /** Neither whitespace nor an underscore: the characters a collapse copies through. */
  function IsPlain(c: char): bool {
    !IsSpace(c) && c != '_'
  }

  /** Reading the collapsed string with its underscores removed gives the input
      with its whitespace and underscores removed: nothing but whitespace runs
      is rewritten, and the other characters keep their order. */
  lemma {:induction false} CollapseKeepsPlain(s: string)
    ensures Filter(CollapseSpaces(s), IsPlain) == Filter(s, IsPlain)
    decreases |s|
  {
    if |s| == 0 {
    } else if IsSpace(s[0]) {
      var rest := TrimStart(s[1..]);
      CollapseKeepsPlain(rest);
      FilterConsDropped('_', CollapseSpaces(rest), IsPlain);
      PlainIgnoresLeadingSpace(s[1..]);
      FilterConsDropped(s[0], s[1..], IsPlain);
      assert s == [s[0]] + s[1..];
    } else {
      CollapseKeepsPlain(s[1..]);
      FilterAppend([s[0]], CollapseSpaces(s[1..]), IsPlain);
      FilterAppend([s[0]], s[1..], IsPlain);
      assert s == [s[0]] + s[1..];
    }
  }

  /** Leading whitespace contributes no plain characters. */
  lemma {:induction false} PlainIgnoresLeadingSpace(s: string)
    ensures Filter(TrimStart(s), IsPlain) == Filter(s, IsPlain)
  {
    if |s| > 0 && IsSpace(s[0]) {
      PlainIgnoresLeadingSpace(s[1..]);
      FilterConsDropped(s[0], s[1..], IsPlain);
      assert s == [s[0]] + s[1..];
    }
  }

  /** The id stem derived from a column title: lower-cased, whitespace runs turned into `_`. */
  function Slug(title: string): (r: string)
    ensures NoSpace(r)
    ensures |r| <= |title|
  {
    CollapseSpaces(Lower(title))
  }

  /** A title without whitespace gives its lower-cased self as stem; a stem is its own stem. */
  lemma SlugOfPlainLabel(title: string)
    requires NoSpace(title)
    ensures Slug(title) == Lower(title)
    ensures Slug(Slug(title)) == Slug(title)
  {
    LowerKeepsSpaces(title);
    CollapseWithoutSpaces(Lower(title));
    LowerIdempotent(title);
    CollapseWithoutSpaces(Lower(Lower(title)));
  }
}
