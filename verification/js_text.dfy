/**
 String operations of the ECMAScript standard library that the application
 relies on: the white-space set, String.prototype.trim, and
 String.prototype.split / Array.prototype.join with a one-character separator.
 Strings are sequences of characters; no encoding or normalisation is modelled.
 */
module JsText {

  /** WhiteSpace and LineTerminator code points (sections 12.2 and 12.3 of
      ECMA-262): what trim removes and what parseInt and ToNumber skip. */
  predicate IsWhitespace(c: char) {
    || c == '\t' || c == '\U{000B}' || c == '\U{000C}' || c == ' '
    || c == '\U{00A0}' || c == '\U{FEFF}' || c == '\U{1680}'
    || ('\U{2000}' <= c <= '\U{200A}')
    || c == '\U{202F}' || c == '\U{205F}' || c == '\U{3000}'
    || c == '\n' || c == '\r' || c == '\U{2028}' || c == '\U{2029}'
  }

  predicate AllWhitespace(s: string) {
    forall i :: 0 <= i < |s| ==> IsWhitespace(s[i])
  }

  /** A string with no white space at either end. */
  predicate IsTrimmed(s: string) {
    s == [] || (!IsWhitespace(s[0]) && !IsWhitespace(s[|s| - 1]))
  }

  /** `r` occurs in `s` at offset `i` with only white space around it. */
  predicate IsPaddingOf(s: string, r: string, i: int) {
    && 0 <= i <= |s| - |r|
    && (forall k :: 0 <= k < |r| ==> s[i + k] == r[k])
    && (forall k :: 0 <= k < i ==> IsWhitespace(s[k]))
    && (forall k :: i + |r| <= k < |s| ==> IsWhitespace(s[k]))
  }

  /** Length of the white-space run at the start of `s`. */
  function LeadingWhitespace(s: string): (n: nat)
    ensures n <= |s|
    ensures forall k :: 0 <= k < n ==> IsWhitespace(s[k])
    ensures n < |s| ==> !IsWhitespace(s[n])
  {
    if |s| == 0 || !IsWhitespace(s[0]) then 0
    else
      var n := 1 + LeadingWhitespace(s[1..]);
      assert forall k :: 1 <= k < n ==> s[k] == s[1..][k - 1];
      n
  }

  /** Length of the white-space run at the end of `s`. */
  function TrailingWhitespace(s: string): (n: nat)
    ensures n <= |s|
    ensures forall k :: |s| - n <= k < |s| ==> IsWhitespace(s[k])
    ensures n < |s| ==> !IsWhitespace(s[|s| - 1 - n])
  {
    if |s| == 0 || !IsWhitespace(s[|s| - 1]) then 0
    else
      var t := s[..|s| - 1];
      1 + TrailingWhitespace(t)
  }

  /** String.prototype.trim: the input without its leading and trailing
      white space. */
  function Trim(s: string): (r: string)
    ensures IsTrimmed(r)
    ensures |r| <= |s|
    ensures IsPaddingOf(s, r, LeadingWhitespace(s))
  {
    var a := LeadingWhitespace(s);
    if a == |s| then []
    else
      var b := TrailingWhitespace(s);
      assert a < |s| - b by {
        assert !IsWhitespace(s[a]);
      }
      s[a..|s| - b]
  }

  lemma {:induction false} LeadingWhitespaceOfPadded(w: string, s: string)
    requires AllWhitespace(w)
    ensures LeadingWhitespace(w + s) == |w| + LeadingWhitespace(s)
    decreases |w|
  {
    if w != [] {
      assert (w + s)[0] == w[0];
      assert (w + s)[1..] == w[1..] + s;
      LeadingWhitespaceOfPadded(w[1..], s);
    } else {
      assert w + s == s;
    }
  }

  lemma {:induction false} TrailingWhitespaceOfPadded(s: string, w: string)
    requires AllWhitespace(w)
    ensures TrailingWhitespace(s + w) == |w| + TrailingWhitespace(s)
    decreases |w|
  {
    if w != [] {
      var w' := w[..|w| - 1];
      assert (s + w)[|s + w| - 1] == w[|w| - 1];
      assert (s + w)[..|s + w| - 1] == s + w';
      TrailingWhitespaceOfPadded(s, w');
    } else {
      assert s + w == s;
    }
  }

  /** Trim is determined by its padding: whatever white space surrounds a
      trimmed core, trimming gives the core back. */
  lemma TrimOfPadded(w1: string, core: string, w2: string)
    requires AllWhitespace(w1) && AllWhitespace(w2) && IsTrimmed(core)
    ensures Trim(w1 + core + w2) == core
  {
    if core == [] {
      var s := w1 + core + w2;
      assert s == w1 + w2 + [];
      LeadingWhitespaceOfPadded(w1 + w2, []);
    } else {
      var s := w1 + core + w2;
      assert LeadingWhitespace(s) == |w1| by { PaddedCoreStart(w1, core, w2); }
      assert TrailingWhitespace(s) == |w2| by { PaddedCoreEnd(w1, core, w2); }
      assert s[|w1|..|s| - |w2|] == core;
    }
  }

  lemma PaddedCoreStart(w1: string, core: string, w2: string)
    requires AllWhitespace(w1) && core != [] && !IsWhitespace(core[0])
    ensures LeadingWhitespace(w1 + core + w2) == |w1|
  {
    var t := core + w2;
    assert w1 + core + w2 == w1 + t;
    assert t[0] == core[0];
    assert LeadingWhitespace(t) == 0;
    LeadingWhitespaceOfPadded(w1, t);
  }

  lemma PaddedCoreEnd(w1: string, core: string, w2: string)
    requires AllWhitespace(w2) && core != [] && !IsWhitespace(core[|core| - 1])
    ensures TrailingWhitespace(w1 + core + w2) == |w2|
  {
    var t := w1 + core;
    assert t[|t| - 1] == core[|core| - 1];
    assert TrailingWhitespace(t) == 0;
    TrailingWhitespaceOfPadded(t, w2);
  }

  /** Trimming white space alone gives the empty string. */
  lemma TrimOfBlank(w: string)
    requires AllWhitespace(w)
    ensures Trim(w) == []
  {
    var e: string := [];
    assert w + e == w;
    LeadingWhitespaceOfPadded(w, e);
  }

  /** Trim leaves a trimmed string as it is. */
  lemma TrimOfTrimmed(r: string)
    requires IsTrimmed(r)
    ensures Trim(r) == r
  {
    var e: string := [];
    assert e + r + e == r;
    assert AllWhitespace(e);
    TrimOfPadded(e, r, e);
  }

  /** Trimming twice is trimming once. */
  lemma TrimIdempotent(s: string)
    ensures Trim(Trim(s)) == Trim(s)
  {
    TrimOfTrimmed(Trim(s));
  }

  /** Array.prototype.join with a one-character separator. */
  function Join(pieces: seq<string>, sep: char): string
  {
    if |pieces| == 0 then []
    else if |pieces| == 1 then pieces[0]
    else pieces[0] + [sep] + Join(pieces[1..], sep)
  }

  /** String.prototype.split with a one-character separator and no limit:
      the maximal separator-free pieces, in order. */
  function Split(s: string, sep: char): (pieces: seq<string>)
    ensures |pieces| >= 1
    ensures forall k :: 0 <= k < |pieces| ==> sep !in pieces[k]
    decreases |s|
  {
    if |s| == 0 then [[]]
    else
      var rest := Split(s[1..], sep);
      if s[0] == sep then [[]] + rest
      else [[s[0]] + rest[0]] + rest[1..]
  }

  /** Joining the pieces of a split restores the string. */
  lemma {:induction false} JoinSplit(s: string, sep: char)
    ensures Join(Split(s, sep), sep) == s
    decreases |s|
  {
    if |s| > 0 {
      var rest := Split(s[1..], sep);
      JoinSplit(s[1..], sep);
      if s[0] == sep {
        assert ([[]] + rest)[1..] == rest;
      } else {
        var pieces := [[s[0]] + rest[0]] + rest[1..];
        assert pieces[1..] == rest[1..];
        if |rest| > 1 {
          assert Join(rest, sep) == rest[0] + [sep] + Join(rest[1..], sep);
        }
      }
    }
  }

  lemma {:induction false} SplitSeparatorFree(p: string, sep: char)
    requires sep !in p
    ensures Split(p, sep) == [p]
    decreases |p|
  {
    if |p| > 0 {
      SplitSeparatorFree(p[1..], sep);
      assert [p[0]] + p[1..] == p;
    }
  }

  lemma {:induction false} SplitCons(p: string, sep: char, t: string)
    requires sep !in p
    ensures Split(p + [sep] + t, sep) == [p] + Split(t, sep)
    decreases |p|
  {
    var s := p + [sep] + t;
    if |p| == 0 {
      assert s[1..] == t;
    } else {
      assert s[1..] == p[1..] + [sep] + t;
      SplitCons(p[1..], sep, t);
      assert [p[0]] + p[1..] == p;
    }
  }

  /** Splitting a join of separator-free pieces gives the pieces back. */
  lemma {:induction false} SplitJoin(pieces: seq<string>, sep: char)
    requires |pieces| >= 1
    requires forall k :: 0 <= k < |pieces| ==> sep !in pieces[k]
    ensures Split(Join(pieces, sep), sep) == pieces
    decreases |pieces|
  {
    if |pieces| == 1 {
      SplitSeparatorFree(pieces[0], sep);
    } else {
      SplitJoin(pieces[1..], sep);
      SplitCons(pieces[0], sep, Join(pieces[1..], sep));
      assert [pieces[0]] + pieces[1..] == pieces;
    }
  }
}
