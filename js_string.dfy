/**
 * The JavaScript string primitives the stream parser relies on: `indexOf`,
 * `startsWith`, `endsWith` and `trim`, on strings as sequences of characters.
 */
module JsString {

  /** `s.indexOf(c)`: the first index at which `c` occurs in `s`, or -1. */
  function IndexOf(s: string, c: char): (r: int)
    ensures -1 <= r < |s|
    ensures r == -1 <==> c !in s
    ensures r >= 0 ==> s[r] == c && forall j :: 0 <= j < r ==> s[j] != c
  {
    IndexFrom(s, c, 0)
  }

  /** The first index at or after `i` at which `c` occurs in `s`, or -1. */
  function IndexFrom(s: string, c: char, i: nat): (r: int)
    requires i <= |s|
    ensures r == -1 || i <= r < |s|
    ensures r == -1 <==> forall j :: i <= j < |s| ==> s[j] != c
    ensures r >= 0 ==> s[r] == c && forall j :: i <= j < r ==> s[j] != c
    decreases |s| - i
  {
    if i == |s| then -1
    else if s[i] == c then i
    else IndexFrom(s, c, i + 1)
  }

  /** The index of the first `c` is determined by where the `c`s are. */
  lemma IndexOfIs(s: string, c: char, k: int)
    requires 0 <= k < |s| && s[k] == c
    requires forall j :: 0 <= j < k ==> s[j] != c
    ensures IndexOf(s, c) == k
  {
  }

  /** Appending text does not move a character that is already there. */
  lemma IndexOfAppend(a: string, b: string, c: char)
    requires c in a
    ensures IndexOf(a + b, c) == IndexOf(a, c)
  {
    var k := IndexOf(a, c);
    IndexOfIs(a + b, c, k);
  }

  /** Cutting `a + [c] + b` at its first `c` gives back `a` and `b`. */
  lemma CutAtFirst(a: string, c: char, b: string)
    requires c !in a
    ensures IndexOf(a + [c] + b, c) == |a|
    ensures (a + [c] + b)[..|a|] == a && (a + [c] + b)[|a| + 1..] == b
  {
    var s := a + [c] + b;
    forall j | 0 <= j < |a| ensures s[j] != c {
      assert s[j] == a[j];
    }
    IndexOfIs(s, c, |a|);
  }

  lemma ConcatAssoc(a: string, b: string, c: string)
    ensures a + b + c == a + (b + c)
  {
  }

  /** `s.startsWith(p)`. */
  predicate StartsWith(s: string, p: string) {
    |p| <= |s| && s[..|p|] == p
  }

  /** `s.endsWith(p)`. */
  predicate EndsWith(s: string, p: string) {
    |p| <= |s| && s[|s| - |p|..] == p
  }

  /** `s` starts with `p` exactly when it is `p` followed by the rest of `s`. */
  lemma StartsWithSplit(s: string, p: string)
    ensures StartsWith(s, p) <==> |p| <= |s| && s == p + s[|p|..]
  {
    if |p| <= |s| {
      assert s == s[..|p|] + s[|p|..];
      assert (p + s[|p|..])[..|p|] == p;
    }
  }

  /** `s` ends with `p` exactly when it is the rest of `s` followed by `p`. */
  lemma EndsWithSplit(s: string, p: string)
    ensures EndsWith(s, p) <==> |p| <= |s| && s == s[..|s| - |p|] + p
  {
    if |p| <= |s| {
      assert s == s[..|s| - |p|] + s[|s| - |p|..];
      assert (s[..|s| - |p|] + p)[|s| - |p|..] == p;
    }
  }

  /**
   * The characters `String.prototype.trim` removes: the ECMAScript WhiteSpace
   * code points (tab, vertical tab, form feed, space, no-break space, the byte
   * order mark and the other space separators of category Zs) and the
   * LineTerminator code points (line feed, carriage return, line separator,
   * paragraph separator).
   */
  predicate IsWhitespace(c: char) {
    c in {'\t', '\n', '\U{000B}', '\U{000C}', '\r', ' ', '\U{00A0}', '\U{1680}',
          '\U{2000}', '\U{2001}', '\U{2002}', '\U{2003}', '\U{2004}', '\U{2005}',
          '\U{2006}', '\U{2007}', '\U{2008}', '\U{2009}', '\U{200A}', '\U{2028}',
          '\U{2029}', '\U{202F}', '\U{205F}', '\U{3000}', '\U{FEFF}'}
  }

  predicate AllWhitespace(s: string) {
    forall k :: 0 <= k < |s| ==> IsWhitespace(s[k])
  }

  /** `s` without its leading whitespace: a suffix of `s` that starts with a non-blank. */
  function TrimStart(s: string): (r: string)
    ensures |r| <= |s| && r == s[|s| - |r|..]
    ensures forall k :: 0 <= k < |s| - |r| ==> IsWhitespace(s[k])
    ensures r != [] ==> !IsWhitespace(r[0])
  {
    if s != [] && IsWhitespace(s[0]) then TrimStart(s[1..]) else s
  }

  /** `s` without its trailing whitespace: a prefix of `s` that ends with a non-blank. */
  function TrimEnd(s: string): (r: string)
    ensures |r| <= |s| && r == s[..|r|]
    ensures forall k :: |r| <= k < |s| ==> IsWhitespace(s[k])
    ensures r != [] ==> !IsWhitespace(r[|r| - 1])
  {
    if s != [] && IsWhitespace(s[|s| - 1]) then TrimEnd(s[..|s| - 1]) else s
  }

  /**
   * `s.trim()`: empty exactly when `s` is blank; otherwise it starts and ends
   * with a non-blank.
   */
  function Trim(s: string): (r: string)
    ensures |r| <= |s|
    ensures r == [] <==> AllWhitespace(s)
    ensures r != [] ==> !IsWhitespace(r[0]) && !IsWhitespace(r[|r| - 1])
  {
    var t := TrimStart(s);
    if t == [] then [] else
      assert !IsWhitespace(s[|s| - |t|]);
      TrimEnd(t)
  }

  /**
   * `trim` removes whitespace at the edges and nothing else: its result is the
   * slice of `s` starting at `i`, and all that lies before and after that slice
   * is whitespace.
   */
  lemma {:induction false} TrimIsSlice(s: string) returns (i: nat)
    ensures i + |Trim(s)| <= |s| && Trim(s) == s[i..i + |Trim(s)|]
    ensures AllWhitespace(s[..i]) && AllWhitespace(s[i + |Trim(s)|..])
  {
    var t := TrimParts(s);
    i := WhitespaceEdges(s, t, Trim(s));
  }

  /**
   * `trim` is `TrimEnd` after `TrimStart`: `t` is `s` with whitespace cut off
   * its start, and the trimmed text is `t` with whitespace cut off its end.
   */
  lemma {:induction false} TrimParts(s: string) returns (t: string)
    ensures |t| <= |s| && |Trim(s)| <= |t|
    ensures s[|s| - |t|..] == t && AllWhitespace(s[..|s| - |t|])
    ensures Trim(s) == t[..|Trim(s)|] && AllWhitespace(t[|Trim(s)|..])
  {
    t := TrimStart(s);
    assert Trim(s) == TrimEnd(t);
    TrimStartIsSlice(s);
    TrimEndIsSlice(t);
  }

  /** `TrimStart` keeps a suffix and drops only whitespace. */
  lemma TrimStartIsSlice(s: string)
    ensures var t := TrimStart(s); s[|s| - |t|..] == t && AllWhitespace(s[..|s| - |t|])
  {
    var t := TrimStart(s);
    var before := s[..|s| - |t|];
    forall k | 0 <= k < |before| ensures IsWhitespace(before[k]) {
      assert before[k] == s[k];
    }
  }

  /** `TrimEnd` keeps a prefix and drops only whitespace. */
  lemma TrimEndIsSlice(t: string)
    ensures var r := TrimEnd(t); r == t[..|r|] && AllWhitespace(t[|r|..])
  {
    var r := TrimEnd(t);
    var after := t[|r|..];
    forall k | 0 <= k < |after| ensures IsWhitespace(after[k]) {
      assert after[k] == t[|r| + k];
    }
  }

  /**
   * A prefix `r` of a suffix `t` of `s`, with whitespace before `t` and after
   * `r`, is the slice of `s` at `|s| - |t|` with whitespace on both sides.
   */
  lemma WhitespaceEdges(s: string, t: string, r: string) returns (i: nat)
    requires |t| <= |s| && |r| <= |t|
    requires s[|s| - |t|..] == t && AllWhitespace(s[..|s| - |t|])
    requires r == t[..|r|] && AllWhitespace(t[|r|..])
    ensures i + |r| <= |s| && r == s[i..i + |r|]
    ensures AllWhitespace(s[..i]) && AllWhitespace(s[i + |r|..])
  {
    i := |s| - |t|;
    assert t[|r|..] == s[i + |r|..];
    assert t[..|r|] == s[i..i + |r|];
  }

  /** A text that starts and ends with a non-blank is its own trim. */
  lemma TrimNonBlankEnds(s: string)
    requires s != [] && !IsWhitespace(s[0]) && !IsWhitespace(s[|s| - 1])
    ensures Trim(s) == s
  {
    assert TrimStart(s) == s;
    assert TrimEnd(s) == s;
  }

  /** Whitespace appended after a text does not survive `trim`. */
  lemma {:induction false} TrimDropsTrailingWhitespace(s: string, w: char)
    requires IsWhitespace(w)
    ensures Trim(s + [w]) == Trim(s)
  {
    TrimStartAppend(s, w);
    var t := TrimStart(s);
    if !AllWhitespace(s) {
      assert (t + [w])[..|t|] == t;
    }
  }

  lemma {:induction false} TrimStartAppend(s: string, w: char)
    requires IsWhitespace(w)
    ensures TrimStart(s + [w]) == if AllWhitespace(s) then [] else TrimStart(s) + [w]
  {
    if s == [] {
    } else {
      assert (s + [w])[1..] == s[1..] + [w];
      if IsWhitespace(s[0]) {
        TrimStartAppend(s[1..], w);
      }
    }
  }
}
