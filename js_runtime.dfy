/**
 * The pieces of the JavaScript runtime that the content script leans on:
 * String.prototype.trim, a global `replace` with an empty replacement,
 * `join("\n")` / `split("\n")`, and writes to a JavaScript array
 * (`a[i] = x`, `a.length = n`), whose missing slots are holes.
 */
module JsRuntime {
  import opened Wrappers

  // ---------------------------------------------------------------------
  // trim
  // ---------------------------------------------------------------------

  /** The ECMAScript WhiteSpace and LineTerminator code points: what trim() strips. */
  predicate IsJsWhitespace(c: char) {
    || c == '\t' || c == '\n' || c == '\U{B}' || c == '\U{C}' || c == '\r' || c == ' '
    || c == '\U{A0}' || c == '\U{1680}' || ('\U{2000}' <= c <= '\U{200A}')
    || c == '\U{2028}' || c == '\U{2029}' || c == '\U{202F}' || c == '\U{205F}'
    || c == '\U{3000}' || c == '\U{FEFF}'
  }

  predicate AllWhitespace(s: string) {
    forall i :: 0 <= i < |s| ==> IsJsWhitespace(s[i])
  }

  /** Neither end is whitespace: the shape trim() produces. */
  predicate IsTrimmed(s: string) {
    s == [] || (!IsJsWhitespace(s[0]) && !IsJsWhitespace(s[|s| - 1]))
  }

  /** The length of the whitespace run at the start of `s`. */
  function LeadingWhitespace(s: string): (n: nat)
    ensures n <= |s| && AllWhitespace(s[..n])
    ensures n < |s| ==> !IsJsWhitespace(s[n])
  {
    if s != [] && IsJsWhitespace(s[0]) then
      var n := 1 + LeadingWhitespace(s[1..]);
      assert s[..n] == [s[0]] + s[1..][..n - 1];
      n
    else
      0
  }

  /** Drops the trailing whitespace: what is left is a prefix of `s`. */
  function TrimEnd(s: string): (r: string)
    ensures |r| <= |s| && r == s[..|r|]
    ensures AllWhitespace(s[|r|..])
    ensures r != [] ==> !IsJsWhitespace(r[|r| - 1])
  {
    if s != [] && IsJsWhitespace(s[|s| - 1]) then
      var r := TrimEnd(s[..|s| - 1]);
      assert s[|r|..] == s[..|s| - 1][|r|..] + [s[|s| - 1]];
      r
    else
      s
  }

  /**
   * String.prototype.trim: the result is the infix of `s` that starts where
   * the leading whitespace ends and is followed only by whitespace, and it
   * has no whitespace at either end.
   */
  function Trim(s: string): (r: string)
    ensures IsTrimmed(r)
    ensures var k := LeadingWhitespace(s);
      && k + |r| <= |s|
      && r == s[k..k + |r|]
      && AllWhitespace(s[k + |r|..])
  {
    var k := LeadingWhitespace(s);
    var t := s[k..];
    var r := TrimEnd(t);
    assert r == s[k..k + |r|];
    assert s[k + |r|..] == t[|r|..];
    assert r != [] ==> r[0] == s[k];
    r
  }

  /** Trimming leaves nothing exactly when the string is all whitespace. */
  lemma TrimEmptyIff(s: string)
    ensures Trim(s) == "" <==> AllWhitespace(s)
  {
    var k := LeadingWhitespace(s);
    if Trim(s) == "" {
      assert s[k..] == s[k + |Trim(s)|..];
      assert s == s[..k] + s[k..];
    } else {
      assert Trim(s)[0] == s[k];
    }
  }

    /** Trimming changes a string exactly when one of its ends is whitespace. */
  lemma TrimFixpoint(s: string)
    ensures Trim(s) == s <==> IsTrimmed(s)
  {
    if IsTrimmed(s) {
      assert LeadingWhitespace(s) == 0;
      assert s[0..] == s;
      assert TrimEnd(s) == s;
    }
  }

  lemma TrimIdempotent(s: string)
    ensures Trim(Trim(s)) == Trim(s)
  {
    TrimFixpoint(Trim(s));
  }

  // ---------------------------------------------------------------------
  // occurrences and s.replace(/pat/g, '')
  // ---------------------------------------------------------------------

  predicate StartsWith(s: string, p: string) {
    |p| <= |s| && s[..|p|] == p
  }

  /** `p` occurs somewhere in `s`. */
  predicate Contains(s: string, p: string) {
    StartsWith(s, p) || (s != [] && Contains(s[1..], p))
  }

  /**
   * s.replace(/pat/g, ''): scans left to right and deletes every
   * non-overlapping occurrence of `pat`, resuming after each deleted one.
   */
  function RemoveAll(s: string, pat: string): (r: string)
    requires pat != []
    ensures |r| <= |s|
    ensures StartsWith(s, pat) ==> |r| < |s|
    decreases |s|
  {
    if s == [] then []
    else if StartsWith(s, pat) then RemoveAll(s[|pat|..], pat)
    else [s[0]] + RemoveAll(s[1..], pat)
  }

  /** A text in which `pat` does not occur is left as it is. */
  lemma {:induction false} RemoveAllAbsent(s: string, pat: string)
    requires pat != [] && !Contains(s, pat)
    ensures RemoveAll(s, pat) == s
    decreases |s|
  {
    if s != [] {
      RemoveAllAbsent(s[1..], pat);
    }
  }

  /** Where no occurrence starts, the first character is kept. */
  lemma RemoveAllKeepsHead(s: string, pat: string)
    requires pat != [] && s != [] && !StartsWith(s, pat)
    ensures RemoveAll(s, pat) != [] && RemoveAll(s, pat)[0] == s[0]
  {
  }

  const Fence: string := "```"

  /**
   * After deleting every "```", none is left: deletion never glues two
   * back-tick runs into a new fence, because a back-tick kept just before a
   * deleted fence would itself have started a fence.
   */
  lemma {:induction false} NoFenceAfterRemoval(s: string)
    ensures !Contains(RemoveAll(s, Fence), Fence)
    decreases |s|
  {
    var r := RemoveAll(s, Fence);
    if s == [] {
    } else if StartsWith(s, Fence) {
      NoFenceAfterRemoval(s[3..]);
    } else {
      var rest := RemoveAll(s[1..], Fence);
      NoFenceAfterRemoval(s[1..]);
      assert r == [s[0]] + rest;
      assert r[1..] == rest;
      if s[0] == '`' && |s| >= 2 {
        // a back-tick kept here cannot be followed by two more in `rest`
        RemoveAllKeepsHead(s[1..], Fence);
        if s[1] == '`' && |s| >= 3 {
          assert s[1..][1..] == s[2..];
          RemoveAllKeepsHead(s[2..], Fence);
        }
      }
    }
  }

  /** An occurrence inside a suffix is an occurrence in the whole. */
  lemma {:induction false} ContainsInSuffix(s: string, i: nat, p: string)
    requires i <= |s| && Contains(s[i..], p)
    ensures Contains(s, p)
    decreases i
  {
    if i > 0 {
      assert s[1..][i - 1..] == s[i..];
      ContainsInSuffix(s[1..], i - 1, p);
    }
  }

  /** An occurrence inside a prefix is an occurrence in the whole. */
  lemma {:induction false} ContainsInPrefix(s: string, j: nat, p: string)
    requires j <= |s| && Contains(s[..j], p)
    ensures Contains(s, p)
    decreases j
  {
    if StartsWith(s[..j], p) {
      assert s[..|p|] == s[..j][..|p|];
    } else {
      assert s[..j][1..] == s[1..][..j - 1];
      ContainsInPrefix(s[1..], j - 1, p);
    }
  }

  lemma ContainsInInfix(s: string, i: nat, j: nat, p: string)
    requires i <= j <= |s| && Contains(s[i..j], p)
    ensures Contains(s, p)
  {
    assert s[i..j] == s[i..][..j - i];
    ContainsInPrefix(s[i..], j - i, p);
    ContainsInSuffix(s, i, p);
  }

  /** A text that contains `p + q` contains `p`. */
  lemma {:induction false} ContainsLonger(s: string, p: string, q: string)
    requires Contains(s, p + q)
    ensures Contains(s, p)
    decreases |s|
  {
    if StartsWith(s, p + q) {
      assert s[..|p|] == (p + q)[..|p|] == p;
    } else {
      ContainsLonger(s[1..], p, q);
    }
  }

  // ---------------------------------------------------------------------
  // join("\n") and split("\n")
  // ---------------------------------------------------------------------

  /** The total length of the strings xs. */
  function SumLengths(xs: seq<string>): nat {
    if xs == [] then 0 else |xs[0]| + SumLengths(xs[1..])
  }

  /**
   * Array.prototype.join("\n") over strings: the first string comes first,
   * and exactly one separator goes between each two consecutive strings.
   */
  function JoinLines(xs: seq<string>): (r: string)
    ensures xs != [] ==> |xs[0]| <= |r| && r[..|xs[0]|] == xs[0]
    ensures |r| == if xs == [] then 0 else SumLengths(xs) + |xs| - 1
  {
    if xs == [] then ""
    else if |xs| == 1 then xs[0]
    else xs[0] + "\n" + JoinLines(xs[1..])
  }

  /** String.prototype.split("\n"): the pieces between line feeds, never none. */
  function Lines(s: string): (r: seq<string>)
    ensures |r| >= 1
  {
    if s == [] then [""]
    else if s[0] == '\n' then [""] + Lines(s[1..])
    else
      var rest := Lines(s[1..]);
      [[s[0]] + rest[0]] + rest[1..]
  }

  /** Splitting at a line feed splits the line list. */
  lemma {:induction false} LinesOfConcat(a: string, b: string)
    ensures Lines(a + "\n" + b) == Lines(a) + Lines(b)
    decreases |a|
  {
    if a == [] {
      assert a + "\n" + b == "\n" + b;
      assert ("\n" + b)[1..] == b;
    } else {
      var s := a + "\n" + b;
      assert s[0] == a[0];
      assert s[1..] == a[1..] + "\n" + b;
      LinesOfConcat(a[1..], b);
    }
  }

  /** A text without line feeds is a single line. */
  lemma {:induction false} LinesOfLine(a: string)
    requires '\n' !in a
    ensures Lines(a) == [a]
    decreases |a|
  {
    if a != [] {
      LinesOfLine(a[1..]);
      assert [a[0]] + a[1..] == a;
    }
  }

  /**
   * join and split are inverse on lists of single-line strings; the empty list
   * joins to "", which splits back into one empty line.
   */
  lemma {:induction false} LinesOfJoin(xs: seq<string>)
    requires forall x :: x in xs ==> '\n' !in x
    ensures Lines(JoinLines(xs)) == if xs == [] then [""] else xs
    decreases |xs|
  {
    if xs == [] {
    } else if |xs| == 1 {
      LinesOfLine(xs[0]);
    } else {
      LinesOfConcat(xs[0], JoinLines(xs[1..]));
      LinesOfLine(xs[0]);
      LinesOfJoin(xs[1..]);
      assert [xs[0]] + xs[1..] == xs;
    }
  }

  // ---------------------------------------------------------------------
  // JavaScript arrays with holes
  // ---------------------------------------------------------------------

  /** `a[i] = x` on a JavaScript array: writing past the end first pads with holes. */
  function AssignAt<T>(a: seq<Option<T>>, i: nat, x: T): (r: seq<Option<T>>)
    ensures |r| == if i < |a| then |a| else i + 1
    ensures r[i] == Some(x)
    ensures forall j :: 0 <= j < |r| && j != i ==> r[j] == if j < |a| then a[j] else None
  {
    if i < |a| then a[i := Some(x)] else a + seq(i - |a|, _ => None) + [Some(x)]
  }

  /** `a.length = n`: truncates, or pads with holes. */
  function WithLength<T>(a: seq<Option<T>>, n: nat): (r: seq<Option<T>>)
    ensures |r| == n
    ensures forall j :: 0 <= j < n ==> r[j] == if j < |a| then a[j] else None
  {
    if n <= |a| then a[..n] else a + seq(n - |a|, _ => None)
  }
}
