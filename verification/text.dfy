/**
 * The Python string operations the crawler relies on, with Python's semantics:
 * `str.split(sep)`, `sep.join(parts)`, `str.replace(old, new)`, `str(n)` for a
 * non-negative integer and `os.path.dirname`. `IndexOf` and `Contains` are the
 * search that `split` and `replace` perform.
 */
module Text {

  /** `pat` occurs in `s` starting at index `j`. */
  predicate MatchAt(s: string, pat: string, j: int)
  {
    0 <= j && j + |pat| <= |s| && s[j..j + |pat|] == pat
  }

  /** Python's `pat in s`. */
  predicate Contains(s: string, pat: string)
  {
    exists j :: 0 <= j <= |s| && MatchAt(s, pat, j)
  }

  /** Python's `s.find(pat)` for a non-empty pattern: the first match, or -1. */
  function IndexOf(s: string, pat: string): (i: int)
    requires pat != []
    ensures i == -1 || MatchAt(s, pat, i)
  {
    FindFrom(s, pat, 0)
  }

  /** Python's `s.find(pat, from)`: the first match at or after `from`, or -1. */
  function FindFrom(s: string, pat: string, from: nat): (i: int)
    requires pat != []
    ensures i == -1 || (from <= i && MatchAt(s, pat, i))
    decreases |s| - from
  {
    if from + |pat| > |s| then -1
    else if MatchAt(s, pat, from) then from
    else FindFrom(s, pat, from + 1)
  }

  /**
   * Python's `s.split(sep)` for a non-empty separator: cut at every
   * non-overlapping match, scanning from the left.
   */
  function Split(s: string, sep: string): (parts: seq<string>)
    requires sep != []
    ensures |parts| >= 1
    decreases |s|
  {
    var i := IndexOf(s, sep);
    if i == -1 then [s] else [s[..i]] + Split(s[i + |sep|..], sep)
  }

  /** Python's `sep.join(parts)`: it starts with the first part. */
  function Join(parts: seq<string>, sep: string): (r: string)
    ensures |parts| > 0 ==> parts[0] <= r
  {
    if |parts| == 0 then ""
    else if |parts| == 1 then parts[0]
    else parts[0] + sep + Join(parts[1..], sep)
  }

  /**
   * Python's `s.replace(pat, rep)` for a non-empty pattern: every
   * non-overlapping match found scanning from the left is substituted, which
   * is exactly `rep.join(s.split(pat))`.
   */
  function Replace(s: string, pat: string, rep: string): (r: string)
    requires pat != []
    ensures !Contains(s, pat) ==> r == s
  {
    NotFoundIffAbsent(s, pat);
    Join(Split(s, pat), rep)
  }

  /** Number of occurrences of the character `c` in `s`. */
  function Count(s: string, c: char): nat
  {
    if s == [] then 0 else Count(s[..|s| - 1], c) + (if s[|s| - 1] == c then 1 else 0)
  }

  /** Python's `str(n)` for a non-negative integer: decimal digits, no leading zero. */
  function Decimal(n: nat): (s: string)
    ensures |s| >= 1 && IsDigits(s)
    ensures DigitsValue(s) == n
    ensures s[0] == '0' ==> n == 0
  {
    if n < 10 then [Digit(n)] else Decimal(n / 10) + [Digit(n % 10)]
  }

  function Digit(d: nat): (c: char)
    requires d < 10
  {
    "0123456789"[d]
  }

  predicate IsDigits(s: string)
  {
    forall k :: 0 <= k < |s| ==> '0' <= s[k] <= '9'
  }

  /** The number a string of decimal digits denotes. */
  function DigitsValue(s: string): nat
    requires IsDigits(s)
  {
    if s == [] then 0 else DigitsValue(s[..|s| - 1]) * 10 + (s[|s| - 1] as int - '0' as int)
  }

  /**
   * `os.path.dirname` of a path: everything before its last '/', or "" when
   * it has none.
   */
  function Dirname(p: string): (d: string)
    ensures d <= p
    ensures p != [] ==> |d| < |p|
    decreases |p|
  {
    if p == [] then ""
    else if p[|p| - 1] == '/' then p[..|p| - 1]
    else Dirname(p[..|p| - 1])
  }

  // ---------------------------------------------------------------------
  // Lemmas about matching

  /** `find` returns the FIRST match: no match starts before it (nor anywhere, on -1). */
  lemma IndexOfFirst(s: string, pat: string)
    requires pat != []
    ensures forall j :: 0 <= j && (IndexOf(s, pat) == -1 || j < IndexOf(s, pat)) ==> !MatchAt(s, pat, j)
  {
    FindFromFirst(s, pat, 0);
  }

  lemma {:induction false} FindFromFirst(s: string, pat: string, from: nat)
    requires pat != []
    ensures forall j :: from <= j && (FindFrom(s, pat, from) == -1 || j < FindFrom(s, pat, from)) ==> !MatchAt(s, pat, j)
    decreases |s| - from
  {
    if from + |pat| <= |s| && !MatchAt(s, pat, from) {
      FindFromFirst(s, pat, from + 1);
    }
  }

  /** `find` gives -1 exactly when the pattern does not occur (`pat not in s`). */
  lemma NotFoundIffAbsent(s: string, pat: string)
    requires pat != []
    ensures IndexOf(s, pat) == -1 <==> !Contains(s, pat)
  {
    IndexOfFirst(s, pat);
  }

  /** A match inside the right-hand part of `a + b` is a match of `b`, shifted by `|a|`. */
  lemma MatchInSuffix(a: string, b: string, pat: string, j: int)
    requires 0 <= j
    ensures MatchAt(a + b, pat, |a| + j) <==> MatchAt(b, pat, j)
  {
    if j + |pat| <= |b| {
      assert (a + b)[|a| + j..|a| + j + |pat|] == b[j..j + |pat|];
    }
  }

  /** A match of a prefix is a match of the whole string. */
  lemma MatchInPrefix(s: string, n: nat, pat: string, j: int)
    requires n <= |s|
    ensures MatchAt(s[..n], pat, j) ==> MatchAt(s, pat, j)
  {
    if MatchAt(s[..n], pat, j) {
      assert s[..n][j..j + |pat|] == s[j..j + |pat|];
    }
  }

  /** No match can start at a character other than the pattern's first one. */
  lemma NoMatchInFreePrefix(a: string, b: string, pat: string)
    requires pat != [] && pat[0] !in a
    ensures forall j :: 0 <= j < |a| ==> !MatchAt(a + b, pat, j)
  {
    forall j | 0 <= j < |a| ensures !MatchAt(a + b, pat, j) {
      if j + |pat| <= |a + b| {
        assert (a + b)[j..j + |pat|][0] == a[j];
      }
    }
  }

  /** When no match starts inside `a`, the first match of `a + b` is the first match of `b`. */
  lemma IndexOfAfter(a: string, b: string, pat: string)
    requires pat != []
    requires forall j :: 0 <= j < |a| ==> !MatchAt(a + b, pat, j)
    ensures IndexOf(a + b, pat) == if IndexOf(b, pat) == -1 then -1 else |a| + IndexOf(b, pat)
  {
    var i, ib := IndexOf(a + b, pat), IndexOf(b, pat);
    IndexOfFirst(a + b, pat);
    IndexOfFirst(b, pat);
    if i != -1 {
      MatchInSuffix(a, b, pat, i - |a|);
    }
    if ib != -1 {
      MatchInSuffix(a, b, pat, ib);
      forall j | |a| <= j < |a| + ib ensures !MatchAt(a + b, pat, j) {
        MatchInSuffix(a, b, pat, j - |a|);
      }
    }
  }

  // ---------------------------------------------------------------------
  // Lemmas about split and join

  /** One step of `split`: the text up to the first match, then the split of what follows it. */
  lemma SplitStep(s: string, sep: string, i: nat)
    requires sep != [] && IndexOf(s, sep) == i
    ensures Split(s, sep) == [s[..i]] + Split(s[i + |sep|..], sep)
  {
  }

  /** Without a match, `split` returns the whole string as its only piece. */
  lemma SplitNone(s: string, sep: string)
    requires sep != [] && IndexOf(s, sep) == -1
    ensures Split(s, sep) == [s]
  {
  }

  /** Joining the pieces of a split with the same separator gives back the string. */
  lemma {:induction false} JoinSplit(s: string, sep: string)
    requires sep != []
    ensures Join(Split(s, sep), sep) == s
    decreases |s|
  {
    var i := IndexOf(s, sep);
    if i != -1 {
      var rest := s[i + |sep|..];
      JoinSplit(rest, sep);
      var parts := Split(rest, sep);
      SplitStep(s, sep, i);
      assert Join([s[..i]] + parts, sep) == s[..i] + sep + Join(parts, sep) by {
        assert ([s[..i]] + parts)[1..] == parts;
      }
      assert s == s[..i] + sep + rest by { assert s[i..i + |sep|] == sep; }
    }
  }

  /** No piece of a split contains the separator. */
  lemma {:induction false} SplitPiecesFree(s: string, sep: string)
    requires sep != []
    ensures forall k :: 0 <= k < |Split(s, sep)| ==> IndexOf(Split(s, sep)[k], sep) == -1
    decreases |s|
  {
    var i := IndexOf(s, sep);
    if i == -1 {
    } else {
      var head := s[..i];
      IndexOfFirst(s, sep);
      var h := IndexOf(head, sep);
      if h != -1 {
        MatchInPrefix(s, i, sep, h);
        assert false;
      }
      SplitPiecesFree(s[i + |sep|..], sep);
      SplitStep(s, sep, i);
    }
  }

  /** A split has more than one piece exactly when the separator occurs. */
  lemma SplitSingle(s: string, sep: string)
    requires sep != []
    ensures |Split(s, sep)| == 1 <==> !Contains(s, sep)
  {
    NotFoundIffAbsent(s, sep);
    if IndexOf(s, sep) == -1 {
      SplitNone(s, sep);
    } else {
      SplitStep(s, sep, IndexOf(s, sep));
    }
  }

  /** Joining a sequence extended by one more piece. */
  lemma {:induction false} JoinSnoc(parts: seq<string>, last: string, sep: string)
    requires |parts| >= 1
    ensures Join(parts + [last], sep) == Join(parts, sep) + sep + last
    decreases |parts|
  {
    if |parts| > 1 {
      assert (parts + [last])[1..] == parts[1..] + [last];
      JoinSnoc(parts[1..], last, sep);
    }
  }

  /** When the first match of `a + b` lies in `b`, the first piece runs across the seam up to it. */
  lemma SplitStepAfter(a: string, b: string, sep: string, ib: nat)
    requires sep != [] && ib + |sep| <= |b|
    requires IndexOf(a + b, sep) == |a| + ib
    ensures Split(a + b, sep) == [a + b[..ib]] + Split(b[ib + |sep|..], sep)
  {
    var x, y := (a + b)[..|a| + ib], (a + b)[|a| + ib + |sep|..];
    assert x == a + b[..ib];
    assert y == b[ib + |sep|..];
    SplitStep(a + b, sep, |a| + ib);
  }

  /** When no match starts inside `a`, the match right after `a` ends the first piece. */
  lemma SplitAfter(a: string, b: string, sep: string)
    requires sep != []
    requires forall j :: 0 <= j < |a| ==> !MatchAt(a + sep + b, sep, j)
    ensures Split(a + sep + b, sep) == [a] + Split(b, sep)
  {
    var t := sep + b;
    assert a + sep + b == a + t;
    assert t[0..|sep|] == sep;
    assert IndexOf(t, sep) == 0;
    IndexOfAfter(a, t, sep);
    SplitStepAfter(a, t, sep, 0);
    assert a + t[..0] == a;
    assert t[|sep|..] == b;
  }

  /** A string that has no occurrence of `c` splits on `c` into itself. */
  lemma SplitFree(s: string, c: char)
    requires c !in s
    ensures Split(s, [c]) == [s]
  {
    NoMatchInFreePrefix(s, "", [c]);
    assert s + "" == s;
    IndexOfAfter(s, "", [c]);
  }

  /**
   * Splitting on a one-character separator undoes joining with it, provided
   * no piece contains that character.
   */
  lemma {:induction false} SplitJoin(parts: seq<string>, c: char)
    requires |parts| >= 1
    requires forall k :: 0 <= k < |parts| ==> c !in parts[k]
    ensures Split(Join(parts, [c]), [c]) == parts
    decreases |parts|
  {
    if |parts| == 1 {
      SplitFree(parts[0], c);
    } else {
      var rest := Join(parts[1..], [c]);
      NoMatchInFreePrefix(parts[0], [c] + rest, [c]);
      assert parts[0] + ([c] + rest) == parts[0] + [c] + rest;
      SplitAfter(parts[0], rest, [c]);
      SplitJoin(parts[1..], c);
      assert parts == [parts[0]] + parts[1..];
    }
  }

  /** For a one-character pattern, "no match" is "the character does not occur". */
  lemma CharFree(s: string, c: char)
    ensures IndexOf(s, [c]) == -1 <==> c !in s
  {
    IndexOfFirst(s, [c]);
    var i := IndexOf(s, [c]);
    if i != -1 {
      assert s[i..i + 1][0] == s[i];
    }
    if c in s {
      var m :| 0 <= m < |s| && s[m] == c;
      assert s[m..m + 1] == [c];
      assert MatchAt(s, [c], m);
    }
  }

  lemma {:induction false} CountAppend(a: string, b: string, c: char)
    ensures Count(a + b, c) == Count(a, c) + Count(b, c)
    decreases |b|
  {
    if b == [] {
      assert a + b == a;
    } else {
      assert (a + b)[..|a + b| - 1] == a + b[..|b| - 1];
      CountAppend(a, b[..|b| - 1], c);
    }
  }

  lemma {:induction false} CountFree(s: string, c: char)
    requires c !in s
    ensures Count(s, c) == 0
    decreases |s|
  {
    if s != [] {
      CountFree(s[..|s| - 1], c);
    }
  }

  /** Splitting on a one-character separator gives one piece more than there are separators. */
  lemma {:induction false} SplitCount(s: string, c: char)
    ensures |Split(s, [c])| == Count(s, c) + 1
    decreases |s|
  {
    var i := IndexOf(s, [c]);
    if i == -1 {
      CharFree(s, c);
      CountFree(s, c);
    } else {
      var rest := s[i + 1..];
      SplitPiecesFree(s, [c]);
      SplitStep(s, [c], i);
      assert Split(s, [c])[0] == s[..i];
      CharFree(s[..i], c);
      assert s == s[..i] + [c] + rest by { assert s[i..i + 1] == [c]; }
      CountAppend(s[..i] + [c], rest, c);
      CountAppend(s[..i], [c], c);
      CountFree(s[..i], c);
      SplitCount(rest, c);
    }
  }

  // ---------------------------------------------------------------------
  // Lemmas about replace

  /** A string with no occurrence of the pattern's first character is left unchanged. */
  lemma ReplaceFree(s: string, pat: string, rep: string)
    requires pat != [] && pat[0] !in s
    ensures Replace(s, pat, rep) == s
  {
    NoMatchInFreePrefix(s, "", pat);
    assert s + "" == s;
    IndexOfAfter(s, "", pat);
  }

  /** Text before the first match is copied, and the match itself is substituted. */
  lemma ReplaceAfter(a: string, b: string, pat: string, rep: string)
    requires pat != [] && pat[0] !in a
    ensures Replace(a + pat + b, pat, rep) == a + rep + Replace(b, pat, rep)
  {
    NoMatchInFreePrefix(a, pat + b, pat);
    assert a + (pat + b) == a + pat + b;
    SplitAfter(a, b, pat);
    var parts := Split(b, pat);
    assert ([a] + parts)[1..] == parts;
  }

  /** Joining pieces that lack `c` with a separator that lacks `c` yields a string without `c`. */
  lemma {:induction false} JoinFree(parts: seq<string>, sep: string, c: char)
    requires c !in sep
    requires forall k :: 0 <= k < |parts| ==> c !in parts[k]
    ensures c !in Join(parts, sep)
    decreases |parts|
  {
    if |parts| > 1 {
      JoinFree(parts[1..], sep, c);
    }
  }

  /** Replacing a one-character pattern by text without it removes every occurrence. */
  lemma ReplaceRemoves(s: string, c: char, rep: string)
    requires c !in rep
    ensures c !in Replace(s, [c], rep)
  {
    var parts := Split(s, [c]);
    SplitPiecesFree(s, [c]);
    forall k | 0 <= k < |parts| ensures c !in parts[k] {
      CharFree(parts[k], c);
    }
    JoinFree(parts, rep, c);
  }

  /**
   * Replacing a one-character separator in a join of pieces that lack it is
   * the same as joining the pieces with the replacement.
   */
  lemma ReplaceJoin(parts: seq<string>, c: char, rep: string)
    requires |parts| >= 1
    requires forall k :: 0 <= k < |parts| ==> c !in parts[k]
    ensures Replace(Join(parts, [c]), [c], rep) == Join(parts, rep)
  {
    SplitJoin(parts, c);
  }

  /**
   * When the pattern's first character does not recur in it, no match starts
   * inside a text without the pattern that is followed by that character.
   */
  lemma NoMatchBefore(a: string, b: string, pat: string)
    requires pat != [] && pat[0] !in pat[1..] && !Contains(a, pat)
    requires b == [] || b[0] == pat[0]
    ensures forall j :: 0 <= j < |a| ==> !MatchAt(a + b, pat, j)
  {
    var s := a + b;
    forall j | 0 <= j < |a| ensures !MatchAt(s, pat, j) {
      if j + |pat| > |s| {
      } else if j + |pat| <= |a| {
        assert s[j..j + |pat|] == a[j..j + |pat|];
        assert !MatchAt(a, pat, j);
      } else {
        var k := |a| - j;
        assert pat[1..][k - 1] == pat[k];
        assert s[j..j + |pat|][k] == b[0];
      }
    }
  }

  /**
   * Two texts without the pattern make none when the second starts with the
   * pattern's first character (or is empty) and that character does not
   * recur in the pattern: no match can straddle the seam.
   */
  lemma NoMatchAcrossHead(a: string, b: string, pat: string)
    requires pat != [] && pat[0] !in pat[1..]
    requires !Contains(a, pat) && !Contains(b, pat)
    requires b == [] || b[0] == pat[0]
    ensures !Contains(a + b, pat)
  {
    NoMatchBefore(a, b, pat);
    forall j | |a| <= j <= |a + b| ensures !MatchAt(a + b, pat, j) {
      MatchInSuffix(a, b, pat, j - |a|);
      assert !MatchAt(b, pat, j - |a|);
    }
  }

  /**
   * Text without the pattern before its first match is copied, when the
   * pattern's first character does not recur in it.
   */
  lemma ReplaceAfterAbsent(a: string, b: string, pat: string, rep: string)
    requires pat != [] && pat[0] !in pat[1..] && !Contains(a, pat)
    ensures Replace(a + pat + b, pat, rep) == a + rep + Replace(b, pat, rep)
  {
    NoMatchBefore(a, pat + b, pat);
    assert a + (pat + b) == a + pat + b;
    SplitAfter(a, b, pat);
    var parts := Split(b, pat);
    assert ([a] + parts)[1..] == parts;
  }

  // ---------------------------------------------------------------------
  // Lemmas about decimal formatting and dirname

  /** Different numbers print differently. */
  lemma DecimalInjective(a: nat, b: nat)
    ensures Decimal(a) == Decimal(b) <==> a == b
  {
    if Decimal(a) == Decimal(b) {
      assert DigitsValue(Decimal(a)) == DigitsValue(Decimal(b));
    }
  }

  /** The directory part of `dir + "/" + name` is `dir` when `name` has no '/'. */
  lemma {:induction false} DirnameOfChild(dir: string, name: string)
    requires '/' !in name
    ensures Dirname(dir + "/" + name) == dir
    decreases |name|
  {
    var p := dir + "/" + name;
    if name == [] {
      assert p[..|p| - 1] == dir;
    } else {
      assert p[..|p| - 1] == dir + "/" + name[..|name| - 1];
      DirnameOfChild(dir, name[..|name| - 1]);
    }
  }
}
