/**
  The Python `str` operations the pipeline scripts rely on, with their Python semantics:
  `lower()` (ASCII letters), `replace(old, "")` (every non-overlapping occurrence, left to
  right) and `strip(chars)` (all leading and trailing occurrences).
*/
module PyText {

  predicate IsUpper(c: char) { 'A' <= c <= 'Z' }

  function LowerChar(c: char): char {
    if IsUpper(c) then (c as int + 32) as char else c
  }

  /** `s.lower()` restricted to ASCII: non-ASCII capitals are left as they are. */
  function Lower(s: string): (r: string)
    ensures |r| == |s|
    ensures forall i :: 0 <= i < |r| ==> !IsUpper(r[i])
    ensures forall i :: 0 <= i < |s| && !IsUpper(s[i]) ==> r[i] == s[i]
  {
    if s == [] then [] else [LowerChar(s[0])] + Lower(s[1..])
  }

  predicate StartsWith(s: string, p: string) {
    |p| <= |s| && s[..|p|] == p
  }

  /** `p` occurs somewhere in `s`. */
  predicate Contains(s: string, p: string) {
    exists i :: 0 <= i <= |s| - |p| && StartsWith(s[i..], p)
  }

  /** `s.replace(p, "")`: scan left to right, drop each occurrence of `p`, resume after it. */
  function RemoveAll(s: string, p: string): string
    requires p != []
    decreases |s|
  {
    if s == [] then []
    else if StartsWith(s, p) then RemoveAll(s[|p|..], p)
    else [s[0]] + RemoveAll(s[1..], p)
  }

  /** The characters of `s` that do not occur in `p`, in order. */
  function Outside(s: string, p: string): (r: string)
    ensures |r| <= |s|
  {
    if s == [] then [] else (if s[0] in p then [] else [s[0]]) + Outside(s[1..], p)
  }

  lemma {:induction false} OutsideAppend(a: string, b: string, p: string)
    ensures Outside(a + b, p) == Outside(a, p) + Outside(b, p)
  {
    if a == [] {
      assert a + b == b;
    } else {
      assert (a + b)[0] == a[0] && (a + b)[1..] == a[1..] + b;
      OutsideAppend(a[1..], b, p);
    }
  }

  lemma {:induction false} OutsideOfPattern(p: string, q: string)
    requires forall i :: 0 <= i < |q| ==> q[i] in p
    ensures Outside(q, p) == []
  {
    if q != [] {
      OutsideOfPattern(p, q[1..]);
    }
  }

  /**
    Removing occurrences of `p` never drops a character that is not in `p`, never reorders,
    and never lengthens the text.
  */
  lemma {:induction false} RemoveAllKeepsOthers(s: string, p: string)
    requires p != []
    ensures Outside(RemoveAll(s, p), p) == Outside(s, p)
    ensures |RemoveAll(s, p)| <= |s|
    decreases |s|
  {
    if s == [] {
    } else if StartsWith(s, p) {
      RemoveAllKeepsOthers(s[|p|..], p);
      assert s == s[..|p|] + s[|p|..];
      OutsideAppend(s[..|p|], s[|p|..], p);
      OutsideOfPattern(p, s[..|p|]);
    } else {
      RemoveAllKeepsOthers(s[1..], p);
      assert s == [s[0]] + s[1..];
      OutsideAppend([s[0]], s[1..], p);
      OutsideAppend([s[0]], RemoveAll(s[1..], p), p);
    }
  }

  /** Text in which `p` does not occur is left as it is. */
  lemma {:induction false} RemoveAllAbsent(s: string, p: string)
    requires p != []
    requires !Contains(s, p)
    ensures RemoveAll(s, p) == s
    decreases |s|
  {
    if s != [] {
      assert !StartsWith(s[0..], p) by { assert s[0..] == s; }
      assert !Contains(s[1..], p) by {
        forall i | 0 <= i <= |s[1..]| - |p| ensures !StartsWith(s[1..][i..], p) {
          assert s[1..][i..] == s[i + 1..];
        }
      }
      RemoveAllAbsent(s[1..], p);
    }
  }

  /** No occurrence can start inside a prefix that lacks the pattern's first character. */
  lemma {:induction false} KeepsPrefixWithoutFirst(a: string, x: string, p: string)
    requires p != []
    requires forall k :: 0 <= k < |a| ==> a[k] != p[0]
    ensures RemoveAll(a + x, p) == a + RemoveAll(x, p)
    decreases |a|
  {
    if a == [] {
      assert a + x == x;
    } else {
      var s := a + x;
      assert !StartsWith(s, p) by {
        if |p| <= |s| { assert s[..|p|][0] == a[0]; }
      }
      assert s[1..] == a[1..] + x;
      KeepsPrefixWithoutFirst(a[1..], x, p);
      assert a == [a[0]] + a[1..];
    }
  }

  /** `s.strip(c)`: drop every leading and every trailing `c`. */
  function Strip(s: string, c: char): string
    decreases |s|
  {
    if s == [] then []
    else if s[0] == c then Strip(s[1..], c)
    else if s[|s| - 1] == c then Strip(s[..|s| - 1], c)
    else s
  }

  /**
    The result of `strip` is a contiguous part of the input, everything cut off on either
    side is `c`, and the result neither starts nor ends with `c` (inner `c`s are kept).
  */
  lemma StripShape(s: string, c: char)
    ensures var r := Strip(s, c);
      exists i, j :: 0 <= i <= j <= |s| && r == s[i..j] &&
        (forall k :: 0 <= k < i ==> s[k] == c) &&
        (forall k :: j <= k < |s| ==> s[k] == c)
    ensures Strip(s, c) != [] ==> Strip(s, c)[0] != c && Strip(s, c)[|Strip(s, c)| - 1] != c
  {
    var i, j := StripSpan(s, c);
    StripEnds(s, c);
  }

  /** Where the result of `strip` sits in the input: `s[i..j]`, only `c`s around it. */
  lemma {:induction false} StripSpan(s: string, c: char) returns (i: nat, j: nat)
    ensures i <= j <= |s| && Strip(s, c) == s[i..j]
    ensures forall k :: 0 <= k < i ==> s[k] == c
    ensures forall k :: j <= k < |s| ==> s[k] == c
    decreases |s|
  {
    if s == [] {
      i, j := 0, 0;
    } else if s[0] == c {
      var t := s[1..];
      var i', j' := StripSpan(t, c);
      i, j := i' + 1, j' + 1;
      assert Strip(s, c) == t[i'..j'];
      assert t[i'..j'] == s[i..j];
      forall k | 0 <= k < i ensures s[k] == c {
        if k > 0 { assert s[k] == t[k - 1]; }
      }
      forall k | j <= k < |s| ensures s[k] == c {
        assert s[k] == t[k - 1];
      }
    } else if s[|s| - 1] == c {
      var t := s[..|s| - 1];
      i, j := StripSpan(t, c);
      assert Strip(s, c) == t[i..j];
      assert t[i..j] == s[i..j];
      forall k | j <= k < |s| ensures s[k] == c {
        if k < |t| { assert s[k] == t[k]; }
      }
    } else {
      i, j := 0, |s|;
      assert s[0..|s|] == s;
    }
  }

  /** The result of `strip` neither starts nor ends with `c`. */
  lemma {:induction false} StripEnds(s: string, c: char)
    ensures Strip(s, c) != [] ==> Strip(s, c)[0] != c && Strip(s, c)[|Strip(s, c)| - 1] != c
    decreases |s|
  {
    if s != [] && s[0] == c {
      StripEnds(s[1..], c);
    } else if s != [] && s[|s| - 1] == c {
      StripEnds(s[..|s| - 1], c);
    }
  }

  /** Stripping twice is stripping once. */
  lemma StripIdempotent(s: string, c: char)
    ensures Strip(Strip(s, c), c) == Strip(s, c)
  {
    StripShape(s, c);
  }
}
