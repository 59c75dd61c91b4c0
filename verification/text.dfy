/**
 * The few operations of Go's `strings` and `unicode` packages that the
 * handlers rely on, over strings seen as sequences of code points.
 */
module Text {

  /**
   * unicode.IsSpace: the ASCII white space characters, NEL, NBSP and the
   * other code points with the White_Space property.
   */
  predicate IsSpace(c: char) {
    ('\t' <= c <= '\r') || c == ' ' || c == '\U{0085}' || c == '\U{00A0}' || c == '\U{1680}'
    || ('\U{2000}' <= c <= '\U{200A}') || c == '\U{2028}' || c == '\U{2029}' || c == '\U{202F}'
    || c == '\U{205F}' || c == '\U{3000}'
  }

  /** Neither begins nor ends with white space. */
  predicate Trimmed(s: string) {
    s == [] || (!IsSpace(s[0]) && !IsSpace(s[|s| - 1]))
  }

  /** Leading white space removed (strings.TrimLeft with unicode.IsSpace). */
  function TrimLeftSpace(s: string): (r: string)
    ensures |r| <= |s| && r == s[|s| - |r|..]
    ensures r == [] || !IsSpace(r[0])
  {
    if s != [] && IsSpace(s[0]) then TrimLeftSpace(s[1..]) else s
  }

  /** Trailing white space removed (strings.TrimRight with unicode.IsSpace). */
  function TrimRightSpace(s: string): (r: string)
    ensures |r| <= |s| && r == s[..|r|]
    ensures r == [] || !IsSpace(r[|r| - 1])
  {
    if s != [] && IsSpace(s[|s| - 1]) then TrimRightSpace(s[..|s| - 1]) else s
  }

  /** strings.TrimSpace: white space removed from both ends. */
  function TrimSpace(s: string): (r: string)
    ensures |r| <= |s| && Trimmed(r)
  {
    if s != [] && IsSpace(s[0]) then TrimSpace(s[1..])
    else if s != [] && IsSpace(s[|s| - 1]) then TrimSpace(s[..|s| - 1])
    else s
  }

  /** TrimSpace is TrimLeft followed by TrimRight. */
  lemma {:induction false} TrimSpaceIsLeftThenRight(s: string)
    ensures TrimSpace(s) == TrimRightSpace(TrimLeftSpace(s))
    decreases |s|
  {
    if s != [] && IsSpace(s[0]) {
      TrimSpaceIsLeftThenRight(s[1..]);
    } else if s != [] && IsSpace(s[|s| - 1]) {
      TrimSpaceIsLeftThenRight(s[..|s| - 1]);
      assert TrimLeftSpace(s[..|s| - 1]) == s[..|s| - 1];
    }
  }

  /** Every character is white space. */
  predicate AllSpace(s: string) {
    forall i :: 0 <= i < |s| ==> IsSpace(s[i])
  }

  /** TrimLeftSpace removes only white space. */
  lemma {:induction false} TrimLeftRemovesSpaces(s: string)
    ensures AllSpace(s[..|s| - |TrimLeftSpace(s)|])
    decreases |s|
  {
    if s != [] && IsSpace(s[0]) {
      TrimLeftRemovesSpaces(s[1..]);
      var k := |s| - |TrimLeftSpace(s)|;
      assert forall i :: 1 <= i < k ==> s[..k][i] == s[1..][..k - 1][i - 1];
    }
  }

  /** TrimRightSpace removes only white space. */
  lemma {:induction false} TrimRightRemovesSpaces(s: string)
    ensures AllSpace(s[|TrimRightSpace(s)|..])
    decreases |s|
  {
    if s != [] && IsSpace(s[|s| - 1]) {
      var t := s[..|s| - 1];
      TrimRightRemovesSpaces(t);
      var k := |TrimRightSpace(s)|;
      assert forall i :: 0 <= i < |s| - 1 - k ==> s[k..][i] == t[k..][i];
    }
  }

  /** No character of `s` is white space. */
  predicate NoSpace(s: string)
  {
    forall i :: 0 <= i < |s| ==> !IsSpace(s[i])
  }

  lemma NoSpaceJoin(a: string, c: char, b: string)
    requires NoSpace(a) && NoSpace(b) && !IsSpace(c)
    ensures NoSpace(a + [c] + b)
  {
    var s := a + [c] + b;
    forall i | 0 <= i < |s|
      ensures !IsSpace(s[i])
    {
      if i < |a| {
        assert s[i] == a[i];
      } else if i > |a| {
        assert s[i] == b[i - |a| - 1];
      }
    }
  }

  lemma TrimRightNoSpace(s: string)
    requires NoSpace(s)
    ensures TrimRightSpace(s) == s
  {
  }

  /** A string without white space is its own TrimSpace. */
  lemma TrimSpaceNoSpace(s: string)
    requires forall i :: 0 <= i < |s| ==> !IsSpace(s[i])
    ensures TrimSpace(s) == s
  {
  }

  /** A character absent from a string is absent from any slice of it. */
  lemma SliceAvoids(s: string, a: int, b: int, c: char)
    requires 0 <= a <= b <= |s| && c !in s
    ensures c !in s[a..b]
  {
  }

  /** Trimming never introduces a character. */
  lemma {:induction false} TrimSpaceAvoids(s: string, c: char)
    requires c !in s
    ensures c !in TrimSpace(s)
    decreases |s|
  {
    if s != [] && IsSpace(s[0]) {
      SliceAvoids(s, 1, |s|, c);
      TrimSpaceAvoids(s[1..], c);
    } else if s != [] && IsSpace(s[|s| - 1]) {
      SliceAvoids(s, 0, |s| - 1, c);
      TrimSpaceAvoids(s[..|s| - 1], c);
    }
  }

  /** Trimming a string that starts with a non-space keeps that first character. */
  lemma {:induction false} TrimSpaceCons(x: char, u: string)
    ensures !IsSpace(x) ==> TrimSpace([x] + u) == [x] + TrimRightSpace(u)
    decreases |u|
  {
    if !IsSpace(x) && u != [] && IsSpace(u[|u| - 1]) {
      assert ([x] + u)[..|u|] == [x] + u[..|u| - 1];
      TrimSpaceCons(x, u[..|u| - 1]);
    }
  }

  /** The first index of `c` in `s`, or -1: the search extractField's range loop makes for its separator. */
  function IndexOf(s: string, c: char): (r: int)
    ensures -1 <= r < |s|
    ensures r == -1 <==> c !in s
    ensures 0 <= r ==> s[r] == c && c !in s[..r]
  {
    if s == [] then -1
    else if s[0] == c then 0
    else
      var k := IndexOf(s[1..], c);
      assert 0 <= k ==> s[..k + 1] == [s[0]] + s[1..][..k];
      if k == -1 then -1 else k + 1
  }

  /** The last index of `c` in `s`, or -1 (strings.LastIndex with a one-character separator). */
  function LastIndexOf(s: string, c: char): (r: int)
    ensures -1 <= r < |s|
    ensures r == -1 <==> c !in s
    ensures 0 <= r ==> s[r] == c && c !in s[r + 1..]
  {
    if s == [] then -1
    else if s[|s| - 1] == c then |s| - 1
    else
      var k := LastIndexOf(s[..|s| - 1], c);
      assert c in s[..|s| - 1] ==> c in s;
      assert c in s && c != s[|s| - 1] ==> c in s[..|s| - 1] by {
        if c in s && c != s[|s| - 1] {
          var j :| 0 <= j < |s| && s[j] == c;
          assert s[..|s| - 1][j] == c;
        }
      }
      assert 0 <= k ==> s[k + 1..] == s[..|s| - 1][k + 1..] + [s[|s| - 1]];
      k
  }

  /** strings.TrimRight with a one-character cut set: every trailing `c` removed. */
  function TrimRightChar(s: string, c: char): (r: string)
    ensures |r| <= |s| && r == s[..|r|]
    ensures forall i :: |r| <= i < |s| ==> s[i] == c
    ensures r == [] || r[|r| - 1] != c
  {
    if s != [] && s[|s| - 1] == c then TrimRightChar(s[..|s| - 1], c) else s
  }
}
