/** Character classes and trimming as JavaScript defines them for the shell's strings. */
module Text {

  /** JavaScript's regex class `\s`: the WhiteSpace and LineTerminator code points.
      `String.prototype.trim` strips exactly the same set. */
  predicate IsSpace(c: char) {
    var n := c as int;
    n == 0x20 || (0x09 <= n <= 0x0D) || n == 0xA0 || n == 0x1680
    || (0x2000 <= n <= 0x200A) || n == 0x2028 || n == 0x2029
    || n == 0x202F || n == 0x205F || n == 0x3000 || n == 0xFEFF
  }

  predicate AllSpace(s: string) {
    forall i :: 0 <= i < |s| ==> IsSpace(s[i])
  }

  predicate NoSpace(s: string) {
    forall i :: 0 <= i < |s| ==> !IsSpace(s[i])
  }

  predicate IsPrefix(p: string, s: string) {
    |p| <= |s| && s[..|p|] == p
  }

  /** Indices `a` to `b` of `s` all hold whitespace. */
  predicate SpaceRun(s: string, a: nat, b: nat)
    requires a <= b <= |s|
  {
    forall k :: a <= k < b ==> IsSpace(s[k])
  }

  /** Indices `a` to `b` of `s` hold no whitespace. */
  predicate WordRun(s: string, a: nat, b: nat)
    requires a <= b <= |s|
  {
    forall k :: a <= k < b ==> !IsSpace(s[k])
  }

  lemma SpaceRunSlice(s: string, a: nat, b: nat)
    requires a <= b <= |s|
    ensures SpaceRun(s, a, b) <==> AllSpace(s[a..b])
  {
    assert forall k :: a <= k < b ==> s[k] == s[a..b][k - a];
  }

  lemma WordRunSlice(s: string, a: nat, b: nat)
    requires a <= b <= |s|
    ensures WordRun(s, a, b) <==> NoSpace(s[a..b])
  {
    assert forall k :: a <= k < b ==> s[k] == s[a..b][k - a];
  }

  /** The first index at or after `r` that does not hold whitespace (`\s*` from `r`). */
  function SkipSpaces(s: string, r: nat): (j: nat)
    requires r <= |s|
    ensures r <= j <= |s| && SpaceRun(s, r, j) && (j == |s| || !IsSpace(s[j]))
    decreases |s| - r
  {
    if r < |s| && IsSpace(s[r]) then SkipSpaces(s, r + 1) else r
  }

  /** The least index at or after `lo`, and at most `j`, from which `s[..j]` ends in
      whitespace only. */
  function BackSpaces(s: string, lo: nat, j: nat): (k: nat)
    requires lo <= j <= |s|
    ensures lo <= k <= j && SpaceRun(s, k, j) && (k == lo || !IsSpace(s[k - 1]))
    decreases j
  {
    if j > lo && IsSpace(s[j - 1]) then BackSpaces(s, lo, j - 1) else j
  }

  /** Whitespace from `r` up to `j`, where a non-space begins: the skip stops at `j`. */
  lemma {:induction false} SkipSpacesTo(s: string, r: nat, j: nat)
    requires r <= j <= |s| && SpaceRun(s, r, j) && (j == |s| || !IsSpace(s[j]))
    ensures SkipSpaces(s, r) == j
    decreases j - r
  {
    if r < j {
      SkipSpacesTo(s, r + 1, j);
    }
  }

  /** Whitespace from `k` up to `j`, after a non-space at `k - 1`: the skip back stops at `k`. */
  lemma {:induction false} BackSpacesTo(s: string, lo: nat, j: nat, k: nat)
    requires lo <= k <= j <= |s| && SpaceRun(s, k, j) && (k == lo || !IsSpace(s[k - 1]))
    ensures BackSpaces(s, lo, j) == k
    decreases j
  {
    if k < j {
      BackSpacesTo(s, lo, j - 1, k);
    }
  }

  /** `String.prototype.trim`: whitespace cut off at both ends. */
  function Trim(s: string): (r: string)
    ensures |r| <= |s|
    ensures r == [] || (!IsSpace(r[0]) && !IsSpace(r[|r| - 1]))
  {
    var i := SkipSpaces(s, 0);
    var j := BackSpaces(s, i, |s|);
    assert i < j ==> s[i..j][0] == s[i] && s[i..j][j - i - 1] == s[j - 1];
    s[i..j]
  }

  /** The trimmed text is the piece of `s` between two runs of whitespace. */
  lemma TrimInfix(s: string) returns (i: nat, j: nat)
    ensures i <= j <= |s| && Trim(s) == s[i..j] && SpaceRun(s, 0, i) && SpaceRun(s, j, |s|)
  {
    i := SkipSpaces(s, 0);
    j := BackSpaces(s, i, |s|);
  }

  /** Any piece of `s` between whitespace runs, without edge whitespace, is its trim. */
  lemma TrimUnique(s: string, i: nat, j: nat)
    requires i <= j <= |s| && SpaceRun(s, 0, i) && SpaceRun(s, j, |s|)
    requires i < j ==> !IsSpace(s[i]) && !IsSpace(s[j - 1])
    ensures Trim(s) == s[i..j]
  {
    if i < j {
      SkipSpacesTo(s, 0, i);
      BackSpacesTo(s, i, |s|, j);
    } else {
      assert SpaceRun(s, 0, |s|);
      SkipSpacesTo(s, 0, |s|);
    }
  }

  /** A trimmed line is empty exactly when the line is all whitespace. */
  lemma TrimEmptyIffAllSpace(s: string)
    ensures Trim(s) == [] <==> AllSpace(s)
  {
    var i, j := TrimInfix(s);
    SpaceRunSlice(s, 0, |s|);
    if i < j {
      assert s[i] == Trim(s)[0];
    }
  }

  /** Trimming text without edge whitespace changes nothing. */
  lemma TrimNoEdgeSpace(s: string)
    requires s == [] || (!IsSpace(s[0]) && !IsSpace(s[|s| - 1]))
    ensures Trim(s) == s
  {
    TrimUnique(s, 0, |s|);
  }

  /** Trimming is idempotent. */
  lemma TrimIdempotent(s: string)
    ensures Trim(Trim(s)) == Trim(s)
  {
    TrimNoEdgeSpace(Trim(s));
  }

  /** Trimming adds no character. */
  lemma TrimKeeps(s: string, ch: char)
    ensures ch in Trim(s) ==> ch in s
  {
    var i, j := TrimInfix(s);
    if ch in Trim(s) {
      var k :| 0 <= k < |Trim(s)| && Trim(s)[k] == ch;
      assert s[i + k] == ch;
    }
  }

  /** Whitespace appended to `x` makes no difference to the trim. */
  lemma TrimTrailingSpace(x: string, g: string)
    requires AllSpace(g)
    ensures Trim(x + g) == Trim(x)
  {
    var i, j := TrimInfix(x);
    var s := x + g;
    if i < j {
      assert SpaceRun(s, j, |s|) by {
        forall k | j <= k < |s| ensures IsSpace(s[k]) {
          if k >= |x| {
            assert s[k] == g[k - |x|];
          }
        }
      }
      TrimUnique(s, i, j);
      assert s[i..j] == x[i..j];
    } else {
      TrimUnique(s, |s|, |s|);
    }
  }

  /** Text that does not begin with whitespace begins with its trim. */
  lemma TrimPrefix(s: string)
    requires s == [] || !IsSpace(s[0])
    ensures IsPrefix(Trim(s), s)
  {
    var j := BackSpaces(s, 0, |s|);
    assert SkipSpaces(s, 0) == 0;
    assert Trim(s) == s[0..j];
    assert s[..j] == s[0..j];
  }

  /** The first index at or after `r` that holds whitespace (`[^\s]*` from `r`). */
  function SkipWord(s: string, r: nat): (j: nat)
    requires r <= |s|
    ensures r <= j <= |s| && WordRun(s, r, j) && (j == |s| || IsSpace(s[j]))
    decreases |s| - r
  {
    if r < |s| && !IsSpace(s[r]) then SkipWord(s, r + 1) else r
  }
}
