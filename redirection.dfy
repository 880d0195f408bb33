/** The trailing-redirection extraction block of `main` in app/main.ts. */
module Redirection {
  import opened Wrappers
  import opened Text

  /** The four end-anchored patterns, in the order the block tries them:
      `(?:^|\s)(?:1?>>|>>)\s*([^\s]+)$`, `(?:^|\s)(?:1?>)\s*([^\s]+)$`,
      `(?:^|\s)2>>\s*([^\s]+)$` and `(?:^|\s)2>\s*([^\s]+)$`. */
  datatype Op = AppendOut | Out | AppendErr | Err

  /** The operator spellings each pattern accepts. */
  predicate IsOperator(op: Op, w: string) {
    match op
    case AppendOut => w == ">>" || w == "1>>"
    case Out => w == ">" || w == "1>"
    case AppendErr => w == "2>>"
    case Err => w == "2>"
  }

  /** `s` holds `ch` at index `i`. */
  predicate At(s: string, i: nat, ch: char) {
    i < |s| && s[i] == ch
  }

  /** The length of the operator of `op` written at index `q` of `s`, or 0 when there is
      none; the optional `1` is tried first. */
  function OpAt(op: Op, s: string, q: nat): (k: nat)
    ensures k > 0 ==> q + k <= |s| && IsOperator(op, s[q..q + k]) && WordRun(s, q, q + k)
    ensures q < |s| && IsSpace(s[q]) ==> k == 0
  {
    var k :=
      match op
      case AppendOut =>
        if At(s, q, '1') && At(s, q + 1, '>') && At(s, q + 2, '>') then 3
        else if At(s, q, '>') && At(s, q + 1, '>') then 2 else 0
      case Out =>
        if At(s, q, '1') && At(s, q + 1, '>') then 2 else if At(s, q, '>') then 1 else 0
      case AppendErr => if At(s, q, '2') && At(s, q + 1, '>') && At(s, q + 2, '>') then 3 else 0
      case Err => if At(s, q, '2') && At(s, q + 1, '>') then 2 else 0;
    assert k > 0 ==> forall i :: q <= i < q + k ==> s[i] == s[q..q + k][i - q];
    k
  }

  /** A captured file name `[^\s]+`. */
  predicate IsTarget(f: string) {
    f != [] && NoSpace(f)
  }

  /** `\s*([^\s]+)$` from index `r`: the captured name. */
  function TailAfter(s: string, r: nat): Option<string>
    requires r <= |s|
  {
    var j := SkipSpaces(s, r);
    if j < |s| && WordRun(s, j, |s|) then Some(s[j..]) else None
  }

  /** The operator of `op` at index `q`, followed by the tail. */
  function AttemptAt(op: Op, s: string, q: nat): Option<string> {
    var k := OpAt(op, s, q);
    if k == 0 then None else TailAfter(s, q + k)
  }

  /** The pattern of `op` tried at start index `p`: the `^` alternative first, then `\s`. */
  function MatchAt(op: Op, s: string, p: nat): Option<string> {
    if p == 0 && AttemptAt(op, s, 0).Some? then AttemptAt(op, s, 0)
    else if p < |s| && IsSpace(s[p]) then AttemptAt(op, s, p + 1)
    else None
  }

  /** A match: where it starts and the captured file name. It always runs to the end. */
  datatype Match = Match(start: nat, target: string)

  /** The first start index at or after `p` where the pattern of `op` matches. */
  function SearchFrom(op: Op, s: string, p: nat): Option<Match>
    decreases |s| - p
  {
    if p >= |s| then None
    else match MatchAt(op, s, p)
      case Some(f) => Some(Match(p, f))
      case None => SearchFrom(op, s, p + 1)
  }

  lemma {:induction false} SearchFromFound(op: Op, s: string, p: nat)
    requires SearchFrom(op, s, p).Some?
    ensures var m := SearchFrom(op, s, p).value;
      && p <= m.start < |s| && MatchAt(op, s, m.start) == Some(m.target)
      && forall p' :: p <= p' < m.start ==> MatchAt(op, s, p').None?
    decreases |s| - p
  {
    if MatchAt(op, s, p).None? {
      SearchFromFound(op, s, p + 1);
    }
  }

  lemma {:induction false} SearchFromNone(op: Op, s: string, p: nat)
    requires SearchFrom(op, s, p).None?
    ensures forall p' :: p <= p' < |s| ==> MatchAt(op, s, p').None?
    decreases |s| - p
  {
    if p < |s| {
      SearchFromNone(op, s, p + 1);
    }
  }

  /** The search reports the first start index where the pattern matches, or none. */
  lemma SearchFromSpec(op: Op, s: string, p: nat)
    ensures var m := SearchFrom(op, s, p);
      && (m.Some? ==> p <= m.value.start < |s| && MatchAt(op, s, m.value.start) == Some(m.value.target))
      && (m.Some? ==> forall p' :: p <= p' < m.value.start ==> MatchAt(op, s, p').None?)
      && (m.None? ==> forall p' :: p <= p' < |s| ==> MatchAt(op, s, p').None?)
  {
    if SearchFrom(op, s, p).Some? {
      SearchFromFound(op, s, p);
    } else {
      SearchFromNone(op, s, p);
    }
  }

  /** `s.match(pattern)` for the pattern of `op`: the leftmost match, if any. */
  function FirstMatch(op: Op, s: string): (m: Option<Match>)
    ensures m.Some? ==> m.value.start < |s|
  {
    SearchFromSpec(op, s, 0);
    SearchFrom(op, s, 0)
  }

  // ---------------------------------------------------------------------------------------
  // The patterns as a regular language

  /** Index `q` is where the operator may begin for a match starting at `p`: the line
      start (`^`), or just after the one whitespace character at `p` (`\s`). */
  predicate Anchored(s: string, p: nat, q: nat) {
    (p == 0 && q == 0) || (q == p + 1 && p < |s| && IsSpace(s[p]))
  }

  /** `s[q..e]` is a spelling of `op`, `k` characters long, followed by whitespace only. */
  predicate OperatorOfLength(op: Op, s: string, q: nat, k: nat, e: nat) {
    q + k <= e <= |s| && IsOperator(op, s[q..q + k]) && SpaceRun(s, q + k, e)
  }

  /** `s[q..e]` is a spelling of `op` followed by whitespace only. */
  ghost predicate OperatorBefore(op: Op, s: string, q: nat, e: nat) {
    exists k: nat :: OperatorOfLength(op, s, q, k, e)
  }

  /** The pattern of `op` matches `s` from index `p` to the end, capturing `f`. */
  ghost predicate Occurs(op: Op, s: string, p: nat, f: string) {
    && IsTarget(f) && |f| <= |s| && s[|s| - |f|..] == f
    && ((p == 0 && OperatorBefore(op, s, 0, |s| - |f|))
        || (p < |s| && IsSpace(s[p]) && OperatorBefore(op, s, p + 1, |s| - |f|)))
  }

  /** The match `match` returns: an occurrence with none starting further left. */
  ghost predicate Leftmost(op: Op, s: string, p: nat, f: string) {
    Occurs(op, s, p, f) && forall p': nat, f' :: p' < p ==> !Occurs(op, s, p', f')
  }

  lemma OccursWitness(op: Op, s: string, p: nat, f: string) returns (q: nat, k: nat)
    requires Occurs(op, s, p, f)
    ensures Anchored(s, p, q) && OperatorOfLength(op, s, q, k, |s| - |f|)
    ensures WordRun(s, |s| - |f|, |s|) && |f| > 0
  {
    var e := |s| - |f|;
    if p == 0 && OperatorBefore(op, s, 0, e) {
      q := 0;
    } else {
      q := p + 1;
    }
    k :| OperatorOfLength(op, s, q, k, e);
    WordRunSlice(s, e, |s|);
  }

  /** The operator the pattern reads at `q` is the spelling written there. */
  lemma OpAtSpelling(op: Op, s: string, q: nat, k: nat)
    requires q + k <= |s| && IsOperator(op, s[q..q + k])
    ensures OpAt(op, s, q) == k
  {
    var w := s[q..q + k];
    assert s[q] == w[0];
    assert k >= 2 ==> s[q + 1] == w[1];
    assert k >= 3 ==> s[q + 2] == w[2];
  }

  /** The pieces of a match the search reports. */
  lemma MatchParts(op: Op, s: string, p: nat) returns (q: nat, k: nat, j: nat)
    requires MatchAt(op, s, p).Some?
    ensures Anchored(s, p, q) && k == OpAt(op, s, q) && k > 0 && j == SkipSpaces(s, q + k)
    ensures j < |s| && WordRun(s, j, |s|) && MatchAt(op, s, p) == Some(s[j..])
    ensures SpaceRun(s, q + k, j)
  {
    q := if p == 0 && AttemptAt(op, s, 0).Some? then 0 else p + 1;
    k := OpAt(op, s, q);
    j := SkipSpaces(s, q + k);
  }

  /** Every match the search reports is an occurrence of the pattern. */
  lemma MatchAtSound(op: Op, s: string, p: nat)
    requires MatchAt(op, s, p).Some?
    ensures Occurs(op, s, p, MatchAt(op, s, p).value)
  {
    var q, k, j := MatchParts(op, s, p);
    var f := s[j..];
    assert |s| - |f| == j;
    WordRunSlice(s, j, |s|);
    assert OperatorOfLength(op, s, q, k, j);
    assert OperatorBefore(op, s, q, j);
  }

  /** An operator and whitespace before a name at the end: the attempt captures the name. */
  lemma AttemptFinds(op: Op, s: string, q: nat, k: nat, e: nat)
    requires e < |s| && WordRun(s, e, |s|) && OperatorOfLength(op, s, q, k, e)
    ensures AttemptAt(op, s, q) == Some(s[e..])
  {
    OpAtSpelling(op, s, q, k);
    SkipSpacesTo(s, q + k, e);
  }

  /** Every occurrence of the pattern is found when tried at its start. */
  lemma MatchAtComplete(op: Op, s: string, p: nat, f: string)
    requires Occurs(op, s, p, f)
    ensures MatchAt(op, s, p) == Some(f)
  {
    var q, k := OccursWitness(op, s, p, f);
    var e := |s| - |f|;
    AttemptFinds(op, s, q, k, e);
    assert s[e..] == f;
    if q != 0 && p == 0 {
      // the `^` alternative is tried first, but no operator begins with whitespace
      assert OpAt(op, s, 0) == 0;
    }
  }


  /** At each start index the pattern captures at most one name. */
  lemma OccursUnique(op: Op, s: string, p: nat, f: string, f': string)
    requires Occurs(op, s, p, f) && Occurs(op, s, p, f')
    ensures f == f'
  {
    MatchAtComplete(op, s, p, f);
    MatchAtComplete(op, s, p, f');
  }

  lemma FirstMatchLeftmost(op: Op, s: string)
    requires FirstMatch(op, s).Some?
    ensures Leftmost(op, s, FirstMatch(op, s).value.start, FirstMatch(op, s).value.target)
  {
    var m := FirstMatch(op, s).value;
    SearchFromSpec(op, s, 0);
    MatchAtSound(op, s, m.start);
    forall p': nat, f' | p' < m.start ensures !Occurs(op, s, p', f') {
      if Occurs(op, s, p', f') {
        MatchAtComplete(op, s, p', f');
      }
    }
  }

  /** `match` with an end-anchored pattern: it reports exactly the leftmost occurrence. */
  lemma FirstMatchIsLeftmost(op: Op, s: string, p: nat, f: string)
    ensures FirstMatch(op, s) == Some(Match(p, f)) <==> Leftmost(op, s, p, f)
  {
    if FirstMatch(op, s) == Some(Match(p, f)) {
      FirstMatchLeftmost(op, s);
    }
    if Leftmost(op, s, p, f) {
      MatchAtComplete(op, s, p, f);
      SearchFromSpec(op, s, 0);
      var m := FirstMatch(op, s).value;
      FirstMatchLeftmost(op, s);
      MatchAtSound(op, s, m.start);
      assert m.start == p;
      OccursUnique(op, s, p, f, m.target);
    }
  }

  /** `match` finds nothing exactly when the pattern occurs nowhere. */
  lemma NoMatchIffNoOccurrence(op: Op, s: string)
    ensures FirstMatch(op, s).None? <==> forall p: nat, f :: !Occurs(op, s, p, f)
  {
    SearchFromSpec(op, s, 0);
    if FirstMatch(op, s).None? {
      forall p: nat, f ensures !Occurs(op, s, p, f) {
        if Occurs(op, s, p, f) {
          MatchAtComplete(op, s, p, f);
        }
      }
    } else {
      MatchAtSound(op, s, FirstMatch(op, s).value.start);
    }
  }

  /** A reported name is a whitespace-free word. */
  lemma FirstMatchTarget(op: Op, s: string)
    ensures FirstMatch(op, s).Some? ==> IsTarget(FirstMatch(op, s).value.target)
  {
    SearchFromSpec(op, s, 0);
    if FirstMatch(op, s).Some? {
      var q, k, j := MatchParts(op, s, FirstMatch(op, s).value.start);
      WordRunSlice(s, j, |s|);
    }
  }

  /** Every spelling of an operator holds `>`. */
  lemma OperatorHasAngle(op: Op, w: string)
    requires IsOperator(op, w)
    ensures '>' in w
  {
    assert w[|w| - 1] == '>';
  }

  /** An operator found in `s` puts a `>` in `s`. */
  lemma OpAtNeedsAngle(op: Op, s: string, q: nat)
    ensures OpAt(op, s, q) > 0 ==> '>' in s
  {
    var k := OpAt(op, s, q);
    if k > 0 {
      var w := s[q..q + k];
      OperatorHasAngle(op, w);
      var i :| 0 <= i < |w| && w[i] == '>';
      assert s[q + i] == '>';
    }
  }

  /** An operator glued to a name that does not begin with `>`: the operator is read
      whole, and no pattern tried before it reads one there. */
  lemma GluedOpAt(op: Op, w: string, f: string)
    requires IsOperator(op, w) && f != [] && f[0] != '>'
    ensures OpAt(op, w + f, 0) == |w|
    ensures op != AppendOut ==> OpAt(AppendOut, w + f, 0) == 0
    ensures (op == AppendErr || op == Err) ==> OpAt(Out, w + f, 0) == 0
    ensures op == Err ==> OpAt(AppendErr, w + f, 0) == 0
  {
    var s := w + f;
    assert s[..|w|] == w;
    OpAtSpelling(op, s, 0, |w|);
    assert s[|w|] == f[0];
    assert s[0] == w[0];
    assert |w| >= 2 ==> s[1] == w[1];
  }

  lemma NoAngleNoMatch(op: Op, s: string)
    requires '>' !in s
    ensures FirstMatch(op, s).None?
  {
    SearchFromSpec(op, s, 0);
    forall p: nat ensures MatchAt(op, s, p).None? {
      OpAtNeedsAngle(op, s, 0);
      OpAtNeedsAngle(op, s, p + 1);
    }
  }

  // ---------------------------------------------------------------------------------------
  // Lines whose last two words decide the match

  /** The operator read at index `c` depends only on the text from `c` on. */
  lemma OpAtShift(op: Op, s: string, c: nat)
    requires c <= |s|
    ensures OpAt(op, s, c) == OpAt(op, s[c..], 0)
  {
    forall i: nat, ch ensures At(s, c + i, ch) == At(s[c..], i, ch) {
      if c + i < |s| {
        assert s[c..][i] == s[c + i];
      }
    }
  }

  /** An operator whose spaces end inside a word that follows whitespace at `c - 1` is
      written at the start of that word. */
  lemma OperatorStartsWord(op: Op, s: string, c: nat, p: nat, q: nat, k: nat, e: nat)
    requires 1 <= c < e <= |s| && IsSpace(s[c - 1]) && WordRun(s, c, |s|)
    requires Anchored(s, p, q) && OperatorOfLength(op, s, q, k, e)
    ensures p == c - 1 && q == c && OpAt(op, s, c) == k && e == c + k
  {
    OpAtSpelling(op, s, q, k);
    assert !IsSpace(s[e - 1]);
    assert q + k == e;
    assert !IsSpace(s[q]);
    assert q >= c;
    assert p >= c - 1;
  }

  /** An operator whose spaces end at `c`, after a word `s[a..b]` that follows whitespace
      (or the line start) and precedes whitespace up to `c`, is that word. */
  lemma OperatorIsWord(op: Op, s: string, a: nat, b: nat, c: nat, p: nat, q: nat, k: nat)
    requires a < b <= c <= |s| && (a == 0 || IsSpace(s[a - 1]))
    requires WordRun(s, a, b) && SpaceRun(s, b, c)
    requires Anchored(s, p, q) && OperatorOfLength(op, s, q, k, c)
    ensures q == a && k == b - a && p == (if a == 0 then 0 else a - 1)
  {
    OpAtSpelling(op, s, q, k);
    assert k > 0;
    assert !IsSpace(s[q + k - 1]);
    assert q + k <= b;
    assert !IsSpace(s[b - 1]);
    assert q + k == b;
    assert q <= a;
    assert q == a;
  }

  /** Every occurrence in a line whose last words are `s[a..b]` and `s[c..]`, with
      whitespace between, is one of two kinds. */
  lemma OccurrenceAtEndOf(op: Op, s: string, a: nat, b: nat, c: nat, p: nat, f: string)
    requires EndsInWords(s, a, b, c) && Occurs(op, s, p, f)
    ensures || (p == (if a == 0 then 0 else a - 1) && f == s[c..] && IsOperator(op, s[a..b]))
            || (p == c - 1 && 0 < OpAt(op, s, c) < |s| - c && f == s[c + OpAt(op, s, c)..])
  {
    var q, k := OccursWitness(op, s, p, f);
    var e := |s| - |f|;
    assert s[e..] == f;
    // the name is one whitespace-free word, so it lies within the last word
    assert IsSpace(s[c - 1]);
    assert e >= c;
    if e > c {
      OperatorStartsWord(op, s, c, p, q, k, e);
      assert p == c - 1 && 0 < OpAt(op, s, c) < |s| - c && f == s[c + OpAt(op, s, c)..];
    } else {
      OperatorIsWord(op, s, a, b, c, p, q, k);
      assert s[a..b] == s[q..q + k];
      assert p == (if a == 0 then 0 else a - 1) && f == s[c..] && IsOperator(op, s[a..b]);
    }
  }

  /** The match on a line whose last two words are `v` and `u`, `u` starting at index `c`
      and the match of `v` at `anchor`: `v` when it is the operator, else an operator that
      begins `u` and leaves a name after it, else none. */
  function LastWordsMatch(op: Op, v: string, u: string, anchor: nat, c: nat): Option<Match> {
    if IsOperator(op, v) then Some(Match(anchor, u))
    else if 0 < OpAt(op, u, 0) < |u| && c > 0 then Some(Match(c - 1, u[OpAt(op, u, 0)..]))
    else None
  }

  /** The shape `TrailingMatch` assumes: the last words `s[a..b]` and `s[c..]`. */
  predicate EndsInWords(s: string, a: nat, b: nat, c: nat) {
    && a < b < c < |s| && (a == 0 || IsSpace(s[a - 1]))
    && WordRun(s, a, b) && SpaceRun(s, b, c) && WordRun(s, c, |s|)
  }

  /** No occurrence starts before `p0`, where the only kinds that exist start. */
  lemma NoOccurrenceBefore(op: Op, s: string, a: nat, b: nat, c: nat, p0: nat)
    requires EndsInWords(s, a, b, c)
    requires p0 <= (if a == 0 then 0 else a - 1) || (p0 <= c - 1 && !IsOperator(op, s[a..b]))
    ensures forall p': nat, f' :: p' < p0 ==> !Occurs(op, s, p', f')
  {
    forall p': nat, f' | p' < p0 ensures !Occurs(op, s, p', f') {
      if Occurs(op, s, p', f') {
        OccurrenceAtEndOf(op, s, a, b, c, p', f');
      }
    }
  }

  lemma TrailingOperatorWord(op: Op, s: string, a: nat, b: nat, c: nat)
    requires EndsInWords(s, a, b, c) && IsOperator(op, s[a..b])
    ensures FirstMatch(op, s) == Some(Match(if a == 0 then 0 else a - 1, s[c..]))
  {
    var pa: nat := if a == 0 then 0 else a - 1;
    assert OperatorOfLength(op, s, a, b - a, c);
    WordRunSlice(s, c, |s|);
    assert Occurs(op, s, pa, s[c..]);
    NoOccurrenceBefore(op, s, a, b, c, pa);
    FirstMatchIsLeftmost(op, s, pa, s[c..]);
  }

  lemma TrailingInWord(op: Op, s: string, a: nat, b: nat, c: nat)
    requires EndsInWords(s, a, b, c) && !IsOperator(op, s[a..b])
    requires 0 < OpAt(op, s, c) < |s| - c
    ensures FirstMatch(op, s) == Some(Match(c - 1, s[c + OpAt(op, s, c)..]))
  {
    var k := OpAt(op, s, c);
    var f := s[c + k..];
    assert OperatorOfLength(op, s, c, k, c + k);
    WordRunSlice(s, c + k, |s|);
    assert Occurs(op, s, c - 1, f);
    NoOccurrenceBefore(op, s, a, b, c, c - 1);
    FirstMatchIsLeftmost(op, s, c - 1, f);
  }

  lemma TrailingNone(op: Op, s: string, a: nat, b: nat, c: nat)
    requires EndsInWords(s, a, b, c) && !IsOperator(op, s[a..b])
    requires !(0 < OpAt(op, s, c) < |s| - c)
    ensures FirstMatch(op, s).None?
  {
    forall p': nat, f' ensures !Occurs(op, s, p', f') {
      if Occurs(op, s, p', f') {
        OccurrenceAtEndOf(op, s, a, b, c, p', f');
      }
    }
    NoMatchIffNoOccurrence(op, s);
  }

  /** The match `match` reports on a line whose last words are `v == s[a..b]` and
      `u == s[c..]`. */
  lemma TrailingMatch(op: Op, s: string, a: nat, b: nat, c: nat, v: string, u: string)
    requires EndsInWords(s, a, b, c) && v == s[a..b] && u == s[c..]
    ensures FirstMatch(op, s) == LastWordsMatch(op, v, u, if a == 0 then 0 else a - 1, c)
  {
    OpAtShift(op, s, c);
    var k := OpAt(op, s, c);
    if IsOperator(op, s[a..b]) {
      TrailingOperatorWord(op, s, a, b, c);
    } else if 0 < k < |s| - c {
      TrailingInWord(op, s, a, b, c);
      assert s[c..][k..] == s[c + k..];
    } else {
      TrailingNone(op, s, a, b, c);
    }
  }

  /** A line `y + v + g + u`: `y` is empty or ends in whitespace, `v` and `u` are words,
      and `g` is the whitespace between them. */
  predicate LastTwoWords(y: string, v: string, g: string, u: string) {
    && (y == [] || IsSpace(y[|y| - 1]))
    && v != [] && NoSpace(v)
    && g != [] && AllSpace(g)
    && IsTarget(u)
  }

  /** Where a match of an operator written right after `y` starts. */
  function AnchorOf(y: string): nat {
    if |y| == 0 then 0 else |y| - 1
  }

  /** The pieces of `y + v + g + u` as `TrailingMatch` needs them. */
  lemma WordsShape(y: string, v: string, g: string, u: string)
    requires LastTwoWords(y, v, g, u)
    ensures var s := y + v + g + u;
      var a, b, c := |y|, |y| + |v|, |y| + |v| + |g|;
      EndsInWords(s, a, b, c) && s[a..b] == v && s[c..] == u
  {
    var s := y + v + g + u;
    var a, b, c := |y|, |y| + |v|, |y| + |v| + |g|;
    assert forall k :: 0 <= k < a ==> s[k] == y[k];
    assert forall k :: a <= k < b ==> s[k] == v[k - a];
    assert forall k :: b <= k < c ==> s[k] == g[k - b];
    assert forall k :: c <= k < |s| ==> s[k] == u[k - c];
    assert s[a..b] == v;
    assert s[c..] == u;
  }

  /** `TrailingMatch` for a line written as `y + v + g + u`. */
  lemma TrailingWords(op: Op, y: string, v: string, g: string, u: string)
    requires LastTwoWords(y, v, g, u)
    ensures FirstMatch(op, y + v + g + u) == LastWordsMatch(op, v, u, AnchorOf(y), |y| + |v| + |g|)
  {
    var s := y + v + g + u;
    var a, b, c := |y|, |y| + |v|, |y| + |v| + |g|;
    WordsShape(y, v, g, u);
    TrailingMatch(op, s, a, b, c, v, u);
  }
}
