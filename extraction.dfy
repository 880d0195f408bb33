/** The trailing-redirection block of `main` in app/main.ts: four `match`/`replace`
    passes over the trimmed line, stdout's two patterns first, then stderr's. */
module Extraction {
  import opened Wrappers
  import opened Text
  import opened Redirection

  /** The four variables the block sets. */
  datatype Redirects = Redirects(
    outputFile: Option<string>, errorFile: Option<string>,
    appendOutput: bool, appendError: bool)

  /** Their values before the block runs. */
  const NoRedirects := Redirects(None, None, false, false)

  /** The command text left over, and the redirections taken off it. */
  datatype Extraction = Extraction(command: string, redirects: Redirects)

  /** The two streams a line may redirect. */
  datatype Stream = Stdout | Stderr

  /** The stream's appending pattern (`>>`, `1>>`, `2>>`). */
  function AppendOp(st: Stream): Op {
    match st
    case Stdout => AppendOut
    case Stderr => AppendErr
  }

  /** The stream's truncating pattern (`>`, `1>`, `2>`). */
  function PlainOp(st: Stream): Op {
    match st
    case Stdout => Out
    case Stderr => Err
  }

  /** `s.replace(pattern, "")` for the pattern of `op`: the leftmost match cut off the end. */
  function Replace(op: Op, s: string): (r: string)
    ensures IsPrefix(r, s)
    ensures r == s <==> FirstMatch(op, s).None?
  {
    match FirstMatch(op, s)
    case Some(m) => s[..m.start]
    case None => s
  }

  /** `replace` cuts the text off where the leftmost occurrence begins. */
  lemma ReplaceLeftmost(op: Op, s: string, p: nat, f: string)
    requires Leftmost(op, s, p, f)
    ensures p <= |s| && Replace(op, s) == s[..p]
  {
    FirstMatchIsLeftmost(op, s, p, f);
  }

  /** What one stream's half of the block yields. */
  datatype Taken = Taken(file: Option<string>, append: bool, rest: string)

  /** One stream's half of the block: the appending pattern is matched and, if found,
      removed; the truncating pattern is then matched on what is left, and used only
      when the appending one was not found. */
  function Stage(st: Stream, s: string): (t: Taken)
    ensures t.append ==> t.file.Some?
    ensures t.file.Some? ==> IsTarget(t.file.value) && |t.rest| < |s|
    ensures t.file.None? ==> t.rest == s
  {
    FirstMatchTarget(AppendOp(st), s);
    var am := FirstMatch(AppendOp(st), s);
    var s' := if am.Some? then Trim(Replace(AppendOp(st), s)) else s;
    FirstMatchTarget(PlainOp(st), s');
    var pm := FirstMatch(PlainOp(st), s');
    if am.Some? then Taken(Some(am.value.target), true, s')
    else if pm.Some? then Taken(Some(pm.value.target), false, Trim(Replace(PlainOp(st), s')))
    else Taken(None, false, s)
  }

  /** The block on an already trimmed line. */
  function Extract(trimmed: string): (x: Extraction)
    ensures x.redirects.appendOutput ==> x.redirects.outputFile.Some?
    ensures x.redirects.appendError ==> x.redirects.errorFile.Some?
    ensures x.redirects.outputFile.Some? ==> IsTarget(x.redirects.outputFile.value)
    ensures x.redirects.errorFile.Some? ==> IsTarget(x.redirects.errorFile.value)
    ensures |x.command| <= |trimmed|
    ensures x.command == trimmed <==> x.redirects == NoRedirects
  {
    var o := Stage(Stdout, trimmed);
    var e := Stage(Stderr, o.rest);
    Extraction(e.rest, Redirects(o.file, e.file, o.append, e.append))
  }

  /** The block as `main` runs it, one variable at a time, on `input.trim()`. */
  method ExtractRedirections(input: string) returns (trimmed: string, redirects: Redirects)
    ensures Extraction(trimmed, redirects) == Extract(Trim(input))
  {
    trimmed := Trim(input);
    ghost var line := trimmed;
    var outputFile: Option<string> := None;
    var errorFile: Option<string> := None;
    var appendOutput := false;
    var appendError := false;

    var appendOutMatch := FirstMatch(AppendOut, trimmed);
    if appendOutMatch.Some? {
      outputFile := Some(appendOutMatch.value.target);
      appendOutput := true;
      trimmed := Trim(Replace(AppendOut, trimmed));
    }
    var outMatch := FirstMatch(Out, trimmed);
    if outMatch.Some? && !appendOutput {
      outputFile := Some(outMatch.value.target);
      trimmed := Trim(Replace(Out, trimmed));
    }
    assert Stage(Stdout, line) == Taken(outputFile, appendOutput, trimmed);
    ghost var rest := trimmed;

    var appendErrMatch := FirstMatch(AppendErr, trimmed);
    if appendErrMatch.Some? {
      errorFile := Some(appendErrMatch.value.target);
      appendError := true;
      trimmed := Trim(Replace(AppendErr, trimmed));
    }
    var errMatch := FirstMatch(Err, trimmed);
    if errMatch.Some? && !appendError {
      errorFile := Some(errMatch.value.target);
      trimmed := Trim(Replace(Err, trimmed));
    }
    assert Stage(Stderr, rest) == Taken(errorFile, appendError, trimmed);
    redirects := Redirects(outputFile, errorFile, appendOutput, appendError);
  }

  // ---------------------------------------------------------------------------------------
  // One stream's half, against the leftmost occurrences of its patterns

  /** The appending pattern matched: its name is taken, the text before the match left. */
  lemma StageTakesAppend(st: Stream, s: string, m: Match)
    requires FirstMatch(AppendOp(st), s) == Some(m)
    ensures m.start < |s| && Stage(st, s) == Taken(Some(m.target), true, Trim(s[..m.start]))
  {
  }

  /** Only the truncating pattern matched: its name is taken, the text before it left. */
  lemma StageTakesPlain(st: Stream, s: string, m: Match)
    requires FirstMatch(AppendOp(st), s).None? && FirstMatch(PlainOp(st), s) == Some(m)
    ensures m.start < |s| && Stage(st, s) == Taken(Some(m.target), false, Trim(s[..m.start]))
  {
  }

  /** An appending redirection is taken from its leftmost occurrence. */
  lemma StageAppend(st: Stream, s: string, p: nat, f: string)
    requires Leftmost(AppendOp(st), s, p, f)
    ensures p <= |s| && Stage(st, s) == Taken(Some(f), true, Trim(s[..p]))
  {
    FirstMatchIsLeftmost(AppendOp(st), s, p, f);
  }

  /** Without an appending redirection, a truncating one is taken from its leftmost
      occurrence. */
  lemma StagePlain(st: Stream, s: string, p: nat, f: string)
    requires forall p': nat, f' :: !Occurs(AppendOp(st), s, p', f')
    requires Leftmost(PlainOp(st), s, p, f)
    ensures p <= |s| && Stage(st, s) == Taken(Some(f), false, Trim(s[..p]))
  {
    NoMatchIffNoOccurrence(AppendOp(st), s);
    FirstMatchIsLeftmost(PlainOp(st), s, p, f);
  }

  /** Without either redirection, nothing is taken. */
  lemma StageNone(st: Stream, s: string)
    requires forall p: nat, f :: !Occurs(AppendOp(st), s, p, f)
    requires forall p: nat, f :: !Occurs(PlainOp(st), s, p, f)
    ensures Stage(st, s) == Taken(None, false, s)
  {
    NoMatchIffNoOccurrence(AppendOp(st), s);
    NoMatchIffNoOccurrence(PlainOp(st), s);
  }

  /** The stream is opened for appending exactly when its appending pattern occurs. */
  lemma StageAppendIff(st: Stream, s: string)
    ensures Stage(st, s).append <==> exists p: nat, f :: Occurs(AppendOp(st), s, p, f)
  {
    NoMatchIffNoOccurrence(AppendOp(st), s);
  }

  /** A line without `>` keeps its text. */
  lemma StageNoAngle(st: Stream, s: string)
    requires '>' !in s
    ensures Stage(st, s) == Taken(None, false, s)
  {
    NoAngleNoMatch(AppendOp(st), s);
    NoAngleNoMatch(PlainOp(st), s);
  }

  /** What is left of a line that does not begin with whitespace is a prefix of it that
      does not begin with whitespace either. */
  lemma StagePrefix(st: Stream, s: string)
    requires s == [] || !IsSpace(s[0])
    ensures var r := Stage(st, s).rest; IsPrefix(r, s) && (r == [] || !IsSpace(r[0]))
  {
    var am := FirstMatch(AppendOp(st), s);
    var s' := if am.Some? then Trim(Replace(AppendOp(st), s)) else s;
    if am.Some? {
      PrefixOfTrimmed(Replace(AppendOp(st), s), s);
    }
    if am.None? && FirstMatch(PlainOp(st), s').Some? {
      PrefixOfTrimmed(Replace(PlainOp(st), s'), s');
    }
  }

  /** The trim of a prefix of `s` is a prefix of `s` when `s` does not begin with
      whitespace. */
  lemma PrefixOfTrimmed(r: string, s: string)
    requires IsPrefix(r, s) && (s == [] || !IsSpace(s[0]))
    ensures IsPrefix(Trim(r), s) && (Trim(r) == [] || !IsSpace(Trim(r)[0]))
  {
    if r != [] {
      assert r[0] == s[0];
    }
    TrimPrefix(r);
    assert s[..|Trim(r)|] == r[..|Trim(r)|];
  }

  // ---------------------------------------------------------------------------------------
  // The whole block

  /** A line without `>` redirects nothing and keeps its text. */
  lemma NoAngleNoRedirects(line: string)
    requires '>' !in line
    ensures Extract(line) == Extraction(line, NoRedirects)
  {
    StageNoAngle(Stdout, line);
    StageNoAngle(Stderr, line);
  }

  /** The command text is a prefix of the trimmed line. */
  lemma ExtractIsPrefix(line: string)
    requires line == [] || !IsSpace(line[0])
    ensures IsPrefix(Extract(line).command, line)
  {
    var o := Stage(Stdout, line);
    StagePrefix(Stdout, line);
    StagePrefix(Stderr, o.rest);
    assert line[..|Extract(line).command|] == o.rest[..|Extract(line).command|];
  }

  // ---------------------------------------------------------------------------------------
  // Lines whose last words are a redirection

  /** The redirections one operator `op` with the name `f` asks for. */
  function RedirectsOf(op: Op, f: string): Redirects {
    match op
    case AppendOut => Redirects(Some(f), None, true, false)
    case Out => Redirects(Some(f), None, false, false)
    case AppendErr => Redirects(None, Some(f), false, true)
    case Err => Redirects(None, Some(f), false, false)
  }

  /** The text before the match of an operator written right after `y` trims like `y`. */
  lemma TrimBeforeAnchor(y: string, s: string)
    requires y == [] || IsSpace(y[|y| - 1])
    requires IsPrefix(y, s)
    ensures AnchorOf(y) <= |s| && Trim(s[..AnchorOf(y)]) == Trim(y)
  {
    if y != [] {
      var y0 := y[..|y| - 1];
      assert s[..AnchorOf(y)] == y0;
      assert y == y0 + [y[|y| - 1]];
      TrimTrailingSpace(y0, [y[|y| - 1]]);
    }
  }

  /** A stream's operator `w` and a name `f` as the last two words: the name is taken,
      and the text before the operator is left. */
  lemma StageOperatorWord(st: Stream, y: string, w: string, g: string, f: string)
    requires LastTwoWords(y, w, g, f)
    requires IsOperator(AppendOp(st), w) || (IsOperator(PlainOp(st), w) && '>' !in f)
    ensures Stage(st, y + w + g + f) == Taken(Some(f), IsOperator(AppendOp(st), w), Trim(y))
  {
    var s := y + w + g + f;
    assert s[..|y|] == y;
    TrimBeforeAnchor(y, s);
    TrailingWords(AppendOp(st), y, w, g, f);
    if !IsOperator(AppendOp(st), w) {
      OpAtNeedsAngle(AppendOp(st), f, 0);
      TrailingWords(PlainOp(st), y, w, g, f);
    }
  }

  /** Last two words that are not a stream's operator and a name: nothing is taken. */
  lemma StageNoOperator(st: Stream, y: string, v: string, g: string, u: string)
    requires LastTwoWords(y, v, g, u) && '>' !in u
    requires !IsOperator(AppendOp(st), v) && !IsOperator(PlainOp(st), v)
    ensures Stage(st, y + v + g + u) == Taken(None, false, y + v + g + u)
  {
    TrailingWords(AppendOp(st), y, v, g, u);
    OpAtNeedsAngle(AppendOp(st), u, 0);
    TrailingWords(PlainOp(st), y, v, g, u);
    OpAtNeedsAngle(PlainOp(st), u, 0);
  }

  /** Last two words where neither is a stream's operator and the last does not start
      with one: nothing is taken. */
  lemma StageInWord(st: Stream, y: string, v: string, g: string, u: string)
    requires LastTwoWords(y, v, g, u)
    requires !IsOperator(AppendOp(st), v) && !IsOperator(PlainOp(st), v)
    requires OpAt(AppendOp(st), u, 0) == 0 && OpAt(PlainOp(st), u, 0) == 0
    ensures Stage(st, y + v + g + u) == Taken(None, false, y + v + g + u)
  {
    TrailingWords(AppendOp(st), y, v, g, u);
    TrailingWords(PlainOp(st), y, v, g, u);
  }

  /** An operator glued to the word before it, as in `echo hi>out` or `echo hi1>out`, is
      no redirection: when the last word does not start with an operator and the word
      before it is none, the line is left whole. */
  lemma GluedToWordIgnored(y: string, v: string, g: string, u: string)
    requires LastTwoWords(y, v, g, u)
    requires forall op :: !IsOperator(op, v)
    requires forall op :: OpAt(op, u, 0) == 0
    ensures Extract(y + v + g + u) == Extraction(y + v + g + u, NoRedirects)
  {
    assert !IsOperator(AppendOut, v) && !IsOperator(Out, v);
    assert !IsOperator(AppendErr, v) && !IsOperator(Err, v);
    assert OpAt(AppendOut, u, 0) == 0 && OpAt(Out, u, 0) == 0;
    assert OpAt(AppendErr, u, 0) == 0 && OpAt(Err, u, 0) == 0;
    StageInWord(Stdout, y, v, g, u);
    StageInWord(Stderr, y, v, g, u);
  }

  /** `cmd args OP name`, any of the six spellings: that one redirection is taken and
      `cmd args` is left. */
  lemma SingleRedirection(op: Op, y: string, w: string, g: string, f: string)
    requires LastTwoWords(y, w, g, f) && IsOperator(op, w)
    requires '>' !in y && '>' !in f
    ensures Extract(y + w + g + f) == Extraction(Trim(y), RedirectsOf(op, f))
  {
    TrimKeeps(y, '>');
    if op == AppendOut || op == Out {
      StageOperatorWord(Stdout, y, w, g, f);
      StageNoAngle(Stderr, Trim(y));
    } else {
      StageNoOperator(Stdout, y, w, g, f);
      StageOperatorWord(Stderr, y, w, g, f);
    }
  }

  /** The text before a match that starts in the whitespace `g` after `x` trims like `x`. */
  lemma TrimBeforeGap(x: string, g: string, z: string, s: string, n: nat)
    requires g != [] && AllSpace(g) && s == x + g + z && n == |x| + |g| - 1
    ensures n <= |s| && Trim(s[..n]) == Trim(x)
  {
    assert s[..n] == x + g[..|g| - 1];
    TrimTrailingSpace(x, g[..|g| - 1]);
  }

  /** `cmd args OPname`, the operator glued to the name: the same redirection. */
  lemma StageGlued(st: Stream, y: string, v: string, g: string, w: string, f: string)
    requires LastTwoWords(y, v, g, w + f) && IsTarget(f) && '>' !in v && '>' !in f
    requires IsOperator(AppendOp(st), w) || IsOperator(PlainOp(st), w)
    ensures Stage(st, y + v + g + (w + f))
         == Taken(Some(f), IsOperator(AppendOp(st), w), Trim(y + v))
  {
    var s := y + v + g + (w + f);
    var m := Match(|y| + |v| + |g| - 1, f);
    TrimBeforeGap(y + v, g, w + f, s, m.start);
    assert (w + f)[|w|..] == f;
    if IsOperator(AppendOp(st), v) {
      OperatorHasAngle(AppendOp(st), v);
    }
    TrailingWords(AppendOp(st), y, v, g, w + f);
    if IsOperator(AppendOp(st), w) {
      GluedOpAt(AppendOp(st), w, f);
      assert FirstMatch(AppendOp(st), s) == Some(m);
      StageTakesAppend(st, s, m);
    } else {
      if IsOperator(PlainOp(st), v) {
        OperatorHasAngle(PlainOp(st), v);
      }
      GluedOpAt(PlainOp(st), w, f);
      TrailingWords(PlainOp(st), y, v, g, w + f);
      assert FirstMatch(PlainOp(st), s) == Some(m);
      StageTakesPlain(st, s, m);
    }
  }

  /** `cmd args OPname` with the operator glued to the name: that one redirection is taken
      and `cmd args` is left. */
  lemma GluedRedirection(op: Op, y: string, v: string, g: string, w: string, f: string)
    requires LastTwoWords(y, v, g, w + f) && IsOperator(op, w) && IsTarget(f)
    requires '>' !in y && '>' !in v && '>' !in f
    ensures Extract(y + v + g + (w + f)) == Extraction(Trim(y + v), RedirectsOf(op, f))
  {
    var s := y + v + g + (w + f);
    TrimKeeps(y + v, '>');
    if op == AppendOut || op == Out {
      StageGlued(Stdout, y, v, g, w, f);
      StageNoAngle(Stderr, Trim(y + v));
    } else {
      if IsOperator(AppendOut, v) {
        OperatorHasAngle(AppendOut, v);
      }
      if IsOperator(Out, v) {
        OperatorHasAngle(Out, v);
      }
      GluedOpAt(op, w, f);
      TrailingWords(AppendOut, y, v, g, w + f);
      TrailingWords(Out, y, v, g, w + f);
      assert Stage(Stdout, s) == Taken(None, false, s);
      StageGlued(Stderr, y, v, g, w, f);
    }
  }

  // ---------------------------------------------------------------------------------------
  // Lines with two redirections, and lines where the code and the usual shell part ways

  /** Words `y + v + g + u` with no whitespace at either edge, followed by whitespace
      `g'`: their trim is the words themselves. */
  lemma TrimWords(y: string, v: string, g: string, u: string, g': string, s: string)
    requires LastTwoWords(y, v, g, u) && (y == [] || !IsSpace(y[0]))
    requires AllSpace(g') && s == y + v + g + u + g'
    ensures Trim(s) == y + v + g + u
  {
    var a := y + v + g + u;
    assert a[0] == (if y == [] then v[0] else y[0]);
    assert a[|a| - 1] == u[|u| - 1];
    TrimNoEdgeSpace(a);
    TrimTrailingSpace(a, g');
  }

  /** The block put together from its two halves. */
  lemma ExtractFromStages(s: string, o: Taken, e: Taken)
    requires Stage(Stdout, s) == o && Stage(Stderr, o.rest) == e
    ensures Extract(s) == Extraction(e.rest, Redirects(o.file, e.file, o.append, e.append))
  {
  }

  /** `cmd args 2>err >out` (any spellings): both redirections are taken. */
  lemma StderrThenStdout(y: string, we: string, g1: string, fe: string,
                         g2: string, wo: string, g3: string, fo: string)
    requires LastTwoWords(y, we, g1, fe) && (y == [] || !IsSpace(y[0])) && '>' !in fe
    requires IsOperator(AppendErr, we) || IsOperator(Err, we)
    requires LastTwoWords(g2, wo, g3, fo) && g2 != [] && AllSpace(g2) && '>' !in fo
    requires IsOperator(AppendOut, wo) || IsOperator(Out, wo)
    ensures Extract(y + we + g1 + fe + g2 + wo + g3 + fo)
         == Extraction(Trim(y), Redirects(Some(fo), Some(fe), IsOperator(AppendOut, wo),
                                          IsOperator(AppendErr, we)))
  {
    var a := y + we + g1 + fe;
    var y' := a + g2;
    assert y'[|y'| - 1] == g2[|g2| - 1];
    StageOperatorWord(Stdout, y', wo, g3, fo);
    TrimWords(y, we, g1, fe, g2, y');
    StageOperatorWord(Stderr, y, we, g1, fe);
  }

  /** `cmd args >out 2>err` (any spellings): only the stderr redirection is taken, because
      the stdout patterns are anchored at the end of the line; `>out` stays in the
      command text. */
  lemma StdoutThenStderr(y: string, wo: string, g1: string, fo: string,
                         g2: string, we: string, g3: string, fe: string)
    requires LastTwoWords(y, wo, g1, fo) && (y == [] || !IsSpace(y[0]))
    requires IsOperator(AppendOut, wo) || IsOperator(Out, wo)
    requires LastTwoWords(g2, we, g3, fe) && g2 != [] && AllSpace(g2) && '>' !in fe
    requires IsOperator(AppendErr, we) || IsOperator(Err, we)
    ensures Extract(y + wo + g1 + fo + g2 + we + g3 + fe)
         == Extraction(y + wo + g1 + fo, Redirects(None, Some(fe), false, IsOperator(AppendErr, we)))
  {
    var a := y + wo + g1 + fo;
    var y' := a + g2;
    assert y'[|y'| - 1] == g2[|g2| - 1];
    StageNoOperator(Stdout, y', we, g3, fe);
    StageOperatorWord(Stderr, y', we, g3, fe);
    TrimWords(y, wo, g1, fo, g2, y');
  }

  /** `cmd args >a >>b`: the appending redirection wins and `>a` stays in the command
      text, since the truncating match is ignored once an appending one was found. */
  lemma AppendOverridesOut(y: string, wo: string, g1: string, fo: string,
                           g2: string, wa: string, g3: string, fa: string)
    requires LastTwoWords(y, wo, g1, fo) && (y == [] || !IsSpace(y[0])) && '>' !in fo
    requires IsOperator(Out, wo)
    requires LastTwoWords(g2, wa, g3, fa) && g2 != [] && AllSpace(g2)
    requires IsOperator(AppendOut, wa)
    ensures Extract(y + wo + g1 + fo + g2 + wa + g3 + fa)
         == Extraction(y + wo + g1 + fo, Redirects(Some(fa), None, true, false))
  {
    var a := y + wo + g1 + fo;
    var y' := a + g2;
    assert y'[|y'| - 1] == g2[|g2| - 1];
    StageOperatorWord(Stdout, y', wa, g3, fa);
    TrimWords(y, wo, g1, fo, g2, y');
    StageNoOperator(Stderr, y, wo, g1, fo);
    assert y + wo + g1 + fo + g2 + wa + g3 + fa == y' + wa + g3 + fa;
    ExtractFromStages(y' + wa + g3 + fa, Taken(Some(fa), true, a), Taken(None, false, a));
  }

  /** `cmd args >>` with nothing after it: the truncating pattern reads the first `>` as
      the operator and the second as the file name. */
  lemma DoubleAngleAlone(y: string, v: string, g: string)
    requires LastTwoWords(y, v, g, ">>") && '>' !in y && '>' !in v
    ensures Extract(y + v + g + ">>") == Extraction(Trim(y + v), Redirects(Some(">"), None, false, false))
  {
    var s := y + v + g + ">>";
    var m := Match(|y| + |v| + |g| - 1, ">");
    if IsOperator(AppendOut, v) {
      OperatorHasAngle(AppendOut, v);
    }
    if IsOperator(Out, v) {
      OperatorHasAngle(Out, v);
    }
    assert OpAt(AppendOut, ">>", 0) == 2 && OpAt(Out, ">>", 0) == 1;
    TrailingWords(AppendOut, y, v, g, ">>");
    TrailingWords(Out, y, v, g, ">>");
    assert ">>"[1..] == ">";
    StageTakesPlain(Stdout, s, m);
    TrimBeforeGap(y + v, g, ">>", s, m.start);
    TrimKeeps(y + v, '>');
    StageNoAngle(Stderr, Trim(y + v));
  }

  /** `cmd args > >name`: the match starts at the leftmost operator, so the file name is
      `>name`. */
  lemma LeftmostTarget(y: string, w: string, g: string, f: string)
    requires LastTwoWords(y, w, g, ">" + f) && IsOperator(Out, w) && IsTarget(f)
    requires '>' !in y && '>' !in f
    ensures Extract(y + w + g + (">" + f))
         == Extraction(Trim(y), Redirects(Some(">" + f), None, false, false))
  {
    var s := y + w + g + (">" + f);
    var m := Match(AnchorOf(y), ">" + f);
    assert (">" + f)[1] == f[0];
    assert OpAt(AppendOut, ">" + f, 0) == 0;
    TrailingWords(AppendOut, y, w, g, ">" + f);
    TrailingWords(Out, y, w, g, ">" + f);
    StageTakesPlain(Stdout, s, m);
    assert s[..|y|] == y;
    TrimBeforeAnchor(y, s);
    TrimKeeps(y, '>');
    StageNoAngle(Stderr, Trim(y));
  }
}
