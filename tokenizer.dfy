/** The quote- and escape-aware word splitter `parseCommand` of app/main.ts. */
module Tokenizer {
  import opened Wrappers
  import opened Text

  /** The loop variables of parseCommand: the finished tokens, the word being built,
      and the three flags. */
  datatype Scan = Scan(tokens: seq<string>, current: string,
                       inSingle: bool, inDouble: bool, escaping: bool)

  /** The variables before the first character. */
  const Start := Scan([], "", false, false, false)

  /** Outside both kinds of quote, with no escape pending. */
  predicate Unquoted(st: Scan) {
    !st.inSingle && !st.inDouble && !st.escaping
  }

  /** Inside double quotes, with no escape pending. */
  predicate InDouble(st: Scan) {
    st.inDouble && !st.inSingle && !st.escaping
  }

  /** Inside single quotes, with no escape pending. */
  predicate InSingle(st: Scan) {
    st.inSingle && !st.inDouble && !st.escaping
  }

  function Append(st: Scan, c: char): Scan {
    st.(current := st.current + [c])
  }

  /** An unquoted whitespace character: the word built so far, if any, becomes a token. */
  function Delimit(st: Scan): Scan {
    if st.current != "" then st.(tokens := st.tokens + [st.current], current := "") else st
  }

  /** The scan of the remaining input `s` from the variables `st`. One step per loop
      iteration; inside double quotes `\"` and `\\` are taken as one step of two characters
      (the `i++` lookahead). Reaching the end with a quote open or an escape pending is not
      an error. */
  function Run(st: Scan, s: string): Scan
    decreases |s|
  {
    if s == [] then st
    else
      var ch := s[0];
      if st.escaping then Run(Append(st, ch).(escaping := false), s[1..])
      else if ch == '\'' && !st.inDouble then Run(st.(inSingle := !st.inSingle), s[1..])
      else if ch == '"' && !st.inSingle then Run(st.(inDouble := !st.inDouble), s[1..])
      else if ch == '\\' && !st.inSingle && !st.inDouble then Run(st.(escaping := true), s[1..])
      else if ch == '\\' && !st.inSingle && |s| > 1 && (s[1] == '"' || s[1] == '\\') then
        Run(Append(st, s[1]), s[2..])
      else if !st.inSingle && !st.inDouble && IsSpace(ch) then Run(Delimit(st), s[1..])
      else Run(Append(st, ch), s[1..])
  }

  /** The tokens after the loop: a non-empty word still being built is the last token. */
  function Flush(st: Scan): seq<string> {
    if st.current != "" then st.tokens + [st.current] else st.tokens
  }

  predicate NonEmptyWords(ts: seq<string>) {
    forall k :: 0 <= k < |ts| ==> ts[k] != ""
  }

  /** The tokens parseCommand splits `input` into; none of them is empty. */
  function Tokens(input: string): (ts: seq<string>)
    ensures NonEmptyWords(ts)
  {
    RunKeepsWordsNonEmpty(Start, input);
    Flush(Run(Start, input))
  }

  /** parseCommand's result: the first token as `cmd` (undefined when there is none)
      and the remaining tokens, in order, as `args`. */
  datatype Command = Command(cmd: Option<string>, args: seq<string>)

  function CommandOf(input: string): (c: Command)
    ensures c.cmd.None? <==> Tokens(input) == []
    ensures c.cmd.None? ==> c.args == []
    ensures c.cmd.Some? ==> [c.cmd.value] + c.args == Tokens(input)
  {
    var ts := Tokens(input);
    if ts == [] then Command(None, []) else Command(Some(ts[0]), ts[1..])
  }

  /** parseCommand, as the character loop of app/main.ts. */
  method ParseCommand(input: string) returns (cmd: Option<string>, args: seq<string>)
    ensures Command(cmd, args) == CommandOf(input)
    ensures cmd.Some? ==> cmd.value != ""
    ensures NonEmptyWords(args)
  {
    var tokens: seq<string> := [];
    var current := "";
    var inSingle, inDouble, escaping := false, false, false;
    var i := 0;
    while i < |input|
      invariant 0 <= i <= |input|
      invariant Run(Scan(tokens, current, inSingle, inDouble, escaping), input[i..]) == Run(Start, input)
    {
      var ch := input[i];
      if escaping {
        current := current + [ch];
        escaping := false;
      } else if ch == '\'' && !inDouble {
        inSingle := !inSingle;
      } else if ch == '"' && !inSingle {
        inDouble := !inDouble;
      } else if ch == '\\' && !inSingle && !inDouble {
        escaping := true;
      } else if ch == '\\' && !inSingle && i + 1 < |input| && (input[i + 1] == '"' || input[i + 1] == '\\') {
        assert input[i..][2..] == input[i + 2..];
        i := i + 1;
        current := current + [input[i]];
      } else if !inSingle && !inDouble && IsSpace(ch) {
        if current != "" {
          tokens := tokens + [current];
          current := "";
        }
      } else {
        current := current + [ch];
      }
      i := i + 1;
    }
    if current != "" {
      tokens := tokens + [current];
    }
    assert tokens == Tokens(input);
    if tokens == [] {
      cmd, args := None, [];
    } else {
      cmd, args := Some(tokens[0]), tokens[1..];
    }
  }

  // ---------------------------------------------------------------------------------------
  // Properties of the scan

  /** No step of the scan ever pushes an empty token. */
  lemma {:induction false} RunKeepsWordsNonEmpty(st: Scan, s: string)
    requires NonEmptyWords(st.tokens)
    ensures NonEmptyWords(Run(st, s).tokens)
    ensures NonEmptyWords(Flush(Run(st, s)))
    decreases |s|
  {
    if s == [] {
    } else {
      var ch := s[0];
      if st.escaping {
        RunKeepsWordsNonEmpty(Append(st, ch).(escaping := false), s[1..]);
      } else if ch == '\'' && !st.inDouble {
        RunKeepsWordsNonEmpty(st.(inSingle := !st.inSingle), s[1..]);
      } else if ch == '"' && !st.inSingle {
        RunKeepsWordsNonEmpty(st.(inDouble := !st.inDouble), s[1..]);
      } else if ch == '\\' && !st.inSingle && !st.inDouble {
        RunKeepsWordsNonEmpty(st.(escaping := true), s[1..]);
      } else if ch == '\\' && !st.inSingle && |s| > 1 && (s[1] == '"' || s[1] == '\\') {
        RunKeepsWordsNonEmpty(Append(st, s[1]), s[2..]);
      } else if !st.inSingle && !st.inDouble && IsSpace(ch) {
        RunKeepsWordsNonEmpty(Delimit(st), s[1..]);
      } else {
        RunKeepsWordsNonEmpty(Append(st, ch), s[1..]);
      }
    }
  }

  /** A run of unquoted whitespace, however long, acts as one delimiter and contributes
      nothing to any token. */
  lemma {:induction false} SpaceRunDelimits(st: Scan, w: string, rest: string)
    requires Unquoted(st) && w != [] && AllSpace(w)
    ensures Run(st, w + rest) == Run(Delimit(st), rest)
    decreases |w|
  {
    assert (w + rest)[1..] == w[1..] + rest;
    if |w| > 1 {
      SpaceRunDelimits(Delimit(st), w[1..], rest);
    }
  }

  /** An empty or all-whitespace line has no tokens, so no command. */
  lemma AllSpaceHasNoTokens(s: string)
    requires AllSpace(s)
    ensures Tokens(s) == []
    ensures CommandOf(s) == Command(None, [])
  {
    if s != [] {
      SpaceRunDelimits(Start, s, []);
      assert s + [] == s;
    }
  }

  /** The scan can be split after any character other than a backslash: the lookahead
      never reaches across such a boundary. */
  lemma {:induction false} RunConcat(st: Scan, a: string, b: string)
    requires a == [] || a[|a| - 1] != '\\'
    ensures Run(st, a + b) == Run(Run(st, a), b)
    decreases |a|
  {
    if a == [] {
      assert a + b == b;
    } else {
      var s := a + b;
      assert s[0] == a[0];
      assert s[1..] == a[1..] + b;
      var ch := a[0];
      if st.escaping {
        RunConcat(Append(st, ch).(escaping := false), a[1..], b);
      } else if ch == '\'' && !st.inDouble {
        RunConcat(st.(inSingle := !st.inSingle), a[1..], b);
      } else if ch == '"' && !st.inSingle {
        RunConcat(st.(inDouble := !st.inDouble), a[1..], b);
      } else if ch == '\\' && !st.inSingle && !st.inDouble {
        RunConcat(st.(escaping := true), a[1..], b);
      } else if ch == '\\' && !st.inSingle {
        assert |a| > 1 && s[1] == a[1];
        if a[1] == '"' || a[1] == '\\' {
          assert s[2..] == a[2..] + b;
          RunConcat(Append(st, a[1]), a[2..], b);
        } else {
          RunConcat(Append(st, ch), a[1..], b);
        }
      } else if !st.inSingle && !st.inDouble && IsSpace(ch) {
        RunConcat(Delimit(st), a[1..], b);
      } else {
        RunConcat(Append(st, ch), a[1..], b);
      }
    }
  }

  // ---------------------------------------------------------------------------------------
  // Quoting

  /** Inside single quotes every character up to the closing quote, whitespace, backslash
      and double quote included, is copied as it is. */
  lemma {:induction false} SingleQuotedVerbatim(st: Scan, x: string, rest: string)
    requires InSingle(st) && '\'' !in x
    ensures Run(st, x + rest) == Run(st.(current := st.current + x), rest)
    decreases |x|
  {
    if x == [] {
      assert x + rest == rest;
      assert st.current + x == st.current;
    } else {
      assert (x + rest)[0] == x[0] && (x + rest)[1..] == x[1..] + rest;
      assert st.current + x == (st.current + [x[0]]) + x[1..];
      SingleQuotedVerbatim(Append(st, x[0]), x[1..], rest);
    }
  }

  /** Inside double quotes every character other than `"` and `\`, whitespace and single
      quote included, is copied as it is. */
  lemma {:induction false} DoubleQuotedVerbatim(st: Scan, x: string, rest: string)
    requires InDouble(st) && '"' !in x && '\\' !in x
    ensures Run(st, x + rest) == Run(st.(current := st.current + x), rest)
    decreases |x|
  {
    if x == [] {
      assert x + rest == rest;
      assert st.current + x == st.current;
    } else {
      assert (x + rest)[0] == x[0] && (x + rest)[1..] == x[1..] + rest;
      assert st.current + x == (st.current + [x[0]]) + x[1..];
      DoubleQuotedVerbatim(Append(st, x[0]), x[1..], rest);
    }
  }

  /** A single-quoted word is one token without its quotes; the empty quoted word yields
      no token at all. */
  lemma SingleQuotedWord(x: string)
    requires '\'' !in x
    ensures Tokens(['\''] + x + ['\'']) == if x == [] then [] else [x]
  {
    var s := ['\''] + x + ['\''];
    assert s[1..] == x + ['\''];
    var st := Start.(inSingle := true);
    assert Run(Start, s) == Run(st, x + ['\'']);
    SingleQuotedVerbatim(st, x, ['\'']);
    assert st.current + x == x;
  }

  /** An unterminated single quote is not an error: what follows it is the last token. */
  lemma UnterminatedSingleQuote(x: string)
    requires '\'' !in x
    ensures Tokens(['\''] + x) == if x == [] then [] else [x]
  {
    var s := ['\''] + x;
    assert s[1..] == x + [];
    var st := Start.(inSingle := true);
    assert Run(Start, s) == Run(st, x + []);
    SingleQuotedVerbatim(st, x, []);
    assert st.current + x == x;
  }

  /** A double-quoted word without `"` or `\` inside is one token without its quotes. */
  lemma DoubleQuotedWord(x: string)
    requires '"' !in x && '\\' !in x
    ensures Tokens(['"'] + x + ['"']) == if x == [] then [] else [x]
  {
    var s := ['"'] + x + ['"'];
    assert s[1..] == x + ['"'];
    var st := Start.(inDouble := true);
    assert Run(Start, s) == Run(st, x + ['"']);
    DoubleQuotedVerbatim(st, x, ['"']);
    assert st.current + x == x;
  }

  /** An unterminated double quote is not an error: what follows it is the last token. */
  lemma UnterminatedDoubleQuote(x: string)
    requires '"' !in x && '\\' !in x
    ensures Tokens(['"'] + x) == if x == [] then [] else [x]
  {
    var s := ['"'] + x;
    assert s[1..] == x + [];
    var st := Start.(inDouble := true);
    assert Run(Start, s) == Run(st, x + []);
    DoubleQuotedVerbatim(st, x, []);
    assert st.current + x == x;
  }

  // ---------------------------------------------------------------------------------------
  // Backslashes

  /** Outside quotes a backslash is dropped and the next character, whatever it is, is
      copied literally. */
  lemma EscapeOutsideQuotes(st: Scan, c: char, rest: string)
    requires Unquoted(st)
    ensures Run(st, ['\\', c] + rest) == Run(Append(st, c), rest)
  {
    var s := ['\\', c] + rest;
    assert s[1..] == [c] + rest;
    assert s[1..][1..] == rest;
  }

  /** Inside double quotes `\"` and `\\` yield the second character and consume both. */
  lemma EscapeInDoubleQuotes(st: Scan, c: char, rest: string)
    requires InDouble(st) && (c == '"' || c == '\\')
    ensures Run(st, ['\\', c] + rest) == Run(Append(st, c), rest)
  {
    var s := ['\\', c] + rest;
    assert s[2..] == rest;
  }

  /** Inside double quotes a backslash before any other character is kept, and the
      character after it is scanned as usual. */
  lemma BackslashKeptInDoubleQuotes(st: Scan, c: char, rest: string)
    requires InDouble(st) && c != '"' && c != '\\'
    ensures Run(st, ['\\', c] + rest) == Run(Append(st, '\\'), [c] + rest)
  {
    var s := ['\\', c] + rest;
    assert s[1..] == [c] + rest;
  }

  /** A backslash closing the line: outside quotes it vanishes; inside double quotes (and
      inside single quotes) it is kept as the last character of the last token. */
  lemma TrailingBackslash(s: string)
    requires s == [] || s[|s| - 1] != '\\'
    ensures var st := Run(Start, s);
      && (Unquoted(st) ==> Tokens(s + ['\\']) == Tokens(s))
      && (InDouble(st) || InSingle(st) ==> Tokens(s + ['\\']) == Flush(Append(st, '\\')))
  {
    RunConcat(Start, s, ['\\']);
  }

  // ---------------------------------------------------------------------------------------
  // The reference splitter for lines without quotes or backslashes

  predicate NoSpecial(s: string) {
    forall i :: 0 <= i < |s| ==> s[i] != '\'' && s[i] != '"' && s[i] != '\\'
  }

  /** The longest whitespace-free prefix of `s`. */
  function LeadingWord(s: string): (w: string)
    ensures IsPrefix(w, s) && NoSpace(w)
    ensures |w| == |s| || IsSpace(s[|w|])
    decreases |s|
  {
    if s == [] || IsSpace(s[0]) then [] else [s[0]] + LeadingWord(s[1..])
  }

  /** Whitespace-separated words, as `split` on runs of whitespace with empty pieces dropped. */
  function Words(s: string): (ws: seq<string>)
    ensures forall k :: 0 <= k < |ws| ==> ws[k] != "" && NoSpace(ws[k])
    decreases |s|
  {
    if s == [] then []
    else if IsSpace(s[0]) then Words(s[1..])
    else
      var w := LeadingWord(s);
      [w] + Words(s[|w|..])
  }

  /** Unquoted characters other than whitespace, quotes and backslashes are appended to
      the current word one by one. */
  lemma PlainWordRun(st: Scan, s: string)
    requires Unquoted(st) && NoSpecial(s)
    ensures Run(st, s) == Run(st.(current := st.current + LeadingWord(s)), s[|LeadingWord(s)|..])
  {
    var w := LeadingWord(s);
    var r := s[|w|..];
    assert s == w + r;
    assert NoSpecial(w) by {
      forall i | 0 <= i < |w| ensures w[i] != '\'' && w[i] != '"' && w[i] != '\\' {
        assert w[i] == s[i];
      }
    }
    PlainVerbatim(st, w, r);
  }

  /** A plain word followed by whitespace: the word becomes a token and the scan goes on
      after the first whitespace character. */
  lemma WordThenSpace(st: Scan, s: string)
    requires Unquoted(st) && st.current == "" && NoSpecial(s)
    requires s != [] && !IsSpace(s[0]) && |LeadingWord(s)| < |s|
    ensures var w := LeadingWord(s); var r := s[|w| + 1..];
      && Run(st, s) == Run(st.(tokens := st.tokens + [w]), r)
      && Words(s) == [w] + Words(r)
      && NoSpecial(r)
  {
    var w := LeadingWord(s);
    var r := s[|w|..];
    PlainWordRun(st, s);
    var st' := st.(current := w);
    assert st.current + w == w;
    assert r[1..] == s[|w| + 1..];
    assert Run(st', r) == Run(Delimit(st'), r[1..]);
    assert Words(r) == Words(r[1..]);
  }

  lemma {:induction false} PlainTokens(st: Scan, s: string)
    requires Unquoted(st) && st.current == "" && NoSpecial(s)
    ensures Flush(Run(st, s)) == st.tokens + Words(s)
    decreases |s|, 1
  {
    if s == [] {
    } else if IsSpace(s[0]) {
      PlainTokens(st, s[1..]);
    } else {
      PlainTokensWord(st, s);
    }
  }

  /** `PlainTokens` for a line that begins with a word. */
  lemma {:induction false} PlainTokensWord(st: Scan, s: string)
    requires Unquoted(st) && st.current == "" && NoSpecial(s)
    requires s != [] && !IsSpace(s[0])
    ensures Flush(Run(st, s)) == st.tokens + Words(s)
    decreases |s|, 0
  {
    var w := LeadingWord(s);
    if |w| == |s| {
      PlainWordRun(st, s);
      assert st.current + w == w;
      assert s[|w|..] == [];
      assert Words(s) == [w];
    } else {
      var r := s[|w| + 1..];
      WordThenSpace(st, s);
      PlainTokens(st.(tokens := st.tokens + [w]), r);
      assert st.tokens + [w] + Words(r) == st.tokens + ([w] + Words(r));
    }
  }

  /** On a line with no quotes and no backslashes, parseCommand is plain splitting on
      whitespace: every token is a whitespace-free word of the line, in order. */
  lemma PlainLineIsWords(s: string)
    requires NoSpecial(s)
    ensures Tokens(s) == Words(s)
  {
    PlainTokens(Start, s);
  }

  /** Unquoted ordinary characters are appended to the current word. */
  lemma {:induction false} PlainVerbatim(st: Scan, w: string, rest: string)
    requires Unquoted(st) && NoSpecial(w) && NoSpace(w)
    ensures Run(st, w + rest) == Run(st.(current := st.current + w), rest)
    decreases |w|
  {
    if w == [] {
      assert w + rest == rest;
      assert st.current + w == st.current;
    } else {
      assert (w + rest)[0] == w[0] && (w + rest)[1..] == w[1..] + rest;
      assert st.current + w == (st.current + [w[0]]) + w[1..];
      PlainVerbatim(Append(st, w[0]), w[1..], rest);
    }
  }

  // ---------------------------------------------------------------------------------------
  // Worked lines

  /** The first word of a line and the space after it make the first token. */
  lemma FirstWord(w: string, rest: string)
    requires w != [] && NoSpecial(w) && NoSpace(w)
    ensures Run(Start, w + [' '] + rest) == Run(Start.(tokens := [w]), rest)
  {
    assert w + [' '] + rest == w + ([' '] + rest);
    PlainVerbatim(Start, w, [' '] + rest);
    var st := Start.(current := w);
    assert Start.current + w == w;
    assert Run(Start, w + [' '] + rest) == Run(st, [' '] + rest);
    SpaceRunDelimits(st, [' '], rest);
    assert Delimit(st) == Start.(tokens := [w]);
  }

  /** A double-quoted argument is one token, whitespace inside it kept verbatim; empty
      quotes give no argument. */
  lemma DoubleQuotedArgument(w: string, x: string)
    requires w != [] && NoSpecial(w) && NoSpace(w) && '"' !in x && '\\' !in x
    ensures CommandOf(w + [' '] + (['"'] + x + ['"'])) == Command(Some(w), if x == [] then [] else [x])
  {
    var rest := ['"'] + x + ['"'];
    FirstWord(w, rest);
    var st := Start.(tokens := [w]);
    assert rest[1..] == x + ['"'];
    assert Run(st, rest) == Run(st.(inDouble := true), x + ['"']);
    DoubleQuotedVerbatim(st.(inDouble := true), x, ['"']);
    assert st.current + x == x;
  }

  /** A single-quoted argument is one token with everything inside it verbatim; empty
      quotes give no argument. */
  lemma SingleQuotedArgument(w: string, x: string)
    requires w != [] && NoSpecial(w) && NoSpace(w) && '\'' !in x
    ensures CommandOf(w + [' '] + (['\''] + x + ['\''])) == Command(Some(w), if x == [] then [] else [x])
  {
    var rest := ['\''] + x + ['\''];
    FirstWord(w, rest);
    var st := Start.(tokens := [w]);
    assert rest[1..] == x + ['\''];
    assert Run(st, rest) == Run(st.(inSingle := true), x + ['\'']);
    SingleQuotedVerbatim(st.(inSingle := true), x, ['\'']);
    assert st.current + x == x;
  }

  /** An escaped character, whitespace included, joins the words around it into one
      argument. */
  lemma EscapeJoinsWords(w: string, a: string, c: char, b: string)
    requires w != [] && NoSpecial(w) && NoSpace(w)
    requires NoSpecial(a) && NoSpace(a) && NoSpecial(b) && NoSpace(b)
    ensures CommandOf(w + [' '] + (a + (['\\', c] + b))) == Command(Some(w), [a + [c] + b])
  {
    var tail := ['\\', c] + b;
    FirstWord(w, a + tail);
    var st := Start.(tokens := [w]);
    PlainVerbatim(st, a, tail);
    assert st.current + a == a;
    EscapeOutsideQuotes(st.(current := a), c, b);
    assert b + [] == b;
    PlainVerbatim(st.(current := a + [c]), b, []);
  }
}
