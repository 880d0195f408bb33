/** What `main` in app/main.ts does with one line once it has been read: the blank-line
    check, the redirection block, `parseCommand`, and the choice between a builtin, an
    external program and the not-found message. */
module Dispatch {
  import opened Wrappers
  import opened Text
  import opened Tokenizer
  import opened Redirection
  import opened Extraction
  import opened Builtins

  /** Where `console.log` or `console.error` writes: the process's own streams, or a file
      opened to truncate or to append. */
  datatype Sink = ProcessStdout | ProcessStderr | FileSink(path: string, append: bool)

  /** The three ways a line ends. An external program gets `cmd` as typed as its `argv0`
      (absent, JavaScript's `undefined`, when the line has no token), and the redirections
      unchanged. */
  datatype Outcome =
    | Builtin(name: string, args: seq<string>)
    | External(path: string, argv0: Option<string>, args: seq<string>, redirects: Redirects)
    | NotFound(message: string)

  /** The name the code looks up and reports: `cmd` is `undefined` when the line has no
      token, and both the map lookup and the template literal then see the text
      "undefined". */
  function NameOf(cmd: Option<string>): string {
    cmd.GetOr("undefined")
  }

  /** The dispatch decision, with `findCommonPath` as the resolver `resolve`. A path it
      returns is never empty, so `if (path)` is the same as the resolver finding one. */
  function Decide(cmd: Option<string>, args: seq<string>, r: Redirects,
                  resolve: string -> Option<string>): (d: Outcome)
    ensures d.Builtin? <==> IsBuiltin(NameOf(cmd))
    ensures d.Builtin? ==> d == Builtin(NameOf(cmd), args)
    ensures d.External? <==> !IsBuiltin(NameOf(cmd)) && resolve(NameOf(cmd)).Some?
    ensures d.External? ==> d == External(resolve(NameOf(cmd)).value, cmd, args, r)
    ensures d.NotFound? ==> d.message == NameOf(cmd) + ": command not found"
  {
    var name := NameOf(cmd);
    if IsBuiltin(name) then Builtin(name, args)
    else match resolve(name)
      case Some(path) => External(path, cmd, args, r)
      case None => NotFound(name + ": command not found")
  }

  /** A sink replaced by the redirection's file when there is one (`if (outputFile)`). */
  function Redirected(s: Sink, file: Option<string>, append: bool): Sink {
    if file.Some? then FileSink(file.value, append) else s
  }

  /** What a dispatch leaves behind: a builtin run with the sinks in force during the
      call, an external program started, or a line written to a sink. */
  datatype Effect =
    | RanBuiltin(name: string, args: seq<string>, log: Sink, error: Sink)
    | RanExternal(path: string, argv0: Option<string>, args: seq<string>, redirects: Redirects)
    | Wrote(sink: Sink, text: string)

  /** The effect of an outcome, given the sinks before the dispatch. */
  function EffectOf(d: Outcome, log: Sink, error: Sink, r: Redirects): Effect {
    match d
    case Builtin(name, args) =>
      RanBuiltin(name, args, Redirected(log, r.outputFile, r.appendOutput),
                 Redirected(error, r.errorFile, r.appendError))
    case External(path, argv0, args, rr) => RanExternal(path, argv0, args, rr)
    case NotFound(message) => Wrote(error, message)
  }

  /** The whole line: `None` for a blank line, which is skipped; otherwise the decision on
      the command left after the redirections are taken off. */
  function Interpret(input: string, resolve: string -> Option<string>): (o: Option<Outcome>)
    ensures o.None? <==> AllSpace(input)
  {
    TrimEmptyIffAllSpace(input);
    var trimmed := Trim(input);
    if trimmed == [] then None
    else
      var x := Extract(trimmed);
      var c := CommandOf(x.command);
      Some(Decide(c.cmd, c.args, x.redirects, resolve))
  }

  /** The two console functions the code overwrites and restores, and the effects so far. */
  class Console {
    var log: Sink
    var error: Sink
    var effects: seq<Effect>

    constructor ()
      ensures log == ProcessStdout && error == ProcessStderr && effects == []
    {
      log := ProcessStdout;
      error := ProcessStderr;
      effects := [];
    }

    /** The dispatch of app/main.ts: for a builtin, `console.log` and `console.error` are
        saved, pointed at the redirection files, and restored after the call; otherwise the
        resolved program is started, or the not-found message is written through the
        console's own, unredirected, `console.error`. */
    method Dispatch(cmd: Option<string>, args: seq<string>, r: Redirects,
                    resolve: string -> Option<string>)
      modifies this
      ensures log == old(log) && error == old(error)
      ensures effects == old(effects) + [EffectOf(Decide(cmd, args, r, resolve), old(log), old(error), r)]
    {
      var name := NameOf(cmd);
      if IsBuiltin(name) {
        var origLog := log;
        var origErr := error;
        if r.outputFile.Some? {
          log := FileSink(r.outputFile.value, r.appendOutput);
        }
        if r.errorFile.Some? {
          error := FileSink(r.errorFile.value, r.appendError);
        }
        effects := effects + [RanBuiltin(name, args, log, error)];
        log := origLog;
        error := origErr;
      } else {
        var path := resolve(name);
        if path.Some? {
          effects := effects + [RanExternal(path.value, cmd, args, r)];
        } else {
          effects := effects + [Wrote(error, name + ": command not found")];
        }
      }
    }

    /** One pass of the prompt loop on the line `input`. */
    method Step(input: string, resolve: string -> Option<string>)
      modifies this
      ensures log == old(log) && error == old(error)
      ensures effects == old(effects) + match Interpret(input, resolve)
        case None => []
        case Some(d) => [EffectOf(d, old(log), old(error), Extract(Trim(input)).redirects)]
    {
      TrimEmptyIffAllSpace(input);
      if Trim(input) == [] {
        return;
      }
      var trimmed, redirects := ExtractRedirections(input);
      var cmd, args := ParseCommand(trimmed);
      Dispatch(cmd, args, redirects, resolve);
    }
  }

  // ---------------------------------------------------------------------------------------
  // Whole lines

  /** `cmd args OP name` on a line without edge whitespace: the command and its arguments
      are the tokens of `cmd args`, and the one redirection goes with them. */
  lemma InterpretSingleRedirection(op: Op, y: string, w: string, g: string, f: string,
                                   line: string, resolve: string -> Option<string>)
    requires LastTwoWords(y, w, g, f) && IsOperator(op, w) && line == y + w + g + f
    requires '>' !in y && '>' !in f && (y == [] || !IsSpace(y[0]))
    ensures Extract(Trim(line)) == Extraction(Trim(y), RedirectsOf(op, f))
    ensures var c := CommandOf(Trim(y));
      Interpret(line, resolve) == Some(Decide(c.cmd, c.args, RedirectsOf(op, f), resolve))
  {
    assert line[0] == (if y == [] then w[0] else y[0]);
    assert line[|line| - 1] == f[|f| - 1];
    TrimNoEdgeSpace(line);
    SingleRedirection(op, y, w, g, f);
  }

  /** An empty command text has no token, so `cmd` is `undefined`. */
  lemma EmptyHasNoCommand()
    ensures CommandOf(Trim([])) == Command(None, [])
  {
    TrimNoEdgeSpace([]);
    AllSpaceHasNoTokens([]);
  }

  /** Every builtin name is shorter than "undefined", so that name is no builtin. */
  lemma UndefinedIsNoBuiltin()
    ensures !IsBuiltin("undefined")
  {
    forall n | n in Names ensures |n| < 9 { }
  }

  /** With no token the lookup is of the name "undefined", which is no builtin. */
  lemma UndefinedNotFound(r: Redirects, resolve: string -> Option<string>)
    requires resolve("undefined").None?
    ensures Decide(None, [], r, resolve) == NotFound("undefined" + ": command not found")
  {
    UndefinedIsNoBuiltin();
  }

  /** A line that is only a redirection has no command: the name "undefined" is looked up,
      and, when nothing by that name is found, "undefined: command not found" results. */
  lemma RedirectionWithoutCommand(op: Op, w: string, g: string, f: string,
                                  resolve: string -> Option<string>)
    requires LastTwoWords([], w, g, f) && IsOperator(op, w) && '>' !in f
    requires resolve("undefined").None?
    ensures Interpret(w + g + f, resolve) == Some(NotFound("undefined" + ": command not found"))
  {
    var line := w + g + f;
    assert line == [] + w + g + f;
    InterpretSingleRedirection(op, [], w, g, f, line, resolve);
    EmptyHasNoCommand();
    UndefinedNotFound(RedirectsOf(op, f), resolve);
  }

  /** The not-found message of a line whose stderr is redirected is still written to the
      console's own stderr sink, not to the file. */
  lemma NotFoundIgnoresErrorFile(op: Op, y: string, w: string, g: string, f: string,
                                 line: string, resolve: string -> Option<string>,
                                 log: Sink, error: Sink)
    requires LastTwoWords(y, w, g, f) && IsOperator(op, w) && (op == AppendErr || op == Err)
    requires line == y + w + g + f
    requires '>' !in y && '>' !in f && (y == [] || !IsSpace(y[0]))
    requires !IsBuiltin(NameOf(CommandOf(Trim(y)).cmd))
    requires resolve(NameOf(CommandOf(Trim(y)).cmd)).None?
    ensures Extract(Trim(line)).redirects.errorFile == Some(f)
    ensures Interpret(line, resolve).Some?
    ensures EffectOf(Interpret(line, resolve).value, log, error, Extract(Trim(line)).redirects)
         == Wrote(error, NameOf(CommandOf(Trim(y)).cmd) + ": command not found")
  {
    InterpretSingleRedirection(op, y, w, g, f, line, resolve);
    var c := CommandOf(Trim(y));
    var d := Decide(c.cmd, c.args, RedirectsOf(op, f), resolve);
    assert d.NotFound?;
  }
}
