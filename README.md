# shell-ts line handling, modelled in Dafny

This project models what the small interactive shell in `app/main.ts` does with one line it has read. It covers four parts:

- **Tokenizer.** `parseCommand` is a character loop with three flags, `inSingle`, `inDouble` and `escaping`. It splits a line into words and honours single quotes, double quotes and backslash escapes.
- **Redirection block.** `main` takes trailing redirections off the trimmed line. It does this with four regular expressions, for `>>`/`1>>`, `>`/`1>`, `2>>` and `2>`. Each redirection sets an output or error file and an append flag.
- **Dispatch.** The command is run as one of the five builtins, started as an external program through the `PATH` resolver, or reported as `<cmd>: command not found`. When a builtin runs, `console.log` and `console.error` are pointed at the redirection files and put back afterwards.
- **Completer.** `completer` is tab completion of the first word against the builtins `echo`, `exit`, `type`, `pwd` and `cd`.

Files:

- `text.dfy`: JavaScript's `\s` class and `String.prototype.trim`. Both use the same set of characters.
- `tokenizer.dfy`: the scan as a function on the loop variables (`Run`), and the loop itself as the method `ParseCommand`, proved to compute it.
- `redirection.dfy`: the four patterns, hand-coded as a leftmost search (`FirstMatch`), and proved equal to a declarative description of a match (`Occurs`, `Leftmost`).
- `extraction.dfy`: the block of `main` as `Extract`, and as the method `ExtractRedirections` that reassigns its variables step by step the way the code does.
- `builtins.dfy`, `completion.dfy`: the builtin names and `completer`.
- `dispatch.dfy`: the dispatch decision `Decide`, and the whole line `Interpret`. It also has a `Console` class whose `log` and `error` fields stand for the two overwritten console functions.

The resolver `findCommonPath` is a parameter `resolve: string -> Option<string>`.

Some behaviour of the code is easy to miss. The model follows the code in each case and proves it as a lemma:

- `cmd >out 2>err` takes only the stderr redirection. The stdout patterns must end the line, but at that point the line still ends in `2>err`. The text `>out` stays in the command (`StdoutThenStderr`). The other order, `cmd 2>err >out`, takes both (`StderrThenStdout`).
- `echo > a >> b` takes only `>> b`, and `> a` stays in the command (`AppendOverridesOut`).
- `cmd >>` with nothing after it sends stdout to a file named `>`. The `>` pattern reads the first `>` as the operator and the second as the name (`DoubleAngleAlone`).
- `cmd > >x` writes to a file named `>x` (`LeftmostTarget`).
- A redirection glued to the name after it, as in `cmd args >out`, is taken (`GluedRedirection`).
- A redirection glued to the word before it, as in `echo hi>out`, is not taken (`GluedToWordIgnored`).
- A line that is only a redirection has no `cmd`. The code then looks up and reports the text `undefined`, which ends in `undefined: command not found` (`RedirectionWithoutCommand`).
- The not-found message is written through the console's own `console.error`, even when the line redirects stderr (`NotFoundIgnoresErrorFile`).

## Model

| member | source | states |
|---|---|---|
| Text.Trim | app/main.ts:134-135 | the result has no whitespace at either end and is no longer than the input |
| Text.IsSpace | app/main.ts:111 | JavaScript's `\s` class, the WhiteSpace and LineTerminator characters; the same set `trim` strips (`Trim`, `TrimInfix`, `TrimUnique`) and the regexes at lines 142-162 use |
| Text.TrimEmptyIffAllSpace | app/main.ts:134 | `input.trim()` is empty exactly when the line is all whitespace, which is when the line is skipped |
| Text.TrimInfix | app/main.ts:135 | the trimmed text is a slice of the input with only whitespace cut off both ends |
| Text.TrimUnique | app/main.ts:135 | any slice with only whitespace outside it and none at its ends is the trimmed text |
| Text.TrimIdempotent | app/main.ts:146 | trimming a trimmed text changes nothing |
| Text.TrimNoEdgeSpace | app/main.ts:135 | a text without edge whitespace is its own trim |
| Text.TrimTrailingSpace | app/main.ts:146 | whitespace appended to a text does not change its trim |
| Text.TrimPrefix | app/main.ts:146 | the trim of a text that starts with no whitespace is a prefix of it |
| Text.TrimKeeps | app/main.ts:146 | trimming adds no character |
| Tokenizer.Tokens | app/main.ts:71-122 | the tokens of the scan; none is empty |
| Tokenizer.Run | app/main.ts:78-120 | one loop iteration per step, in the code's branch order: pending escape, `'` outside double quotes, `"` outside single quotes, backslash outside quotes, `\"`/`\\` inside double quotes, unquoted whitespace, anything else; `ParseCommand` is proved to compute it and the lemmas below state its properties |
| Tokenizer.Delimit | app/main.ts:112-115 | unquoted whitespace pushes the current word when it is non-empty and starts a new one (`SpaceRunDelimits`, `RunKeepsWordsNonEmpty`) |
| Tokenizer.Flush | app/main.ts:122 | the word still being built is pushed only when non-empty (`RunKeepsWordsNonEmpty`, `UnterminatedSingleQuote`) |
| Tokenizer.CommandOf | app/main.ts:124-125 | `cmd` is absent exactly when there is no token, `args` is then empty, and otherwise `cmd` followed by `args` is the token list in order |
| Tokenizer.ParseCommand | app/main.ts:71-126 | the character loop, with its `i++` lookahead, returns exactly `CommandOf(input)`; `cmd` is never empty and no argument is empty |
| Tokenizer.RunKeepsWordsNonEmpty | app/main.ts:112-122 | no step of the scan pushes an empty token, and neither does the final flush |
| Tokenizer.SpaceRunDelimits | app/main.ts:111-117 | outside quotes a run of whitespace of any length acts as a single delimiter |
| Tokenizer.AllSpaceHasNoTokens | app/main.ts:111-125 | an empty or all-whitespace input has no token, no `cmd` and no arguments |
| Tokenizer.RunConcat | app/main.ts:78-120 | scanning a concatenation is scanning its halves one after the other, when the first ends without a backslash |
| Tokenizer.SingleQuotedVerbatim | app/main.ts:87-119 | inside single quotes every character but `'` is copied as is, including `"`, `\` and whitespace |
| Tokenizer.DoubleQuotedVerbatim | app/main.ts:92-119 | inside double quotes every character but `"` and `\` is copied as is, including `'` and whitespace |
| Tokenizer.SingleQuotedWord | app/main.ts:87-122 | `'x'` is the single token `x`, and `''` gives no token |
| Tokenizer.UnterminatedSingleQuote | app/main.ts:87-122 | an unclosed single quote is no error: its text is flushed as the last token |
| Tokenizer.DoubleQuotedWord | app/main.ts:92-122 | `"x"` is the single token `x`, and `""` gives no token |
| Tokenizer.UnterminatedDoubleQuote | app/main.ts:92-122 | an unclosed double quote is no error: its text is flushed as the last token |
| Tokenizer.EscapeOutsideQuotes | app/main.ts:81-108 | outside quotes a backslash is dropped and the next character, whatever it is, is appended literally |
| Tokenizer.EscapeInDoubleQuotes | app/main.ts:97-103 | inside double quotes `\"` gives `"` and `\\` gives `\`, both characters consumed |
| Tokenizer.BackslashKeptInDoubleQuotes | app/main.ts:97-119 | inside double quotes a backslash before any other character is kept, and that character is scanned next |
| Tokenizer.TrailingBackslash | app/main.ts:97-122 | a backslash at the end of the input vanishes outside quotes and is kept inside either kind of quote |
| Tokenizer.PlainWordRun | app/main.ts:111-119 | a text without quotes or backslashes adds its leading whitespace-free word to the current token |
| Tokenizer.WordThenSpace | app/main.ts:111-117 | a word followed by whitespace becomes a token and the scan continues after the whitespace |
| Tokenizer.PlainTokens | app/main.ts:111-122 | the tokens of a text without quotes or backslashes are its whitespace-separated words, appended to those already found |
| Tokenizer.PlainTokensWord | app/main.ts:111-122 | the same as `PlainTokens`, for a text that starts with a word character |
| Tokenizer.PlainLineIsWords | app/main.ts:111-125 | a line without quotes or backslashes tokenizes to its whitespace-separated words, none empty and none containing whitespace |
| Tokenizer.PlainVerbatim | app/main.ts:111-119 | a whitespace-free word without quotes or backslashes is appended to the current token as it is |
| Tokenizer.FirstWord | app/main.ts:111-117 | a plain word followed by a space is the first token |
| Tokenizer.DoubleQuotedArgument | app/main.ts:92-125 | `cmd "x"` has `cmd` as command and `x` as the one argument, whitespace kept; `cmd ""` has no argument |
| Tokenizer.SingleQuotedArgument | app/main.ts:87-125 | `cmd 'x'` has `cmd` as command and `x` as the one argument, whitespace kept; `cmd ''` has no argument |
| Tokenizer.EscapeJoinsWords | app/main.ts:81-125 | `cmd a\cb` has one argument `acb`, even when `c` is whitespace or a quote |
| Redirection.OpAt | app/main.ts:142 | a non-zero result is the length of a spelling of the operator at that index (`1?>>`, `1?>`, `2>>`, `2>`), and none starts at whitespace |
| Redirection.MatchAt | app/main.ts:142 | the pattern tried from one start index, `^` before `\s`; `MatchAtSound` and `MatchAtComplete` prove it finds exactly the occurrences starting there |
| Redirection.SearchFrom | app/main.ts:142 | the start indices tried in increasing order; `SearchFromSpec` proves it returns the first that matches |
| Redirection.SearchFromSpec | app/main.ts:142 | the search returns the first start index from which the pattern matches, and reports none only when it matches from no index |
| Redirection.FirstMatch | app/main.ts:142 | a match starts inside the line |
| Redirection.MatchAtSound | app/main.ts:142 | what the hand-coded pattern captures is an occurrence: line start or whitespace, the operator, optional whitespace, and a whitespace-free name that ends the line |
| Redirection.MatchAtComplete | app/main.ts:142 | every occurrence is found by the hand-coded pattern at its start index, with the same name |
| Redirection.OccursUnique | app/main.ts:142 | from a given start index at most one name can be captured |
| Redirection.FirstMatchLeftmost | app/main.ts:142 | a match found is the leftmost occurrence |
| Redirection.FirstMatchIsLeftmost | app/main.ts:142 | `match` returns start `p` and name `f` exactly when that is the leftmost occurrence |
| Redirection.NoMatchIffNoOccurrence | app/main.ts:142 | `match` returns null exactly when the pattern occurs nowhere in the line |
| Redirection.FirstMatchTarget | app/main.ts:142-144 | a captured file name is non-empty and contains no whitespace |
| Redirection.OpAtNeedsAngle | app/main.ts:142 | every operator contains `>` |
| Redirection.NoAngleNoMatch | app/main.ts:142-162 | a line without `>` matches none of the four patterns |
| Redirection.OperatorIsWord | app/main.ts:142 | an occurrence whose operator ends where the whitespace before the last word starts has that whole word as its operator |
| Redirection.OccurrenceAtEndOf | app/main.ts:142 | a match can only be the second-to-last word as operator with the last word as name, or an operator that starts the last word and is glued to the name |
| Redirection.TrailingOperatorWord | app/main.ts:142 | when the second-to-last word is the operator, the match starts before it and captures the last word |
| Redirection.TrailingInWord | app/main.ts:142 | when the last word starts with the operator and more follows, the match captures what follows |
| Redirection.TrailingNone | app/main.ts:142 | when neither holds, there is no match |
| Redirection.TrailingMatch | app/main.ts:142 | the match on a line is decided by its last two words alone |
| Redirection.TrailingWords | app/main.ts:142 | the same, for a line written as `y v g u` with `v` and `u` its last two words |
| Extraction.Replace | app/main.ts:146 | `replace` cuts a prefix off the line, and it changes the line exactly when the pattern matches |
| Extraction.ReplaceLeftmost | app/main.ts:146 | the cut is at the start of the leftmost occurrence |
| Extraction.Stage | app/main.ts:142-153 | one stream's step: the append flag is set only with a file, a file taken is a valid name and shortens the line, and no file leaves the line unchanged |
| Extraction.Extract | app/main.ts:137-166 | the append flags are set only with their files, the files are valid names, and the line changes exactly when some redirection is taken |
| Extraction.ExtractRedirections | app/main.ts:134-166 | the block, reassigning its five variables in the code's order, ends with exactly the values `Extract` gives for the trimmed line |
| Extraction.StageTakesAppend | app/main.ts:142-147 | unfolding step: a match of the append pattern sets the file and the append flag, and leaves the trimmed text before the match |
| Extraction.StageTakesPlain | app/main.ts:149-153 | unfolding step: with no append match, a match of the truncating pattern sets the file, leaves the flag clear, and leaves the trimmed text before the match |
| Extraction.StageAppend | app/main.ts:142-147 | the same as `StageTakesAppend`, stated with the leftmost occurrence |
| Extraction.StagePlain | app/main.ts:149-153 | the same as `StageTakesPlain`, stated with the leftmost occurrence |
| Extraction.StageNone | app/main.ts:142-153 | when neither pattern occurs, nothing is taken and the line is unchanged |
| Extraction.StageAppendIff | app/main.ts:142-145 | the append flag is set exactly when the append pattern occurs |
| Extraction.StageNoAngle | app/main.ts:142-162 | a line without `>` is left unchanged by either stream's step |
| Extraction.StagePrefix | app/main.ts:146-152 | what a step leaves is a prefix of its input and starts with no whitespace |
| Extraction.NoAngleNoRedirects | app/main.ts:142-166 | a line without `>` keeps its whole text and gets no redirection |
| Extraction.ExtractIsPrefix | app/main.ts:142-166 | the command left is a prefix of the trimmed line |
| Extraction.TrimBeforeAnchor | app/main.ts:146 | the text before a match at the operator word trims like the words before it |
| Extraction.StageOperatorWord | app/main.ts:142-153 | a trailing `OP name` with OP one of the stream's spellings is taken, with the append flag exactly for `>>`, `1>>` and `2>>` |
| Extraction.StageNoOperator | app/main.ts:142-153 | the last two words, when the first is not one of the stream's spellings and the second has no `>`, are left in place |
| Extraction.StageInWord | app/main.ts:142-153 | the last two words, when the first is no operator of the stream and the last does not start with one, are left in place |
| Extraction.GluedToWordIgnored | app/main.ts:142-166 | `echo hi>out`, `echo hi1>out`: when the last word does not start with an operator and the word before it is none, there is no redirection and the line stays whole |
| Extraction.SingleRedirection | app/main.ts:142-166 | `cmd args OP name` with any of the six spellings takes that one redirection with the right file, stream and append flag, and leaves `cmd args` trimmed |
| Extraction.TrimBeforeGap | app/main.ts:152 | the text before a match that starts in the whitespace before the last word trims like the words before that whitespace |
| Extraction.StageGlued | app/main.ts:142-153 | `... OPname`, with the operator glued to the name, is taken by the stream the operator belongs to |
| Extraction.GluedRedirection | app/main.ts:142-166 | `cmd args OPname` takes that one redirection and leaves `cmd args` |
| Extraction.TrimWords | app/main.ts:146 | a line of words ending in whitespace trims to the words |
| Extraction.ExtractFromStages | app/main.ts:142-166 | unfolding step: the stdout step runs first and the stderr step works on what it leaves |
| Extraction.StderrThenStdout | app/main.ts:142-166 | `cmd 2>err >out` in any spellings takes both files, with both append flags as spelled |
| Extraction.StdoutThenStderr | app/main.ts:142-166 | `cmd >out 2>err` in any spellings takes only the error file, and `cmd >out` stays as the command |
| Extraction.AppendOverridesOut | app/main.ts:142-153 | `cmd > a >> b` takes `>> b` for appending and leaves `cmd > a` as the command |
| Extraction.DoubleAngleAlone | app/main.ts:149-152 | `cmd >>` sends stdout, truncating, to a file named `>` |
| Extraction.LeftmostTarget | app/main.ts:149-152 | `cmd > >x` sends stdout, truncating, to a file named `>x` |
| Completion.SplitSpaces | app/main.ts:11 | the pieces of `split(/\s+/)` contain no whitespace, and there is one piece exactly when the text has no whitespace |
| Builtins.Names | app/main.ts:7 | the five builtins `echo`, `exit`, `type`, `pwd`, `cd`, in that order (`BuiltinsSpaced`) |
| Builtins.IsBuiltin | app/main.ts:170 | `cmd in commonCallBackMap`: membership in the five names (`UndefinedIsNoBuiltin`, `Decide`) |
| Completion.StartingWith | app/main.ts:14-15 | a name of `names` is kept exactly when it starts with the word |
| Completion.StartingWithConcat | app/main.ts:14-15 | the filter keeps the order of the list: filtering a concatenation is filtering the front part, then the back part |
| Completion.StartingWithOne | app/main.ts:15 | unfolding of the filter at a one-name list: it is kept exactly when it starts with the word; with `StartingWithConcat` this fixes the result as the matching names in list order, each kept once per occurrence |
| Completion.Spaced | app/main.ts:16 | each name is followed by one space, in order |
| Completion.CompleteFrom | app/main.ts:9-21 | the line is returned unchanged |
| Completion.Completer | app/main.ts:9-21 | the line is returned unchanged |
| Completion.InSpaced | app/main.ts:16 | a spaced entry is exactly a name followed by one space |
| Completion.CompletesMatching | app/main.ts:13-17 | a single word that starts some name is offered the list of the names it starts, in list order, each followed by one space; a candidate is offered exactly when it is such a name with a space |
| Completion.CompletesAllWhenNoneMatch | app/main.ts:17 | a single word that starts no name is offered every name followed by one space |
| Completion.StartingWithNone | app/main.ts:14-15 | when no name starts with the word, the filter keeps nothing |
| Completion.NothingAfterFirstWord | app/main.ts:13-20 | once the trimmed line holds whitespace, nothing is offered |
| Completion.StartingWithEmpty | app/main.ts:15 | every name starts with the empty word |
| Completion.BlankLineOffersAll | app/main.ts:11-17 | an empty or all-whitespace line is offered every name |
| Completion.HitsAreNames | app/main.ts:9-21 | every candidate is a name followed by one space |
| Completion.BuiltinsSpaced | app/main.ts:7 | the five builtins with spaces are `echo `, `exit `, `type `, `pwd `, `cd ` |
| Completion.BlankLineOffersBuiltins | app/main.ts:7-17 | an empty or all-whitespace line is offered the five builtins, in that order |
| Completion.StartingWithE | app/main.ts:7-15 | the builtins that start with `e` are `echo` and `exit`, in that order |
| Completion.CompletesE | app/main.ts:7-17 | the line `e` is offered exactly `echo ` then `exit ` |
| Dispatch.Decide | app/main.ts:170-205 | a builtin name runs the builtin with the arguments; otherwise a resolved path starts the program with `cmd` as typed as `argv0` (absent when the line has no token), the same arguments and the redirections unchanged; otherwise the outcome is exactly `<cmd>: command not found` |
| Dispatch.NameOf | app/main.ts:170-204 | the name looked up, resolved and reported: `cmd` itself, or the text "undefined" when there is no token (`UndefinedNotFound`, `RedirectionWithoutCommand`) |
| Dispatch.Redirected | app/main.ts:174-185 | `if (outputFile)` / `if (errorFile)`: the sink becomes the file, with its append flag, only when a file was taken |
| Dispatch.EffectOf | app/main.ts:170-206 | a builtin runs with the redirected sinks, an external program gets the redirections themselves, and the not-found message goes to the unredirected error sink (`NotFoundIgnoresErrorFile`) |
| Dispatch.Interpret | app/main.ts:134-206 | a line is skipped exactly when it is all whitespace |
| Dispatch.Console.Dispatch | app/main.ts:170-206 | after the dispatch the console's two sinks are the ones it had before; exactly one effect is recorded: a builtin run with the redirection files as its sinks, the external program, or the not-found message on the unredirected error sink |
| Dispatch.Console.constructor | app/main.ts:171-172 | the console starts with the process's own `console.log` and `console.error` and no effect recorded |
| Dispatch.Console.Step | app/main.ts:134-206 | a blank line records nothing; any other line records the effect of its interpretation, and the sinks are unchanged |
| Dispatch.InterpretSingleRedirection | app/main.ts:142-206 | `cmd args OP name` is dispatched on the tokens of `cmd args` with that one redirection |
| Dispatch.EmptyHasNoCommand | app/main.ts:122-125 | an empty command text gives no `cmd` and no arguments |
| Dispatch.UndefinedIsNoBuiltin | app/main.ts:170 | the name `undefined` is no builtin |
| Dispatch.UndefinedNotFound | app/main.ts:192-204 | unfolding step: with no `cmd` and nothing resolved for `undefined`, the message is `undefined: command not found` |
| Dispatch.RedirectionWithoutCommand | app/main.ts:134-204 | a line that is only a redirection ends in `undefined: command not found` when nothing is found under that name |
| Dispatch.NotFoundIgnoresErrorFile | app/main.ts:155-204 | with stderr redirected and the command not found, the error file is recorded but the message goes to the console's own error sink |

## Left out

- `executeProgramme` (app/main.ts:30-69): spawning the child, piping its streams and waiting for it are process I/O. The model records only the path, `argv0`, arguments and redirections that dispatch hands it.
- The readline interface, the `$ ` prompt and the endless loop (app/main.ts:23-28, 128-133) are I/O. `Console.Step` is one pass of the loop on a given line.
- `createWriteStream` (app/main.ts:175-184) is file I/O. A redirected sink is the value `FileSink(path, append)`, and `append` stands for the `"a"`/`"w"` flag. What a builtin writes through it is not modelled.
- `findCommonPath` in `app/helper.ts` probes the filesystem along `PATH`. It is the parameter `resolve`.
- `if (path)` (app/main.ts:193) would treat an empty path as not found. The model treats every path `resolve` returns as found. The two agree for `findCommonPath`, whose paths always contain `/`.
- The bodies of the builtins in `app/utils.ts` (`exit`, `echo`, `pwd`, `type`, `cd`) change process state: exit, working directory, environment. `typeFunction` in `app/type.ts` is not part of this model either. A builtin call is recorded as an effect with its name, arguments and sinks.
- `cmd in commonCallBackMap` is also true for inherited object keys such as `toString`. The model tests membership in the five names only.
- A builtin that throws leaves the console functions redirected, because the code restores them only after a normal return. Exceptions are not modelled, so `Console.Dispatch` always restores them.
- The exit code and the asynchronous wait for an external program are not modelled.
- Strings are sequences of Unicode code points, while JavaScript indexes UTF-16 code units. This matters only for characters outside the Basic Multilingual Plane, which none of the special characters are.
- `if (outputFile)` and `if (errorFile)` test JavaScript truthiness. The model tests presence instead. The two agree because a captured name is never empty (`Redirection.FirstMatchTarget`).
- Dispatch.Interpret: its own contract states only when a line is skipped. What it dispatches is stated by `Console.Step` and the whole-line lemmas.
