/** `completer` of app/main.ts: tab completion of the first word against the builtins. */
module Completion {
  import opened Text
  import opened Builtins

  /** `t.split(/\s+/)`: the pieces between runs of whitespace. A leading or trailing run
      gives an empty first or last piece, and the empty string splits into one empty
      piece. */
  function SplitSpaces(t: string): (ps: seq<string>)
    ensures |ps| >= 1
    ensures forall k :: 0 <= k < |ps| ==> NoSpace(ps[k])
    ensures |ps| == 1 <==> NoSpace(t)
    ensures NoSpace(t) ==> ps == [t]
    decreases |t|
  {
    var i := SkipWord(t, 0);
    WordRunSlice(t, 0, i);
    assert t[0..i] == t[..i];
    if i == |t| then
      assert t[..i] == t;
      [t]
    else
      var j := SkipSpaces(t, i);
      [t[..i]] + SplitSpaces(t[j..])
  }

  /** The names in `names`, in order, that start with `w` (`filter` with `startsWith`). */
  function StartingWith(names: seq<string>, w: string): (hs: seq<string>)
    ensures forall n :: n in hs <==> n in names && IsPrefix(w, n)
    ensures |hs| <= |names|
  {
    if names == [] then []
    else (if IsPrefix(w, names[0]) then [names[0]] else []) + StartingWith(names[1..], w)
  }

  /** Every name with one space after it (`map((c) => c + " ")`). */
  function Spaced(names: seq<string>): (r: seq<string>)
    ensures |r| == |names|
    ensures forall k :: 0 <= k < |r| ==> r[k] == names[k] + " "
  {
    if names == [] then [] else [names[0] + " "] + Spaced(names[1..])
  }

  /** What readline receives: the candidate completions and the line they complete. */
  datatype Completion = Completion(hits: seq<string>, line: string)

  /** `completer` with `completions` bound to the list `names`. */
  function CompleteFrom(names: seq<string>, line: string): (c: Completion)
    ensures c.line == line
  {
    var split := SplitSpaces(Trim(line));
    if |split| == 1 then
      var hits := Spaced(StartingWith(names, split[0]));
      Completion(if |hits| > 0 then hits else Spaced(names), line)
    else
      Completion([], line)
  }

  /** `completer`: the candidates among the builtins, and the line unchanged. */
  function Completer(line: string): (c: Completion)
    ensures c.line == line
  {
    CompleteFrom(Names, line)
  }

  // ---------------------------------------------------------------------------------------
  // Properties

  /** The spaced names are exactly the names, each with a space after it. */
  lemma InSpaced(names: seq<string>, h: string)
    ensures h in Spaced(names) <==> exists n :: n in names && h == n + " "
  {
    if h in Spaced(names) {
      var k :| 0 <= k < |names| && Spaced(names)[k] == h;
      assert names[k] in names;
    }
    if n :| n in names && h == n + " " {
      var k :| 0 <= k < |names| && names[k] == n;
      assert Spaced(names)[k] == h;
    }
  }

  /** A single word that starts some name completes to exactly those names, each followed
      by a space. */
  lemma CompletesMatching(names: seq<string>, line: string)
    requires NoSpace(Trim(line))
    requires exists n :: n in names && IsPrefix(Trim(line), n)
    ensures CompleteFrom(names, line).hits == Spaced(StartingWith(names, Trim(line)))
    ensures forall h :: h in CompleteFrom(names, line).hits <==>
      exists n :: n in names && IsPrefix(Trim(line), n) && h == n + " "
  {
    var w := Trim(line);
    var ms := StartingWith(names, w);
    var n :| n in names && IsPrefix(w, n);
    assert n in ms;
    assert CompleteFrom(names, line).hits == Spaced(ms);
    forall h ensures h in Spaced(ms) <==> exists n :: n in names && IsPrefix(w, n) && h == n + " " {
      InSpaced(ms, h);
    }
  }

  /** A single word that starts no name completes to every name, each followed by a
      space. */
  lemma CompletesAllWhenNoneMatch(names: seq<string>, line: string)
    requires NoSpace(Trim(line))
    requires forall n :: n in names ==> !IsPrefix(Trim(line), n)
    ensures CompleteFrom(names, line).hits == Spaced(names)
  {
    StartingWithNone(names, Trim(line));
  }

  /** The filter keeps the order of `names`: filtering a concatenation is filtering each
      part, the part in front first. */
  lemma {:induction false} StartingWithConcat(a: seq<string>, b: seq<string>, w: string)
    ensures StartingWith(a + b, w) == StartingWith(a, w) + StartingWith(b, w)
  {
    if a == [] {
      assert a + b == b;
    } else {
      assert (a + b)[0] == a[0] && (a + b)[1..] == a[1..] + b;
      StartingWithConcat(a[1..], b, w);
    }
  }

  /** A single name is kept exactly when it starts with `w`. */
  lemma StartingWithOne(n: string, w: string)
    ensures StartingWith([n], w) == if IsPrefix(w, n) then [n] else []
  {
    assert [n][1..] == [];
  }

  /** No name starts with `w`: the filter keeps nothing. */
  lemma {:induction false} StartingWithNone(names: seq<string>, w: string)
    requires forall n :: n in names ==> !IsPrefix(w, n)
    ensures StartingWith(names, w) == []
  {
    if names != [] {
      assert names[0] in names;
      StartingWithNone(names[1..], w);
    }
  }

  /** Once the line holds a second word there is nothing to complete. */
  lemma NothingAfterFirstWord(names: seq<string>, line: string)
    requires !NoSpace(Trim(line))
    ensures CompleteFrom(names, line).hits == []
  {
  }

  /** Every name starts with the empty word. */
  lemma {:induction false} StartingWithEmpty(names: seq<string>)
    ensures StartingWith(names, "") == names
  {
    if names != [] {
      StartingWithEmpty(names[1..]);
      assert IsPrefix("", names[0]);
      assert [names[0]] + names[1..] == names;
    }
  }

  /** An empty or all-whitespace line is offered every name. */
  lemma BlankLineOffersAll(names: seq<string>, line: string)
    requires AllSpace(line)
    ensures CompleteFrom(names, line).hits == Spaced(names)
  {
    TrimEmptyIffAllSpace(line);
    StartingWithEmpty(names);
  }

  /** Every candidate is a name followed by one space. */
  lemma HitsAreNames(names: seq<string>, line: string)
    ensures forall h :: h in CompleteFrom(names, line).hits ==> exists n :: n in names && h == n + " "
  {
    var split := SplitSpaces(Trim(line));
    if |split| == 1 {
      var ms := StartingWith(names, split[0]);
      forall h | h in Spaced(ms) ensures exists n :: n in names && h == n + " " {
        InSpaced(ms, h);
      }
      forall h | h in Spaced(names) ensures exists n :: n in names && h == n + " " {
        InSpaced(names, h);
      }
    }
  }

  /** The candidates offered for a blank line. */
  lemma BuiltinsSpaced()
    ensures Spaced(Names) == ["echo ", "exit ", "type ", "pwd ", "cd "]
  {
    var r := Spaced(Names);
    assert r[0] == "echo" + " " == "echo ";
    assert r[1] == "exit" + " " == "exit ";
    assert r[2] == "type" + " " == "type ";
    assert r[3] == "pwd" + " " == "pwd ";
    assert r[4] == "cd" + " " == "cd ";
  }

  /** An empty or all-whitespace line is offered the five builtins, in order. */
  lemma BlankLineOffersBuiltins(line: string)
    requires AllSpace(line)
    ensures Completer(line).hits == ["echo ", "exit ", "type ", "pwd ", "cd "]
  {
    BlankLineOffersAll(Names, line);
    BuiltinsSpaced();
  }

  /** `e` completes to `echo ` and `exit `, in the order of the builtin list. */
  lemma CompletesE(line: string)
    requires line == "e"
    ensures Completer(line).hits == ["echo ", "exit "]
  {
    assert !IsSpace(line[0]);
    TrimNoEdgeSpace(line);
    var ms := StartingWith(Names, line);
    StartingWithE(line, ms);
    assert ms[0] in Names;
    assert Completer(line).hits == Spaced(ms);
    assert Spaced(ms)[0] == "echo" + " " == "echo ";
    assert Spaced(ms)[1] == "exit" + " " == "exit ";
  }

  /** The builtins that start with `e`, in order. */
  lemma StartingWithE(w: string, ms: seq<string>)
    requires w == "e" && ms == StartingWith(Names, w)
    ensures ms == ["echo", "exit"]
  {
    assert Names[0][..1] == w && Names[1][..1] == w;
    assert Names[2][..1][0] == 't' && Names[3][..1][0] == 'p' && Names[4][..1][0] == 'c';
    FirstTwoOfFive(Names, w);
  }

  /** Of five names where only the first two start with `w`, the filter keeps those two. */
  lemma FirstTwoOfFive(ns: seq<string>, w: string)
    requires |ns| == 5 && IsPrefix(w, ns[0]) && IsPrefix(w, ns[1])
    requires !IsPrefix(w, ns[2]) && !IsPrefix(w, ns[3]) && !IsPrefix(w, ns[4])
    ensures StartingWith(ns, w) == [ns[0], ns[1]]
  {
    var t := ns[2..];
    assert t[0] == ns[2] && t[1] == ns[3] && t[2] == ns[4];
    NoneOfThree(t, w);
    assert ns[1..][0] == ns[1] && ns[1..][1..] == t;
  }

  /** Three names none of which starts with `w` are all dropped. */
  lemma NoneOfThree(t: seq<string>, w: string)
    requires |t| == 3 && !IsPrefix(w, t[0]) && !IsPrefix(w, t[1]) && !IsPrefix(w, t[2])
    ensures StartingWith(t, w) == []
  {
    var t1 := t[1..];
    var t2 := t1[1..];
    assert t1[0] == t[1] && t2[0] == t[2] && t2[1..] == [];
    assert StartingWith(t2, w) == [];
    assert StartingWith(t1, w) == [];
  }
}
