module PipelineWords {
  // What a command of a line asks for, by its words: its arguments, variables and streams.

  import opened Common
  import opened CommandLine
  import opened PipelineParse
  import opened PipelineSyntax

  function Args(ws: seq<Word>): seq<string> {
    if ws == [] then [] else (if ws[0].Arg? then [ws[0].t] else []) + Args(ws[1..])
  }

  function Outs(ws: seq<Word>): seq<string> {
    if ws == [] then [] else (if ws[0].OutTo? then [ws[0].f] else []) + Outs(ws[1..])
  }

  function Ins(ws: seq<Word>): seq<string> {
    if ws == [] then [] else (if ws[0].InFrom? then [ws[0].f] else []) + Ins(ws[1..])
  }

  /** None stands for the redirection of errors to the output. */
  function Errs(ws: seq<Word>): seq<Option<string>> {
    if ws == [] then []
    else (if ws[0].ErrTo? then [Some(ws[0].f)] else if ws[0].ErrToOut? then [None] else []) + Errs(ws[1..])
  }

  /** The last value given to a name, if there is one. */
  function LastValue(es: seq<(string, string)>, k: string): Option<string> {
    if es == [] then None
    else if es[|es| - 1].0 == k then Some(es[|es| - 1].1)
    else LastValue(es[..|es| - 1], k)
  }

  function ErrOf(e: Option<string>): Out {
    if e.None? then WithStdout else Path(e.value)
  }

  /** What the words make of a command, stream by stream. */
  predicate Redirected(c: Cmd, ws: seq<Word>, r: Option<Cmd>) {
    var i, o, e := Ins(ws), Outs(ws), Errs(ws);
    && (r.Some? <==> |i| <= (if c.stdin == None then 1 else 0) && |o| <= (if c.stdout == Inherited then 1 else 0)
                     && |e| <= (if c.stderr == Inherited then 1 else 0))
    && (r.Some? ==>
          && r.value.argv == c.argv + Args(ws) && r.value.env == c.env
          && r.value.stdin == (if i == [] then c.stdin else Some(i[0]))
          && r.value.stdout == (if o == [] then c.stdout else Path(o[0]))
          && r.value.stderr == (if e == [] then c.stderr else ErrOf(e[0])))
  }

  lemma OneWord(c: Cmd, w: Word, ws: seq<Word>)
    requires AddWord(c, w).Some? ==> Redirected(AddWord(c, w).value, ws, AddWords(AddWord(c, w).value, ws))
    ensures Redirected(c, [w] + ws, AddWords(c, [w] + ws))
  {
    assert ([w] + ws)[1..] == ws;
    if AddWord(c, w).Some? {
      assert c.argv + Args([w] + ws) == AddWord(c, w).value.argv + Args(ws);
    }
  }

  lemma {:induction false} WordsLaw(c: Cmd, ws: seq<Word>)
    ensures Redirected(c, ws, AddWords(c, ws))
    decreases |ws|
  {
    if ws == [] {
      assert c.argv + [] == c.argv;
    } else {
      if AddWord(c, ws[0]).Some? {
        WordsLaw(AddWord(c, ws[0]).value, ws[1..]);
      }
      OneWord(c, ws[0], ws[1..]);
      assert [ws[0]] + ws[1..] == ws;
    }
  }

  lemma {:induction false} EnvLaw(env: map<string, string>, es: seq<(string, string)>, k: string)
    ensures var r, v := AddEnv(env, es), LastValue(es, k);
            && (k in r <==> v.Some? || k in env)
            && (k in r ==> r[k] == if v.Some? then v.value else env[k])
    decreases |es|
  {
    if es != [] {
      EnvLaw(env[es[0].0 := es[0].1], es[1..], k);
      LastFirst(es, k);
    }
  }

  lemma {:induction false} LastFirst(es: seq<(string, string)>, k: string)
    requires es != []
    ensures LastValue(es, k) ==
            if LastValue(es[1..], k).Some? then LastValue(es[1..], k) else if es[0].0 == k then Some(es[0].1) else None
    decreases |es|
  {
    var n := |es| - 1;
    if n > 0 && es[n].0 != k {
      LastFirst(es[..n], k);
      assert es[..n][1..] == es[1..][..n - 1] && es[1..][n - 1] == es[n];
    } else if n > 0 {
      assert es[1..][n - 1] == es[n];
    } else {
      assert es[1..] == [] && es[..0] == [];
    }
  }

  /**
   The command of a text: its name and arguments in order, the last value of each variable
   assigned in front of it and no other, and each stream where the words send it.  There is
   none exactly if a stream is redirected twice.
   */
  lemma CommandIsAsked(es: seq<(string, string)>, name: string, ws: seq<Word>, k: string)
    ensures var r := AddWords(NewCommand(name, AddEnv(NoEnv, es)), ws);
            var i, o, e, v := Ins(ws), Outs(ws), Errs(ws), LastValue(es, k);
            && (r.Some? <==> |i| <= 1 && |o| <= 1 && |e| <= 1)
            && (r.Some? ==>
                  && r.value.argv == [name] + Args(ws)
                  && (k in r.value.env <==> v.Some?) && (v.Some? ==> r.value.env[k] == v.value)
                  && r.value.stdin == (if i == [] then None else Some(i[0]))
                  && r.value.stdout == (if o == [] then Inherited else Path(o[0]))
                  && r.value.stderr == (if e == [] then Inherited else ErrOf(e[0])))
  {
    WordsLaw(NewCommand(name, AddEnv(NoEnv, es)), ws);
    EnvLaw(NoEnv, es, k);
  }

  /** An ordinary command with a variable in front of it. */
  lemma AssignmentIsSet(k: string, v: string, name: string)
    requires WordText(k) && ValueText(v) && !IsAssignment(name) && name != "cd"
    ensures ParseTokens([k + "=" + v, name]) == Some([Run(Cmd([name], None, Inherited, Inherited, map[k := v]))])
  {
    var es := [(k, v)];
    var x := Write(es, name, [], Stop);
    assert es[1..] == [];
    assert AddEnv(NoEnv, es) == map[k := v];
    assert ShowTail(Stop) == [] && ShowWords([], []) == [];
    assert ShowEnv([], [name] + []) == [name];
    assert Show(x) == [k + "=" + v] + [name] == [k + "=" + v, name];
    var c := NewCommand(name, map[k := v]);
    assert AddWords(c, []) == Some(c) && Meant(x) == Some(Simple(c, End));
    ParsesWhatIsMeant(x);
  }

  /** A variable in front of `cd` is an error, whatever follows. */
  lemma CdTakesNoVariable(k: string, v: string, rest: seq<string>)
    requires WordText(k) && ValueText(v)
    ensures ParseTokens([k + "=" + v, "cd"] + rest) == None
  {
    var ts, a := [k + "=" + v, "cd"] + rest, k + "=" + v;
    EnvMatchIff(a, k, v);
    EnvMatchSomeIff("cd");
    hide EnvMatch;
    assert ts[0] == a && ts[1..][0] == "cd";
    var m := Machine(Begin, None, NoEnv[k := v], []);
    assert k in m.env;
    assert Step(Fresh, a) == Some(m) && Step(m, "cd") == None;
    assert Machined(Fresh, ts) == Machined(m, ts[1..]);
  }

  /** So is a second directory. */
  lemma CdTakesOneDirectory(d: string, e: string, rest: seq<string>)
    requires d != "&&" && e != "&&"
    ensures ParseTokens(["cd", d, e] + rest) == None
  {
    var ts := ["cd", d, e] + rest;
    EnvMatchSomeIff("cd");
    hide EnvMatch;
    var m1 := Machine(InCd, Some(Chdir(None)), NoEnv, []);
    var m2 := m1.(current := Some(Chdir(Some(d))));
    assert ts[0] == "cd" && ts[1..][0] == d && ts[1..][1..][0] == e;
    assert Step(Fresh, "cd") == Some(m1) && Step(m1, d) == Some(m2) && Step(m2, e) == None;
    assert Machined(Fresh, ts) == Machined(m1, ts[1..]) == Machined(m2, ts[1..][1..]);
  }
}
