/** CommandLine::InitFromArgv on POSIX: the parsed form, and when parsing it again changes nothing. */
module PosixCommandLine {
  import opened CommandLineSwitches
  import opened Strings
  import Seqs

  predicate Switch(arg: string) { IsSwitch(false, arg) }

  /** The member variables argv_, switches_ and begin_args_. */
  datatype Line = Line(argv: seq<string>, switches: map<string, string>, beginArgs: nat)

  /** The map's key: the name without its prefix. */
  function Key(name: string): string { name[PrefixLength(false, name)..] }

  /** A switch as argv_ stores it: a trailing '=' is dropped. */
  function Combined(arg: string): string {
    SwitchName(arg) + if SwitchValue(arg) == "" then "" else "=" + SwitchValue(arg)
  }

  /** Switches and other arguments, each in order; from the terminator on nothing is a switch. */
  function Sorted(args: seq<string>): (seq<string>, seq<string>) {
    if args == [] then ([], [])
    else
      var n := |args| - 1;
      var r := Sorted(args[..n]);
      if TERMINATOR !in args && Switch(args[n]) then (r.0 + [args[n]], r.1) else (r.0, r.1 + [args[n]])
  }

  /** For each name the value of its last switch. */
  function LastWins(switches: seq<string>): map<string, string> {
    if switches == [] then map[]
    else
      var n := |switches| - 1;
      LastWins(switches[..n])[Key(SwitchName(switches[n])) := SwitchValue(switches[n])]
  }

  function Combine(switches: seq<string>): (c: seq<string>)
    ensures |c| == |switches|
  {
    seq(|switches|, i requires 0 <= i < |switches| => Combined(switches[i]))
  }

  function TrimAll(args: seq<string>): (t: seq<string>)
    ensures |t| == |args|
  {
    seq(|args|, i requires 0 <= i < |args| => Trim(args[i]))
  }

  /** The line for a trimmed program and trimmed arguments. */
  function LineOf(program: string, args: seq<string>): Line {
    var s := Sorted(args);
    Line([program] + Combine(s.0) + s.1, LastWins(s.0), 1 + |s.0|)
  }

  function TrimmedProgram(argv: seq<string>): string { if argv == [] then "" else Trim(argv[0]) }

  function TrimmedArguments(argv: seq<string>): seq<string> { if argv == [] then [] else TrimAll(argv[1..]) }

  function Parsed(argv: seq<string>): Line { LineOf(TrimmedProgram(argv), TrimmedArguments(argv)) }

  class CommandLine {
    var argv: seq<string>
    var switches: map<string, string>
    var beginArgs: nat

    ghost predicate Valid()
      reads this
    {
      1 <= beginArgs <= |argv|
    }

    ghost function State(): Line
      reads this
    {
      Line(argv, switches, beginArgs)
    }

    constructor ()
      ensures Valid() && State() == Line([""], map[], 1)
    {
      argv, switches, beginArgs := [""], map[], 1;
    }

    /** AppendSwitchNative: names without a prefix get "--"; the switch goes before the arguments. */
    method AppendSwitch(name: string, value: string)
      requires Valid()
      modifies this
      ensures Valid() && beginArgs == old(beginArgs) + 1
      ensures switches == old(switches)[Key(name) := value]
      ensures
        var prefixed := (if PrefixLength(false, name) == 0 then "--" else "") + name;
        var text := prefixed + if value == "" then "" else "=" + value;
        argv == old(argv[..beginArgs]) + [text] + old(argv[beginArgs..])
    {
      var prefixLength := PrefixLength(false, name);
      switches := switches[name[prefixLength..] := value];
      var text := name;
      if prefixLength == 0 { text := "--" + text; }
      assert text == (if prefixLength == 0 then "--" else "") + name by { assert "" + name == name; }
      if value != "" { text := text + ("=" + value); } else { assert text + "" == text; }
      argv := argv[..beginArgs] + [text] + argv[beginArgs..];
      beginArgs := beginArgs + 1;
    }

    method AppendArg(arg: string)
      requires Valid()
      modifies this
      ensures Valid() && State() == old(State()).(argv := old(argv) + [arg])
    {
      argv := argv + [arg];
    }

    /** One step of AppendSwitchesAndArguments. */
    method Append(arg: string, parsing: bool)
      requires Valid()
      modifies this
      ensures Valid() && State() == Appended(old(State()), arg, parsing)
    {
      if parsing && Switch(arg) {
        SwitchNamed(false, arg);
        assert "" + SwitchName(arg) == SwitchName(arg);
        AppendSwitch(SwitchName(arg), SwitchValue(arg));
      } else {
        AppendArg(arg);
      }
    }

    /** AppendSwitchesAndArguments, called on a line that holds only the program. */
    method AppendAll(newArgv: seq<string>)
      requires Valid() && newArgv != [] && |argv| == 1 && State() == LineOf(argv[0], [])
      modifies this
      ensures Valid() && State() == LineOf(old(argv[0]), TrimAll(newArgv[1..]))
    {
      ghost var program, done := argv[0], [];
      var parsing := true;
      var i := 1;
      while i < |newArgv|
        invariant 1 <= i <= |newArgv| && done == TrimAll(newArgv[1..i])
        invariant parsing == (TERMINATOR !in done)
        invariant Valid() && State() == LineOf(program, done)
      {
        var arg := Trim(newArgv[i]);
        LineStep(program, done, arg);
        parsing := parsing && arg != TERMINATOR;
        Append(arg, parsing);
        done := done + [arg];
        i := i + 1;
      }
      assert newArgv[1..i] == newArgv[1..];
    }

    /** InitFromArgv. */
    method InitFromArgv(newArgv: seq<string>)
      modifies this
      ensures Valid() && State() == Parsed(newArgv)
    {
      argv, switches, beginArgs := [if newArgv == [] then "" else Trim(newArgv[0])], map[], 1;
      assert argv == [argv[0]] + [] + [];
      if newArgv != [] { AppendAll(newArgv); }
    }
  }

  function Appended(line: Line, arg: string, parsing: bool): Line
    requires line.beginArgs <= |line.argv|
  {
    if parsing && Switch(arg) then
      Line(line.argv[..line.beginArgs] + [Combined(arg)] + line.argv[line.beginArgs..],
           line.switches[Key(SwitchName(arg)) := SwitchValue(arg)],
           line.beginArgs + 1)
    else line.(argv := line.argv + [arg])
  }

  lemma SortedStep(args: seq<string>, arg: string)
    ensures
      var r := Sorted(args);
      Sorted(args + [arg])
      == if TERMINATOR !in args && arg != TERMINATOR && Switch(arg) then (r.0 + [arg], r.1) else (r.0, r.1 + [arg])
  {
    assert (args + [arg])[..|args|] == args;
  }

  lemma LineStep(program: string, args: seq<string>, arg: string)
    ensures LineOf(program, args).beginArgs <= |LineOf(program, args).argv|
    ensures LineOf(program, args + [arg])
         == Appended(LineOf(program, args), arg, TERMINATOR !in args && arg != TERMINATOR)
  {
    var s := Sorted(args);
    SortedStep(args, arg);
    if TERMINATOR !in args && arg != TERMINATOR && Switch(arg) {
      SwitchStep(program, s.0, s.1, arg);
    } else {
      Seqs.Associates([program] + Combine(s.0), s.1, [arg]);
    }
  }

  lemma CombineStep(switches: seq<string>, arg: string)
    ensures Combine(switches + [arg]) == Combine(switches) + [Combined(arg)]
    ensures LastWins(switches + [arg]) == LastWins(switches)[Key(SwitchName(arg)) := SwitchValue(arg)]
  {
    assert (switches + [arg])[..|switches|] == switches;
  }

  lemma SwitchStep(program: string, switches: seq<string>, rest: seq<string>, arg: string)
    requires Switch(arg)
    ensures
      Line([program] + Combine(switches + [arg]) + rest, LastWins(switches + [arg]), 1 + |switches| + 1)
      == Appended(Line([program] + Combine(switches) + rest, LastWins(switches), 1 + |switches|), arg, true)
  {
    CombineStep(switches, arg);
    Inserted(program, Combine(switches), Combined(arg), rest);
  }

  lemma Inserted(program: string, front: seq<string>, x: string, back: seq<string>)
    ensures
      var argv, n := [program] + front + back, 1 + |front|;
      argv[..n] + [x] + argv[n..] == [program] + (front + [x]) + back
  {
    var argv, n := [program] + front + back, 1 + |front|;
    assert argv[..n] == [program] + front && argv[n..] == back;
  }

  // ----- What the parsed form keeps -----

  /** Nothing in this list would be parsed as a switch. */
  ghost predicate Quiet(rest: seq<string>) {
    forall k | 0 <= k < |rest| :: TERMINATOR in rest[..k + 1] || !Switch(rest[k])
  }

  lemma QuietSnoc(rest: seq<string>, arg: string)
    requires Quiet(rest) && (TERMINATOR in rest + [arg] || !Switch(arg))
    ensures Quiet(rest + [arg])
  {
    var all := rest + [arg];
    forall k | 0 <= k < |all| ensures TERMINATOR in all[..k + 1] || !Switch(all[k]) {
      if k < |rest| { assert all[..k + 1] == rest[..k + 1]; } else { assert all[..k + 1] == all; }
    }
  }

  /** Every argument is kept, once. */
  lemma {:induction false} SortedKeepsAll(args: seq<string>)
    ensures multiset(Sorted(args).0) + multiset(Sorted(args).1) == multiset(args)
  {
    if args != [] {
      var n := |args| - 1;
      SortedKeepsAll(args[..n]);
      SortedStep(args[..n], args[n]);
      assert args == args[..n] + [args[n]];
    }
  }

  lemma {:induction false} SortedTerminator(args: seq<string>)
    requires TERMINATOR in args
    ensures TERMINATOR in Sorted(args).1
  {
    var n := |args| - 1;
    Seqs.Snoc(args);
    if TERMINATOR in args[..n] { SortedTerminator(args[..n]); }
  }

  /** What is not a switch stays one: the terminator keeps its place among the others. */
  lemma {:induction false} SortedIs(args: seq<string>)
    ensures var s := Sorted(args);
            && (forall k | 0 <= k < |s.0| :: Switch(s.0[k]))
            && (TERMINATOR in args ==> TERMINATOR in s.1)
            && Quiet(s.1)
  {
    if TERMINATOR in args { SortedTerminator(args); }
    if args != [] {
      var n := |args| - 1;
      SortedIs(args[..n]);
      if !(TERMINATOR !in args && Switch(args[n])) { QuietSnoc(Sorted(args[..n]).1, args[n]); }
    }
  }

  ghost predicate Names(switches: seq<string>, k: nat, key: string) {
    k < |switches| && Key(SwitchName(switches[k])) == key
  }

  /** The value of a name is the one given last. */
  lemma {:induction false} LastWinsIs(switches: seq<string>, k: nat, key: string)
    requires Names(switches, k, key) && forall j | k < j < |switches| :: !Names(switches, j, key)
    ensures key in LastWins(switches) && LastWins(switches)[key] == SwitchValue(switches[k])
  {
    var n := |switches| - 1;
    assert LastWins(switches)
        == LastWins(switches[..n])[Key(SwitchName(switches[n])) := SwitchValue(switches[n])];
    if k < n {
      assert !Names(switches, n, key);
      forall j | k < j < n ensures !Names(switches[..n], j, key) { assert !Names(switches, j, key); }
      LastWinsIs(switches[..n], k, key);
    }
  }

  /** Only names that were given have one. */
  lemma {:induction false} LastWinsOnly(switches: seq<string>, key: string)
    requires key in LastWins(switches)
    ensures exists k :: Names(switches, k, key)
  {
    var n := |switches| - 1;
    if Names(switches, n, key) {
    } else {
      LastWinsOnly(switches[..n], key);
      var k :| Names(switches[..n], k, key);
      assert Names(switches, k, key);
    }
  }

  // ----- Looking a switch up -----

  /** The argument gives the switch `n` the value `v`: "-" or "--", the name and, unless there is no value, "=" and the
      value. A name behind one dash does not begin with another. */
  predicate Gives(arg: string, n: string, v: string) {
    && '=' !in n
    && (|| (n != "" && v == "" && (arg == "--" + n || (arg == "-" + n && !("-" <= n))))
        || arg == "--" + n + "=" + v
        || (arg == "-" + n + "=" + v && !("-" <= n)))
  }

  lemma PrefixedName(p: string, n: string)
    requires p == "--" || (p == "-" && !("-" <= n))
    ensures PrefixLength(false, p + n) == |p| && Key(p + n) == n
  {
    assert (p + n)[|p|..] == n;
  }

  lemma NamedBy(arg: string, p: string, n: string, v: string)
    requires p == "--" || (p == "-" && !("-" <= n))
    requires '=' !in n && (arg == p + n + "=" + v || (arg == p + n && v == "" && n != ""))
    ensures Switch(arg) && Key(SwitchName(arg)) == n && SwitchValue(arg) == v
  {
    PrefixedName(p, n);
    var name := p + n;
    assert '=' !in name && arg[..|name|] == name;
    IndexOfAt(arg, '=', |name|);
    if arg != name {
      assert arg[|name| + 1..] == v;
      Seqs.Associates(p, n, "=" + v);
      Seqs.Associates(name, "=", v);
      PrefixedName(p, n + ("=" + v));
    }
  }

  lemma GivenBy(arg: string)
    requires Switch(arg)
    ensures Gives(arg, Key(SwitchName(arg)), SwitchValue(arg))
  {
    var name, v := SwitchName(arg), SwitchValue(arg);
    SwitchParts(arg);
    SwitchNamed(false, arg);
    var k := PrefixLength(false, name);
    var p, n := name[..k], name[k..];
    Seqs.TakeAndDrop(name, k);
    assert p == "--" || p == "-";
    Seqs.Associates(name, "=", v);
  }

  /** An argument is stored under a name with a value if and only if it gives that name that value. */
  lemma GivesExactly(arg: string, n: string, v: string)
    ensures Gives(arg, n, v) <==> Switch(arg) && Key(SwitchName(arg)) == n && SwitchValue(arg) == v
  {
    if Gives(arg, n, v) {
      var twice := (arg == "--" + n && v == "" && n != "") || arg == "--" + n + "=" + v;
      NamedBy(arg, if twice then "--" else "-", n, v);
    } else if Switch(arg) {
      GivenBy(arg);
    }
  }

  /** Argument `i` gives the switch, before the terminator. */
  ghost predicate GivenAt(args: seq<string>, i: nat, n: string, v: string) {
    i < |args| && TERMINATOR !in args[..i + 1] && Gives(args[i], n, v)
  }

  lemma GivenInit(args: seq<string>, i: nat, n: string, v: string)
    requires i + 1 < |args|
    ensures GivenAt(args, i, n, v) <==> GivenAt(args[..|args| - 1], i, n, v)
  {
    assert args[..|args| - 1][..i + 1] == args[..i + 1];
  }

  /** The switches after one more argument, which may give one. */
  lemma OneMoreSwitch(args: seq<string>, arg: string)
    ensures
      var before, after := LastWins(Sorted(args).0), LastWins(Sorted(args + [arg]).0);
      after == if TERMINATOR !in args && arg != TERMINATOR && Switch(arg)
               then before[Key(SwitchName(arg)) := SwitchValue(arg)] else before
  {
    SortedStep(args, arg);
    CombineStep(Sorted(args).0, arg);
  }

  lemma LastGives(args: seq<string>, arg: string, n: string, v: string)
    ensures
      GivenAt(args + [arg], |args|, n, v)
      <==> && TERMINATOR !in args && arg != TERMINATOR && Switch(arg)
           && Key(SwitchName(arg)) == n && SwitchValue(arg) == v
  {
    Seqs.Whole(args + [arg]);
    GivesExactly(arg, n, v);
  }

  /** What is given and not given again is found. */
  lemma {:induction false} FoundLast(args: seq<string>, i: nat, n: string, v: string)
    requires GivenAt(args, i, n, v) && forall j, x | i < j < |args| :: !GivenAt(args, j, n, x)
    ensures n in LastWins(Sorted(args).0) && LastWins(Sorted(args).0)[n] == v
  {
    var k := |args| - 1;
    var init, last := args[..k], args[k];
    Seqs.Snoc(args);
    OneMoreSwitch(init, last);
    if i == k {
      LastGives(init, last, n, v);
    } else {
      GivenInit(args, i, n, v);
      forall j, x | i < j < k ensures !GivenAt(init, j, n, x) { GivenInit(args, j, n, x); }
      FoundLast(init, i, n, v);
      LastGives(init, last, n, SwitchValue(last));
      assert !GivenAt(args, k, n, SwitchValue(last));
    }
  }

  lemma {:induction false} FoundWasGiven(args: seq<string>, n: string) returns (i: nat, v: string)
    requires n in LastWins(Sorted(args).0)
    ensures GivenAt(args, i, n, v)
  {
    var k := |args| - 1;
    var init, last := args[..k], args[k];
    Seqs.Snoc(args);
    OneMoreSwitch(init, last);
    if n in LastWins(Sorted(init).0) {
      i, v := FoundWasGiven(init, n);
      GivenInit(args, i, n, v);
    } else {
      i, v := k, SwitchValue(last);
      LastGives(init, last, n, v);
    }
  }

  /** HasSwitch finds exactly the switches that some argument before the terminator gives, dashes left off. */
  lemma HasSwitchExactly(argv: seq<string>, n: string)
    ensures n in Parsed(argv).switches <==> exists i, v :: GivenAt(TrimmedArguments(argv), i, n, v)
  {
    var args := TrimmedArguments(argv);
    if n in Parsed(argv).switches {
      var i, v := FoundWasGiven(args, n);
    } else if i, v :| GivenAt(args, i, n, v) {
      var j, x := LastGiven(args, n, i, v);
      FoundLast(args, j, n, x);
    }
  }

  /** GetSwitchValue is the value given last. */
  lemma SwitchValueExactly(argv: seq<string>, i: nat, n: string, v: string)
    requires var args := TrimmedArguments(argv);
             GivenAt(args, i, n, v) && forall j, x | i < j < |args| :: !GivenAt(args, j, n, x)
    ensures n in Parsed(argv).switches && Parsed(argv).switches[n] == v
  {
    FoundLast(TrimmedArguments(argv), i, n, v);
  }

  lemma {:induction false} LastGiven(args: seq<string>, n: string, i: nat, v: string) returns (j: nat, x: string)
    requires GivenAt(args, i, n, v)
    ensures GivenAt(args, j, n, x) && forall k, y | j < k < |args| :: !GivenAt(args, k, n, y)
    decreases |args| - i
  {
    if k, y :| i < k < |args| && GivenAt(args, k, n, y) {
      j, x := LastGiven(args, n, k, y);
    } else {
      j, x := i, v;
    }
  }

  /** The program is stored without the white space around it. */
  lemma ProgramIsTrimmed(argv: seq<string>)
    requires argv != []
    ensures
      exists i, j | 0 <= i <= j <= |argv[0]| ::
        && Parsed(argv).argv[0] == argv[0][i..j] && Trimmed(argv[0][i..j])
        && forall k | 0 <= k < i || j <= k < |argv[0]| :: Space(argv[0][k])
  {
    TrimIs(argv[0]);
    var i, j := TrimKeeps(argv[0]);
    assert Parsed(argv).argv[0] == argv[0][i..j];
  }

  // ----- Parsing the parsed form -----

  lemma QuietInit(rest: seq<string>)
    requires rest != [] && Quiet(rest)
    ensures Quiet(rest[..|rest| - 1]) && (TERMINATOR in rest || !Switch(rest[|rest| - 1]))
  {
    var n := |rest| - 1;
    forall k | 0 <= k < n ensures TERMINATOR in rest[..n][..k + 1] || !Switch(rest[..n][k]) {
      assert rest[..n][..k + 1] == rest[..k + 1];
    }
    assert rest[..n + 1] == rest;
  }

  lemma {:induction false} SortedAppend(front: seq<string>, rest: seq<string>)
    requires Quiet(rest)
    ensures Sorted(front + rest) == (Sorted(front).0, Sorted(front).1 + rest)
  {
    var r := Sorted(front).1;
    if rest == [] {
      Seqs.Whole(front);
      Seqs.Whole(r);
    } else {
      var n := |rest| - 1;
      QuietInit(rest);
      SortedAppend(front, rest[..n]);
      SortedStep(front + rest[..n], rest[n]);
      Seqs.Snoc(rest);
      Seqs.Associates(front, rest[..n], [rest[n]]);
      Seqs.Associates(r, rest[..n], [rest[n]]);
      assert TERMINATOR in rest ==> TERMINATOR in front + rest;
    }
  }

  lemma {:induction false} SortedSwitches(args: seq<string>)
    ensures |Sorted(args).0| <= |args|
    ensures |Sorted(args).0| == |args| <==> forall k | 0 <= k < |args| :: Switch(args[k])
    ensures |Sorted(args).0| == |args| ==> Sorted(args) == (args, [])
  {
    if args != [] {
      var n := |args| - 1;
      SortedSwitches(args[..n]);
      assert args == args[..n] + [args[n]];
      assert forall k | 0 <= k < n :: args[..n][k] == args[k];
    }
  }

  /** False for the arguments `name=` whose name is "-" or "--" or ends in white space. */
  ghost predicate Stable(arg: string) {
    arg == SwitchName(arg) + "=" ==> Trimmed(SwitchName(arg)) && SwitchName(arg) != "-" && SwitchName(arg) != "--"
  }

  lemma CombinedIs(arg: string)
    ensures arg == SwitchName(arg) + "=" ==> Combined(arg) == SwitchName(arg)
    ensures arg != SwitchName(arg) + "=" ==> Combined(arg) == arg
    ensures |Combined(arg)| <= |arg|
  {
    var name := SwitchName(arg);
    SwitchParts(arg);
    assert name + "" == name;
    if '=' in arg && SwitchValue(arg) == "" { assert "=" + SwitchValue(arg) == "="; }
  }

  lemma NoEquals(s: string)
    requires '=' !in s
    ensures EqualsAt(s) == |s|
  {
    assert s[..|s|] == s;
    IndexOfAt(s, '=', |s|);
  }

  /** A combined switch names the same switch with the same value. */
  lemma CombinedMeansSame(arg: string)
    ensures SwitchName(Combined(arg)) == SwitchName(arg) && SwitchValue(Combined(arg)) == SwitchValue(arg)
    ensures Combined(Combined(arg)) == Combined(arg)
  {
    CombinedIs(arg);
    var name := SwitchName(arg);
    if arg == name + "=" {
      NoEquals(name);
      assert name[..|name|] == name && name + "" == name;
      assert SwitchValue(arg) == "";
    }
  }

  lemma StableExactly(arg: string)
    requires Trimmed(arg) && Switch(arg)
    ensures Stable(arg) <==> Trimmed(Combined(arg)) && Switch(Combined(arg))
  {
    CombinedIs(arg);
    SwitchNamed(false, arg);
  }

  ghost predicate AllTrimmed(args: seq<string>) { forall k | 0 <= k < |args| :: Trimmed(args[k]) }

  lemma TrimAllIs(args: seq<string>)
    ensures AllTrimmed(TrimAll(args))
    ensures AllTrimmed(args) ==> TrimAll(args) == args
  {
    forall k | 0 <= k < |args| ensures Trimmed(TrimAll(args)[k]) && (Trimmed(args[k]) ==> Trim(args[k]) == args[k]) {
      TrimIs(args[k]);
    }
  }

  lemma {:induction false} SortedTrimmed(args: seq<string>)
    requires AllTrimmed(args)
    ensures AllTrimmed(Sorted(args).0) && AllTrimmed(Sorted(args).1)
  {
    if args != [] { SortedTrimmed(args[..|args| - 1]); }
  }

  lemma {:induction false} CombineMeansSame(switches: seq<string>)
    ensures LastWins(Combine(switches)) == LastWins(switches)
  {
    if switches != [] {
      var n := |switches| - 1;
      CombineMeansSame(switches[..n]);
      CombinedMeansSame(switches[n]);
      assert Combine(switches)[..n] == Combine(switches[..n]);
    }
  }

  lemma TailOf(program: string, a: seq<string>, b: seq<string>)
    ensures ([program] + a + b)[0] == program && ([program] + a + b)[1..] == a + b
  {
  }

  lemma TrimAllAppend(a: seq<string>, b: seq<string>)
    ensures TrimAll(a + b) == TrimAll(a) + TrimAll(b)
  {
  }

  /** The line parsed again, in terms of the first parse. */
  lemma Reparsed(program: string, args: seq<string>)
    requires Trimmed(program) && AllTrimmed(args)
    ensures
      var s := Sorted(args);
      var again := Sorted(TrimAll(Combine(s.0)));
      Parsed(LineOf(program, args).argv)
      == Line([program] + Combine(again.0) + (again.1 + s.1), LastWins(again.0), 1 + |again.0|)
  {
    var s := Sorted(args);
    var argv := LineOf(program, args).argv;
    TrimIs(program);
    TailOf(program, Combine(s.0), s.1);
    SortedTrimmed(args);
    TrimAllIs(s.1);
    TrimAllAppend(Combine(s.0), s.1);
    SortedIs(args);
    SortedAppend(TrimAll(Combine(s.0)), s.1);
  }

  /** All switches are stable. */
  ghost predicate AllStable(switches: seq<string>) { forall k | 0 <= k < |switches| :: Stable(switches[k]) }

  lemma StableIsFixed(switches: seq<string>)
    requires AllTrimmed(switches) && (forall k | 0 <= k < |switches| :: Switch(switches[k])) && AllStable(switches)
    ensures
      var c := Combine(switches);
      TrimAll(c) == c && Sorted(c) == (c, []) && Combine(c) == c && LastWins(c) == LastWins(switches)
  {
    var c := Combine(switches);
    forall k | 0 <= k < |c| ensures Trimmed(c[k]) && Switch(c[k]) && Combined(c[k]) == c[k] {
      StableExactly(switches[k]);
      CombinedMeansSame(switches[k]);
    }
    TrimAllIs(c);
    SortedSwitches(c);
    CombineMeansSame(switches);
  }

  lemma FixedIsStable(switches: seq<string>)
    requires AllTrimmed(switches) && forall k | 0 <= k < |switches| :: Switch(switches[k])
    requires
      var t := TrimAll(Combine(switches));
      |Sorted(t).0| == |switches| && Combine(t) == Combine(switches)
    ensures AllStable(switches)
  {
    var c := Combine(switches);
    var t := TrimAll(c);
    SortedSwitches(t);
    forall k | 0 <= k < |c| ensures Stable(switches[k]) {
      TrimIs(c[k]);
      CombinedIs(t[k]);
      assert Combine(t)[k] == Combined(t[k]) && Combine(t)[k] == c[k];
      StableExactly(switches[k]);
    }
  }

  lemma SameMiddle(program: string, a: seq<string>, b: seq<string>, x: seq<string>, y: seq<string>)
    requires |a| == |b| && [program] + a + x == [program] + b + y
    ensures a == b
  {
    var s := [program] + a + x;
    assert s[1..1 + |a|] == a;
    assert ([program] + b + y)[1..1 + |b|] == b;
  }

  /**
   * Parsing the stored argv again changes nothing if and only if no switch before the terminator is of the form
   * `name=` with the name "-" or "--" or one ending in white space.
   */
  lemma ReparseExactly(argv: seq<string>)
    ensures Parsed(Parsed(argv).argv) == Parsed(argv) <==> AllStable(Sorted(TrimmedArguments(argv)).0)
  {
    var program, args := TrimmedProgram(argv), TrimmedArguments(argv);
    TrimIs(if argv == [] then "" else argv[0]);
    TrimAllIs(if argv == [] then [] else argv[1..]);
    Reparsed(program, args);
    var s := Sorted(args);
    SortedIs(args);
    SortedTrimmed(args);
    var again := Sorted(TrimAll(Combine(s.0)));
    if AllStable(s.0) {
      StableIsFixed(s.0);
      assert [] + s.1 == s.1;
    } else if Parsed(Parsed(argv).argv) == Parsed(argv) {
      SortedSwitches(TrimAll(Combine(s.0)));
      SameMiddle(program, Combine(again.0), Combine(s.0), again.1 + s.1, s.1);
      FixedIsStable(s.0);
      assert false;
    }
  }

  lemma ExampleSwitch(arg: string)
    requires arg == "--a ="
    ensures Trimmed(arg) && Switch(arg) && !Stable(arg)
  {
    assert arg[..4] == "--a ";
    IndexOfAt(arg, '=', 4);
  }

  /** A name that ends in a space: the second parse trims it and names another switch. */
  lemma ReparseCanChange(argv: seq<string>)
    requires argv == ["prog", "--a ="]
    ensures Parsed(Parsed(argv).argv) != Parsed(argv)
  {
    var arg := argv[1];
    ExampleSwitch(arg);
    TrimIs(arg);
    assert TrimAll(argv[1..]) == [arg];
    SortedStep([], arg);
    Seqs.Whole([arg]);
    assert Sorted([arg]).0[0] == arg;
    ReparseExactly(argv);
  }
}
