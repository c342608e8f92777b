/** Exactly which argument lists survive being written to a Windows command line and split again. */
module WindowsRoundTrip {
  import opened Arithmetic
  import opened CommandLineSwitches
  import opened WindowsQuoting
  import opened WindowsCommandLine
  import opened Wrappers
  import Seqs

  // ----- How many characters a text stands for -----

  /** What one bite of a text stands for, and how much of the text it is. */
  function Bite(s: string): (b: (nat, nat))
    requires s != ""
    ensures 0 < b.1 <= |s| && b.0 <= b.1
  {
    var n := Run(s);
    if n < |s| && s[n] == QUOTE then (n / 2 + n % 2, n + 1) else if n > 0 then (n, n) else (1, 1)
  }

  /** The characters that splitting reads from a text, blanks included, whether they end up quoted or not. */
  function Literals(s: string): nat
    decreases |s|
  {
    if s == "" then 0 else Bite(s).0 + Literals(s[Bite(s).1..])
  }

  /** Each argument counts its characters and one separator. */
  function Size(args: seq<string>): nat {
    if args == [] then 0 else |args[0]| + 1 + Size(args[1..])
  }

  function CurSize(cur: Option<string>): nat { match cur case None => 1 case Some(t) => |t| + 1 }

  lemma {:induction false} SizeAdds(a: seq<string>, b: seq<string>)
    ensures Size(a + b) == Size(a) + Size(b)
  {
    if a == [] {
      Seqs.Whole(b);
    } else {
      SizeAdds(a[1..], b);
      Seqs.Cons(a);
      Seqs.Associates([a[0]], a[1..], b);
      Seqs.TakeAppended([a[0]], a[1..] + b);
    }
  }

  /** What reading one bite does: arguments finished, the one being read, whether inside quotes. */
  function Swallow(s: string, cur: Option<string>, quoted: bool): (seq<string>, Option<string>, bool)
    requires s != ""
  {
    var n := Run(s);
    if n < |s| && s[n] == QUOTE then
      if n % 2 == 0 then ([], Add(cur, Slashes(n / 2)), !quoted) else ([], Add(cur, Slashes(n / 2) + [QUOTE]), quoted)
    else if n > 0 then ([], Add(cur, Slashes(n)), quoted)
    else if !quoted && Blank(s[0]) then (Flush(cur), None, false)
    else ([], Add(cur, [s[0]]), quoted)
  }

  lemma ScanSwallows(s: string, cur: Option<string>, quoted: bool)
    requires s != ""
    ensures var w := Swallow(s, cur, quoted); Scan(s, cur, quoted) == w.0 + Scan(s[Bite(s).1..], w.1, w.2)
  {
    var w := Swallow(s, cur, quoted);
    Seqs.Whole(Scan(s[Bite(s).1..], w.1, w.2));
  }

  lemma SwallowSize(s: string, cur: Option<string>, quoted: bool)
    requires s != ""
    ensures var w := Swallow(s, cur, quoted); Size(w.0) + CurSize(w.1) <= Bite(s).0 + CurSize(cur)
  {
    if cur.Some? { assert [cur.value][1..] == []; }
  }

  /** No reading makes more of a text than its characters and one separator for each blank. */
  lemma {:induction false} ScanSize(s: string, cur: Option<string>, quoted: bool)
    ensures Size(Scan(s, cur, quoted)) <= Literals(s) + CurSize(cur)
    decreases |s|
  {
    if s == "" {
      if cur.Some? { assert [cur.value][1..] == []; }
    } else {
      var w, rest := Swallow(s, cur, quoted), s[Bite(s).1..];
      ScanSize(rest, w.1, w.2);
      ScanSwallows(s, cur, quoted);
      SwallowSize(s, cur, quoted);
      SizeAdds(w.0, Scan(rest, w.1, w.2));
    }
  }

  // ----- Texts put together -----

  ghost predicate Follows(rest: string) { rest == "" || (rest[0] != QUOTE && rest[0] != SLASH) }

  lemma {:induction false} RunThrough(s: string, rest: string)
    requires Follows(rest)
    ensures Run(s + rest) == Run(s)
  {
    if s != "" && s[0] == SLASH {
      RunThrough(s[1..], rest);
      HeadFirst(s, rest);
      Seqs.TakeAppended([s[0]], s[1..] + rest);
    } else if s == "" {
      Seqs.Whole(rest);
    }
  }

  lemma DropThrough(s: string, rest: string, k: nat)
    requires k <= |s|
    ensures (s + rest)[k..] == s[k..] + rest
  {
  }

  lemma BiteThrough(s: string, rest: string)
    requires s != "" && Follows(rest)
    ensures Bite(s + rest) == Bite(s)
  {
    RunThrough(s, rest);
  }

  lemma {:induction false} LiteralsAdd(s: string, rest: string)
    requires Follows(rest)
    ensures Literals(s + rest) == Literals(s) + Literals(rest)
    decreases |s|
  {
    if s == "" {
      Seqs.Whole(rest);
    } else {
      BiteThrough(s, rest);
      DropThrough(s, rest, Bite(s).1);
      LiteralsAdd(s[Bite(s).1..], rest);
    }
  }

  // ----- How many characters a token stands for -----

  lemma LiteralsOfRun(k: nat, rest: string)
    ensures Literals(Slashes(k) + ([QUOTE] + rest)) == k / 2 + k % 2 + Literals(rest)
  {
    var tail := [QUOTE] + rest;
    var s := Slashes(k) + tail;
    RunOf(k, tail);
    assert s[k] == tail[0] && s[k + 1..] == tail[1..] == rest;
  }

  lemma LiteralsOfSlashes(n: nat, s: string)
    requires s != "" && s[0] != SLASH && s[0] != QUOTE
    ensures Literals(Slashes(n) + s) == n + Literals(s)
  {
    var t := Slashes(n) + s;
    RunOf(n, s);
    assert t[n] == s[0] && t[n..] == s;
    if n == 0 { assert t == s; }
  }

  lemma LiteralsOfChar(c: char, rest: string)
    requires c != SLASH && c != QUOTE
    ensures Literals([c] + rest) == 1 + Literals(rest)
  {
    Seqs.TakeAppended([c], rest);
  }

  lemma EscapedSlashes(arg: string, end: string)
    requires Run(arg) == |arg|
    ensures EscapedTo(arg, end) == Slashes(2 * |arg|) + end
  {
    if arg == "" { Seqs.Whole(end); }
  }

  lemma LiteralsAtEnd(arg: string, rest: string)
    requires Run(arg) == |arg|
    ensures Literals(EscapedTo(arg, [QUOTE] + rest)) == |arg| + Literals(rest)
  {
    var n := |arg|;
    DivIs(2 * n, n, 0, 2);
    LiteralsOfRun(2 * n, rest);
    EscapedSlashes(arg, [QUOTE] + rest);
  }

  lemma LiteralsAtQuote(n: nat, more: string)
    ensures Literals(Slashes(2 * n) + ([SLASH, QUOTE] + more)) == n + 1 + Literals(more)
  {
    OneMoreSlash(2 * n, more);
    DivIs(2 * n + 1, n, 1, 2);
    LiteralsOfRun(2 * n + 1, more);
  }

  lemma LiteralsAtChar(n: nat, c: char, more: string)
    requires c != SLASH && c != QUOTE
    ensures Literals(Slashes(n) + ([c] + more)) == n + 1 + Literals(more)
  {
    LiteralsOfChar(c, more);
    LiteralsOfSlashes(n, [c] + more);
  }

  /** The escaped text stands for as many characters as the argument has. */
  lemma {:induction false} LiteralsOfEscaped(arg: string, rest: string)
    ensures Literals(EscapedTo(arg, [QUOTE] + rest)) == |arg| + Literals(rest)
    decreases |arg|
  {
    var end := [QUOTE] + rest;
    var n := Run(arg);
    if n == |arg| {
      LiteralsAtEnd(arg, rest);
    } else {
      var more := EscapedTo(arg[n + 1..], end);
      LiteralsOfEscaped(arg[n + 1..], rest);
      EscapedRun(arg, n, end);
      if arg[n] == QUOTE {
        EscapedQuote(arg, n, end);
        LiteralsAtQuote(n, more);
      } else {
        RunIs(arg);
        EscapedChar(arg, n, end);
        LiteralsAtChar(n, arg[n], more);
      }
    }
  }

  lemma {:induction false} LiteralsOfRaw(s: string)
    ensures Literals(s) <= |s|
    ensures QUOTE in s ==> Literals(s) < |s|
    decreases |s|
  {
    if s != "" {
      var n := Run(s);
      LiteralsOfRaw(s[Bite(s).1..]);
      if !(n < |s| && s[n] == QUOTE) { NoQuoteBefore(s, Bite(s).1); }
    }
  }

  lemma NoQuoteBefore(s: string, k: nat)
    requires 0 < k <= |s| && (k == Run(s) || (k == 1 && s[0] != QUOTE))
    ensures QUOTE in s ==> QUOTE in s[k..]
  {
    RunIs(s);
    Seqs.TakeAndDrop(s, k);
    assert QUOTE !in s[..k];
  }

  // ----- The whole string -----

  lemma LiteralsOfQuoted(arg: string, placeholders: bool)
    ensures Literals(Quoted(arg, placeholders)) <= |arg|
  {
    if Quotable(arg, placeholders) {
      var text := EscapedTo(arg, [QUOTE] + "");
      LiteralsOfEscaped(arg, "");
      LiteralsOfRun(0, text);
      assert Slashes(0) + ([QUOTE] + text) == [QUOTE] + text;
      QuotedIs(arg, "");
      assert [QUOTE] + Escaped(arg) + [QUOTE] + "" == Quoted(arg, placeholders);
    } else {
      LiteralsOfRaw(arg);
    }
  }

  /** A token stands for no more characters than the argument has, and for fewer if a switch's name has a quote. */
  lemma LiteralsOfToken(arg: string, parsing: bool, slash: bool, placeholders: bool)
    ensures Literals(Token(arg, parsing, slash, placeholders)) <= |arg|
    ensures !Nameable(arg, parsing, slash) ==> Literals(Token(arg, parsing, slash, placeholders)) < |arg|
  {
    if parsing && IsSwitch(slash, arg) {
      var name, value := SwitchName(arg), SwitchValue(arg);
      SwitchParts(arg);
      LiteralsOfRaw(name);
      if value == "" {
        Seqs.Whole(name);
      } else {
        LiteralsOfQuoted(value, placeholders);
        LiteralsOfChar('=', Quoted(value, placeholders));
        LiteralsAdd(name, "=" + Quoted(value, placeholders));
      }
    } else {
      LiteralsOfQuoted(arg, placeholders);
    }
  }

  lemma LiteralsOfJoin(before: string, token: string, first: bool)
    requires first ==> before == ""
    ensures
      Literals(before + (if first then "" else " ") + token)
      <= Literals(before) + (if first then 0 else 1) + Literals(token)
  {
    if first {
      Seqs.Whole(before);
      Seqs.Whole(token);
    } else {
      LiteralsOfChar(' ', token);
      LiteralsAdd(before, " " + token);
      Seqs.Associates(before, " ", token);
    }
  }

  lemma LiteralsOfNext(args: seq<string>, arg: string, parsing: bool, slash: bool, placeholders: bool)
    requires parsing == (TERMINATOR !in args && arg != TERMINATOR)
    ensures
      var more := Literals(ArgumentsString(args + [arg], slash, placeholders));
      var before := Literals(ArgumentsString(args, slash, placeholders)) + if args == [] then 0 else 1;
      more <= before + |arg| && (!Nameable(arg, parsing, slash) ==> more < before + |arg|)
  {
    LiteralsOfToken(arg, parsing, slash, placeholders);
    ArgumentsStep(args, arg, slash, placeholders);
    LiteralsOfJoin(ArgumentsString(args, slash, placeholders), Token(arg, parsing, slash, placeholders), args == []);
  }

  lemma SizeOfNext(args: seq<string>, arg: string)
    ensures Size(args + [arg]) == Size(args) + |arg| + 1
  {
    SizeAdds(args, [arg]);
    assert [arg][1..] == [];
  }

  lemma NoArguments(args: seq<string>, slash: bool, placeholders: bool)
    requires args == []
    ensures AllNameable(args, slash) && Size(args) == 0 && Literals(ArgumentsString(args, slash, placeholders)) == 0
  {
    assert Tokens(args, slash, placeholders) == [];
  }

  /** The string stands for at most the arguments and the separators between them, for less if a name has a quote. */
  ghost predicate Tight(args: seq<string>, literals: nat, slash: bool) {
    literals + 1 <= Size(args) && (!AllNameable(args, slash) ==> literals + 1 < Size(args))
  }

  lemma TightNext(args: seq<string>, arg: string, before: nat, more: nat, slash: bool)
    requires args == [] ==> before == 0
    requires args != [] ==> Tight(args, before, slash)
    requires
      var parsing := TERMINATOR !in args && arg != TERMINATOR;
      var most := before + (if args == [] then 0 else 1) + |arg|;
      more <= most && (!Nameable(arg, parsing, slash) ==> more < most)
    ensures Tight(args + [arg], more, slash)
  {
    SizeOfNext(args, arg);
    NameableNext(args, arg, slash);
    if args == [] { assert AllNameable(args, slash) && Size(args) == 0; }
  }

  lemma NameableNext(args: seq<string>, arg: string, slash: bool)
    ensures
      AllNameable(args + [arg], slash)
      <==> AllNameable(args, slash) && Nameable(arg, TERMINATOR !in args && arg != TERMINATOR, slash)
  {
    var all := args + [arg];
    assert all[..|all| - 1] == args && all[|all| - 1] == arg;
    assert TERMINATOR !in all <==> TERMINATOR !in args && arg != TERMINATOR;
  }

  lemma {:induction false} LiteralsOfArguments(args: seq<string>, slash: bool, placeholders: bool)
    requires args != []
    ensures Tight(args, Literals(ArgumentsString(args, slash, placeholders)), slash)
  {
    var n := |args| - 1;
    var init, arg := args[..n], args[n];
    Seqs.Snoc(args);
    if init == [] { NoArguments(init, slash, placeholders); } else { LiteralsOfArguments(init, slash, placeholders); }
    LiteralsOfNext(init, arg, TERMINATOR !in args, slash, placeholders);
    var before, after := ArgumentsString(init, slash, placeholders), ArgumentsString(args, slash, placeholders);
    TightNext(init, arg, Literals(before), Literals(after), slash);
  }

  /** A list in which a switch's name has a quote never comes back. */
  lemma QuotedNameIsLost(args: seq<string>, slash: bool, placeholders: bool)
    requires !AllNameable(args, slash)
    ensures Split(ArgumentsString(args, slash, placeholders)) != args
  {
    LiteralsOfArguments(args, slash, placeholders);
    ScanSize(ArgumentsString(args, slash, placeholders), None, false);
  }

  /**
   * The written command line splits back into exactly the arguments if and only if every one survives: it is not
   * empty, has no tab that is not inside quotes, and, for a switch, has no quote or blank in its name and no bare '='.
   */
  lemma RoundTripExactly(args: seq<string>, slash: bool, placeholders: bool)
    ensures
      Split(ArgumentsString(args, slash, placeholders)) == args
      <==> AllNameable(args, slash) && AllSurvive(args, slash, placeholders)
  {
    if AllNameable(args, slash) {
      NameableRoundTrip(args, slash, placeholders);
    } else {
      QuotedNameIsLost(args, slash, placeholders);
    }
  }

  lemma PlainSurvives(arg: string, parsing: bool, slash: bool, placeholders: bool)
    requires arg != "" && '\t' !in arg && (parsing ==> !IsSwitch(slash, arg))
    ensures Survives(arg, parsing, slash, placeholders) && Nameable(arg, parsing, slash)
  {
    if !Quotable(arg, placeholders) {
      forall k | 0 <= k < |arg| ensures !Blank(arg[k]) { assert arg[k] in arg; }
    }
  }

  /** In particular every list of non-empty, tab-free arguments that are not switches comes back, and behind the
      terminator every list of non-empty, tab-free arguments whatever they look like. */
  lemma {:induction false} PlainArgumentsRoundTrip(args: seq<string>, slash: bool, placeholders: bool)
    requires forall k | 0 <= k < |args| :: args[k] != "" && '\t' !in args[k]
    requires forall k | 0 <= k < |args| :: TERMINATOR in args[..k + 1] || !IsSwitch(slash, args[k])
    ensures AllNameable(args, slash) && AllSurvive(args, slash, placeholders)
    ensures Split(ArgumentsString(args, slash, placeholders)) == args
  {
    if args != [] {
      var n := |args| - 1;
      forall k | 0 <= k < n ensures TERMINATOR in args[..n][..k + 1] || !IsSwitch(slash, args[..n][k]) {
        assert args[..n][..k + 1] == args[..k + 1];
      }
      PlainArgumentsRoundTrip(args[..n], slash, placeholders);
      assert args[..n + 1] == args;
      PlainSurvives(args[n], TERMINATOR !in args, slash, placeholders);
    }
    RoundTripExactly(args, slash, placeholders);
  }
}
