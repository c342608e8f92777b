/** Command lines with placeholders: what is left of the arguments' boundaries when every '%' is replaced by a text. */
module WindowsPlaceholders {
  import opened CommandLineSwitches
  import opened WindowsCommandLine
  import opened WindowsFilling
  import opened WindowsQuoting
  import opened WindowsRoundTrip
  import opened Wrappers
  import Seqs

  // ----- What is quoted -----

  lemma {:induction false} EscapedNotShorter(s: string)
    ensures |Escaped(s)| >= |s|
    decreases |s|
  {
    if s != "" { EscapedNotShorter(s[Piece(s).1..]); }
  }

  /** An argument is written as it is if and only if it holds no space, backslash or quote and, where placeholders are
      to be replaced, no '%'. */
  lemma WrittenPlainExactly(arg: string, placeholders: bool)
    ensures
      Quoted(arg, placeholders) == arg
      <==> ' ' !in arg && SLASH !in arg && QUOTE !in arg && (placeholders ==> PERCENT !in arg)
  {
    EscapedNotShorter(arg);
  }

  // ----- One argument -----

  /** A text that brings no quote or backslash of its own; blanks may be in it. */
  predicate Filler(text: string) { QUOTE !in text && SLASH !in text }

  predicate Shielded(arg: string, text: string) { text != "" || !Exposed(arg) }

  function InQuotes(arg: string): string { [QUOTE] + Escaped(arg) + [QUOTE] }

  lemma InQuotesIs(arg: string)
    ensures InQuotes(arg) == [QUOTE] + EscapedTo(arg, [QUOTE])
  {
    EscapedToIs(arg, [QUOTE]);
    Seqs.Associates([QUOTE], Escaped(arg), [QUOTE]);
  }

  /** Replacing inside a quoted argument gives what quoting the replaced argument would have given. */
  lemma FilledInQuotes(arg: string, text: string)
    requires Filler(text) && Shielded(arg, text)
    ensures Filled(InQuotes(arg), text) == InQuotes(Filled(arg, text))
  {
    InQuotesIs(arg);
    InQuotesIs(Filled(arg, text));
    FilledFirst(QUOTE, EscapedTo(arg, [QUOTE]), text);
    FilledNone([QUOTE], text);
    if text != "" { TextFills(arg, [QUOTE], text); } else { NothingFills(arg, [QUOTE]); }
  }

  lemma SplitQuoted(arg: string)
    ensures Split(InQuotes(arg)) == [arg]
  {
    ScanQuoted(arg, None, "");
    Seqs.Whole(InQuotes(arg));
  }

  lemma SplitPlain(arg: string)
    requires !Quotable(arg, true)
    ensures Split(arg) == [arg] <==> arg != "" && NoBlank(arg)
  {
    ScanToken(arg, false, false, true, "");
    Seqs.Whole(arg);
    ReadingWeight(arg, false, false, true);
    FlushWeight(Some(arg));
  }

  lemma ExposedIsMisread(arg: string)
    requires Exposed(arg)
    ensures Split(Filled(InQuotes(arg), "")) != [Filled(arg, "")]
  {
    InQuotesIs(arg);
    FilledFirst(QUOTE, EscapedTo(arg, [QUOTE]), "");
    var token, expected := [QUOTE] + Inside(arg), Filled(arg, "");
    if QuoteExposed(arg) {
      InsideLiterals(arg);
      LiteralsOfRun(0, Inside(arg));
      assert Slashes(0) + token == token;
      ScanSize(token, None, false);
      assert [expected][1..] == [];
    } else {
      OpenQuote(None, Inside(arg));
      InsideMisread(arg, "");
      Seqs.Whole(expected);
    }
  }

  lemma NeedsQuotes(arg: string)
    ensures Quotable(arg, true) <==> ' ' in arg || SLASH in arg || QUOTE in arg || PERCENT in arg
    ensures !Quotable(arg, true) ==> (NoBlank(arg) <==> '\t' !in arg)
  {
    if !Quotable(arg, true) {
      assert forall k | 0 <= k < |arg| :: arg[k] in arg;
    }
  }

  lemma {:induction false} ExposedHasSlash(arg: string)
    requires Exposed(arg)
    ensures SLASH in arg
    decreases |arg|
  {
    if Ends(arg) && Broken(arg) { BrokenHasSlash(arg); } else { ExposedHasSlash(arg[Mixed(arg) + 1..]); }
  }

  lemma {:induction false} BrokenHasSlash(s: string)
    requires Broken(s)
    ensures SLASH in s
  {
    if s[0] == PERCENT { BrokenHasSlash(s[1..]); }
  }

  /**
   * An argument written with placeholders on, every '%' of it replaced by the same text, splits into one argument, the
   * original with the same replacement, if and only if it is not empty, has no tab unless it is quoted, and, where the
   * text is empty, has no backslash that taking out '%' brings up to a quote.
   */
  lemma FillsExactly(arg: string, text: string)
    requires Filler(text)
    ensures
      Split(Filled(Quoted(arg, true), text)) == [Filled(arg, text)]
      <==> && arg != ""
           && ('\t' in arg ==> ' ' in arg || SLASH in arg || QUOTE in arg || PERCENT in arg)
           && Shielded(arg, text)
  {
    NeedsQuotes(arg);
    if !Quotable(arg, true) {
      FilledNone(arg, text);
      SplitPlain(arg);
      if Exposed(arg) { ExposedHasSlash(arg); }
    } else if Shielded(arg, text) {
      FilledInQuotes(arg, text);
      SplitQuoted(Filled(arg, text));
    } else {
      ExposedIsMisread(arg);
    }
  }

  /** With nothing in its place, the '%' of `\%` no longer keeps the backslash from the closing quote. */
  lemma EmptyTextCanBreak(arg: string)
    requires arg == [SLASH, PERCENT]
    ensures Split(Filled(Quoted(arg, true), "")) != [Filled(arg, "")]
  {
    assert arg[1..] == [PERCENT] && [PERCENT][1..] == "";
    FillsExactly(arg, "");
  }

  // ----- The whole command line -----

  /** The argument survives, a switch has no '%' in its name, and what is quoted is shielded. */
  ghost predicate Fillable(arg: string, parsing: bool, slash: bool, text: string) {
    && Survives(arg, parsing, slash, true) && Nameable(arg, parsing, slash)
    && if parsing && IsSwitch(slash, arg) then PERCENT !in SwitchName(arg) && Shielded(SwitchValue(arg), text)
       else Shielded(arg, text)
  }

  ghost predicate AllFillable(args: seq<string>, slash: bool, text: string) {
    args != [] ==>
      && AllFillable(args[..|args| - 1], slash, text)
      && Fillable(args[|args| - 1], TERMINATOR !in args, slash, text)
  }

  function FilledEach(args: seq<string>, text: string): (fs: seq<string>)
    ensures |fs| == |args|
  {
    seq(|args|, k requires 0 <= k < |args| => Filled(args[k], text))
  }

  lemma QuotedFills(arg: string, text: string)
    requires Filler(text) && Shielded(arg, text)
    ensures Filled(Quoted(arg, true), text) == if Quotable(arg, true) then InQuotes(Filled(arg, text)) else arg
    ensures !Quotable(arg, true) ==> Filled(arg, text) == arg
  {
    if Quotable(arg, true) { FilledInQuotes(arg, text); } else { FilledNone(arg, text); }
  }

  lemma FilledSwitch(arg: string, slash: bool, text: string)
    requires Filler(text) && IsSwitch(slash, arg) && Fillable(arg, true, slash, text) && SwitchValue(arg) != ""
    ensures
      var name, value := SwitchName(arg), SwitchValue(arg);
      && Filled(arg, text) == name + ("=" + Filled(value, text))
      && Filled(Token(arg, true, slash, true), text) == name + ("=" + Filled(Quoted(value, true), text))
  {
    var name, value := SwitchName(arg), SwitchValue(arg);
    SwitchParts(arg);
    FilledBehind(name, "=" + value, text);
    FilledBehind("=", value, text);
    FilledBehind(name, "=" + Quoted(value, true), text);
    FilledBehind("=", Quoted(value, true), text);
  }

  lemma SwitchFills(arg: string, slash: bool, text: string, rest: string)
    requires Filler(text) && IsSwitch(slash, arg) && Fillable(arg, true, slash, text) && (rest == "" || rest[0] == ' ')
    ensures
      Scan(Filled(Token(arg, true, slash, true), text) + rest, None, false)
      == Scan(rest, Some(Filled(arg, text)), false)
  {
    var name, value := SwitchName(arg), SwitchValue(arg);
    SwitchParts(arg);
    SwitchNamed(slash, arg);
    FeedPlain(name, None);
    if value == "" {
      Seqs.Whole(name);
      FilledNone(name, text);
      ScanRaw(name, None, rest);
    } else {
      var put := Filled(value, text);
      FilledSwitch(arg, slash, text);
      QuotedFills(value, text);
      TokenText(name, Filled(Quoted(value, true), text), rest);
      AddAdds(Some(name), "=", put, "=" + put);
      if Quotable(value, true) {
        ScanQuotedValue(name, put, rest);
      } else {
        ScanRawValue(name, value, rest);
        BlankBehindEquals(value);
        FeedPlain("=" + value, Some(name));
      }
    }
  }

  lemma TokenFills(arg: string, parsing: bool, slash: bool, text: string, rest: string)
    requires Filler(text) && Fillable(arg, parsing, slash, text) && (rest == "" || rest[0] == ' ')
    ensures
      Scan(Filled(Token(arg, parsing, slash, true), text) + rest, None, false)
      == Scan(rest, Some(Filled(arg, text)), false)
  {
    if parsing && IsSwitch(slash, arg) {
      SwitchFills(arg, slash, text, rest);
    } else {
      QuotedFills(arg, text);
      if Quotable(arg, true) {
        ScanQuoted(Filled(arg, text), None, rest);
      } else {
        ScanRaw(arg, None, rest);
        FeedPlain(arg, None);
      }
    }
  }

  lemma {:induction false} FilledJoin(tokens: seq<string>, text: string)
    ensures Filled(Join(tokens), text) == Join(FilledEach(tokens, text))
  {
    if tokens != [] {
      var n := |tokens| - 1;
      var init, sep := Join(tokens[..n]), if n > 0 then " " else "";
      FilledJoin(tokens[..n], text);
      FilledAppend(init + sep, tokens[n], text);
      FilledAppend(init, sep, text);
      FilledNone(sep, text);
      assert FilledEach(tokens, text)[..n] == FilledEach(tokens[..n], text);
    }
  }

  function Wholes(args: seq<string>): (rs: seq<(seq<string>, Option<string>)>)
    ensures |rs| == |args|
  {
    seq(|args|, k requires 0 <= k < |args| => ([], Some(args[k])))
  }

  lemma WholesStep(args: seq<string>)
    requires args != []
    ensures var n := |args| - 1; Wholes(args)[..n] == Wholes(args[..n]) && Wholes(args)[n] == ([], Some(args[n]))
  {
  }

  lemma {:induction false} WholesArePieces(args: seq<string>)
    ensures Pieces(Wholes(args)) == args
  {
    if args != [] {
      WholesArePieces(args[..|args| - 1]);
      WholesStep(args);
      Seqs.Snoc(args);
    }
  }

  lemma TokenReadsTo(arg: string, parsing: bool, slash: bool, text: string)
    requires Filler(text) && Fillable(arg, parsing, slash, text)
    ensures ReadsTo(Filled(Token(arg, parsing, slash, true), text), ([], Some(Filled(arg, text))))
  {
    var token, put := Filled(Token(arg, parsing, slash, true), text), Filled(arg, text);
    forall rest | rest == "" || rest[0] == ' '
      ensures Scan(token + rest, None, false) == [] + Scan(rest, Some(put), false)
    {
      TokenFills(arg, parsing, slash, text, rest);
      Seqs.Whole(Scan(rest, Some(put), false));
    }
  }

  lemma {:induction false} TokenAt(args: seq<string>, slash: bool, placeholders: bool, k: nat)
    requires k < |args|
    ensures Tokens(args, slash, placeholders)[k] == Token(args[k], TERMINATOR !in args[..k + 1], slash, placeholders)
  {
    var n := |args| - 1;
    var init, last := args[..n], args[n];
    Seqs.Snoc(args);
    TokensStep(init, last, slash, placeholders);
    if k < n {
      TokenAt(init, slash, placeholders, k);
      assert init[..k + 1] == args[..k + 1];
    } else {
      Seqs.Whole(args);
      assert TERMINATOR !in args <==> TERMINATOR !in init && last != TERMINATOR;
    }
  }

  lemma FillableInit(args: seq<string>, slash: bool, text: string)
    requires args != [] && AllFillable(args, slash, text)
    ensures AllFillable(args[..|args| - 1], slash, text)
    ensures Fillable(args[|args| - 1], TERMINATOR !in args, slash, text)
  {
  }

  lemma {:induction false} FillableAt(args: seq<string>, slash: bool, text: string, k: nat)
    requires AllFillable(args, slash, text) && k < |args|
    ensures Fillable(args[k], TERMINATOR !in args[..k + 1], slash, text)
  {
    var n := |args| - 1;
    FillableInit(args, slash, text);
    if k < n {
      FillableAt(args[..n], slash, text, k);
      assert args[..n][..k + 1] == args[..k + 1];
    } else {
      Seqs.Whole(args);
    }
  }

  lemma AllTokensFill(args: seq<string>, slash: bool, text: string, k: nat)
    requires Filler(text) && AllFillable(args, slash, text) && k < |args|
    ensures ReadsTo(Filled(Tokens(args, slash, true)[k], text), ([], Some(Filled(args[k], text))))
  {
    TokenAt(args, slash, true, k);
    FillableAt(args, slash, text, k);
    TokenReadsTo(args[k], TERMINATOR !in args[..k + 1], slash, text);
  }

  /** A command line with placeholders, every '%' replaced, still has the same arguments, each with its replacement. */
  lemma CommandLineFills(args: seq<string>, slash: bool, text: string)
    requires Filler(text) && AllFillable(args, slash, text)
    ensures Split(Filled(ArgumentsString(args, slash, true), text)) == FilledEach(args, text)
  {
    var tokens := Tokens(args, slash, true);
    FilledJoin(tokens, text);
    if args != [] {
      var ts, fs := FilledEach(tokens, text), FilledEach(args, text);
      forall k | 0 <= k < |fs| ensures ReadsTo(ts[k], ([], Some(fs[k]))) { AllTokensFill(args, slash, text, k); }
      SplitWholes(ts, fs);
    }
  }

  lemma LastWhole(before: seq<string>, last: string)
    ensures before + ([] + Scan("", Some(last), false)) == before + [last]
  {
  }

  lemma SplitWholes(ts: seq<string>, args: seq<string>)
    requires |ts| == |args| > 0 && forall k | 0 <= k < |args| :: ReadsTo(ts[k], ([], Some(args[k])))
    ensures Split(Join(ts)) == args
  {
    var n, rs := |args| - 1, Wholes(args);
    forall k | 0 <= k < |rs| ensures ReadsTo(ts[k], rs[k]) { assert rs[k] == ([], Some(args[k])); }
    ScanJoined(ts, rs, "");
    Seqs.Whole(Join(ts));
    WholesStep(args);
    WholesArePieces(args[..n]);
    LastWhole(args[..n], args[n]);
    Seqs.Snoc(args);
  }
}
