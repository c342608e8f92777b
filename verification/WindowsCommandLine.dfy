/** The Windows command-line string, and exactly which argument lists survive being split again. */
module WindowsCommandLine {
  import opened CommandLineSwitches
  import opened WindowsQuoting
  import opened Wrappers
  import Seqs

  /** How one argument is written; `parsing` is false from the terminator on, `slash` says whether this process takes
      the slash for a switch prefix. */
  function Token(arg: string, parsing: bool, slash: bool, placeholders: bool): string {
    if parsing && IsSwitch(slash, arg) then
      SwitchName(arg) + if SwitchValue(arg) == "" then "" else "=" + Quoted(SwitchValue(arg), placeholders)
    else Quoted(arg, placeholders)
  }

  function Tokens(args: seq<string>, slash: bool, placeholders: bool): (ts: seq<string>)
    ensures |ts| == |args|
  {
    if args == [] then []
    else
      var n := |args| - 1;
      Tokens(args[..n], slash, placeholders) + [Token(args[n], TERMINATOR !in args, slash, placeholders)]
  }

  /** Separated by spaces. */
  function Join(tokens: seq<string>): string {
    if tokens == [] then ""
    else
      var n := |tokens| - 1;
      Join(tokens[..n]) + (if n > 0 then " " else "") + tokens[n]
  }

  function ArgumentsString(args: seq<string>, slash: bool, placeholders: bool): string {
    Join(Tokens(args, slash, placeholders))
  }

  /** The loop's body: one argument's text. */
  method WriteToken(arg: string, parsing: bool, slash: bool, placeholders: bool) returns (text: string)
    ensures text == Token(arg, parsing, slash, placeholders)
  {
    if parsing && IsSwitch(slash, arg) {
      text := SwitchName(arg);
      if SwitchValue(arg) != "" {
        var value := Quote(SwitchValue(arg), placeholders);
        text := text + ("=" + value);
      }
    } else {
      text := Quote(arg, placeholders);
    }
  }

  function Followed(params: string, space: bool, text: string): string {
    if space then params + " " + text else params + text
  }

  lemma JoinStep(tokens: seq<string>, text: string)
    ensures Join(tokens + [text]) == Followed(Join(tokens), tokens != [], text)
  {
    Seqs.TakeAppended(tokens, [text]);
    if tokens == [] { Seqs.Whole(Join(tokens)); }
  }

  lemma TokensStep(args: seq<string>, arg: string, slash: bool, placeholders: bool)
    ensures Tokens(args + [arg], slash, placeholders)
         == Tokens(args, slash, placeholders)
            + [Token(arg, TERMINATOR !in args && arg != TERMINATOR, slash, placeholders)]
  {
    Seqs.TakeAppended(args, [arg]);
  }

  lemma ArgumentsStep(args: seq<string>, arg: string, slash: bool, placeholders: bool)
    ensures ArgumentsString(args + [arg], slash, placeholders)
         == Followed(ArgumentsString(args, slash, placeholders), args != [],
                     Token(arg, TERMINATOR !in args && arg != TERMINATOR, slash, placeholders))
  {
    TokensStep(args, arg, slash, placeholders);
    var parsing := TERMINATOR !in args && arg != TERMINATOR;
    JoinStep(Tokens(args, slash, placeholders), Token(arg, parsing, slash, placeholders));
  }

  /** GetArgumentsStringInternal. */
  method GetArgumentsString(argv: seq<string>, slash: bool, placeholders: bool) returns (params: string)
    requires argv != []
    ensures params == ArgumentsString(argv[1..], slash, placeholders)
  {
    params := "";
    var parsing := true;
    ghost var args := argv[1..];
    ghost var done := args[..0];
    var i := 1;
    while i < |argv|
      invariant 1 <= i <= |argv| && done == args[..i - 1]
      invariant parsing == (TERMINATOR !in done)
      invariant params == ArgumentsString(done, slash, placeholders)
    {
      Seqs.TakeSnoc(args, i - 1);
      ArgumentsStep(done, argv[i], slash, placeholders);
      parsing := parsing && argv[i] != TERMINATOR;
      if i > 1 { params := params + " "; }
      var text := WriteToken(argv[i], parsing, slash, placeholders);
      params := params + text;
      done := done + [argv[i]];
      i := i + 1;
    }
    Seqs.Whole(args);
  }

  // ----- Scanning unquoted text -----

  /** What unquoted text is read as: finished arguments and the one being read. */
  function Feed(raw: string, cur: Option<string>): (seq<string>, Option<string>) {
    if raw == "" then ([], cur)
    else if Blank(raw[0]) then
      var r := Feed(raw[1..], None);
      (Flush(cur) + r.0, r.1)
    else Feed(raw[1..], Add(cur, [raw[0]]))
  }

  lemma ScanRun(s: string, n: nat, cur: Option<string>)
    requires 0 < n == Run(s) && (n < |s| ==> s[n] != QUOTE)
    ensures Scan(s, cur, false) == Scan(s[n..], Add(cur, Slashes(n)), false)
  {
  }

  lemma AddSlash(cur: Option<string>, n: nat)
    requires n > 0
    ensures Add(Add(cur, [SLASH]), Slashes(n - 1)) == Add(cur, Slashes(n))
  {
    assert [SLASH] + Slashes(n - 1) == Slashes(n);
    if cur.Some? { Regroup(cur.value, [SLASH], Slashes(n - 1), Slashes(n)); }
  }

  lemma SlashIsPlain(s: string, cur: Option<string>)
    requires s != "" && s[0] == SLASH && (Run(s) < |s| ==> s[Run(s)] != QUOTE)
    ensures Scan(s, cur, false) == Scan(s[1..], Add(cur, [SLASH]), false)
  {
    var n := Run(s);
    ScanRun(s, n, cur);
    if n == 1 {
      assert Slashes(1) == [SLASH];
    } else {
      assert s[1..][n - 1..] == s[n..];
      ScanRun(s[1..], n - 1, Add(cur, [SLASH]));
      AddSlash(cur, n);
    }
  }

  lemma {:induction false} RunInRaw(raw: string, rest: string)
    requires QUOTE !in raw && (rest == "" || (rest[0] != QUOTE && rest[0] != SLASH))
    ensures var s := raw + rest; Run(s) < |s| ==> s[Run(s)] != QUOTE
  {
    var s := raw + rest;
    if raw != "" && raw[0] == SLASH {
      assert s[1..] == raw[1..] + rest;
      RunInRaw(raw[1..], rest);
    } else if raw == "" {
      assert s == rest;
    }
  }

  lemma RawChar(c: char, raw: string, rest: string, cur: Option<string>)
    requires c != QUOTE && !Blank(c) && QUOTE !in raw && (rest == "" || (rest[0] != QUOTE && rest[0] != SLASH))
    ensures Scan([c] + (raw + rest), cur, false) == Scan(raw + rest, Add(cur, [c]), false)
  {
    if c == SLASH {
      var s := [c] + raw;
      assert [c] + (raw + rest) == s + rest && (s + rest)[1..] == raw + rest;
      RunInRaw(s, rest);
      SlashIsPlain(s + rest, cur);
    } else {
      PlainChar(c, raw + rest, cur, false);
    }
  }

  lemma BlankChar(c: char, rest: string, cur: Option<string>)
    requires Blank(c)
    ensures Scan([c] + rest, cur, false) == Flush(cur) + Scan(rest, None, false)
  {
    assert ([c] + rest)[1..] == rest;
  }

  lemma HeadFirst(raw: string, rest: string)
    requires raw != ""
    ensures raw + rest == [raw[0]] + (raw[1..] + rest)
  {
    assert raw == [raw[0]] + raw[1..];
    Regroup([raw[0]], raw[1..], rest, raw[1..] + rest);
  }

  lemma {:induction false} ScanRaw(raw: string, cur: Option<string>, rest: string)
    requires QUOTE !in raw && (rest == "" || (rest[0] != QUOTE && rest[0] != SLASH))
    ensures Scan(raw + rest, cur, false) == Feed(raw, cur).0 + Scan(rest, Feed(raw, cur).1, false)
  {
    if raw == "" {
      assert raw + rest == rest;
    } else {
      var c, more := raw[0], raw[1..];
      HeadFirst(raw, rest);
      if Blank(c) {
        BlankChar(c, more + rest, cur);
        ScanRaw(more, None, rest);
        var f := Feed(more, None);
        Seqs.Associates(Flush(cur), f.0, Scan(rest, f.1, false));
      } else {
        RawChar(c, more, rest, cur);
        ScanRaw(more, Add(cur, [c]), rest);
      }
    }
  }

  // ----- Scanning a token -----

  lemma AddAdds(cur: Option<string>, a: string, b: string, c: string)
    requires a + b == c
    ensures Add(Add(cur, a), b) == Add(cur, c)
  {
    if cur.Some? { Regroup(cur.value, a, b, c); }
  }

  lemma OpenQuote(cur: Option<string>, rest: string)
    ensures Scan([QUOTE] + rest, cur, false) == Scan(rest, Add(cur, ""), true)
  {
    var s := [QUOTE] + rest;
    assert Run(s) == 0 && s[1..] == rest && Slashes(0) == "";
  }

  lemma QuotedIs(arg: string, rest: string)
    ensures [QUOTE] + Escaped(arg) + [QUOTE] + rest == [QUOTE] + EscapedTo(arg, [QUOTE] + rest)
  {
    EscapedToIs(arg, [QUOTE] + rest);
  }

  lemma ScanQuoted(arg: string, cur: Option<string>, rest: string)
    ensures Scan([QUOTE] + Escaped(arg) + [QUOTE] + rest, cur, false) == Scan(rest, Add(cur, arg), false)
  {
    QuotedIs(arg, rest);
    OpenQuote(cur, EscapedTo(arg, [QUOTE] + rest));
    EscapedReadsBack(arg, Add(cur, "").value, rest);
    AddAdds(cur, "", arg, arg);
  }

  function Reading(arg: string, parsing: bool, slash: bool, placeholders: bool): (seq<string>, Option<string>) {
    if parsing && IsSwitch(slash, arg) then
      var name := Feed(SwitchName(arg), None);
      if SwitchValue(arg) == "" then name
      else if Quotable(SwitchValue(arg), placeholders) then (name.0, Add(Add(name.1, "="), SwitchValue(arg)))
      else
        var value := Feed("=" + SwitchValue(arg), name.1);
        (name.0 + value.0, value.1)
    else if Quotable(arg, placeholders) then ([], Some(arg))
    else Feed(arg, None)
  }

  /** A switch name with a quote in it is written as it is and changes how everything after it is read. */
  predicate Nameable(arg: string, parsing: bool, slash: bool) {
    parsing && IsSwitch(slash, arg) ==> QUOTE !in SwitchName(arg)
  }

  lemma ScanQuotedValue(name: string, value: string, rest: string)
    requires QUOTE !in name
    ensures
      var f := Feed(name, None);
      Scan(name + ("=" + ([QUOTE] + Escaped(value) + [QUOTE] + rest)), None, false)
      == f.0 + Scan(rest, Add(Add(f.1, "="), value), false)
  {
    var f := Feed(name, None);
    var q := [QUOTE] + Escaped(value) + [QUOTE] + rest;
    ScanRaw(name, None, "=" + q);
    PlainChar('=', q, f.1, false);
    ScanQuoted(value, Add(f.1, "="), rest);
  }

  lemma ScanRawValue(name: string, value: string, rest: string)
    requires QUOTE !in name && QUOTE !in value && (rest == "" || rest[0] == ' ')
    ensures
      var f := Feed(name, None);
      var g := Feed("=" + value, f.1);
      Scan(name + ("=" + (value + rest)), None, false) == f.0 + g.0 + Scan(rest, g.1, false)
  {
    var f := Feed(name, None);
    var g := Feed("=" + value, f.1);
    Seqs.Associates("=", value, rest);
    ScanRaw(name, None, "=" + (value + rest));
    ScanRaw("=" + value, f.1, rest);
    Seqs.Associates(f.0, g.0, Scan(rest, g.1, false));
  }

  lemma TokenText(name: string, text: string, rest: string)
    ensures name + ("=" + text) + rest == name + ("=" + (text + rest))
  {
  }

  lemma ScanSwitch(arg: string, slash: bool, placeholders: bool, rest: string)
    requires IsSwitch(slash, arg) && Nameable(arg, true, slash) && (rest == "" || rest[0] == ' ')
    ensures
      var r := Reading(arg, true, slash, placeholders);
      Scan(Token(arg, true, slash, placeholders) + rest, None, false) == r.0 + Scan(rest, r.1, false)
  {
    var name, value := SwitchName(arg), SwitchValue(arg);
    if value == "" {
      ScanRaw(name, None, rest);
      assert name + "" == name;
    } else {
      TokenText(name, Quoted(value, placeholders), rest);
      if Quotable(value, placeholders) {
        ScanQuotedValue(name, value, rest);
      } else {
        ScanRawValue(name, value, rest);
      }
    }
  }

  /** A token is read the same way whatever follows it. */
  lemma ScanToken(arg: string, parsing: bool, slash: bool, placeholders: bool, rest: string)
    requires Nameable(arg, parsing, slash) && (rest == "" || rest[0] == ' ')
    ensures
      var r := Reading(arg, parsing, slash, placeholders);
      Scan(Token(arg, parsing, slash, placeholders) + rest, None, false) == r.0 + Scan(rest, r.1, false)
  {
    if parsing && IsSwitch(slash, arg) {
      ScanSwitch(arg, slash, placeholders, rest);
    } else if Quotable(arg, placeholders) {
      ScanQuoted(arg, None, rest);
    } else {
      ScanRaw(arg, None, rest);
    }
  }

  // ----- The whole string -----

  function Readings(args: seq<string>, slash: bool, placeholders: bool): (rs: seq<(seq<string>, Option<string>)>)
    ensures |rs| == |args|
  {
    if args == [] then []
    else
      var n := |args| - 1;
      Readings(args[..n], slash, placeholders) + [Reading(args[n], TERMINATOR !in args, slash, placeholders)]
  }

  function Pieces(rs: seq<(seq<string>, Option<string>)>): seq<string> {
    if rs == [] then [] else Pieces(rs[..|rs| - 1]) + (rs[|rs| - 1].0 + Flush(rs[|rs| - 1].1))
  }

  /** No switch name contains a quote. */
  ghost predicate AllNameable(args: seq<string>, slash: bool) {
    args != [] ==> AllNameable(args[..|args| - 1], slash) && Nameable(args[|args| - 1], TERMINATOR !in args, slash)
  }

  ghost predicate ReadsTo(token: string, r: (seq<string>, Option<string>)) {
    forall rest | rest == "" || rest[0] == ' ' :: Scan(token + rest, None, false) == r.0 + Scan(rest, r.1, false)
  }

  lemma Spaced(before: string, token: string, rest: string)
    ensures before + " " + token + rest == before + ([' '] + (token + rest))
  {
  }

  lemma Spliced(a: seq<string>, b: seq<string>, c: seq<string>, d: seq<string>)
    ensures a + (b + (c + d)) == a + (b + c) + d
  {
  }

  lemma ScanNext(
    before: string, token: string, rest: string,
    done: seq<string>, q: (seq<string>, Option<string>), last: seq<string>
  )
    requires Scan(before + ([' '] + (token + rest)), None, false)
          == done + (q.0 + Scan([' '] + (token + rest), q.1, false))
    requires Scan(token + rest, None, false) == last
    ensures Scan(before + " " + token + rest, None, false) == done + (q.0 + Flush(q.1)) + last
  {
    Spaced(before, token, rest);
    BlankChar(' ', token + rest, q.1);
    Spliced(done, q.0, Flush(q.1), last);
  }

  lemma {:induction false} ScanJoined(tokens: seq<string>, rs: seq<(seq<string>, Option<string>)>, rest: string)
    requires |tokens| == |rs| > 0 && (rest == "" || rest[0] == ' ')
    requires forall k | 0 <= k < |rs| :: ReadsTo(tokens[k], rs[k])
    ensures
      var n := |rs| - 1;
      Scan(Join(tokens) + rest, None, false) == Pieces(rs[..n]) + (rs[n].0 + Scan(rest, rs[n].1, false))
  {
    var n := |rs| - 1;
    assert ReadsTo(tokens[n], rs[n]);
    if n == 0 {
      assert Join(tokens) == tokens[0] by { assert tokens[..0] == []; }
    } else {
      ScanJoined(tokens[..n], rs[..n], [' '] + (tokens[n] + rest));
      ScanNext(Join(tokens[..n]), tokens[n], rest, Pieces(rs[..n][..n - 1]), rs[n - 1],
               rs[n].0 + Scan(rest, rs[n].1, false));
    }
  }

  lemma {:induction false} AllReadTo(args: seq<string>, slash: bool, placeholders: bool, k: nat)
    requires AllNameable(args, slash) && k < |args|
    ensures ReadsTo(Tokens(args, slash, placeholders)[k], Readings(args, slash, placeholders)[k])
  {
    var n := |args| - 1;
    if k < n {
      AllReadTo(args[..n], slash, placeholders, k);
    } else {
      var parsing := TERMINATOR !in args;
      forall rest | rest == "" || rest[0] == ' '
        ensures var r := Reading(args[n], parsing, slash, placeholders);
                Scan(Token(args[n], parsing, slash, placeholders) + rest, None, false) == r.0 + Scan(rest, r.1, false)
      {
        ScanToken(args[n], parsing, slash, placeholders, rest);
      }
    }
  }

  /** Splitting the string yields each argument's own reading, in order. */
  lemma SplitIsPieces(args: seq<string>, slash: bool, placeholders: bool)
    requires AllNameable(args, slash)
    ensures Split(ArgumentsString(args, slash, placeholders)) == Pieces(Readings(args, slash, placeholders))
  {
    if args != [] {
      var ts, rs := Tokens(args, slash, placeholders), Readings(args, slash, placeholders);
      forall k | 0 <= k < |args| ensures ReadsTo(ts[k], rs[k]) { AllReadTo(args, slash, placeholders, k); }
      ScanJoined(ts, rs, "");
      assert Join(ts) + "" == Join(ts);
    }
  }

  // ----- Which arguments come back -----

  ghost predicate NoBlank(s: string) { forall k | 0 <= k < |s| :: !Blank(s[k]) }

  /** What a caller can check: the argument's own text is what splitting will return. */
  ghost predicate Survives(arg: string, parsing: bool, slash: bool, placeholders: bool) {
    if parsing && IsSwitch(slash, arg) then
      && NoBlank(SwitchName(arg))
      && ('=' in arg ==> SwitchValue(arg) != "")
      && (Quotable(SwitchValue(arg), placeholders) || NoBlank(SwitchValue(arg)))
    else
      arg != "" && (Quotable(arg, placeholders) || NoBlank(arg))
  }

  /** Each argument weighs two per character and one more. */
  function Weight(args: seq<string>): nat {
    if args == [] then 0 else Weight(args[..|args| - 1]) + 2 * |args[|args| - 1]| + 1
  }

  lemma {:induction false} WeightAdds(a: seq<string>, b: seq<string>)
    ensures Weight(a + b) == Weight(a) + Weight(b)
  {
    if b == [] {
      assert a + b == a;
    } else {
      WeightAdds(a, b[..|b| - 1]);
      assert (a + b)[..|a + b| - 1] == a + b[..|b| - 1];
    }
  }

  /** An argument not yet begun weighs as much as an empty one. */
  function Potential(r: (seq<string>, Option<string>)): nat {
    Weight(r.0) + if r.1.None? then 1 else 2 * |r.1.value| + 1
  }

  lemma FlushWeight(cur: Option<string>)
    ensures Weight(Flush(cur)) == if cur.None? then 0 else 2 * |cur.value| + 1
  {
    if cur.Some? { assert [cur.value][..0] == []; }
  }

  lemma {:induction false} FeedPotential(raw: string, cur: Option<string>)
    ensures Potential(Feed(raw, cur)) <= 2 * |raw| + Potential(([], cur))
    ensures !NoBlank(raw) ==> Potential(Feed(raw, cur)) < 2 * |raw| + Potential(([], cur))
  {
    if raw != "" {
      var c, more := raw[0], raw[1..];
      assert raw == [c] + more;
      if Blank(c) {
        FeedPotential(more, None);
        WeightAdds(Flush(cur), Feed(more, None).0);
        FlushWeight(cur);
      } else {
        FeedPotential(more, Add(cur, [c]));
      }
    }
  }

  lemma {:induction false} FeedPlain(raw: string, cur: Option<string>)
    requires NoBlank(raw)
    ensures Feed(raw, cur) == ([], if raw == "" then cur else Add(cur, raw))
  {
    if raw != "" {
      var c, more := raw[0], raw[1..];
      FeedPlain(more, Add(cur, [c]));
      AddAdds(cur, [c], more, raw);
      assert more == "" ==> raw == [c];
    }
  }

  lemma ValueSurvives(name: string, value: string, arg: string, placeholders: bool)
    requires arg == name + ("=" + value) && (Quotable(value, placeholders) || NoBlank(value))
    ensures Add(Add(Some(name), "="), value) == Some(arg)
    ensures !Quotable(value, placeholders) ==> Feed("=" + value, Some(name)) == ([], Some(arg))
  {
    AddAdds(Some(name), "=", value, "=" + value);
    if !Quotable(value, placeholders) {
      BlankBehindEquals(value);
      FeedPlain("=" + value, Some(name));
    }
  }

  lemma SwitchSurvives(arg: string, slash: bool, placeholders: bool)
    requires IsSwitch(slash, arg) && Survives(arg, true, slash, placeholders)
    ensures Reading(arg, true, slash, placeholders) == ([], Some(arg))
  {
    var name, value := SwitchName(arg), SwitchValue(arg);
    SwitchParts(arg);
    SwitchNamed(slash, arg);
    FeedPlain(name, None);
    var none: seq<string> := [];
    assert none + none == none;
    if value != "" { ValueSurvives(name, value, arg, placeholders); }
  }

  lemma ReadingSurvives(arg: string, parsing: bool, slash: bool, placeholders: bool)
    requires Survives(arg, parsing, slash, placeholders)
    ensures Reading(arg, parsing, slash, placeholders) == ([], Some(arg))
  {
    if parsing && IsSwitch(slash, arg) {
      SwitchSurvives(arg, slash, placeholders);
    } else if !Quotable(arg, placeholders) {
      FeedPlain(arg, None);
    }
  }

  lemma SwitchLoses(arg: string, slash: bool, placeholders: bool)
    requires IsSwitch(slash, arg) && !Survives(arg, true, slash, placeholders)
    ensures Potential(Reading(arg, true, slash, placeholders)) < 2 * |arg| + 1
  {
    var name, value := SwitchName(arg), SwitchValue(arg);
    SwitchParts(arg);
    FeedPotential(name, None);
    if value != "" && !Quotable(value, placeholders) {
      var f := Feed(name, None);
      var g := Feed("=" + value, f.1);
      FeedPotential("=" + value, f.1);
      WeightAdds(f.0, g.0);
      BlankBehindEquals(value);
    }
  }

  lemma BlankBehindEquals(value: string)
    ensures NoBlank("=" + value) <==> NoBlank(value)
  {
    var s := "=" + value;
    assert forall k | 0 <= k < |value| :: s[k + 1] == value[k];
    assert forall k | 1 <= k < |s| :: s[k] == value[k - 1];
  }

  /** An argument that does not survive comes back lighter. */
  lemma ReadingLoses(arg: string, parsing: bool, slash: bool, placeholders: bool)
    requires !Survives(arg, parsing, slash, placeholders)
    ensures var r := Reading(arg, parsing, slash, placeholders); Weight(r.0 + Flush(r.1)) < 2 * |arg| + 1
  {
    var r := Reading(arg, parsing, slash, placeholders);
    WeightAdds(r.0, Flush(r.1));
    FlushWeight(r.1);
    if parsing && IsSwitch(slash, arg) {
      SwitchLoses(arg, slash, placeholders);
    } else {
      FeedPotential(arg, None);
    }
  }

  ghost predicate AllSurvive(args: seq<string>, slash: bool, placeholders: bool) {
    args != [] ==>
      && AllSurvive(args[..|args| - 1], slash, placeholders)
      && Survives(args[|args| - 1], TERMINATOR !in args, slash, placeholders)
  }

  lemma ReadingWeight(arg: string, parsing: bool, slash: bool, placeholders: bool)
    ensures
      var r := Reading(arg, parsing, slash, placeholders);
      var pieces := r.0 + Flush(r.1);
      if Survives(arg, parsing, slash, placeholders) then pieces == [arg] else Weight(pieces) < 2 * |arg| + 1
  {
    if Survives(arg, parsing, slash, placeholders) {
      ReadingSurvives(arg, parsing, slash, placeholders);
    } else {
      ReadingLoses(arg, parsing, slash, placeholders);
    }
  }

  lemma JoinedWeight(front: seq<string>, pieces: seq<string>, init: seq<string>, arg: string)
    requires front == init || Weight(front) < Weight(init)
    requires pieces == [arg] || Weight(pieces) < 2 * |arg| + 1
    ensures (front == init && pieces == [arg]) || Weight(front + pieces) < Weight(init + [arg])
    ensures
      Weight(front) < Weight(init) || Weight(pieces) < 2 * |arg| + 1 ==>
        Weight(front + pieces) < Weight(init + [arg])
  {
    WeightAdds(front, pieces);
    WeightAdds(init, [arg]);
    FlushWeight(Some(arg));
  }

  lemma PiecesStep(rs: seq<(seq<string>, Option<string>)>, r: (seq<string>, Option<string>), pieces: seq<string>)
    requires pieces == r.0 + Flush(r.1)
    ensures Pieces(rs + [r]) == Pieces(rs) + pieces
  {
    assert (rs + [r])[..|rs|] == rs;
  }

  lemma {:induction false} PiecesWeight(args: seq<string>, slash: bool, placeholders: bool)
    ensures
      if AllSurvive(args, slash, placeholders) then Pieces(Readings(args, slash, placeholders)) == args
      else Weight(Pieces(Readings(args, slash, placeholders))) < Weight(args)
  {
    if args != [] {
      var n := |args| - 1;
      var init, last, parsing := args[..n], args[n], TERMINATOR !in args;
      assert args == init + [last];
      var r, rs := Reading(last, parsing, slash, placeholders), Readings(init, slash, placeholders);
      var pieces := r.0 + Flush(r.1);
      PiecesWeight(init, slash, placeholders);
      ReadingWeight(last, parsing, slash, placeholders);
      PiecesStep(rs, r, pieces);
      JoinedWeight(Pieces(rs), pieces, init, last);
    }
  }

  lemma NameableRoundTrip(args: seq<string>, slash: bool, placeholders: bool)
    requires AllNameable(args, slash)
    ensures Split(ArgumentsString(args, slash, placeholders)) == args <==> AllSurvive(args, slash, placeholders)
  {
    SplitIsPieces(args, slash, placeholders);
    PiecesWeight(args, slash, placeholders);
  }
}
