/** Replacing every '%' in an escaped argument: when that is the same as escaping the replaced argument, and what goes
    wrong when it is not. */
module WindowsFilling {
  import opened Arithmetic
  import opened WindowsCommandLine
  import opened WindowsQuoting
  import opened WindowsRoundTrip
  import opened Wrappers
  import Seqs

  const PERCENT: char := '%'

  // ----- Replacing -----

  /** Every '%' replaced by the text. */
  function Filled(s: string, text: string): string {
    if s == "" then "" else (if s[0] == PERCENT then text else [s[0]]) + Filled(s[1..], text)
  }

  lemma {:induction false} FilledAppend(a: string, b: string, text: string)
    ensures Filled(a + b, text) == Filled(a, text) + Filled(b, text)
  {
    if a == "" {
      Seqs.Whole(b);
      Seqs.Whole(Filled(b, text));
    } else {
      HeadFirst(a, b);
      Seqs.TakeAppended([a[0]], a[1..] + b);
      FilledAppend(a[1..], b, text);
      Seqs.Associates(if a[0] == PERCENT then text else [a[0]], Filled(a[1..], text), Filled(b, text));
    }
  }

  lemma {:induction false} FilledNone(s: string, text: string)
    requires PERCENT !in s
    ensures Filled(s, text) == s
  {
    if s != "" {
      FilledNone(s[1..], text);
      Seqs.Cons(s);
    }
  }

  lemma FilledFirst(c: char, s: string, text: string)
    ensures Filled([c] + s, text) == (if c == PERCENT then text else [c]) + Filled(s, text)
  {
    Seqs.TakeAppended([c], s);
  }

  lemma FilledBehind(a: string, b: string, text: string)
    requires PERCENT !in a
    ensures Filled(a + b, text) == a + Filled(b, text)
  {
    FilledAppend(a, b, text);
    FilledNone(a, text);
  }

  // ----- A text that is not empty -----

  lemma {:induction false} TextEscapes(text: string, s: string, end: string)
    requires QUOTE !in text && SLASH !in text
    ensures EscapedTo(text + s, end) == text + EscapedTo(s, end)
  {
    if text == "" {
      Seqs.Whole(s);
      Seqs.Whole(EscapedTo(s, end));
    } else {
      var more := text[1..] + s;
      HeadFirst(text, s);
      TextEscapes(text[1..], s, end);
      EscapedChar([text[0]] + more, 0, end);
      Seqs.TakeAppended([text[0]], more);
      Seqs.Whole([text[0]] + more);
      HeadFirst(text, EscapedTo(s, end));
    }
  }

  lemma RunEscapes(n: nat, s: string, end: string)
    requires s != "" && s[0] != SLASH
    ensures EscapedTo(Slashes(n) + s, end) == Slashes(if s[0] == QUOTE then 2 * n else n) + EscapedTo(s, end)
  {
    var t := Slashes(n) + s;
    RunOf(n, s);
    assert t[n] == s[0] && t[n..] == s;
    EscapedRun(t, n, end);
  }

  lemma FilledRun(n: nat, s: string, text: string)
    ensures Filled(Slashes(n) + s, text) == Slashes(n) + Filled(s, text)
  {
    FilledBehind(Slashes(n), s, text);
  }

  lemma FillAtQuote(n: nat, more: string, end: string, text: string)
    requires Filled(EscapedTo(more, end), text) == EscapedTo(Filled(more, text), Filled(end, text))
    ensures
      var arg := Slashes(n) + ([QUOTE] + more);
      Filled(EscapedTo(arg, end), text) == EscapedTo(Filled(arg, text), Filled(end, text))
  {
    var q, f := [QUOTE] + more, [QUOTE] + Filled(more, text);
    RunEscapes(n, q, end);
    Seqs.Whole(q);
    EscapedQuote(q, 0, end);
    Seqs.TakeAppended([QUOTE], more);
    FilledRun(n, q, text);
    FilledFirst(QUOTE, more, text);
    RunEscapes(n, f, Filled(end, text));
    Seqs.Whole(f);
    EscapedQuote(f, 0, Filled(end, text));
    Seqs.TakeAppended([QUOTE], Filled(more, text));
    FilledRun(2 * n, [SLASH, QUOTE] + EscapedTo(more, end), text);
    FilledBehind([SLASH, QUOTE], EscapedTo(more, end), text);
  }

  lemma FillAtChar(n: nat, c: char, more: string, end: string, text: string)
    requires c != QUOTE && c != SLASH && QUOTE !in text && SLASH !in text && (c == PERCENT ==> n == 0 || text != "")
    requires Filled(EscapedTo(more, end), text) == EscapedTo(Filled(more, text), Filled(end, text))
    ensures
      var arg := Slashes(n) + ([c] + more);
      Filled(EscapedTo(arg, end), text) == EscapedTo(Filled(arg, text), Filled(end, text))
  {
    var q, put, rest := [c] + more, (if c == PERCENT then text else [c]), Filled(more, text);
    RunEscapes(n, q, end);
    Seqs.Whole(q);
    EscapedChar(q, 0, end);
    Seqs.TakeAppended([c], more);
    FilledRun(n, [c] + EscapedTo(more, end), text);
    FilledFirst(c, EscapedTo(more, end), text);
    FilledRun(n, q, text);
    FilledFirst(c, more, text);
    TextEscapes(put, rest, Filled(end, text));
    if n == 0 {
      Seqs.Whole(put + rest);
      Seqs.Whole(put + EscapedTo(rest, Filled(end, text)));
      assert Slashes(0) == "";
    } else {
      assert (put + rest)[0] == put[0] && put[0] in put;
      RunEscapes(n, put + rest, Filled(end, text));
    }
  }

  /** Escaping and replacing can change places, because the text brings no backslash to a quote. */
  lemma {:induction false} TextFills(arg: string, end: string, text: string)
    requires text != "" && QUOTE !in text && SLASH !in text
    ensures Filled(EscapedTo(arg, end), text) == EscapedTo(Filled(arg, text), Filled(end, text))
    decreases |arg|
  {
    var n := Run(arg);
    if n == |arg| {
      RunIs(arg);
      Seqs.Whole(arg);
      EscapedSlashes(arg, end);
      FilledRun(2 * n, end, text);
      FilledNone(arg, text);
      EscapedSlashes(arg, Filled(end, text));
    } else {
      var c, more := arg[n], arg[n + 1..];
      SplitAtRun(arg, n);
      Seqs.Associates(Slashes(n), [c], more);
      TextFills(more, end, text);
      if c == QUOTE { FillAtQuote(n, more, end, text); } else { FillAtChar(n, c, more, end, text); }
    }
  }

  // ----- The empty text -----

  // Taking '%' out joins the backslashes on its two sides; only the last run before a quote has been doubled.

  /** The length of the backslashes and '%' that a string starts with. */
  function Mixed(s: string): (n: nat)
    ensures n <= |s| && (n < |s| ==> s[n] != SLASH && s[n] != PERCENT)
  {
    if s != "" && (s[0] == SLASH || s[0] == PERCENT) then 1 + Mixed(s[1..]) else 0
  }

  /** The backslashes among them. */
  function Count(s: string): nat {
    if s == "" then 0
    else if s[0] == PERCENT then Count(s[1..])
    else if s[0] == SLASH then 1 + Count(s[1..])
    else 0
  }

  /** Some backslash among them stands right before a '%'. */
  predicate Broken(s: string) {
    s != "" &&
    if s[0] == PERCENT then Broken(s[1..])
    else s[0] == SLASH && ((|s| > 1 && s[1] == PERCENT) || Broken(s[1..]))
  }

  /** A quote comes next, or the closing one. */
  predicate Ends(s: string) { Mixed(s) == |s| || s[Mixed(s)] == QUOTE }

  /** A backslash right before a '%', and from there only more of both up to a quote or the end. */
  predicate Exposed(arg: string)
    decreases |arg|
  {
    (Ends(arg) && Broken(arg)) || (Mixed(arg) < |arg| && Exposed(arg[Mixed(arg) + 1..]))
  }

  /** The same, up to a quote. */
  predicate QuoteExposed(arg: string)
    decreases |arg|
  {
    Mixed(arg) < |arg| && ((arg[Mixed(arg)] == QUOTE && Broken(arg)) || QuoteExposed(arg[Mixed(arg) + 1..]))
  }

  /** How many backslashes are written for them. */
  function Written(s: string): nat
    decreases |s|
  {
    if s == "" then 0
    else if s[0] == PERCENT then Written(s[1..])
    else
      var n := Run(s);
      if n == |s| || s[n] == QUOTE then 2 * n else if s[n] == PERCENT then n + Written(s[n..]) else n
  }

  lemma {:induction false} RunBlock(s: string, n: nat)
    requires n == Run(s)
    ensures Mixed(s) == n + Mixed(s[n..]) && Count(s) == n + Count(s[n..])
    ensures Broken(s) <==> (0 < n < |s| && s[n] == PERCENT) || Broken(s[n..])
  {
    if n > 0 {
      RunBlock(s[1..], n - 1);
      Seqs.DropDrop(s, 1, n - 1);
      RunIs(s);
    } else {
      Seqs.Whole(s);
    }
  }

  lemma {:induction false} WrittenIs(s: string)
    ensures Ends(s) ==> Written(s) <= 2 * Count(s) && (Written(s) == 2 * Count(s) <==> !Broken(s))
    ensures !Ends(s) ==> Written(s) == Count(s)
    decreases |s|
  {
    if s != "" {
      if s[0] == PERCENT {
        WrittenIs(s[1..]);
      } else {
        var n := Run(s);
        RunBlock(s, n);
        RunIs(s);
        if n < |s| && s[n] == PERCENT {
          if n > 0 { WrittenIs(s[n..]); }
        }
      }
    }
  }

  lemma BlockStep(s: string, end: string)
    requires s != "" && s[0] == PERCENT
    ensures Filled(EscapedTo(s, end), "") == Filled(EscapedTo(s[1..], end), "") && Filled(s, "") == Filled(s[1..], "")
  {
    Seqs.Whole(s);
    EscapedChar(s, 0, end);
    FilledFirst(PERCENT, EscapedTo(s[1..], end), "");
    Seqs.Whole(Filled(EscapedTo(s[1..], end), ""));
    Seqs.Whole(Filled(s[1..], ""));
  }

  lemma {:induction false} BlockFills(s: string)
    ensures Filled(s, "") == Slashes(Count(s)) + Filled(s[Mixed(s)..], "")
  {
    if s != "" && s[0] == PERCENT {
      BlockFills(s[1..]);
      Seqs.DropDrop(s, 1, Mixed(s[1..]));
      Seqs.Whole(Filled(s[1..], ""));
    } else if s != "" && s[0] == SLASH {
      BlockFills(s[1..]);
      Seqs.DropDrop(s, 1, Mixed(s[1..]));
      assert Slashes(Count(s)) == [SLASH] + Slashes(Count(s[1..]));
      Seqs.Associates([SLASH], Slashes(Count(s[1..])), Filled(s[Mixed(s)..], ""));
    } else {
      Seqs.Whole(s);
      Seqs.Whole(Filled(s, ""));
      assert Slashes(0) == "";
    }
  }

  lemma AddSlashes(a: nat, b: nat, s: string)
    ensures Slashes(a) + (Slashes(b) + s) == Slashes(a + b) + s
  {
    assert Slashes(a) + Slashes(b) == Slashes(a + b);
    Seqs.Associates(Slashes(a), Slashes(b), s);
  }

  lemma RunFills(s: string, n: nat, end: string)
    requires n == Run(s) < |s|
    ensures
      Filled(EscapedTo(s, end), "")
      == Slashes(if s[n] == QUOTE then 2 * n else n) + Filled(EscapedTo(s[n..], end), "")
  {
    SplitAtRun(s, n);
    RunEscapes(n, s[n..], end);
    FilledRun(if s[n] == QUOTE then 2 * n else n, EscapedTo(s[n..], end), "");
  }

  lemma LastRunFills(s: string, end: string)
    requires Run(s) == |s|
    ensures Filled(EscapedTo(s, end), "") == Slashes(2 * |s|) + Filled(end, "")
    ensures Mixed(s) == |s| && Written(s) == 2 * |s| && EscapedTo(s[Mixed(s)..], end) == end
  {
    EscapedSlashes(s, end);
    FilledRun(2 * |s|, end, "");
    RunBlock(s, |s|);
  }

  /** A run of backslashes that is not before a '%' is the whole block. */
  lemma BlockIsRun(s: string, n: nat)
    requires n == Run(s) < |s| && s[n] != PERCENT
    ensures Mixed(s) == n && Written(s) == if s[n] == QUOTE then 2 * n else n
  {
    RunBlock(s, n);
    RunIs(s);
  }

  ghost predicate BlockWritten(s: string, end: string) {
    Filled(EscapedTo(s, end), "") == Slashes(Written(s)) + Filled(EscapedTo(s[Mixed(s)..], end), "")
  }

  lemma PercentBlock(s: string, end: string)
    requires s != "" && s[0] == PERCENT && BlockWritten(s[1..], end)
    ensures BlockWritten(s, end)
  {
    BlockStep(s, end);
    Seqs.DropDrop(s, 1, Mixed(s[1..]));
  }

  lemma WrittenRun(s: string, n: nat, t: string)
    requires 0 < n == Run(s) < |s| && s[n] == PERCENT && t == s[n..]
    ensures Written(s) == n + Written(t) && Mixed(s) == n + Mixed(t) && s[Mixed(s)..] == t[Mixed(t)..]
  {
    RunBlock(s, n);
    Seqs.DropDrop(s, n, Mixed(t));
  }

  lemma RunsJoin(a: string, n: nat, b: string, w: nat, c: string, total: nat)
    requires a == Slashes(n) + b && b == Slashes(w) + c && total == n + w
    ensures a == Slashes(total) + c
  {
    AddSlashes(n, w, c);
  }

  lemma RunPercentBlock(s: string, n: nat, t: string, tail: string, end: string)
    requires 0 < n == Run(s) < |s| && s[n] == PERCENT && t == s[n..]
    requires Filled(EscapedTo(t, end), "") == Slashes(Written(t)) + tail
    ensures Filled(EscapedTo(s, end), "") == Slashes(Written(s)) + tail
  {
    WrittenRun(s, n, t);
    RunFills(s, n, end);
    RunsJoin(Filled(EscapedTo(s, end), ""), n, Filled(EscapedTo(t, end), ""), Written(t), tail, Written(s));
  }

  lemma PlainBlock(s: string, end: string)
    requires Run(s) == |s| || s[Run(s)] != PERCENT
    ensures BlockWritten(s, end)
  {
    var n := Run(s);
    if n == |s| {
      LastRunFills(s, end);
    } else {
      BlockIsRun(s, n);
      RunFills(s, n, end);
    }
  }

  lemma {:induction false} BlockEscapes(s: string, end: string)
    ensures BlockWritten(s, end)
    decreases |s|
  {
    var n := Run(s);
    if n == |s| || s[n] != PERCENT {
      PlainBlock(s, end);
    } else if n == 0 {
      BlockEscapes(s[1..], end);
      PercentBlock(s, end);
    } else {
      var t := s[n..];
      BlockEscapes(t, end);
      WrittenRun(s, n, t);
      RunPercentBlock(s, n, t, Filled(EscapedTo(t[Mixed(t)..], end), ""), end);
    }
  }

  lemma LastBlockFills(arg: string, end: string)
    requires Mixed(arg) == |arg| && !Broken(arg)
    ensures Filled(EscapedTo(arg, end), "") == EscapedTo(Filled(arg, ""), Filled(end, ""))
  {
    var all := Slashes(Count(arg));
    BlockFills(arg);
    BlockEscapes(arg, end);
    WrittenIs(arg);
    assert arg[Mixed(arg)..] == "";
    Seqs.Whole(all);
    RunOf(Count(arg), "");
    EscapedSlashes(all, Filled(end, ""));
  }

  /** Without an exposed backslash the two can change places here too. */
  lemma {:induction false} NothingFills(arg: string, end: string)
    requires !Exposed(arg)
    ensures Filled(EscapedTo(arg, end), "") == EscapedTo(Filled(arg, ""), Filled(end, ""))
    decreases |arg|
  {
    var m := Mixed(arg);
    if m == |arg| {
      LastBlockFills(arg, end);
    } else {
      NothingFills(arg[m + 1..], end);
      NextBlockFills(arg, arg[m], arg[m + 1..], end);
    }
  }

  lemma NextBlockFills(arg: string, c: char, more: string, end: string)
    requires var m := Mixed(arg); m < |arg| && arg[m] == c && more == arg[m + 1..]
    requires !(Ends(arg) && Broken(arg))
    requires Filled(EscapedTo(more, end), "") == EscapedTo(Filled(more, ""), Filled(end, ""))
    ensures Filled(EscapedTo(arg, end), "") == EscapedTo(Filled(arg, ""), Filled(end, ""))
  {
    var tail := [c] + more;
    NextBlock(arg, c, more, end);
    FillOne(c, more, end);
    FilledFirst(c, more, "");
    RunEscapes(Count(arg), Filled(tail, ""), Filled(end, ""));
  }

  lemma NextBlock(arg: string, c: char, more: string, end: string)
    requires var m := Mixed(arg); m < |arg| && arg[m] == c && more == arg[m + 1..]
    requires !(Ends(arg) && Broken(arg))
    ensures Filled(arg, "") == Slashes(Count(arg)) + Filled([c] + more, "")
    ensures
      Filled(EscapedTo(arg, end), "")
      == Slashes(if c == QUOTE then 2 * Count(arg) else Count(arg)) + Filled(EscapedTo([c] + more, end), "")
  {
    BlockFills(arg);
    BlockEscapes(arg, end);
    WrittenIs(arg);
    assert arg[Mixed(arg)..] == [c] + more;
  }

  lemma FillOne(c: char, more: string, end: string)
    requires c != SLASH && c != PERCENT
    requires Filled(EscapedTo(more, end), "") == EscapedTo(Filled(more, ""), Filled(end, ""))
    ensures Filled(EscapedTo([c] + more, end), "") == EscapedTo(Filled([c] + more, ""), Filled(end, ""))
  {
    assert Slashes(0) + ([c] + more) == [c] + more;
    if c == QUOTE { FillAtQuote(0, more, end, ""); } else { FillAtChar(0, c, more, end, ""); }
  }

  // ----- What an exposed backslash does -----

  /** The text between the quotes, and the closing one, with every '%' taken out. */
  function Inside(arg: string): string { Filled(EscapedTo(arg, [QUOTE]), "") }

  lemma FilledBlock(arg: string)
    requires Mixed(arg) == |arg|
    ensures Filled(arg, "") == Slashes(Count(arg))
  {
    BlockFills(arg);
    assert arg[Mixed(arg)..] == "";
    Seqs.Whole(Slashes(Count(arg)));
  }

  lemma InsideEnds(arg: string)
    requires Mixed(arg) == |arg|
    ensures Inside(arg) == Slashes(Written(arg)) + ([QUOTE] + "")
  {
    BlockEscapes(arg, [QUOTE]);
    var none := arg[Mixed(arg)..];
    assert none == "" && EscapedTo(none, [QUOTE]) == [QUOTE];
    FilledNone([QUOTE], "");
    Seqs.Whole([QUOTE]);
  }

  lemma FilledBehindBlock(arg: string, c: char, more: string)
    requires var m := Mixed(arg); m < |arg| && arg[m] == c && more == arg[m + 1..]
    ensures Filled(arg, "") == Slashes(Count(arg)) + [c] + Filled(more, "")
  {
    BlockFills(arg);
    assert arg[Mixed(arg)..] == [c] + more;
    FilledFirst(c, more, "");
    Seqs.Associates(Slashes(Count(arg)), [c], Filled(more, ""));
  }

  lemma InsideQuote(arg: string, more: string)
    requires var m := Mixed(arg); m < |arg| && arg[m] == QUOTE && more == arg[m + 1..]
    ensures Inside(arg) == Slashes(Written(arg)) + ([SLASH, QUOTE] + Inside(more))
  {
    BlockEscapes(arg, [QUOTE]);
    EscapedQuote(arg, Mixed(arg), [QUOTE]);
    FilledQuote(EscapedTo(more, [QUOTE]));
  }

  lemma FilledQuote(s: string)
    ensures Filled([SLASH, QUOTE] + s, "") == [SLASH, QUOTE] + Filled(s, "")
  {
    FilledBehind([SLASH, QUOTE], s, "");
  }

  lemma InsideChar(arg: string, c: char, more: string)
    requires var m := Mixed(arg); m < |arg| && arg[m] == c != QUOTE && more == arg[m + 1..]
    ensures Inside(arg) == Slashes(Count(arg)) + ([c] + Inside(more))
  {
    BlockEscapes(arg, [QUOTE]);
    WrittenIs(arg);
    EscapedChar(arg, Mixed(arg), [QUOTE]);
    FilledFirst(c, EscapedTo(more, [QUOTE]), "");
  }

  lemma HalfRoundedUp(w: nat, n: nat)
    requires w <= 2 * n
    ensures w / 2 + w % 2 <= n
    ensures (w + 1) / 2 + (w + 1) % 2 <= n + 1
    ensures w < 2 * n ==> (w + 1) / 2 + (w + 1) % 2 <= n
  {
  }

  /** The text stands for no more characters than are expected, and for fewer if a quote lost its backslashes. */
  ghost predicate Thin(arg: string) {
    && Literals(Inside(arg)) <= |Filled(arg, "")|
    && (QuoteExposed(arg) ==> Literals(Inside(arg)) < |Filled(arg, "")|)
  }

  lemma ThinAtEnd(arg: string)
    requires Mixed(arg) == |arg|
    ensures Thin(arg)
  {
    WrittenIs(arg);
    InsideEnds(arg);
    FilledBlock(arg);
    LiteralsOfRun(Written(arg), "");
    HalfRoundedUp(Written(arg), Count(arg));
  }

  lemma ThinAtQuote(arg: string, more: string)
    requires var m := Mixed(arg); m < |arg| && arg[m] == QUOTE && more == arg[m + 1..] && Thin(more)
    ensures Thin(arg)
  {
    var w := Written(arg);
    WrittenIs(arg);
    InsideQuote(arg, more);
    FilledBehindBlock(arg, QUOTE, more);
    OneMoreSlash(w, Inside(more));
    LiteralsOfRun(w + 1, Inside(more));
    HalfRoundedUp(w, Count(arg));
  }

  lemma ThinAtChar(arg: string, c: char, more: string)
    requires var m := Mixed(arg); m < |arg| && arg[m] == c != QUOTE && more == arg[m + 1..] && Thin(more)
    ensures Thin(arg)
  {
    InsideChar(arg, c, more);
    FilledBehindBlock(arg, c, more);
    LiteralsAtChar(Count(arg), c, Inside(more));
  }

  lemma {:induction false} InsideLiterals(arg: string)
    ensures Thin(arg)
    decreases |arg|
  {
    var m := Mixed(arg);
    if m == |arg| {
      ThinAtEnd(arg);
    } else {
      InsideLiterals(arg[m + 1..]);
      if arg[m] == QUOTE { ThinAtQuote(arg, arg[m + 1..]); } else { ThinAtChar(arg, arg[m], arg[m + 1..]); }
    }
  }

  /** If only the closing quote lost backslashes, the argument ends in the wrong ones. */
  lemma {:induction false} InsideMisread(arg: string, cur: string)
    requires Exposed(arg) && !QuoteExposed(arg)
    ensures Scan(Inside(arg), Some(cur), true) != [cur + Filled(arg, "")]
    decreases |arg|
  {
    var m, w, n := Mixed(arg), Written(arg), Count(arg);
    WrittenIs(arg);
    if m == |arg| {
      InsideEnds(arg);
      FilledBlock(arg);
      RunBeforeQuote(w, "", cur, true);
      assert |Slashes(n)| > 0 && (cur + Slashes(n))[|cur| + n - 1] == SLASH;
      var odd := cur + (Slashes(w / 2) + [QUOTE]);
      assert odd[|odd| - 1] == QUOTE;
    } else {
      var c, more := arg[m], arg[m + 1..];
      FilledBehindBlock(arg, c, more);
      if c == QUOTE {
        InsideQuote(arg, more);
        OddBeforeQuote(n, Inside(more), cur, true);
        InsideMisread(more, cur + (Slashes(n) + [QUOTE]));
        Regroup(cur, Slashes(n) + [QUOTE], Filled(more, ""), Filled(arg, ""));
      } else {
        InsideChar(arg, c, more);
        RunBeforeOther(n, [c] + Inside(more), cur, true);
        PlainChar(c, Inside(more), Some(cur + Slashes(n)), true);
        InsideMisread(more, cur + Slashes(n) + [c]);
        Seqs.Associates(cur, Slashes(n), [c]);
        Regroup(cur, Slashes(n) + [c], Filled(more, ""), Filled(arg, ""));
      }
    }
  }
}
