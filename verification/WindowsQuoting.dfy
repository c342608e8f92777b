/** Quoting arguments for CommandLineToArgvW, against the documented rules for splitting them. */
module WindowsQuoting {
  import opened Arithmetic
  import opened Wrappers

  const QUOTE: char := '\"'
  const SLASH: char := '\\'

  /** How many backslashes a string starts with. */
  function Run(s: string): (n: nat)
    ensures n <= |s|
  {
    if s == "" || s[0] != SLASH then 0 else 1 + Run(s[1..])
  }

  lemma {:induction false} RunIs(s: string)
    ensures s[..Run(s)] == Slashes(Run(s)) && (Run(s) < |s| ==> s[Run(s)] != SLASH)
  {
    if s != "" && s[0] == SLASH {
      RunIs(s[1..]);
      assert s == [SLASH] + s[1..];
    }
  }

  function Slashes(n: nat): (s: string)
    ensures |s| == n
  {
    seq(n, i => SLASH)
  }

  // ----- The quoter -----

  predicate Quotable(arg: string, placeholders: bool) {
    ' ' in arg || SLASH in arg || QUOTE in arg || (placeholders && '%' in arg)
  }

  /** One step of the quoter: what is written for the text at the front, and how much of it that covers. */
  function Piece(s: string): (p: (string, nat))
    requires s != ""
    ensures 0 < p.1 <= |s|
  {
    var n := Run(s);
    if n > 0 then (Slashes(if n == |s| || s[n] == QUOTE then 2 * n else n), n)
    else if s[0] == QUOTE then ([SLASH, QUOTE], 1)
    else ([s[0]], 1)
  }

  function Escaped(s: string): string
    decreases |s|
  {
    if s == "" then "" else Piece(s).0 + Escaped(s[Piece(s).1..])
  }

  function Quoted(arg: string, placeholders: bool): string {
    if Quotable(arg, placeholders) then [QUOTE] + Escaped(arg) + [QUOTE] else arg
  }

  lemma EscapedStep(arg: string, i: nat, text: string, next: nat, out: string, whole: string)
    requires i < |arg| && i <= next && (text, next - i) == Piece(arg[i..]) && out + Escaped(arg[i..]) == whole
    ensures i < next <= |arg| && (out + text) + Escaped(arg[next..]) == whole
  {
    assert arg[i..][next - i..] == arg[next..];
    assert out + (text + Escaped(arg[next..])) == (out + text) + Escaped(arg[next..]);
  }

  /** The inner loop: the end of the run of backslashes at `start`. */
  method RunEnd(arg: string, start: nat) returns (end: nat)
    requires start < |arg| && arg[start] == SLASH
    ensures end == start + Run(arg[start..]) && start < end <= |arg|
  {
    end := start + 1;
    assert arg[start..][1..] == arg[end..];
    while end < |arg| && arg[end] == SLASH
      invariant start < end <= |arg|
      invariant Run(arg[start..]) == (end - start) + Run(arg[end..])
    {
      assert arg[end..][1..] == arg[end + 1..];
      end := end + 1;
    }
  }

  /** The body of the outer loop. */
  method QuotePiece(arg: string, i: nat) returns (text: string, next: nat)
    requires i < |arg|
    ensures i <= next && (text, next - i) == Piece(arg[i..])
  {
    ghost var rest := arg[i..];
    assert rest[0] == arg[i];
    if arg[i] == SLASH {
      next := RunEnd(arg, i);
      var count := next - i;
      assert next < |arg| ==> arg[next] == rest[count];
      if next == |arg| || arg[next] == QUOTE { count := count * 2; }
      text := Slashes(count);
    } else {
      text := if arg[i] == QUOTE then [SLASH, QUOTE] else [arg[i]];
      next := i + 1;
    }
  }

  /** The outer loop. */
  method QuoteAll(arg: string) returns (out: string)
    ensures out == [QUOTE] + Escaped(arg) + [QUOTE]
  {
    out := [QUOTE];
    ghost var whole := [QUOTE] + Escaped(arg);
    assert arg[0..] == arg;
    var i := 0;
    while i < |arg|
      invariant 0 <= i <= |arg|
      invariant out + Escaped(arg[i..]) == whole
    {
      var text, next := QuotePiece(arg, i);
      EscapedStep(arg, i, text, next, out, whole);
      out, i := out + text, next;
    }
    assert arg[i..] == "" && out + "" == out;
    out := out + [QUOTE];
  }

  /** QuoteForCommandLineToArgvW. */
  method Quote(arg: string, placeholders: bool) returns (out: string)
    ensures out == Quoted(arg, placeholders)
  {
    if !Quotable(arg, placeholders) { return arg; }
    out := QuoteAll(arg);
  }

  // ----- The splitting rules -----

  predicate Blank(c: char) { c == ' ' || c == '\t' }

  function Add(cur: Option<string>, text: string): Option<string> {
    Some(match cur case None => text case Some(t) => t + text)
  }

  function Flush(cur: Option<string>): seq<string> { if cur.None? then [] else [cur.value] }

  /**
   * Microsoft's rules: blanks separate arguments unless quoted; 2n backslashes before a quote are n backslashes and
   * the quote opens or closes a quoted part; 2n + 1 are n backslashes and a plain quote; other backslashes are plain.
   */
  function Scan(s: string, cur: Option<string>, quoted: bool): seq<string>
    decreases |s|
  {
    if s == "" then Flush(cur)
    else
      var n := Run(s);
      if n < |s| && s[n] == QUOTE then
        if n % 2 == 0 then Scan(s[n + 1..], Add(cur, Slashes(n / 2)), !quoted)
        else Scan(s[n + 1..], Add(cur, Slashes(n / 2) + [QUOTE]), quoted)
      else if n > 0 then Scan(s[n..], Add(cur, Slashes(n)), quoted)
      else if !quoted && Blank(s[0]) then Flush(cur) + Scan(s[1..], None, false)
      else Scan(s[1..], Add(cur, [s[0]]), quoted)
  }

  function Split(s: string): seq<string> { Scan(s, None, false) }

  // ----- A quoted argument is read back whole -----

  lemma {:induction false} RunOf(n: nat, s: string)
    requires s == "" || s[0] != SLASH
    ensures Run(Slashes(n) + s) == n
  {
    var t := Slashes(n) + s;
    if n > 0 {
      RunOf(n - 1, s);
      assert t[1..] == Slashes(n - 1) + s;
    } else {
      assert t == s;
    }
  }

  lemma RunBeforeQuote(k: nat, rest: string, cur: string, quoted: bool)
    ensures
      Scan(Slashes(k) + ([QUOTE] + rest), Some(cur), quoted)
      == if k % 2 == 0 then Scan(rest, Some(cur + Slashes(k / 2)), !quoted)
         else Scan(rest, Some(cur + (Slashes(k / 2) + [QUOTE])), quoted)
  {
    var tail := [QUOTE] + rest;
    var s := Slashes(k) + tail;
    RunOf(k, tail);
    assert s[k] == tail[0] && s[k + 1..] == tail[1..] == rest;
  }

  lemma EvenBeforeQuote(n: nat, rest: string, cur: string, quoted: bool)
    ensures Scan(Slashes(2 * n) + ([QUOTE] + rest), Some(cur), quoted) == Scan(rest, Some(cur + Slashes(n)), !quoted)
  {
    DivIs(2 * n, n, 0, 2);
    RunBeforeQuote(2 * n, rest, cur, quoted);
  }

  lemma OneMoreSlash(n: nat, rest: string)
    ensures Slashes(n) + ([SLASH, QUOTE] + rest) == Slashes(n + 1) + ([QUOTE] + rest)
  {
  }

  lemma OddBeforeQuote(n: nat, rest: string, cur: string, quoted: bool)
    ensures Scan(Slashes(2 * n) + ([SLASH, QUOTE] + rest), Some(cur), quoted)
         == Scan(rest, Some(cur + (Slashes(n) + [QUOTE])), quoted)
  {
    DivIs(2 * n + 1, n, 1, 2);
    RunBeforeQuote(2 * n + 1, rest, cur, quoted);
    OneMoreSlash(2 * n, rest);
  }

  lemma RunBeforeOther(n: nat, s: string, cur: string, quoted: bool)
    requires s != "" && s[0] != SLASH && s[0] != QUOTE
    ensures Scan(Slashes(n) + s, Some(cur), quoted) == Scan(s, Some(cur + Slashes(n)), quoted)
  {
    var t := Slashes(n) + s;
    RunOf(n, s);
    assert t[n] == s[0] && t[n..] == s;
    if n == 0 { assert t == s && cur + Slashes(0) == cur; }
  }

  lemma PlainChar(c: char, rest: string, cur: Option<string>, quoted: bool)
    requires c != SLASH && c != QUOTE && (quoted || !Blank(c))
    ensures Scan([c] + rest, cur, quoted) == Scan(rest, Add(cur, [c]), quoted)
  {
    assert ([c] + rest)[1..] == rest;
  }

  /** The escaped form of `s` with a continuation. */
  function EscapedTo(s: string, end: string): string
    decreases |s|
  {
    if s == "" then end else Piece(s).0 + EscapedTo(s[Piece(s).1..], end)
  }

  lemma {:induction false} EscapedToIs(s: string, end: string)
    ensures EscapedTo(s, end) == Escaped(s) + end
    decreases |s|
  {
    if s != "" {
      var p := Piece(s);
      EscapedToIs(s[p.1..], end);
      assert p.0 + (Escaped(s[p.1..]) + end) == p.0 + Escaped(s[p.1..]) + end;
    }
  }

  lemma EscapedRun(s: string, n: nat, end: string)
    requires n == Run(s) < |s|
    ensures EscapedTo(s, end) == Slashes(if s[n] == QUOTE then 2 * n else n) + EscapedTo(s[n..], end)
  {
    if n == 0 { assert s[0..] == s && Slashes(0) + EscapedTo(s, end) == EscapedTo(s, end); }
  }

  lemma EscapedQuote(s: string, n: nat, end: string)
    requires n < |s| && s[n] == QUOTE
    ensures EscapedTo(s[n..], end) == [SLASH, QUOTE] + EscapedTo(s[n + 1..], end)
  {
    assert s[n..][1..] == s[n + 1..];
  }

  lemma EscapedChar(s: string, n: nat, end: string)
    requires n < |s| && s[n] != QUOTE && s[n] != SLASH
    ensures EscapedTo(s[n..], end) == [s[n]] + EscapedTo(s[n + 1..], end)
  {
    assert s[n..][1..] == s[n + 1..];
  }

  lemma Regroup(cur: string, a: string, b: string, c: string)
    requires c == a + b
    ensures cur + a + b == cur + c
  {
  }

  /** Inside quotes, the text is read as `arg` and then the rest is read outside quotes. */
  ghost predicate ReadsAs(text: string, arg: string, cur: string, rest: string) {
    Scan(text, Some(cur), true) == Scan(rest, Some(cur + arg), false)
  }

  lemma RunReadsAs(arg: string, cur: string, rest: string)
    requires Run(arg) == |arg|
    ensures ReadsAs(Slashes(2 * |arg|) + ([QUOTE] + rest), arg, cur, rest)
  {
    RunIs(arg);
    assert arg[..|arg|] == arg;
    EvenBeforeQuote(|arg|, rest, cur, true);
  }

  lemma QuoteReadsAs(n: nat, more: string, tail: string, cur: string, rest: string)
    requires ReadsAs(more, tail, cur + (Slashes(n) + [QUOTE]), rest)
    ensures ReadsAs(Slashes(2 * n) + ([SLASH, QUOTE] + more), Slashes(n) + [QUOTE] + tail, cur, rest)
  {
    OddBeforeQuote(n, more, cur, true);
    Regroup(cur, Slashes(n) + [QUOTE], tail, Slashes(n) + [QUOTE] + tail);
  }

  lemma CharReadsAs(c: char, more: string, tail: string, cur: string, rest: string)
    requires c != SLASH && c != QUOTE && ReadsAs(more, tail, cur + [c], rest)
    ensures ReadsAs([c] + more, [c] + tail, cur, rest)
  {
    PlainChar(c, more, Some(cur), true);
    Regroup(cur, [c], tail, [c] + tail);
  }

  lemma RunAndReadsAs(n: nat, more: string, tail: string, cur: string, rest: string)
    requires more != "" && more[0] != SLASH && more[0] != QUOTE && ReadsAs(more, tail, cur + Slashes(n), rest)
    ensures ReadsAs(Slashes(n) + more, Slashes(n) + tail, cur, rest)
  {
    RunBeforeOther(n, more, cur, true);
    Regroup(cur, Slashes(n), tail, Slashes(n) + tail);
  }

  lemma SplitAt(s: string, n: nat)
    requires n < |s|
    ensures s == s[..n] + s[n..] && s == s[..n] + [s[n]] + s[n + 1..]
    ensures n == 0 ==> s == [s[0]] + s[1..]
  {
    assert s[n..] == [s[n]] + s[n + 1..];
    assert s == s[..n] + s[n..];
    Regroup(s[..n], [s[n]], s[n + 1..], s[n..]);
  }

  lemma SplitAtRun(arg: string, n: nat)
    requires n == Run(arg) < |arg|
    ensures arg == Slashes(n) + arg[n..] && arg == Slashes(n) + [arg[n]] + arg[n + 1..] && arg[n] != SLASH
    ensures n == 0 ==> arg == [arg[0]] + arg[1..]
  {
    SplitAt(arg, n);
    RunIs(arg);
  }

  /** Inside quotes the escaped text is read back and the closing quote ends the quoted part. */
  lemma {:induction false} EscapedReadsBack(arg: string, cur: string, rest: string)
    ensures ReadsAs(EscapedTo(arg, [QUOTE] + rest), arg, cur, rest)
    decreases |arg|
  {
    var end := [QUOTE] + rest;
    var n := Run(arg);
    if n == |arg| {
      RunReadsAs(arg, cur, rest);
      assert EscapedTo(arg, end) == Slashes(2 * n) + end by {
        assert arg[n..] == "";
        assert n == 0 ==> Slashes(0) + end == end;
      }
    } else {
      SplitAtRun(arg, n);
      EscapedRun(arg, n, end);
      if arg[n] == QUOTE {
        EscapedQuote(arg, n, end);
        EscapedReadsBack(arg[n + 1..], cur + (Slashes(n) + [QUOTE]), rest);
        QuoteReadsAs(n, EscapedTo(arg[n + 1..], end), arg[n + 1..], cur, rest);
      } else if n == 0 {
        EscapedChar(arg, 0, end);
        EscapedReadsBack(arg[1..], cur + [arg[0]], rest);
        CharReadsAs(arg[0], EscapedTo(arg[1..], end), arg[1..], cur, rest);
        assert arg[0..] == arg;
      } else {
        EscapedChar(arg, n, end);
        EscapedReadsBack(arg[n..], cur + Slashes(n), rest);
        RunAndReadsAs(n, EscapedTo(arg[n..], end), arg[n..], cur, rest);
      }
    }
  }
}
