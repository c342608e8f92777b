/** Searching and trimming strings. */
module Strings {

  /** The first position of a character, or the length. */
  function IndexOf(s: string, c: char): (i: nat)
    ensures i <= |s|
  {
    if s == "" || s[0] == c then 0 else 1 + IndexOf(s[1..], c)
  }

  lemma {:induction false} IndexOfIs(s: string, c: char)
    ensures var i := IndexOf(s, c); c !in s[..i] && (i < |s| ==> s[i] == c)
  {
    if s != "" && s[0] != c {
      IndexOfIs(s[1..], c);
      assert s == [s[0]] + s[1..];
      assert s[..IndexOf(s, c)] == [s[0]] + s[1..][..IndexOf(s[1..], c)];
    }
  }

  lemma {:induction false} IndexOfAt(s: string, c: char, i: nat)
    requires i <= |s| && c !in s[..i] && (i < |s| ==> s[i] == c)
    ensures IndexOf(s, c) == i
  {
    if i > 0 {
      assert s[0] in s[..i];
      assert s[1..][..i - 1] == s[..i][1..];
      IndexOfAt(s[1..], c, i - 1);
    }
  }

  // ----- TrimWhitespaceASCII -----

  predicate Space(c: char) { (0x09 as char) <= c <= (0x0D as char) || c == ' ' }

  /** Tab, newline, vertical tab, form feed, carriage return and space. */
  lemma SpaceExactly(c: char)
    ensures Space(c) <==> c in {'\t', '\n', 0x0B as char, 0x0C as char, '\r', ' '}
  {
    assert '\t' == 0x09 as char && '\n' == 0x0A as char && '\r' == 0x0D as char;
  }

  function TrimLeft(s: string): string { if s != "" && Space(s[0]) then TrimLeft(s[1..]) else s }

  function TrimRight(s: string): string {
    if s != "" && Space(s[|s| - 1]) then TrimRight(s[..|s| - 1]) else s
  }

  function Trim(s: string): string { TrimRight(TrimLeft(s)) }

  predicate Trimmed(s: string) { s == "" || (!Space(s[0]) && !Space(s[|s| - 1])) }

  lemma {:induction false} TrimLeftIs(s: string)
    ensures var t := TrimLeft(s); |t| <= |s| && t == s[|s| - |t|..] && (t == "" || !Space(t[0]))
  {
    if s != "" && Space(s[0]) {
      var t := TrimLeft(s[1..]);
      TrimLeftIs(s[1..]);
      assert s[1..][|s| - 1 - |t|..] == s[|s| - |t|..];
    } else {
      assert s[0..] == s;
    }
  }

  lemma {:induction false} TrimLeftCuts(s: string, k: nat)
    requires k < |s| - |TrimLeft(s)|
    ensures Space(s[k])
  {
    if k > 0 { TrimLeftCuts(s[1..], k - 1); }
  }

  lemma {:induction false} TrimRightIs(s: string)
    ensures var t := TrimRight(s); |t| <= |s| && t == s[..|t|] && (t == "" || !Space(t[|t| - 1]))
  {
    if s != "" && Space(s[|s| - 1]) {
      var t := TrimRight(s[..|s| - 1]);
      TrimRightIs(s[..|s| - 1]);
      assert s[..|s| - 1][..|t|] == s[..|t|];
    } else {
      assert s[..|s|] == s;
    }
  }

  lemma {:induction false} TrimRightCuts(s: string, k: nat)
    requires |TrimRight(s)| <= k < |s|
    ensures Space(s[k])
  {
    if k < |s| - 1 { TrimRightCuts(s[..|s| - 1], k); }
  }

  /** Trimming removes exactly the outer white space: a stretch is kept and all around it is white. */
  lemma TrimKeeps(s: string) returns (i: nat, j: nat)
    ensures i <= j <= |s| && Trim(s) == s[i..j]
    ensures forall k | 0 <= k < i || j <= k < |s| :: Space(s[k])
  {
    var t := TrimLeft(s);
    var u := TrimRight(t);
    TrimLeftIs(s);
    TrimRightIs(t);
    i := |s| - |t|;
    j := i + |u|;
    assert t[..|u|] == s[i..j];
    forall k | 0 <= k < i || j <= k < |s| ensures Space(s[k]) {
      if k < i {
        TrimLeftCuts(s, k);
      } else {
        TrimRightCuts(t, k - i);
        assert t[k - i] == s[k];
      }
    }
  }

  /** Trimming leaves nothing to trim, and changes exactly the strings that need it. */
  lemma TrimIs(s: string)
    ensures Trimmed(Trim(s)) && |Trim(s)| <= |s|
    ensures Trimmed(s) <==> Trim(s) == s
    ensures |Trim(s)| == |s| ==> Trim(s) == s
  {
    var t := TrimLeft(s);
    TrimLeftIs(s);
    TrimRightIs(t);
    assert s[0..] == s && t[..|t|] == t;
  }
}
