/** What both platforms' command lines mean by a switch. */
module CommandLineSwitches {
  import opened Strings

  const TERMINATOR: string := "--"

  /** The platform's prefixes, in the order they are tried; only Windows takes a slash. */
  function Prefixes(slash: bool): seq<string> { if slash then ["--", "-", "/"] else ["--", "-"] }

  function PrefixLength(slash: bool, s: string): (n: nat)
    ensures n <= |s|
  {
    if "--" <= s then 2 else if "-" <= s then 1 else if slash && "/" <= s then 1 else 0
  }

  /** GetSwitchPrefixLength: the first listed prefix wins. */
  method GetPrefixLength(slash: bool, s: string) returns (n: nat)
    ensures n == PrefixLength(slash, s)
  {
    var prefixes := Prefixes(slash);
    var i := 0;
    while i < |prefixes|
      invariant 0 <= i <= |prefixes|
      invariant forall k | 0 <= k < i :: !(prefixes[k] <= s)
    {
      if prefixes[i] <= s { return |prefixes[i]|; }
      i := i + 1;
    }
    assert !(prefixes[0] <= s) && !(prefixes[1] <= s) && (slash ==> !(prefixes[2] <= s));
    n := 0;
  }

  /** A prefix alone is not a switch. */
  predicate IsSwitch(slash: bool, s: string) { 0 < PrefixLength(slash, s) < |s| }

  /** What begins with a dash, or with a slash where that counts, is a switch unless it is nothing but the prefix. */
  lemma IsSwitchExactly(slash: bool, s: string)
    ensures
      IsSwitch(slash, s)
      <==> s != "" && (s[0] == '-' || (slash && s[0] == '/')) && s != "-" && s != "--" && s != "/"
  {
    if s != "" && s[0] == '-' && |s| == 2 { assert s == [s[0], s[1]]; }
  }

  /** The position of the first '=', or the length. */
  function EqualsAt(s: string): (e: nat)
    ensures e <= |s| && '=' !in s[..e] && (e < |s| ==> s[e] == '=')
  {
    IndexOfIs(s, '=');
    IndexOf(s, '=')
  }

  /** The name, prefix included, and the value of a switch. */
  function SwitchName(s: string): string { s[..EqualsAt(s)] }

  function SwitchValue(s: string): string { if EqualsAt(s) < |s| then s[EqualsAt(s) + 1..] else "" }

  lemma SwitchParts(s: string)
    ensures '=' in s ==> s == SwitchName(s) + ("=" + SwitchValue(s))
    ensures '=' !in s ==> s == SwitchName(s) && SwitchValue(s) == ""
  {
    var e := EqualsAt(s);
    if e < |s| { assert s == s[..e] + ([s[e]] + s[e + 1..]); } else { assert s[..e] == s; }
  }

  /** The '=' that ends the name is not part of the prefix. */
  lemma SwitchNamed(slash: bool, s: string)
    requires IsSwitch(slash, s)
    ensures SwitchName(s) != "" && PrefixLength(slash, SwitchName(s)) > 0
  {
    assert s[0] == '-' || s[0] == '/';
    assert EqualsAt(s) > 0;
  }
}
