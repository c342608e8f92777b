/** When GetFeatureOverrides and InitializeFromCommandLine undo each other. */
module FeatureRoundTrip {
  import opened Strings
  import Seqs
  import opened FeatureList
  import opened Wrappers

  // ----- The lists come apart again -----

  lemma {:induction false} PiecesComma(t: string, u: string)
    requires ',' !in u
    ensures Pieces(t + ("," + u)) == Pieces(t) + [u]
    decreases |t|
  {
    var c := IndexOf(t, ',');
    var s := t + ("," + u);
    IndexOfIs(t, ',');
    assert s[..c] == t[..c];
    IndexOfAt(s, ',', c);
    if c == |t| {
      assert s[c + 1..] == u && t[..c] == t;
      assert u[..|u|] == u;
      IndexOfAt(u, ',', |u|);
    } else {
      assert s[c + 1..] == t[c + 1..] + ("," + u);
      PiecesComma(t[c + 1..], u);
      assert [t[..c]] + (Pieces(t[c + 1..]) + [u]) == [t[..c]] + Pieces(t[c + 1..]) + [u];
    }
  }

  lemma {:induction false} KeptSnoc(ps: seq<string>, p: string)
    ensures Kept(ps + [p]) == Kept(ps) + One(Trim(p))
  {
    if ps == [] {
      KeptOne(p);
      Seqs.Whole([p]);
      Seqs.Whole(One(Trim(p)));
    } else {
      var first, rest := ps[0], ps[1..];
      KeptSnoc(rest, p);
      Seqs.Cons(ps);
      Seqs.Associates([first], rest, [p]);
      KeptCons(first, rest + [p]);
      Seqs.Associates(One(Trim(first)), Kept(rest), One(Trim(p)));
    }
  }

  ghost predicate CommaFree(texts: seq<string>) { forall k | 0 <= k < |texts| :: ',' !in texts[k] }

  lemma {:induction false} KeptJoined(texts: seq<string>)
    requires CommaFree(texts)
    ensures Kept(Pieces(Joined(texts))) == Kept(texts)
  {
    if texts == [] {
      KeptLast("");
    } else {
      var n := |texts| - 1;
      var init, u := texts[..n], texts[n];
      assert texts == init + [u];
      var list := Joined(init);
      KeptJoined(init);
      KeptSnoc(init, u);
      if list == "" {
        KeptLast("");
        assert u[..|u|] == u;
        IndexOfAt(u, ',', |u|);
        KeptLast(u);
      } else {
        assert list + "," + u == list + ("," + u);
        PiecesComma(list, u);
        KeptSnoc(Pieces(list), u);
      }
    }
  }

  lemma {:induction false} KeptMember(ts: seq<string>, u: string)
    ensures u in Kept(ts) <==> u != "" && exists i :: 0 <= i < |ts| && Trim(ts[i]) == u
  {
    if ts != [] {
      KeptMember(ts[1..], u);
      assert ts == [ts[0]] + ts[1..];
      KeptCons(ts[0], ts[1..]);
      if u in Kept(ts[1..]) {
        var i :| 0 <= i < |ts[1..]| && Trim(ts[1..][i]) == u;
        assert Trim(ts[i + 1]) == u;
      }
      if i :| 0 <= i < |ts| && Trim(ts[i]) == u {
        assert i > 0 ==> Trim(ts[1..][i - 1]) == u;
      }
    }
  }

  lemma {:induction false} TextsMember(order: seq<string>, m: map<string, Entry>, disabled: bool, t: string)
    ensures t in Texts(order, m, disabled) <==>
              exists k :: k in order && k in m && m[k].state.Disable? == disabled && t == Text(k, m[k])
  {
    if order != [] {
      var n := |order| - 1;
      TextsMember(order[..n], m, disabled, t);
      assert order == order[..n] + [order[n]];
    }
  }

  // ----- Any string is pieces between commas -----

  /** Pieces with a comma between each two. */
  function Commas(ps: seq<string>): string
    requires ps != []
  {
    if |ps| == 1 then ps[0] else Commas(ps[..|ps| - 1]) + ("," + ps[|ps| - 1])
  }

  lemma {:induction false} PiecesOfCommas(ps: seq<string>)
    requires ps != [] && CommaFree(ps)
    ensures Pieces(Commas(ps)) == ps
  {
    var n := |ps| - 1;
    Seqs.Snoc(ps);
    if n == 0 {
      Seqs.Whole(ps[0]);
      IndexOfAt(ps[0], ',', |ps[0]|);
    } else {
      PiecesOfCommas(ps[..n]);
      PiecesComma(Commas(ps[..n]), ps[n]);
    }
  }

  /** The terms of any pieces joined by commas are those pieces, in order, trimmed, and left out if nothing is left. */
  lemma TermsExactly(ps: seq<string>, qs: seq<string>, p: string)
    requires ps != [] && CommaFree(ps)
    ensures Kept(Pieces(Commas(ps))) == Kept(ps)
    ensures Kept(qs + [p]) == Kept(qs) + (if Trim(p) == "" then [] else [Trim(p)]) && Kept([]) == []
  {
    PiecesOfCommas(ps);
    KeptSnoc(qs, p);
  }

  /** The lists are written override by override, in iteration order: the disabled ones on the one list, the enabled
      and the default ones on the other. */
  lemma {:induction false} TextsExactly(
    a: seq<string>, b: seq<string>, k: string, m: map<string, Entry>, disabled: bool
  )
    requires k in m
    ensures Texts(a + b, m, disabled) == Texts(a, m, disabled) + Texts(b, m, disabled)
    ensures Texts([k], m, disabled) == if (m[k].state == Disable) == disabled then [Text(k, m[k])] else []
  {
    assert [k][..0] == [];
    if b == [] {
      Seqs.Whole(a);
      Seqs.Whole(Texts(a, m, disabled));
    } else {
      var n := |b| - 1;
      TextsExactly(a, b[..n], k, m, disabled);
      Seqs.Snoc(b);
      Seqs.Associates(a, b[..n], [b[n]]);
      Seqs.TakeAppended(a + b[..n], [b[n]]);
      if b[n] in m { Seqs.Associates(Texts(a, m, disabled), Texts(b[..n], m, disabled), [Text(b[n], m[b[n]])]); }
    }
  }

  // ----- One override -----

  /** A leading star always means the default state. */
  predicate StarIsDefault(name: string, e: Entry) { name != "" && name[0] == '*' ==> e.state.UseDefault? }

  /** An override that some term can name: no separator in the name, no comma in the trial, which is registered. */
  predicate Tellable(name: string, e: Entry, trials: set<string>) {
    && ',' !in name && '<' !in name && StarIsDefault(name, e)
    && (e.trial.Some? ==> ',' !in e.trial.value && e.trial.value in trials)
  }

  /** The override's text is not empty and neither begins nor ends with white space. */
  predicate Survives(name: string, e: Entry) { Text(name, e) != "" && Trimmed(Text(name, e)) }

  function ListState(e: Entry): Override { if e.state.Disable? then Disable else Enable }

  /** What an override's text is read back as. */
  function ReadBack(name: string, e: Entry, trials: set<string>): (string, Entry) {
    Parse(Trim(Text(name, e)), ListState(e), trials)
  }

  function Star(e: Entry): string { if e.state.UseDefault? then "*" else "" }

  lemma TextShape(name: string, e: Entry)
    requires '<' !in name
    ensures
      var t, p := Text(name, e), |Star(e)| + |name|;
      && t[..p] == Star(e) + name
      && IndexOf(t, '<') == p
      && (e.trial.None? ==> |t| == p)
      && (e.trial.Some? ==> p < |t| && t[p] == '<' && t[p + 1..] == e.trial.value)
  {
    var t, p := Text(name, e), |Star(e)| + |name|;
    assert t[..p] == Star(e) + name;
    IndexOfAt(t, '<', p);
  }

  lemma StarRead(name: string, e: Entry)
    requires StarIsDefault(name, e)
    ensures
      var full := Star(e) + name;
      if full != "" && full[0] == '*' then e.state.UseDefault? && full[1..] == name
      else full == name && e.state == ListState(e)
  {
    if e.state.UseDefault? { Seqs.TakeAppended("*", name); } else { Seqs.Whole(name); }
  }

  lemma ParseIs(term: string, from: nat, name: string, e: Entry, trials: set<string>)
    requires StarIsDefault(name, e) && from == IndexOf(term, '<') && term[..from] == Star(e) + name
    ensures
      Parse(term, ListState(e), trials)
      == (name, Entry(e.state, if from < |term| then Find(trials, term[from + 1..]) else None))
  {
    StarRead(name, e);
  }

  lemma ParseText(name: string, e: Entry, trials: set<string>)
    requires Tellable(name, e, trials)
    ensures Parse(Text(name, e), ListState(e), trials) == (name, e)
  {
    TextShape(name, e);
    ParseIs(Text(name, e), |Star(e)| + |name|, name, e, trials);
  }

  lemma SurvivorReadsBack(name: string, e: Entry, trials: set<string>)
    requires Tellable(name, e, trials) && Survives(name, e)
    ensures ReadBack(name, e, trials) == (name, e)
  {
    TrimIs(Text(name, e));
    ParseText(name, e, trials);
  }

  /** A text cut short on the right, before or behind its '<'. */
  lemma CutRight(name: string, e: Entry, trials: set<string>, to: nat)
    requires '<' !in name && StarIsDefault(name, e) && 0 < to < |Text(name, e)|
    requires e.trial.Some? ==> |Star(e)| + |name| < to
    ensures
      var r := Parse(Text(name, e)[..to], ListState(e), trials);
      |r.0| < |name| || (r.0 == name && r.1 != e)
  {
    var t, p := Text(name, e), |Star(e)| + |name|;
    var u := t[..to];
    TextShape(name, e);
    if e.trial.None? {
      var cut := name[..to - |Star(e)|];
      assert u == Star(e) + cut;
      assert u[..to] == u && '<' !in u;
      IndexOfAt(u, '<', to);
      ParseIs(u, to, cut, e, trials);
    } else {
      assert u[..p] == t[..p];
      IndexOfAt(u, '<', p);
      ParseIs(u, p, name, e, trials);
      assert |u[p + 1..]| < |e.trial.value|;
    }
  }

  /** A text cut short on the left, inside the name. */
  lemma CutLeft(name: string, e: Entry, trials: set<string>, from: nat, to: nat)
    requires '<' !in name && !e.state.UseDefault? && 0 < from < to <= |Text(name, e)|
    requires if e.trial.Some? then from <= |name| < to else true
    ensures |Parse(Text(name, e)[from..to], ListState(e), trials).0| < |name|
  {
    var t := Text(name, e);
    var u := t[from..to];
    TextShape(name, e);
    assert Star(e) + name == name;
    var end := if e.trial.Some? then |name| else to;
    var cut := name[from..end];
    assert u[..end - from] == cut;
    assert e.trial.Some? ==> u[end - from] == t[|name|];
    IndexOfAt(u, '<', end - from);
  }

  /** An override that does not survive comes back under a shorter name, or with another trial, or not at all. */
  lemma LoserChanges(name: string, e: Entry, trials: set<string>)
    requires Tellable(name, e, trials) && !Survives(name, e) && Trim(Text(name, e)) != ""
    ensures var r := ReadBack(name, e, trials); |r.0| < |name| || (r.0 == name && r.1 != e)
  {
    var t, p := Text(name, e), |Star(e)| + |name|;
    TextShape(name, e);
    TrimIs(t);
    var i, j := TrimKeeps(t);
    assert e.trial.Some? ==> i <= p < j by { assert e.trial.Some? ==> !Space(t[p]); }
    if i > 0 {
      assert !e.state.UseDefault? by { assert Space(t[0]); }
      CutLeft(name, e, trials, i, j);
    } else {
      assert t[i..j] == t[..j];
      assert j < |t|;
      CutRight(name, e, trials, j);
    }
  }

  // ----- All overrides -----

  /** An entry after registration was there before or is what one of the terms says. */
  lemma {:induction false} RegisteredFrom(
    m: map<string, Entry>, terms: seq<string>, state: Override, trials: set<string>, key: string
  )
    requires key in Registered(m, terms, state, trials)
    ensures
      var r := Registered(m, terms, state, trials);
      || (key in m && r[key] == m[key])
      || exists i :: 0 <= i < |terms| && Parse(terms[i], state, trials) == (key, r[key])
  {
    if terms != [] {
      var n := |terms| - 1;
      if key in Registered(m, terms[..n], state, trials) {
        RegisteredFrom(m, terms[..n], state, trials, key);
      } else {
        assert Parse(terms[n], state, trials) == (key, Registered(m, terms, state, trials)[key]);
      }
    }
  }

  lemma {:induction false} RegisteredKeeps(
    m: map<string, Entry>, terms: seq<string>, state: Override, trials: set<string>, i: int
  )
    requires -1 <= i < |terms|
    ensures m.Keys <= Registered(m, terms, state, trials).Keys
    ensures i >= 0 ==> Parse(terms[i], state, trials).0 in Registered(m, terms, state, trials)
  {
    if terms != [] {
      var n := |terms| - 1;
      RegisteredKeeps(m, terms[..n], state, trials, if i < n then i else -1);
    }
  }

  ghost predicate Enumerates(order: seq<string>, m: map<string, Entry>) { forall k :: k in order <==> k in m }

  ghost predicate AllTellable(m: map<string, Entry>, trials: set<string>) {
    forall k | k in m :: Tellable(k, m[k], trials)
  }

  /** A fresh list initialized from the two strings. */
  function Restored(order: seq<string>, m: map<string, Entry>, trials: set<string>): map<string, Entry> {
    FromCommandLine(Joined(Texts(order, m, false)), Joined(Texts(order, m, true)), trials)
  }

  lemma NoCommas(order: seq<string>, m: map<string, Entry>, trials: set<string>, disabled: bool)
    requires AllTellable(m, trials)
    ensures CommaFree(Texts(order, m, disabled))
  {
    var ts := Texts(order, m, disabled);
    forall i | 0 <= i < |ts| ensures ',' !in ts[i] {
      TextsMember(order, m, disabled, ts[i]);
      var k :| k in order && k in m && ts[i] == Text(k, m[k]);
      assert Tellable(k, m[k], trials);
    }
  }

  /** A term on either list is some override's trimmed text. */
  lemma TermSource(order: seq<string>, m: map<string, Entry>, disabled: bool, i: nat)
    requires i < |Kept(Texts(order, m, disabled))|
    ensures
      exists k ::
        && k in m
        && m[k].state.Disable? == disabled
        && Kept(Texts(order, m, disabled))[i] == Trim(Text(k, m[k])) != ""
  {
    var ts := Texts(order, m, disabled);
    KeptMember(ts, Kept(ts)[i]);
    var j :| 0 <= j < |ts| && Trim(ts[j]) == Kept(ts)[i];
    TextsMember(order, m, disabled, ts[j]);
  }

  ghost predicate Source(m: map<string, Entry>, trials: set<string>, k: string, key: string, e: Entry) {
    k in m && Trim(Text(k, m[k])) != "" && ReadBack(k, m[k], trials) == (key, e)
  }

  lemma SourceOf(
    order: seq<string>, m: map<string, Entry>, trials: set<string>, disabled: bool, i: nat, key: string, e: Entry
  )
    requires i < |Kept(Texts(order, m, disabled))|
    requires Parse(Kept(Texts(order, m, disabled))[i], if disabled then Disable else Enable, trials) == (key, e)
    ensures exists k :: Source(m, trials, k, key, e)
  {
    TermSource(order, m, disabled, i);
    var k :| k in m && m[k].state.Disable? == disabled
             && Kept(Texts(order, m, disabled))[i] == Trim(Text(k, m[k])) != "";
    assert Source(m, trials, k, key, e);
  }

  lemma RestoredIs(order: seq<string>, m: map<string, Entry>, trials: set<string>)
    requires AllTellable(m, trials)
    ensures
      Restored(order, m, trials)
      == Registered(Registered(map[], Kept(Texts(order, m, true)), Disable, trials),
                    Kept(Texts(order, m, false)), Enable, trials)
  {
    NoCommas(order, m, trials, false);
    NoCommas(order, m, trials, true);
    KeptJoined(Texts(order, m, false));
    KeptJoined(Texts(order, m, true));
  }

  /** Everything restored was read from some override's text. */
  lemma RestoredFrom(order: seq<string>, m: map<string, Entry>, trials: set<string>, key: string)
    requires AllTellable(m, trials) && key in Restored(order, m, trials)
    ensures exists k :: Source(m, trials, k, key, Restored(order, m, trials)[key])
  {
    RestoredIs(order, m, trials);
    var r := Restored(order, m, trials);
    var off, on := Kept(Texts(order, m, true)), Kept(Texts(order, m, false));
    var first := Registered(map[], off, Disable, trials);
    RegisteredFrom(first, on, Enable, trials, key);
    if key in first && r[key] == first[key] {
      RegisteredFrom(map[], off, Disable, trials, key);
      var i :| 0 <= i < |off| && Parse(off[i], Disable, trials) == (key, r[key]);
      SourceOf(order, m, trials, true, i, key, r[key]);
    } else {
      var i :| 0 <= i < |on| && Parse(on[i], Enable, trials) == (key, r[key]);
      SourceOf(order, m, trials, false, i, key, r[key]);
    }
  }

  /** Every text that is not blank restores something under the name it is read as. */
  lemma RestoredHas(order: seq<string>, m: map<string, Entry>, trials: set<string>, k: string)
    requires AllTellable(m, trials) && k in order && k in m && Trim(Text(k, m[k])) != ""
    ensures ReadBack(k, m[k], trials).0 in Restored(order, m, trials)
  {
    RestoredIs(order, m, trials);
    var disabled := m[k].state.Disable?;
    var ts := Texts(order, m, disabled);
    TextsMember(order, m, disabled, Text(k, m[k]));
    assert Text(k, m[k]) in ts;
    var j :| 0 <= j < |ts| && ts[j] == Text(k, m[k]);
    KeptMember(ts, Trim(ts[j]));
    var i :| 0 <= i < |Kept(ts)| && Kept(ts)[i] == Trim(ts[j]);
    var off, on := Kept(Texts(order, m, true)), Kept(Texts(order, m, false));
    if disabled {
      RegisteredKeeps(map[], off, Disable, trials, i);
      RegisteredKeeps(Registered(map[], off, Disable, trials), on, Enable, trials, -1);
    } else {
      RegisteredKeeps(Registered(map[], off, Disable, trials), on, Enable, trials, i);
    }
  }

  lemma SurvivorsRestored(order: seq<string>, m: map<string, Entry>, trials: set<string>)
    requires Enumerates(order, m) && AllTellable(m, trials)
    requires forall k | k in m :: Survives(k, m[k])
    ensures Restored(order, m, trials) == m
  {
    var r := Restored(order, m, trials);
    forall key | key in r ensures key in m && r[key] == m[key] {
      RestoredFrom(order, m, trials, key);
      var k :| Source(m, trials, k, key, r[key]);
      SurvivorReadsBack(k, m[k], trials);
    }
    forall k | k in m ensures k in r {
      TrimIs(Text(k, m[k]));
      RestoredHas(order, m, trials, k);
      SurvivorReadsBack(k, m[k], trials);
    }
  }

  function TotalLength(order: seq<string>): nat {
    if order == [] then 0 else TotalLength(order[..|order| - 1]) + |order[|order| - 1]|
  }

  lemma {:induction false} NotLonger(order: seq<string>, k: string)
    requires k in order
    ensures |k| <= TotalLength(order)
  {
    var n := |order| - 1;
    assert order == order[..n] + [order[n]];
    if k != order[n] { NotLonger(order[..n], k); }
  }

  /** If everything is restored, an override that does not survive would need a longer one that does not either. */
  lemma {:induction false} NoLoser(order: seq<string>, m: map<string, Entry>, trials: set<string>, k: string)
    requires Enumerates(order, m) && AllTellable(m, trials) && Restored(order, m, trials) == m
    requires k in m
    ensures Survives(k, m[k])
    decreases TotalLength(order) - |k|
  {
    if !Survives(k, m[k]) {
      RestoredFrom(order, m, trials, k);
      var j :| Source(m, trials, j, k, m[k]);
      if Survives(j, m[j]) {
        SurvivorReadsBack(j, m[j], trials);
      } else {
        LoserChanges(j, m[j], trials);
        NotLonger(order, j);
        NoLoser(order, m, trials, j);
      }
    }
  }

  // ----- What the command line can say at all -----

  lemma {:induction false} PiecesNoComma(s: string, p: string)
    requires p in Pieces(s)
    ensures ',' !in p
    decreases |s|
  {
    var c := IndexOf(s, ',');
    IndexOfIs(s, ',');
    if c == |s| {
      assert p == s == s[..c];
    } else {
      var first, rest := s[..c], Pieces(s[c + 1..]);
      assert p in [first] + rest;
      if p != first { PiecesNoComma(s[c + 1..], p); }
    }
  }

  lemma TermNoComma(s: string, i: nat)
    requires i < |Kept(Pieces(s))|
    ensures ',' !in Kept(Pieces(s))[i]
  {
    var ps := Pieces(s);
    KeptMember(ps, Kept(ps)[i]);
    var j :| 0 <= j < |ps| && Trim(ps[j]) == Kept(ps)[i];
    PiecesNoComma(s, ps[j]);
    var from, to := TrimKeeps(ps[j]);
  }

  lemma ParseTellable(term: string, state: Override, trials: set<string>)
    requires ',' !in term
    ensures var r := Parse(term, state, trials); Tellable(r.0, r.1, trials)
  {
    IndexOfIs(term, '<');
  }

  lemma RegisteredTellable(m: map<string, Entry>, list: string, state: Override, trials: set<string>)
    requires AllTellable(m, trials)
    ensures AllTellable(Registered(m, Kept(Pieces(list)), state, trials), trials)
  {
    var terms := Kept(Pieces(list));
    var r := Registered(m, terms, state, trials);
    forall key | key in r ensures Tellable(key, r[key], trials) {
      RegisteredFrom(m, terms, state, trials, key);
      if !(key in m && r[key] == m[key]) {
        var i :| 0 <= i < |terms| && Parse(terms[i], state, trials) == (key, r[key]);
        TermNoComma(list, i);
        ParseTellable(terms[i], state, trials);
      }
    }
  }

  /** Whatever the two strings, a list initialized from them holds only overrides that a term can name. */
  lemma OnlyTellable(enable: string, disable: string, trials: set<string>)
    ensures AllTellable(FromCommandLine(enable, disable, trials), trials)
  {
    RegisteredTellable(map[], disable, Disable, trials);
    RegisteredTellable(Registered(map[], Kept(Pieces(disable)), Disable, trials), enable, Enable, trials);
  }

  /** What a caller can check of each override. */
  predicate ReadsBack(name: string, e: Entry, trials: set<string>) { Tellable(name, e, trials) && Survives(name, e) }

  /**
   * For any overrides, writing them and reading them into a fresh list restores the same state and trial for every
   * feature if and only if every override reads back: its name holds no separator and begins with a star only in the
   * default state, its trial is registered and holds no comma, and its text is not empty and is trimmed. Any iteration
   * order will do.
   */
  lemma RestoresExactly(order: seq<string>, m: map<string, Entry>, trials: set<string>)
    requires Enumerates(order, m)
    ensures Restored(order, m, trials) == m <==> forall k | k in m :: ReadsBack(k, m[k], trials)
  {
    if forall k | k in m :: ReadsBack(k, m[k], trials) {
      SurvivorsRestored(order, m, trials);
    } else if Restored(order, m, trials) == m {
      OnlyTellable(Joined(Texts(order, m, false)), Joined(Texts(order, m, true)), trials);
      forall k | k in m ensures Survives(k, m[k]) { NoLoser(order, m, trials, k); }
    }
  }

  /** IsValidFeatureOrFieldTrialName, but for the requirement of ASCII. */
  predicate Valid(name: string) { ',' !in name && '<' !in name && '*' !in name }

  /** In particular when every name is valid, not empty and trimmed. */
  lemma OverridesRoundTrip(order: seq<string>, m: map<string, Entry>, trials: set<string>)
    requires Enumerates(order, m)
    requires forall k | k in m :: Valid(k) && k != "" && Trimmed(k)
    requires forall k | k in m && m[k].trial.Some? ::
               var t := m[k].trial.value; Valid(t) && t in trials && t != "" && Trimmed(t)
    ensures Restored(order, m, trials) == m
  {
    forall k | k in m ensures Survives(k, m[k]) { NameSurvives(k, m[k]); }
    RestoresExactly(order, m, trials);
  }

  lemma NameSurvives(name: string, e: Entry)
    requires name != "" && Trimmed(name) && (e.trial.Some? ==> e.trial.value != "" && Trimmed(e.trial.value))
    ensures Survives(name, e)
  {
    var t := Text(name, e);
    assert t[0] == if e.state.UseDefault? then '*' else name[0];
    assert t[|t| - 1] == if e.trial.Some? then e.trial.value[|e.trial.value| - 1] else name[|name| - 1];
  }
}
