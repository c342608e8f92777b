/** FeatureList: overrides written to, and read back from, command-line strings. */
module FeatureList {
  import opened Strings
  import opened Wrappers
  import Seqs

  datatype Override = UseDefault | Enable | Disable

  /** overridden_state and the name of field_trial. */
  datatype Entry = Entry(state: Override, trial: Option<string>)

  // ----- Splitting at commas -----

  function Pieces(s: string): seq<string>
    decreases |s|
  {
    var c := IndexOf(s, ',');
    if c == |s| then [s] else [s[..c]] + Pieces(s[c + 1..])
  }

  function Kept(pieces: seq<string>): seq<string> {
    if pieces == [] then []
    else One(Trim(pieces[0])) + Kept(pieces[1..])
  }

  function One(t: string): seq<string> { if t == "" then [] else [t] }

  lemma KeptCons(p: string, ps: seq<string>)
    ensures Kept([p] + ps) == One(Trim(p)) + Kept(ps)
  {
    assert ([p] + ps)[1..] == ps;
  }

  lemma KeptOne(p: string)
    ensures Kept([p]) == One(Trim(p))
  {
    KeptCons(p, []);
    Seqs.Whole([p]);
    Seqs.Whole(One(Trim(p)));
  }

  lemma KeptLast(s: string)
    requires IndexOf(s, ',') == |s|
    ensures Kept(Pieces(s)) == One(Trim(s))
  {
    KeptOne(s);
  }

  lemma KeptMore(s: string, first: string, rest: string)
    requires var c := IndexOf(s, ','); c < |s| && first == s[..c] && rest == s[c + 1..]
    ensures Kept(Pieces(s)) == One(Trim(first)) + Kept(Pieces(rest))
  {
    KeptCons(first, Pieces(rest));
  }

  /** What the loop will return from here. */
  ghost function Remaining(result: seq<string>, rest: string, done: bool): seq<string> {
    if done then result else result + Kept(Pieces(rest))
  }

  lemma SplitStep(result: seq<string>, rest: string, c: nat)
    requires c == IndexOf(rest, ',')
    ensures
      var more := result + One(Trim(rest[..c]));
      Remaining(result, rest, false)
      == if c == |rest| then Remaining(more, rest, true) else Remaining(more, rest[c + 1..], false)
  {
    if c == |rest| {
      KeptLast(rest);
      Seqs.Whole(rest);
    } else {
      KeptMore(rest, rest[..c], rest[c + 1..]);
      Seqs.Associates(result, One(Trim(rest[..c])), Kept(Pieces(rest[c + 1..])));
    }
  }

  /** The loop; `rest` is the part of the string from the start index on. */
  method SplitPieces(s: string) returns (result: seq<string>)
    ensures result == Kept(Pieces(s))
  {
    result := [];
    var rest, done := s, false;
    Seqs.Whole(Kept(Pieces(s)));
    while !done
      invariant Remaining(result, rest, done) == Kept(Pieces(s))
      decreases !done, |rest|
    {
      var end := IndexOf(rest, ',');
      SplitStep(result, rest, end);
      result := AppendPiece(result, Trim(rest[..end]));
      if end == |rest| { done := true; } else { rest := rest[end + 1..]; }
    }
  }

  method AppendPiece(pieces: seq<string>, piece: string) returns (longer: seq<string>)
    ensures longer == pieces + One(piece)
  {
    Seqs.Whole(pieces);
    longer := if piece == "" then pieces else pieces + [piece];
  }

  /** SplitStringPiece at commas, trimming and dropping empty pieces. */
  method SplitFeatureList(s: string) returns (result: seq<string>)
    ensures result == Kept(Pieces(s))
  {
    if s == "" {
      KeptLast(s);
      return [];
    }
    result := SplitPieces(s);
  }

  // ----- Registering -----

  function Find(trials: set<string>, name: string): Option<string> { if name in trials then Some(name) else None }

  /** What one term says: a feature name and its entry. */
  function Parse(term: string, state: Override, trials: set<string>): (string, Entry) {
    var lt := IndexOf(term, '<');
    var name := term[..lt];
    var trial := if lt < |term| then Find(trials, term[lt + 1..]) else None;
    if name != "" && name[0] == '*' then (name[1..], Entry(UseDefault, trial)) else (name, Entry(state, trial))
  }

  /** std::map::insert: the first entry for a name stays. */
  function Inserted(m: map<string, Entry>, item: (string, Entry)): map<string, Entry> {
    if item.0 in m then m else m[item.0 := item.1]
  }

  function Registered(
    m: map<string, Entry>, terms: seq<string>, state: Override, trials: set<string>
  ): map<string, Entry>
  {
    if terms == [] then m
    else Inserted(Registered(m, terms[..|terms| - 1], state, trials), Parse(terms[|terms| - 1], state, trials))
  }

  lemma RegisteredStep(m: map<string, Entry>, terms: seq<string>, i: nat, state: Override, trials: set<string>)
    requires i < |terms|
    ensures Registered(m, terms[..i + 1], state, trials)
         == Inserted(Registered(m, terms[..i], state, trials), Parse(terms[i], state, trials))
  {
    Seqs.TakeSnoc(terms, i);
  }

  function FromCommandLine(enable: string, disable: string, trials: set<string>): map<string, Entry> {
    Registered(Registered(map[], Kept(Pieces(disable)), Disable, trials), Kept(Pieces(enable)), Enable, trials)
  }

  /** Entries that are there first win over everything that is registered later. */
  lemma {:induction false} RegisteredUnder(
    m: map<string, Entry>, first: map<string, Entry>, terms: seq<string>, state: Override, trials: set<string>
  )
    ensures Registered(m + first, terms, state, trials) == Registered(m, terms, state, trials) + first
  {
    if terms != [] { RegisteredUnder(m, first, terms[..|terms| - 1], state, trials); }
  }

  lemma CommandLineUnder(first: map<string, Entry>, enable: string, disable: string, trials: set<string>)
    ensures
      Registered(Registered(first, Kept(Pieces(disable)), Disable, trials), Kept(Pieces(enable)), Enable, trials)
      == FromCommandLine(enable, disable, trials) + first
  {
    var none: map<string, Entry> := map[];
    assert none + first == first;
    var off, on := Kept(Pieces(disable)), Kept(Pieces(enable));
    RegisteredUnder(none, first, off, Disable, trials);
    RegisteredUnder(Registered(none, off, Disable, trials), first, on, Enable, trials);
  }

  /** How a term is read: a leading star means the default state whichever list it is on, the first '<' ends the
      name, and what follows is the trial if there is one of that name. */
  lemma ParseExactly(name: string, trial: string, state: Override, trials: set<string>)
    requires '<' !in name
    ensures
      var found := if trial in trials then Some(trial) else None;
      && Parse("*" + name, state, trials) == (name, Entry(UseDefault, None))
      && Parse("*" + name + "<" + trial, state, trials) == (name, Entry(UseDefault, found))
      && (!("*" <= name) ==>
            && Parse(name, state, trials) == (name, Entry(state, None))
            && Parse(name + "<" + trial, state, trials) == (name, Entry(state, found)))
  {
    ParsePlain(name, trial, state, trials);
    ParsePlain("*" + name, trial, state, trials);
    assert ("*" + name)[1..] == name;
  }

  lemma ParsePlain(name: string, trial: string, state: Override, trials: set<string>)
    requires '<' !in name
    ensures
      var starred := "*" <= name;
      var found := if trial in trials then Some(trial) else None;
      var key, s := (if starred then name[1..] else name), if starred then UseDefault else state;
      && Parse(name, state, trials) == (key, Entry(s, None))
      && Parse(name + "<" + trial, state, trials) == (key, Entry(s, found))
  {
    var full := name + "<" + trial;
    assert name[..|name|] == name && full[..|name|] == name && full[|name| + 1..] == trial;
    IndexOfAt(name, '<', |name|);
    IndexOfAt(full, '<', |name|);
  }

  /** What the first term that names the feature says. */
  function FirstNaming(terms: seq<string>, state: Override, trials: set<string>, name: string): Option<Entry> {
    if terms == [] then None
    else
      var before := FirstNaming(terms[..|terms| - 1], state, trials, name);
      var last := Parse(terms[|terms| - 1], state, trials);
      if before.Some? then before else if last.0 == name then Some(last.1) else None
  }

  function Lookup(m: map<string, Entry>, name: string): Option<Entry> { if name in m then Some(m[name]) else None }

  lemma {:induction false} RegisteredFirst(
    m: map<string, Entry>, terms: seq<string>, state: Override, trials: set<string>, name: string
  )
    ensures
      Lookup(Registered(m, terms, state, trials), name)
      == if name in m then Some(m[name]) else FirstNaming(terms, state, trials, name)
  {
    if terms != [] { RegisteredFirst(m, terms[..|terms| - 1], state, trials, name); }
  }

  /** A feature is what the first term that names it on the disabled list says or, if there is none, what the first on
      the enabled list says. */
  lemma DisabledWins(enable: string, disable: string, trials: set<string>, name: string)
    ensures
      var off := FirstNaming(Kept(Pieces(disable)), Disable, trials, name);
      var on := FirstNaming(Kept(Pieces(enable)), Enable, trials, name);
      Lookup(FromCommandLine(enable, disable, trials), name) == if off.Some? then off else on
  {
    var off := Kept(Pieces(disable));
    RegisteredFirst(map[], off, Disable, trials, name);
    RegisteredFirst(Registered(map[], off, Disable, trials), Kept(Pieces(enable)), Enable, trials, name);
  }

  // ----- Writing -----

  function Text(name: string, e: Entry): string {
    (if e.state.UseDefault? then "*" else "") + name + if e.trial.None? then "" else "<" + e.trial.value
  }

  function Appended(list: string, text: string): string { if list == "" then text else list + "," + text }

  function Joined(texts: seq<string>): string {
    if texts == [] then "" else Appended(Joined(texts[..|texts| - 1]), texts[|texts| - 1])
  }

  /** The texts of the overrides that go on one of the two lists, in iteration order. */
  function Texts(order: seq<string>, m: map<string, Entry>, disabled: bool): seq<string> {
    if order == [] then []
    else
      var n := |order| - 1;
      var before := Texts(order[..n], m, disabled);
      if order[n] in m && m[order[n]].state.Disable? == disabled then before + [Text(order[n], m[order[n]])] else before
  }

  method AppendText(list: string, text: string) returns (longer: string)
    ensures longer == Appended(list, text)
  {
    longer := list;
    if longer != "" { longer := longer + ","; }
    longer := longer + text;
    Seqs.Whole(text);
  }

  class List {
    var overrides: map<string, Entry>
    /** The names FieldTrialList knows. */
    const trials: set<string>

    constructor (trials: set<string>)
      ensures overrides == map[] && this.trials == trials
    {
      overrides := map[];
      this.trials := trials;
    }

    method RegisterOverride(name: string, state: Override, trial: Option<string>)
      modifies this
      ensures
        var starred := name != "" && name[0] == '*';
        var item := if starred then (name[1..], Entry(UseDefault, trial)) else (name, Entry(state, trial));
        overrides == Inserted(old(overrides), item)
    {
      var key, s := name, state;
      if "*" <= name { key, s := name[1..], UseDefault; }
      if key !in overrides { overrides := overrides[key := Entry(s, trial)]; }
    }

    /** The loop's body: splits off the trial. */
    method RegisterTerm(term: string, state: Override)
      modifies this
      ensures overrides == Inserted(old(overrides), Parse(term, state, trials))
    {
      var name, trial := term, None;
      var lt := IndexOf(term, '<');
      if lt < |term| {
        name := term[..lt];
        trial := Find(trials, term[lt + 1..]);
      } else {
        assert term[..lt] == term;
      }
      RegisterOverride(name, state, trial);
    }

    method RegisterOverridesFromCommandLine(list: string, state: Override)
      modifies this
      ensures overrides == Registered(old(overrides), Kept(Pieces(list)), state, trials)
    {
      var terms := SplitFeatureList(list);
      var i := 0;
      while i < |terms|
        invariant 0 <= i <= |terms|
        invariant overrides == Registered(old(overrides), terms[..i], state, trials)
      {
        RegisteredStep(old(overrides), terms, i, state, trials);
        RegisterTerm(terms[i], state);
        i := i + 1;
      }
      Seqs.Whole(terms);
    }

    /** Disabled features first, so that they win; what was overridden before wins over both. */
    method InitializeFromCommandLine(enable: string, disable: string)
      modifies this
      ensures overrides == FromCommandLine(enable, disable, trials) + old(overrides)
    {
      CommandLineUnder(overrides, enable, disable, trials);
      RegisterOverridesFromCommandLine(disable, Disable);
      RegisterOverridesFromCommandLine(enable, Enable);
    }

    /** GetFeatureOverrides. `order` is the map's iteration order. */
    method GetFeatureOverrides(order: seq<string>) returns (enable: string, disable: string)
      requires forall k | 0 <= k < |order| :: order[k] in overrides
      ensures enable == Joined(Texts(order, overrides, false)) && disable == Joined(Texts(order, overrides, true))
    {
      enable, disable := "", "";
      var i := 0;
      while i < |order|
        invariant 0 <= i <= |order|
        invariant enable == Joined(Texts(order[..i], overrides, false))
        invariant disable == Joined(Texts(order[..i], overrides, true))
      {
        var e := overrides[order[i]];
        TextsStep(order, i, overrides);
        if e.state.Disable? {
          disable := AppendText(disable, Text(order[i], e));
        } else {
          enable := AppendText(enable, Text(order[i], e));
        }
        i := i + 1;
      }
      Seqs.Whole(order);
    }
  }

  lemma TextsStep(order: seq<string>, i: nat, m: map<string, Entry>)
    requires i < |order| && order[i] in m
    ensures
      var e := m[order[i]];
      forall disabled ::
        Joined(Texts(order[..i + 1], m, disabled))
        == if e.state.Disable? == disabled then Appended(Joined(Texts(order[..i], m, disabled)), Text(order[i], e))
           else Joined(Texts(order[..i], m, disabled))
  {
    assert order[..i + 1][..i] == order[..i];
    forall disabled | m[order[i]].state.Disable? == disabled
      ensures Texts(order[..i + 1], m, disabled)[..|Texts(order[..i], m, disabled)|] == Texts(order[..i], m, disabled)
    {
    }
  }
}
