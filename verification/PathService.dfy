/** PathService: a cache in front of providers that call back into the service. */
module PathService {
  import opened Wrappers

  const DIR_CURRENT: int := 1

  /** What a provider does next for a key, given the paths its nested lookups returned so far. */
  datatype Step = Ask(key: int) | Answer(path: Option<string>)

  /** A provider function and the keys it may answer. */
  datatype Provider = Provider(step: (int, seq<string>) -> Step, claims: int -> bool)

  /**
   * The world outside the service: the current directory, MakeAbsoluteFilePath (empty on failure) and
   * ReferencesParent. Nested lookups go to keys of lower rank, at most `limit` of them for one key.
   */
  datatype World = World(
    cwd: Option<string>, absolute: string -> string, refersToParent: string -> bool, rank: int -> nat, limit: nat)

  /** A provider turns down keys it does not claim at once, and its nested lookups end. */
  ghost predicate WellBehaved(w: World, p: Provider) {
    forall key, answers ::
      && (!p.claims(key) ==> p.step(key, answers) == Answer(None))
      && (p.step(key, answers).Ask? ==> w.rank(p.step(key, answers).key) < w.rank(key) && |answers| < w.limit)
  }

  ghost predicate AllWellBehaved(w: World, ps: seq<Provider>) { forall i | 0 <= i < |ps| :: WellBehaved(w, ps[i]) }

  ghost predicate Apart(p: Provider, q: Provider) { forall key :: !(p.claims(key) && q.claims(key)) }

  ghost predicate Disjoint(ps: seq<Provider>) { forall i, j | 0 <= i < j < |ps| :: Apart(ps[i], ps[j]) }

  // ----- The provider for the platform-neutral keys -----

  const DIR_EXE: int := 2
  const DIR_MODULE: int := 3
  const DIR_ASSETS: int := 4
  const DIR_TEMP: int := 5
  const DIR_HOME: int := 6
  const FILE_EXE: int := 7
  const FILE_MODULE: int := 8
  const DIR_SOURCE_ROOT: int := 9
  const DIR_TEST_DATA: int := 11

  /** DirName, GetTempDir, GetHomeDir, and the test data directory if it exists. */
  datatype Files = Files(
    dirName: string -> string, temp: Option<string>, home: string, testData: string -> Option<string>)

  /** The key a lookup is derived from, if any. */
  function BasedOn(key: int): Option<int> {
    if key == DIR_EXE then Some(FILE_EXE)
    else if key == DIR_MODULE then Some(FILE_MODULE)
    else if key == DIR_ASSETS then Some(DIR_MODULE)
    else if key == DIR_TEST_DATA then Some(DIR_SOURCE_ROOT)
    else None
  }

  /** base::PathProvider. */
  function BaseStep(fs: Files, key: int, answers: seq<string>): Step {
    if BasedOn(key).Some? && answers == [] then Ask(BasedOn(key).value)
    else if key == DIR_EXE || key == DIR_MODULE then Answer(Some(fs.dirName(answers[0])))
    else if key == DIR_ASSETS then Answer(Some(answers[0]))
    else if key == DIR_TEMP then Answer(fs.temp)
    else if key == DIR_HOME then Answer(Some(fs.home))
    else if key == DIR_TEST_DATA then Answer(fs.testData(answers[0]))
    else Answer(None)
  }

  function BaseProvider(fs: Files): Provider {
    Provider((key, answers) => BaseStep(fs, key, answers),
             key => BasedOn(key).Some? || key == DIR_TEMP || key == DIR_HOME)
  }

  /** It asks at most once and fails when that lookup fails, wherever files and the source root rank lowest. */
  lemma BaseProviderIsWellBehaved(w: World, fs: Files)
    requires w.limit > 0
    requires w.rank(FILE_EXE) < w.rank(DIR_EXE) && w.rank(FILE_MODULE) < w.rank(DIR_MODULE) < w.rank(DIR_ASSETS)
    requires w.rank(DIR_SOURCE_ROOT) < w.rank(DIR_TEST_DATA)
    ensures WellBehaved(w, BaseProvider(fs))
  {
    var p := BaseProvider(fs);
    forall key: int, answers: seq<string>
      ensures !p.claims(key) ==> p.step(key, answers) == Answer(None)
      ensures p.step(key, answers).Ask? ==> w.rank(p.step(key, answers).key) < w.rank(key) && |answers| < w.limit
    {
      assert p.step(key, answers) == BaseStep(fs, key, answers);
    }
  }

  // ----- The resolver without a cache -----

  /** The path as Get returns it: not empty and without "..". */
  function Finished(w: World, path: Option<string>): Option<string> {
    if path.None? || path.value == "" then None
    else if !w.refersToParent(path.value) then path
    else if w.absolute(path.value) == "" then None
    else Some(w.absolute(path.value))
  }

  ghost function Resolve(w: World, overrides: map<int, string>, ps: seq<Provider>, key: int): Option<string>
    requires AllWellBehaved(w, ps)
    decreases w.rank(key), 2, 0
  {
    if key == DIR_CURRENT then w.cwd
    else if key in overrides then Some(overrides[key])
    else Finished(w, Consult(w, overrides, ps, 0, key))
  }

  /** The providers from `i` on, in list order. */
  ghost function Consult(w: World, overrides: map<int, string>, ps: seq<Provider>, i: nat, key: int): Option<string>
    requires AllWellBehaved(w, ps) && i <= |ps|
    decreases w.rank(key), 1, |ps| - i
  {
    if i == |ps| then None
    else
      var answer := Converse(w, overrides, ps, i, key, []);
      if answer.Some? then answer else Consult(w, overrides, ps, i + 1, key)
  }

  /** One provider, its nested lookups answered by the resolver; it fails when one of them does. */
  ghost function Converse(
    w: World, overrides: map<int, string>, ps: seq<Provider>, i: nat, key: int, answers: seq<string>
  ): Option<string>
    requires AllWellBehaved(w, ps) && i < |ps|
    decreases w.rank(key), 0, w.limit - |answers|
  {
    assert WellBehaved(w, ps[i]);
    match ps[i].step(key, answers)
    case Answer(path) => path
    case Ask(nested) =>
      var path := Resolve(w, overrides, ps, nested);
      if path.None? then None else Converse(w, overrides, ps, i, key, answers + [path.value])
  }

  // ----- The service -----

  class Service {
    const w: World
    var cache: map<int, string>
    var overrides: map<int, string>
    var providers: seq<Provider>
    var cacheDisabled: bool

    /** Every cached path is what the resolver would answer now. */
    ghost predicate Valid()
      reads this
    {
      && AllWellBehaved(w, providers)
      && Disjoint(providers)
      && (cacheDisabled ==> cache == map[])
      && forall key | key in cache :: Resolve(w, overrides, providers, key) == Some(cache[key])
    }

    constructor (w: World, providers: seq<Provider>)
      requires AllWellBehaved(w, providers) && Disjoint(providers)
      ensures Valid() && this.w == w && this.providers == providers && overrides == map[] && !cacheDisabled
    {
      this.w := w;
      this.providers := providers;
      cache, overrides, cacheDisabled := map[], map[], false;
    }

    /** Get answers as the resolver without a cache does, and changes nothing but the cache. */
    method Get(key: int) returns (result: Option<string>)
      requires Valid()
      modifies this`cache
      ensures Valid() && result == Resolve(w, overrides, providers, key)
      ensures key == DIR_CURRENT ==> result == w.cwd && cache == old(cache)
      decreases w.rank(key), 2, 0
    {
      if key == DIR_CURRENT { return w.cwd; }
      if !cacheDisabled && key in cache { return Some(cache[key]); }
      if key in overrides {
        if !cacheDisabled { cache := cache[key := overrides[key]]; }
        return Some(overrides[key]);
      }
      var path := None;
      var i := 0;
      while i < |providers| && path.None?
        invariant 0 <= i <= |providers| && Valid()
        invariant Consult(w, overrides, providers, 0, key)
               == if path.Some? then path else Consult(w, overrides, providers, i, key)
        decreases |providers| - i, path.None?
      {
        path := Call(i, key);
        if path.None? { i := i + 1; }
      }
      if path.None? || path.value == "" { return None; }
      if w.refersToParent(path.value) {
        path := Some(w.absolute(path.value));
        if path.value == "" { return None; }
      }
      result := path;
      if !cacheDisabled { cache := cache[key := path.value]; }
    }

    /** A provider's function: nested lookups go through the service and fill its cache. */
    method Call(i: nat, key: int) returns (path: Option<string>)
      requires Valid() && i < |providers|
      modifies this`cache
      ensures Valid() && path == Converse(w, overrides, providers, i, key, [])
      decreases w.rank(key), 1, 0
    {
      var answers := [];
      var step := providers[i].step(key, answers);
      assert WellBehaved(w, providers[i]);
      while step.Ask?
        invariant Valid() && step == providers[i].step(key, answers)
        invariant Converse(w, overrides, providers, i, key, []) == Converse(w, overrides, providers, i, key, answers)
        decreases w.limit - |answers|
      {
        var nested := Get(step.key);
        if nested.None? { return None; }
        answers := answers + [nested.value];
        step := providers[i].step(key, answers);
      }
      path := step.path;
    }

    /** OverrideAndCreateIfNeeded; `ready` says whether the directory exists or could be created. */
    method Override(key: int, path: string, isAbsolute: bool, create: bool, ready: bool) returns (done: bool)
      requires Valid() && key > DIR_CURRENT
      modifies this
      ensures Valid() && providers == old(providers) && cacheDisabled == old(cacheDisabled)
      ensures
        var target := OverrideTarget(w, path, isAbsolute, create, ready);
        && done == target.Some?
        && overrides == if done then old(overrides)[key := target.value] else old(overrides)
      ensures done <==> (create ==> ready) && (isAbsolute || w.absolute(path) != "")
      ensures done ==> Resolve(w, overrides, providers, key) == Some(if isAbsolute then path else w.absolute(path))
      ensures !done ==> overrides == old(overrides) && cache == old(cache)
    {
      if create && !ready { return false; }
      var file := path;
      if !isAbsolute {
        file := w.absolute(file);
        if file == "" { return false; }
      }
      cache := map[];
      overrides := overrides[key := file];
      done := true;
    }

    method RemoveOverride(key: int) returns (done: bool)
      requires Valid()
      modifies this
      ensures Valid() && providers == old(providers) && cacheDisabled == old(cacheDisabled)
      ensures done == (key in old(overrides)) && overrides == old(overrides) - {key}
    {
      if key !in overrides { return false; }
      cache := map[];
      overrides := overrides - {key};
      done := true;
    }

    /** The cache is kept: what it holds cannot change when the new provider's keys are apart from the others'. */
    method RegisterProvider(p: Provider)
      requires Valid() && WellBehaved(w, p) && forall i | 0 <= i < |providers| :: Apart(p, providers[i])
      modifies this
      ensures Valid() && providers == [p] + old(providers)
      ensures overrides == old(overrides) && cache == old(cache) && cacheDisabled == old(cacheDisabled)
    {
      forall key | key in cache ensures Resolve(w, overrides, [p] + providers, key) == Some(cache[key]) {
        StillResolves(w, overrides, providers, p, key);
      }
      providers := [p] + providers;
    }

    method DisableCache()
      requires Valid()
      modifies this
      ensures Valid() && cacheDisabled && overrides == old(overrides) && providers == old(providers)
    {
      cache := map[];
      cacheDisabled := true;
    }
  }

  function OverrideTarget(w: World, path: string, isAbsolute: bool, create: bool, ready: bool): Option<string> {
    if create && !ready then None
    else if isAbsolute then Some(path)
    else if w.absolute(path) == "" then None
    else Some(w.absolute(path))
  }

  // ----- What comes back -----

  /** Provided MakeAbsoluteFilePath removes them, no path that comes from a provider is empty or refers to a parent. */
  lemma NoParentComesBack(w: World, overrides: map<int, string>, ps: seq<Provider>, key: int)
    requires AllWellBehaved(w, ps) && key != DIR_CURRENT && key !in overrides
    requires forall path :: !w.refersToParent(w.absolute(path))
    ensures
      var r := Resolve(w, overrides, ps, key);
      r.Some? ==> r.value != "" && !w.refersToParent(r.value)
  {
  }

  /** A path that Get returns as it is. */
  predicate Clean(w: World, path: string) { path != "" && !w.refersToParent(path) }

  /** The providers before and behind the one that claims the key turn it down. */
  lemma {:induction false} OnlyOneAnswers(
    w: World, overrides: map<int, string>, ps: seq<Provider>, i: nat, j: nat, key: int
  )
    requires AllWellBehaved(w, ps) && Disjoint(ps) && j <= i < |ps| && ps[i].claims(key)
    ensures Consult(w, overrides, ps, j, key) == Converse(w, overrides, ps, i, key, [])
    decreases |ps| - j
  {
    assert WellBehaved(w, ps[j]);
    if j < i {
      assert Apart(ps[j], ps[i]);
      OnlyOneAnswers(w, overrides, ps, i, j + 1, key);
    } else {
      NobodyAnswers(w, overrides, ps, i, i + 1, key);
    }
  }

  lemma {:induction false} NobodyAnswers(
    w: World, overrides: map<int, string>, ps: seq<Provider>, i: nat, j: nat, key: int
  )
    requires AllWellBehaved(w, ps) && Disjoint(ps) && i < j <= |ps| && ps[i].claims(key)
    ensures Consult(w, overrides, ps, j, key) == None
    decreases |ps| - j
  {
    if j < |ps| {
      assert Apart(ps[i], ps[j]);
      assert WellBehaved(w, ps[j]);
      NobodyAnswers(w, overrides, ps, i, j + 1, key);
    }
  }

  /** The base provider is among the providers and nothing overrides the key. */
  ghost predicate Serves(w: World, overrides: map<int, string>, ps: seq<Provider>, i: nat, fs: Files, key: int) {
    AllWellBehaved(w, ps) && Disjoint(ps) && i < |ps| && ps[i] == BaseProvider(fs) && key !in overrides
  }

  lemma BaseConsulted(w: World, overrides: map<int, string>, ps: seq<Provider>, i: nat, fs: Files, key: int)
    requires Serves(w, overrides, ps, i, fs, key) && BaseProvider(fs).claims(key)
    ensures Consult(w, overrides, ps, 0, key) == Converse(w, overrides, ps, i, key, [])
    ensures forall answers :: ps[i].step(key, answers) == BaseStep(fs, key, answers)
  {
    OnlyOneAnswers(w, overrides, ps, i, 0, key);
  }

  /** The directories that are looked up directly: DIR_TEMP and DIR_HOME. */
  lemma DirectoriesFound(w: World, overrides: map<int, string>, ps: seq<Provider>, i: nat, fs: Files)
    ensures
      Serves(w, overrides, ps, i, fs, DIR_TEMP) ==>
        && (fs.temp.None? ==> Resolve(w, overrides, ps, DIR_TEMP) == None)
        && (fs.temp.Some? && Clean(w, fs.temp.value) ==> Resolve(w, overrides, ps, DIR_TEMP) == fs.temp)
    ensures
      Serves(w, overrides, ps, i, fs, DIR_HOME) && Clean(w, fs.home) ==>
        Resolve(w, overrides, ps, DIR_HOME) == Some(fs.home)
    ensures
      Serves(w, overrides, ps, i, fs, DIR_HOME) && fs.home != "" && w.refersToParent(fs.home) ==>
        var absolute := w.absolute(fs.home);
        Resolve(w, overrides, ps, DIR_HOME) == if absolute == "" then None else Some(absolute)
  {
    if Serves(w, overrides, ps, i, fs, DIR_TEMP) {
      BaseConsulted(w, overrides, ps, i, fs, DIR_TEMP);
      assert ps[i].step(DIR_TEMP, []) == Answer(fs.temp);
    }
    if Serves(w, overrides, ps, i, fs, DIR_HOME) {
      BaseConsulted(w, overrides, ps, i, fs, DIR_HOME);
      assert ps[i].step(DIR_HOME, []) == Answer(Some(fs.home));
    }
  }

  /** What a directory is derived from, and how: the directories of the executable and of the module, the assets, which
      lie with the module, and the test data below the source root. */
  ghost predicate DerivedBy(fs: Files, key: int, from: int, path: string, derived: Option<string>) {
    || (key == DIR_EXE && from == FILE_EXE && derived == Some(fs.dirName(path)))
    || (key == DIR_MODULE && from == FILE_MODULE && derived == Some(fs.dirName(path)))
    || (key == DIR_ASSETS && from == DIR_MODULE && derived == Some(path))
    || (key == DIR_TEST_DATA && from == DIR_SOURCE_ROOT && derived == fs.testData(path))
  }

  /** They are found where the key they are derived from says, and not found when it is not. */
  lemma DerivedDirectoriesFound(
    w: World, overrides: map<int, string>, ps: seq<Provider>, i: nat, fs: Files, key: int, from: int, path: string,
    derived: Option<string>
  )
    requires Serves(w, overrides, ps, i, fs, key) && DerivedBy(fs, key, from, path, derived)
    ensures Resolve(w, overrides, ps, from) == None ==> Resolve(w, overrides, ps, key) == None
    ensures
      Resolve(w, overrides, ps, from) == Some(path) && (derived.Some? ==> Clean(w, derived.value)) ==>
        Resolve(w, overrides, ps, key) == derived
  {
    BaseConsulted(w, overrides, ps, i, fs, key);
    assert WellBehaved(w, ps[i]);
    assert ps[i].step(key, []) == Ask(from);
    assert ps[i].step(key, [path]) == Answer(derived);
    if Resolve(w, overrides, ps, from) == Some(path) {
      assert [] + [path] == [path];
      assert Converse(w, overrides, ps, i, key, []) == Converse(w, overrides, ps, i, key, [path]);
    }
  }

  // ----- A new provider changes no answer that there was -----

  lemma NewListIsWellBehaved(w: World, ps: seq<Provider>, p: Provider)
    requires AllWellBehaved(w, ps) && WellBehaved(w, p)
    ensures AllWellBehaved(w, [p] + ps)
  {
  }

  lemma StillResolves(w: World, overrides: map<int, string>, ps: seq<Provider>, p: Provider, key: int)
    requires AllWellBehaved(w, ps) && WellBehaved(w, p) && Disjoint(ps)
    requires forall i | 0 <= i < |ps| :: Apart(p, ps[i])
    requires Resolve(w, overrides, ps, key).Some?
    ensures AllWellBehaved(w, [p] + ps)
    ensures Resolve(w, overrides, [p] + ps, key) == Resolve(w, overrides, ps, key)
    decreases w.rank(key), 2, 0
  {
    var all := [p] + ps;
    NewListIsWellBehaved(w, ps, p);
    if key != DIR_CURRENT && key !in overrides {
      var i := StillConsults(w, overrides, ps, p, 0, key);
      assert Apart(p, ps[i]) && !p.claims(key);
      assert all[0] == p;
      assert Converse(w, overrides, all, 0, key, []) == None;
      assert Consult(w, overrides, all, 0, key) == Consult(w, overrides, all, 1, key);
    }
  }

  /** Also names the provider that answers. */
  lemma StillConsults(w: World, overrides: map<int, string>, ps: seq<Provider>, p: Provider, i: nat, key: int)
    returns (who: nat)
    requires AllWellBehaved(w, ps) && WellBehaved(w, p) && Disjoint(ps) && i <= |ps|
    requires forall i | 0 <= i < |ps| :: Apart(p, ps[i])
    requires Consult(w, overrides, ps, i, key).Some?
    ensures AllWellBehaved(w, [p] + ps)
    ensures i <= who < |ps| && ps[who].claims(key)
    ensures Consult(w, overrides, [p] + ps, i + 1, key) == Consult(w, overrides, ps, i, key)
    decreases w.rank(key), 1, |ps| - i
  {
    var all := [p] + ps;
    NewListIsWellBehaved(w, ps, p);
    assert all[i + 1] == ps[i];
    assert WellBehaved(w, ps[i]);
    if Converse(w, overrides, ps, i, key, []).Some? {
      StillConverses(w, overrides, ps, p, i, key, []);
      who := i;
    } else {
      who := StillConsults(w, overrides, ps, p, i + 1, key);
      assert Apart(ps[i], ps[who]);
      assert !ps[i].claims(key);
      assert Converse(w, overrides, all, i + 1, key, []) == None;
    }
  }

  lemma StillConverses(
    w: World, overrides: map<int, string>, ps: seq<Provider>, p: Provider, i: nat, key: int, answers: seq<string>
  )
    requires AllWellBehaved(w, ps) && WellBehaved(w, p) && Disjoint(ps) && i < |ps|
    requires forall i | 0 <= i < |ps| :: Apart(p, ps[i])
    requires Converse(w, overrides, ps, i, key, answers).Some?
    ensures AllWellBehaved(w, [p] + ps)
    ensures Converse(w, overrides, [p] + ps, i + 1, key, answers) == Converse(w, overrides, ps, i, key, answers)
    decreases w.rank(key), 0, w.limit - |answers|
  {
    NewListIsWellBehaved(w, ps, p);
    assert ([p] + ps)[i + 1] == ps[i];
    assert WellBehaved(w, ps[i]);
    var step := ps[i].step(key, answers);
    if step.Ask? {
      StillResolves(w, overrides, ps, p, step.key);
      var path := Resolve(w, overrides, ps, step.key);
      StillConverses(w, overrides, ps, p, i, key, answers + [path.value]);
    }
  }

  // ----- Whole runs -----

  datatype Op =
    | Get(key: int)
    | Override(key: int, path: string, isAbsolute: bool, create: bool, ready: bool)
    | RemoveOverride(key: int)
    | RegisterProvider(provider: Provider)
    | DisableCache

  datatype Reply = Path(path: Option<string>) | Done(done: bool)

  /** The service without a cache: overrides and providers are all it has. */
  datatype Plain = Plain(overrides: map<int, string>, providers: seq<Provider>)

  ghost predicate Legal(w: World, s: Plain, op: Op) {
    && AllWellBehaved(w, s.providers)
    && (op.Override? ==> op.key > DIR_CURRENT)
    && (op.RegisterProvider? ==>
          WellBehaved(w, op.provider) && forall i | 0 <= i < |s.providers| :: Apart(op.provider, s.providers[i]))
  }

  ghost function PlainStep(w: World, s: Plain, op: Op): (Plain, Reply)
    requires Legal(w, s, op)
  {
    match op
    case Get(key) => (s, Path(Resolve(w, s.overrides, s.providers, key)))
    case Override(key, path, isAbsolute, create, ready) =>
      var target := OverrideTarget(w, path, isAbsolute, create, ready);
      (if target.Some? then s.(overrides := s.overrides[key := target.value]) else s, Done(target.Some?))
    case RemoveOverride(key) => (s.(overrides := s.overrides - {key}), Done(key in s.overrides))
    case RegisterProvider(p) => (s.(providers := [p] + s.providers), Done(true))
    case DisableCache => (s, Done(true))
  }

  ghost predicate LegalRun(w: World, s: Plain, ops: seq<Op>)
    decreases |ops|
  {
    ops != [] ==> Legal(w, s, ops[0]) && LegalRun(w, PlainStep(w, s, ops[0]).0, ops[1..])
  }

  ghost function PlainReplies(w: World, s: Plain, ops: seq<Op>): seq<Reply>
    requires LegalRun(w, s, ops)
    decreases |ops|
  {
    if ops == [] then []
    else
      var next := PlainStep(w, s, ops[0]);
      [next.1] + PlainReplies(w, next.0, ops[1..])
  }

  method Perform(s: Service, op: Op) returns (reply: Reply)
    requires s.Valid() && Legal(s.w, Plain(s.overrides, s.providers), op)
    modifies s
    ensures s.Valid()
    ensures (Plain(s.overrides, s.providers), reply) == PlainStep(s.w, old(Plain(s.overrides, s.providers)), op)
  {
    match op
    case Get(key) =>
      var path := s.Get(key);
      reply := Path(path);
    case Override(key, path, isAbsolute, create, ready) =>
      var done := s.Override(key, path, isAbsolute, create, ready);
      reply := Done(done);
    case RemoveOverride(key) =>
      var done := s.RemoveOverride(key);
      reply := Done(done);
    case RegisterProvider(p) =>
      s.RegisterProvider(p);
      reply := Done(true);
    case DisableCache =>
      s.DisableCache();
      reply := Done(true);
  }

  /** Any sequence of calls gets the answers of the service without a cache. */
  method Serve(s: Service, ops: seq<Op>) returns (replies: seq<Reply>)
    requires s.Valid() && LegalRun(s.w, Plain(s.overrides, s.providers), ops)
    modifies s
    ensures s.Valid() && replies == PlainReplies(s.w, old(Plain(s.overrides, s.providers)), ops)
  {
    replies := [];
    ghost var all := PlainReplies(s.w, Plain(s.overrides, s.providers), ops);
    var i := 0;
    assert ops[0..] == ops;
    while i < |ops|
      invariant 0 <= i <= |ops| && s.Valid() && LegalRun(s.w, Plain(s.overrides, s.providers), ops[i..])
      invariant replies + PlainReplies(s.w, Plain(s.overrides, s.providers), ops[i..]) == all
    {
      ghost var before := Plain(s.overrides, s.providers);
      assert ops[i..][1..] == ops[i + 1..];
      var reply := Perform(s, ops[i]);
      assert replies + ([reply] + PlainReplies(s.w, Plain(s.overrides, s.providers), ops[i + 1..])) == all;
      replies := replies + [reply];
      i := i + 1;
    }
  }
}
