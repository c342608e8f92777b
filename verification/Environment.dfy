/** The POSIX AlterEnvironment: one block of pointers and strings. */
module Environment {
  import opened Strings
  import opened Wrappers
  import Seqs

  const NUL: char := 0 as char
  const POINTER_SIZE: nat := 8

  // ----- Lines -----

  /** The variable a line sets: everything before the first '='. */
  function Key(line: string): string { line[..IndexOf(line, '=')] }

  /** ParseEnvLine on a C string: its key, and its length with the NUL. */
  method ParseEnvLine(line: string, input: string) returns (length: nat, key: string)
    requires NUL !in line && line + [NUL] <= input
    ensures length == |line| + 1 && key == Key(line)
  {
    assert forall k | 0 <= k < |line| :: line[k] in line;
    var cur := 0;
    while input[cur] != NUL && input[cur] != '='
      invariant 0 <= cur <= |line| && '=' !in line[..cur]
      decreases |line| - cur
    {
      assert input[cur] == (line + [NUL])[cur];
      assert line[..cur + 1] == line[..cur] + [line[cur]];
      cur := cur + 1;
    }
    assert input[cur] == (line + [NUL])[cur];
    IndexOfAt(line, '=', cur);
    key := input[0..cur];
    assert key == (line + [NUL])[..cur];
    while input[cur] != NUL
      invariant 0 <= cur <= |line|
      decreases |line| - cur
    {
      assert input[cur] == (line + [NUL])[cur];
      cur := cur + 1;
    }
    assert input[cur] == (line + [NUL])[cur];
    length := cur + 1;
  }

  /** The environment's lines that no change names. */
  function Untouched(env: seq<string>, changes: map<string, string>): seq<string> {
    if env == [] then []
    else
      var n := |env| - 1;
      Untouched(env[..n], changes) + if Key(env[n]) in changes then [] else [env[n]]
  }

  /** A line for each change that is not a removal. */
  function Changed(order: seq<string>, changes: map<string, string>): seq<string> {
    if order == [] then []
    else
      var n := |order| - 1;
      Changed(order[..n], changes)
      + if order[n] !in changes || changes[order[n]] == "" then [] else [order[n] + "=" + changes[order[n]]]
  }

  // ----- Packed strings -----

  function Packed(lines: seq<string>): string {
    if lines == [] then "" else Packed(lines[..|lines| - 1]) + lines[|lines| - 1] + [NUL]
  }

  function Starts(lines: seq<string>): (starts: seq<nat>)
    ensures |starts| == |lines|
  {
    if lines == [] then [] else Starts(lines[..|lines| - 1]) + [|Packed(lines[..|lines| - 1])|]
  }

  lemma PackedStep(lines: seq<string>, line: string)
    ensures Packed(lines + [line]) == Packed(lines) + line + [NUL]
    ensures Starts(lines + [line]) == Starts(lines) + [|Packed(lines)|]
  {
    assert (lines + [line])[..|lines|] == lines;
  }

  /** The C string at an offset. */
  function CString(storage: string, at: nat): Option<string> {
    if at > |storage| then None
    else
      var n := IndexOf(storage[at..], NUL);
      if at + n < |storage| then Some(storage[at..at + n]) else None
  }

  ghost predicate NulFree(lines: seq<string>) { forall k | 0 <= k < |lines| :: NUL !in lines[k] }

  /** What is left of a string that is read up to its first NUL. */
  function Cut(line: string): string { line[..IndexOf(line, NUL)] }

  function CutAll(lines: seq<string>): (cut: seq<string>)
    ensures |cut| == |lines|
  {
    seq(|lines|, i requires 0 <= i < |lines| => Cut(lines[i]))
  }

  lemma CutKeeps(line: string)
    ensures Cut(line) == line <==> NUL !in line
  {
    IndexOfIs(line, NUL);
    if NUL !in line { assert IndexOf(line, NUL) == |line|; }
  }

  lemma CStringAt(before: string, line: string, after: string)
    ensures CString(before + line + [NUL] + after, |before|) == Some(Cut(line))
  {
    var s := before + line + [NUL] + after;
    var t := s[|before|..];
    var n := IndexOf(line, NUL);
    IndexOfIs(line, NUL);
    assert t == line + [NUL] + after;
    assert t[..n] == line[..n];
    IndexOfAt(t, NUL, n);
    assert s[|before|..|before| + n] == t[..n];
  }

  lemma {:induction false} PackedHolds(lines: seq<string>, k: nat, after: string)
    requires k < |lines|
    ensures CString(Packed(lines) + after, Starts(lines)[k]) == Some(Cut(lines[k]))
  {
    var n := |lines| - 1;
    var init, line := lines[..n], lines[n];
    if k == n {
      assert Packed(lines) + after == Packed(init) + line + [NUL] + after;
      CStringAt(Packed(init), line, after);
    } else {
      PackedHolds(init, k, line + [NUL] + after);
      assert Packed(lines) + after == Packed(init) + (line + [NUL] + after);
    }
  }

  // ----- The block -----

  datatype Pointer = Null | At(offset: nat)

  /** The returned memory: `words` pointer-sized words, a table at the front and the strings right behind it. */
  datatype Block = Block(words: nat, table: seq<Pointer>, storage: string)

  /** The string a pointer leads to, if it leads into the strings at all. */
  function Follow(b: Block, p: Pointer): Option<string> {
    if p.Null? || p.offset < POINTER_SIZE * |b.table| then None
    else CString(b.storage, p.offset - POINTER_SIZE * |b.table|)
  }

  /** What a reader of the null-terminated table sees from entry `i` on. */
  function Entries(b: Block, i: nat): seq<Option<string>>
    decreases |b.table| - i
  {
    if i >= |b.table| then [None]
    else if b.table[i].Null? then []
    else [Follow(b, b.table[i])] + Entries(b, i + 1)
  }

  /** The pointer table for strings that start at the given offsets. */
  function Table(starts: seq<nat>): (t: seq<Pointer>)
    ensures |t| == |starts| + 1
  {
    seq(|starts|, i requires 0 <= i < |starts| => At(POINTER_SIZE * (|starts| + 1) + starts[i])) + [Null]
  }

  /** The block that holds the given lines. */
  function BlockOf(lines: seq<string>): Block {
    Block(|lines| + 1 + (|Packed(lines)| + POINTER_SIZE - 1) / POINTER_SIZE, Table(Starts(lines)), Packed(lines))
  }

  function Wrapped(lines: seq<string>): (w: seq<Option<string>>)
    ensures |w| == |lines|
  {
    seq(|lines|, i requires 0 <= i < |lines| => Some(lines[i]))
  }

  lemma {:induction false} EntriesFrom(lines: seq<string>, i: nat)
    requires i <= |lines|
    ensures Entries(BlockOf(lines), i) == Wrapped(CutAll(lines))[i..]
    decreases |lines| - i
  {
    if i < |lines| {
      var b, cut := BlockOf(lines), Wrapped(CutAll(lines));
      EntriesFrom(lines, i + 1);
      PackedHolds(lines, i, "");
      assert Packed(lines) + "" == Packed(lines);
      assert Follow(b, b.table[i]) == Some(Cut(lines[i])) == cut[i];
      assert cut[i..] == [cut[i]] + cut[i + 1..];
    }
  }

  lemma WrappedCut(lines: seq<string>)
    ensures Wrapped(CutAll(lines)) == Wrapped(lines) <==> NulFree(lines)
  {
    forall k | 0 <= k < |lines| ensures Wrapped(CutAll(lines))[k] == Wrapped(lines)[k] <==> NUL !in lines[k] {
      CutKeeps(lines[k]);
    }
  }

  /** The table leads, in order and in bounds, to each line up to its first NUL: to the lines themselves if and
      only if none holds a NUL. */
  lemma BlockHoldsLines(lines: seq<string>)
    ensures Entries(BlockOf(lines), 0) == Wrapped(CutAll(lines))
    ensures Entries(BlockOf(lines), 0) == Wrapped(lines) <==> NulFree(lines)
    ensures
      var b := BlockOf(lines);
      var needed := POINTER_SIZE * |b.table| + |b.storage|;
      needed <= POINTER_SIZE * b.words < needed + POINTER_SIZE
  {
    EntriesFrom(lines, 0);
    WrappedCut(lines);
    var n := |Packed(lines)| + POINTER_SIZE - 1;
    assert n == POINTER_SIZE * (n / POINTER_SIZE) + n % POINTER_SIZE;
  }

  lemma {:induction false} UntouchedIsNulFree(env: seq<string>, changes: map<string, string>)
    requires NulFree(env)
    ensures NulFree(Untouched(env, changes))
  {
    if env != [] { UntouchedIsNulFree(env[..|env| - 1], changes); }
  }

  /** No change that adds a line has a NUL in its name or its value. */
  ghost predicate Clean(order: seq<string>, changes: map<string, string>)
    requires forall k | 0 <= k < |order| :: order[k] in changes
  {
    forall k | 0 <= k < |order| && changes[order[k]] != "" :: NUL !in order[k] && NUL !in changes[order[k]]
  }

  lemma CleanStep(order: seq<string>, changes: map<string, string>)
    requires order != [] && forall k | 0 <= k < |order| :: order[k] in changes
    ensures var n := |order| - 1;
            var key := order[n];
            Clean(order, changes)
            <==> Clean(order[..n], changes) && (changes[key] == "" || (NUL !in key && NUL !in changes[key]))
  {
    var n := |order| - 1;
    var init := order[..n];
    if Clean(init, changes) {
      forall k | 0 <= k < n && changes[order[k]] != "" ensures NUL !in order[k] && NUL !in changes[order[k]] {
        assert init[k] == order[k];
      }
    }
  }

  lemma {:induction false} ChangedIsNulFree(order: seq<string>, changes: map<string, string>)
    requires forall k | 0 <= k < |order| :: order[k] in changes
    ensures NulFree(Changed(order, changes)) <==> Clean(order, changes)
  {
    if order != [] {
      var n := |order| - 1;
      var init, key := order[..n], order[n];
      ChangedIsNulFree(init, changes);
      var line := key + "=" + changes[key];
      var added := if changes[key] == "" then [] else [line];
      NulFreeParts(Changed(init, changes), added);
      assert NUL !in line <==> NUL !in key && NUL !in changes[key];
      assert changes[key] != "" ==> added[0] == line;
      CleanStep(order, changes);
    }
  }

  lemma NulFreeParts(a: seq<string>, b: seq<string>)
    ensures NulFree(a + b) <==> NulFree(a) && NulFree(b)
  {
    if NulFree(a + b) {
      forall k | 0 <= k < |a| ensures NUL !in a[k] { assert (a + b)[k] == a[k]; }
      forall k | 0 <= k < |b| ensures NUL !in b[k] { assert (a + b)[|a| + k] == b[k]; }
    }
  }

  // ----- The code -----

  lemma UntouchedStep(env: seq<string>, i: nat, changes: map<string, string>, kept: seq<string>)
    requires i < |env| && kept == Untouched(env[..i], changes)
    ensures Untouched(env[..i + 1], changes) == if Key(env[i]) in changes then kept else kept + [env[i]]
  {
    Seqs.TakeSnoc(env, i);
    Seqs.Whole(kept);
  }

  /** The first loop: packs the lines that are kept. */
  method KeepUntouched(env: seq<string>, changes: map<string, string>) returns (storage: string, indices: seq<nat>)
    requires NulFree(env)
    ensures storage == Packed(Untouched(env, changes)) && indices == Starts(Untouched(env, changes))
  {
    storage, indices := "", [];
    var i := 0;
    while i < |env|
      invariant 0 <= i <= |env|
      invariant storage == Packed(Untouched(env[..i], changes)) && indices == Starts(Untouched(env[..i], changes))
    {
      ghost var kept := Untouched(env[..i], changes);
      UntouchedStep(env, i, changes, kept);
      var input := env[i] + [NUL];
      var length, key := ParseEnvLine(env[i], input);
      if key !in changes {
        PackedStep(kept, env[i]);
        Seqs.Associates(storage, env[i], [NUL]);
        Seqs.Whole(input);
        indices := indices + [|storage|];
        storage := storage + input[..length];
      }
      i := i + 1;
    }
    Seqs.Whole(env);
  }

  lemma ChangedStep(lines: seq<string>, order: seq<string>, i: nat, changes: map<string, string>, done: seq<string>)
    requires i < |order| && order[i] in changes && done == lines + Changed(order[..i], changes)
    ensures
      lines + Changed(order[..i + 1], changes)
      == if changes[order[i]] == "" then done else done + [order[i] + "=" + changes[order[i]]]
  {
    var before := Changed(order[..i], changes);
    Seqs.TakeSnoc(order, i);
    Seqs.Whole(before);
    Seqs.Associates(lines, before, [order[i] + "=" + changes[order[i]]]);
  }

  lemma PackedChange(storage: string, key: string, value: string)
    ensures storage + key + "=" + value + [NUL] == storage + (key + "=" + value) + [NUL]
  {
  }

  /** The second loop: packs the changes. `order` is the map's iteration order. */
  method AddChanged(
    ghost lines: seq<string>, packed: string, starts: seq<nat>, order: seq<string>, changes: map<string, string>
  )
    returns (storage: string, indices: seq<nat>)
    requires packed == Packed(lines) && starts == Starts(lines)
    requires forall k | 0 <= k < |order| :: order[k] in changes
    ensures storage == Packed(lines + Changed(order, changes)) && indices == Starts(lines + Changed(order, changes))
  {
    storage, indices := packed, starts;
    var i := 0;
    Seqs.Whole(lines);
    while i < |order|
      invariant 0 <= i <= |order|
      invariant storage == Packed(lines + Changed(order[..i], changes))
      invariant indices == Starts(lines + Changed(order[..i], changes))
    {
      ghost var done := lines + Changed(order[..i], changes);
      ChangedStep(lines, order, i, changes, done);
      if changes[order[i]] != "" {
        PackedStep(done, order[i] + "=" + changes[order[i]]);
        PackedChange(storage, order[i], changes[order[i]]);
        indices := indices + [|storage|];
        storage := storage + order[i];
        storage := storage + "=";
        storage := storage + changes[order[i]];
        storage := storage + [NUL];
      }
      i := i + 1;
    }
    Seqs.Whole(order);
  }

  /** The last loop: a null-terminated table of pointers behind which the strings lie. */
  method FillTable(indices: seq<nat>) returns (filled: seq<Pointer>)
    ensures filled == Table(indices)
  {
    var table := new Pointer[|indices| + 1];
    var base := POINTER_SIZE * (|indices| + 1);
    var i := 0;
    while i < |indices|
      invariant 0 <= i <= |indices|
      invariant forall k | 0 <= k < i :: table[k] == At(base + indices[k])
    {
      table[i] := At(base + indices[i]);
      i := i + 1;
    }
    table[|indices|] := Null;
    filled := table[..];
  }

  /** The environment's lines are C strings; the changes may hold anything. */
  method AlterEnvironment(env: seq<string>, changes: map<string, string>, order: seq<string>) returns (block: Block)
    requires NulFree(env) && forall k | 0 <= k < |order| :: order[k] in changes
    ensures block == BlockOf(Untouched(env, changes) + Changed(order, changes))
    ensures Entries(block, 0) == Wrapped(Untouched(env, changes) + Changed(order, changes)) <==> Clean(order, changes)
    ensures
      var needed := POINTER_SIZE * |block.table| + |block.storage|;
      needed <= POINTER_SIZE * block.words < needed + POINTER_SIZE
  {
    ghost var kept := Untouched(env, changes);
    var storage, indices := KeepUntouched(env, changes);
    storage, indices := AddChanged(kept, storage, indices, order, changes);
    var words := |indices| + 1 + (|storage| + POINTER_SIZE - 1) / POINTER_SIZE;
    var table := FillTable(indices);
    block := Block(words, table, storage);
    BlockHoldsLines(kept + Changed(order, changes));
    UntouchedIsNulFree(env, changes);
    ChangedIsNulFree(order, changes);
    NulFreeParts(kept, Changed(order, changes));
  }

  // ----- Which lines the new environment has -----

  /** The line sets the variable `k`, or is nothing but its name. */
  predicate About(line: string, k: string) { '=' !in k && (line == k || k + "=" <= line) }

  lemma KeyExactly(line: string, k: string)
    ensures Key(line) == k <==> About(line, k)
  {
    IndexOfIs(line, '=');
    if About(line, k) {
      assert line[..|k|] == k;
      assert line != k ==> line[|k|] == (k + "=")[|k|];
      IndexOfAt(line, '=', |k|);
    }
  }

  /** Lines are kept or left out one by one, in order: exactly those about a changed variable are left out. */
  lemma {:induction false} UntouchedExactly(a: seq<string>, b: seq<string>, line: string, changes: map<string, string>)
    ensures Untouched(a + b, changes) == Untouched(a, changes) + Untouched(b, changes)
    ensures Untouched([line], changes) == if exists k :: k in changes && About(line, k) then [] else [line]
  {
    assert [line][..0] == [];
    KeyExactly(line, Key(line));
    if k :| k in changes && About(line, k) { KeyExactly(line, k); }
    if b == [] {
      Seqs.Whole(a);
      Seqs.Whole(Untouched(a, changes));
    } else {
      var n := |b| - 1;
      UntouchedExactly(a, b[..n], line, changes);
      Seqs.Snoc(b);
      Seqs.Associates(a, b[..n], [b[n]]);
      Seqs.TakeAppended(a + b[..n], [b[n]]);
      Seqs.Associates(Untouched(a, changes), Untouched(b[..n], changes), if Key(b[n]) in changes then [] else [b[n]]);
    }
  }

  /** Each change that is not a removal adds one line, in iteration order. */
  lemma {:induction false} ChangedExactly(a: seq<string>, b: seq<string>, k: string, changes: map<string, string>)
    requires k in changes
    ensures Changed(a + b, changes) == Changed(a, changes) + Changed(b, changes)
    ensures Changed([k], changes) == if changes[k] == "" then [] else [k + "=" + changes[k]]
  {
    assert [k][..0] == [];
    if b == [] {
      Seqs.Whole(a);
      Seqs.Whole(Changed(a, changes));
    } else {
      var n := |b| - 1;
      ChangedExactly(a, b[..n], k, changes);
      Seqs.Snoc(b);
      Seqs.Associates(a, b[..n], [b[n]]);
      Seqs.TakeAppended(a + b[..n], [b[n]]);
      Seqs.Associates(Changed(a, changes), Changed(b[..n], changes), Changed(b, changes)[|Changed(b[..n], changes)|..]);
    }
  }

  // ----- What the new environment says -----

  predicate Sets(line: string, name: string) { IndexOf(line, '=') < |line| && Key(line) == name }

  /** getenv: the value on the first line that sets the variable. */
  function Lookup(lines: seq<string>, name: string): Option<string> {
    if lines == [] then None
    else if Sets(lines[0], name) then Some(lines[0][|name| + 1..])
    else Lookup(lines[1..], name)
  }

  lemma {:induction false} LookupAppend(a: seq<string>, b: seq<string>, name: string)
    ensures Lookup(a + b, name) == if Lookup(a, name).Some? then Lookup(a, name) else Lookup(b, name)
  {
    if a == [] {
      assert a + b == b;
    } else {
      assert (a + b)[1..] == a[1..] + b;
      LookupAppend(a[1..], b, name);
    }
  }

  lemma LookupOne(line: string, name: string)
    ensures Lookup([line], name) == if Sets(line, name) then Some(line[|name| + 1..]) else None
  {
  }

  /** Kept lines answer for the variables that are not changed, and only for them. */
  lemma {:induction false} LookupUntouched(env: seq<string>, changes: map<string, string>, name: string)
    ensures Lookup(Untouched(env, changes), name) == if name in changes then None else Lookup(env, name)
  {
    if env != [] {
      var n := |env| - 1;
      var init, line := env[..n], env[n];
      var kept := Untouched(init, changes);
      LookupUntouched(init, changes, name);
      assert env == init + [line];
      LookupAppend(init, [line], name);
      LookupAppend(kept, [line], name);
      assert kept + [] == kept;
      LookupOne(line, name);
    }
  }

  lemma ChangeLine(key: string, value: string)
    requires '=' !in key
    ensures var line := key + "=" + value; Sets(line, key) && line[|key| + 1..] == value
  {
    var line := key + "=" + value;
    assert line[..|key|] == key && line[|key|] == '=';
    IndexOfAt(line, '=', |key|);
  }

  lemma {:induction false} LookupChanged(order: seq<string>, changes: map<string, string>, name: string)
    requires forall k | 0 <= k < |order| :: order[k] in changes && '=' !in order[k]
    ensures Lookup(Changed(order, changes), name)
         == if name in order && changes[name] != "" then Some(changes[name]) else None
  {
    if order != [] {
      var n := |order| - 1;
      var key := order[n];
      var done := Changed(order[..n], changes);
      assert order == order[..n] + [key];
      LookupChanged(order[..n], changes, name);
      ChangeLine(key, changes[key]);
      var line := key + "=" + changes[key];
      LookupOne(line, name);
      LookupAppend(done, [line], name);
      assert done + [] == done;
    }
  }

  /** In the new environment a changed variable has its new value or none, and any other is as it was. */
  lemma AlteredMeaning(env: seq<string>, changes: map<string, string>, order: seq<string>, name: string)
    requires forall k :: k in order <==> k in changes
    requires forall k | 0 <= k < |order| :: '=' !in order[k]
    ensures
      Lookup(Untouched(env, changes) + Changed(order, changes), name)
      == if name !in changes then Lookup(env, name) else if changes[name] == "" then None else Some(changes[name])
  {
    assert forall k | 0 <= k < |order| :: order[k] in order;
    LookupAppend(Untouched(env, changes), Changed(order, changes), name);
    LookupUntouched(env, changes, name);
    LookupChanged(order, changes, name);
  }
}
