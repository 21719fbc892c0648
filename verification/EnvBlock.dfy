/** The environment of a child: the builder's override log, the block handed to
    `CreateProcessW`, and the reader of such blocks. */
module EnvBlock {
  import opened Termination

  /** A UTF-16 code unit; names and values are sequences of them. */
  newtype Unit = x: int | 0 <= x < 0x1_0000
  type Text = seq<Unit>

  const NUL: Unit := 0
  const EQUALS: Unit := 61

  datatype Pair = Pair(key: Text, value: Text)

  // --------------------------------------------------------------- the builder

  datatype EnvCall = SetVar(key: Text, value: Text) | RemoveVar(key: Text) | ClearAll

  datatype EnvState = EnvState(clear: bool, envs: seq<Pair>)

  /** `retain(|(k, _)| k != key)`: the pairs with another exact key, in order. */
  function Without(pairs: seq<Pair>, key: Text): seq<Pair> {
    if pairs == [] then []
    else if pairs[0].key == key then Without(pairs[1..], key)
    else [pairs[0]] + Without(pairs[1..], key)
  }

  function Apply(st: EnvState, call: EnvCall): EnvState {
    match call
    case SetVar(k, v) => st.(envs := st.envs + [Pair(k, v)])
    case RemoveVar(k) => st.(envs := Without(st.envs, k))
    case ClearAll => EnvState(true, [])
  }

  function RunCalls(calls: seq<EnvCall>): EnvState {
    if calls == [] then EnvState(false, [])
    else Apply(RunCalls(calls[..|calls| - 1]), calls[|calls| - 1])
  }

  // ----------------------------------------------------------------- the block

  function Override(pairs: seq<Pair>, p: Pair): seq<Pair> {
    Without(pairs, p.key) + [p]
  }

  function Merge(pairs: seq<Pair>, envs: seq<Pair>): seq<Pair> {
    if envs == [] then pairs
    else Override(Merge(pairs, envs[..|envs| - 1]), envs[|envs| - 1])
  }

  function Upper(u: Unit): Unit {
    if 97 <= u <= 122 then u - 32 else u
  }

  function UpperWide(t: Text): Text {
    seq(|t|, i requires 0 <= i < |t| => Upper(t[i]))
  }

  /** Lexicographic order on code units, a proper prefix first. */
  predicate LexLe(a: Text, b: Text) {
    a == [] || (b != [] && (a[0] < b[0] || (a[0] == b[0] && LexLe(a[1..], b[1..]))))
  }

  predicate Le(p: Pair, q: Pair) {
    LexLe(UpperWide(p.key), UpperWide(q.key))
  }

  function Insert(p: Pair, sorted: seq<Pair>): seq<Pair> {
    if sorted == [] then [p]
    else if Le(p, sorted[0]) then [p] + sorted
    else [sorted[0]] + Insert(p, sorted[1..])
  }

  /** `sort_by_key(upper_wide)`.  Any stable sort computes this (see `StableSortIsUnique`). */
  function StableSort(pairs: seq<Pair>): seq<Pair> {
    if pairs == [] then [] else Insert(pairs[0], StableSort(pairs[1..]))
  }

  function Entry(p: Pair): Text {
    p.key + [EQUALS] + p.value + [NUL]
  }

  function Serialize(pairs: seq<Pair>): Text {
    if pairs == [] then [NUL] else Entry(pairs[0]) + Serialize(pairs[1..])
  }

  function MergedPairs(st: EnvState, parent: seq<Pair>): seq<Pair> {
    Merge(if st.clear then [] else parent, st.envs)
  }

  function BlockOf(st: EnvState, parent: seq<Pair>): Option<Text> {
    if !st.clear && st.envs == [] then None
    else Some(Serialize(StableSort(MergedPairs(st, parent))))
  }

  /** The environment part of the command builder. */
  class WorrywartCommand {
    var envs: seq<Pair>
    var envClear: bool

    function State(): EnvState
      reads this
    {
      EnvState(envClear, envs)
    }

    constructor ()
      ensures State() == RunCalls([])
    {
      envs, envClear := [], false;
    }

    method Env(key: Text, value: Text)
      modifies this
      ensures State() == Apply(old(State()), SetVar(key, value))
    {
      envs := envs + [Pair(key, value)];
    }

    method EnvRemove(key: Text)
      modifies this
      ensures State() == Apply(old(State()), RemoveVar(key))
    {
      envs := Without(envs, key);
    }

    method EnvClear()
      modifies this
      ensures State() == Apply(old(State()), ClearAll)
    {
      envClear := true;
      envs := [];
    }

    /** What `spawn` pushes when the sentinel is on, after every call of the builder. */
    method PushSentinelHandle(handle: Text)
      modifies this
      ensures State() == Apply(old(State()), SetVar(SENTINEL_VAR, handle))
    {
      envs := envs + [Pair(SENTINEL_VAR, handle)];
    }

    /** `build_env_block`, with the process environment it reads as a parameter. */
    method BuildEnvBlock(parent: seq<Pair>) returns (block: Option<Text>)
      ensures block == BlockOf(State(), parent)
    {
      if !envClear && envs == [] {
        return None;
      }
      var pairs := if envClear then [] else parent;
      pairs := ApplyOverrides(pairs, envs);
      pairs := StableSort(pairs);
      var text := WriteBlock(pairs);
      block := Some(text);
    }
  }

  /** The first loop of `build_env_block`. */
  method ApplyOverrides(inherited: seq<Pair>, envs: seq<Pair>) returns (pairs: seq<Pair>)
    ensures pairs == Merge(inherited, envs)
  {
    pairs := inherited;
    for i := 0 to |envs|
      invariant pairs == Merge(inherited, envs[..i])
    {
      assert envs[..i + 1][..i] == envs[..i];
      pairs := Without(pairs, envs[i].key);
      pairs := pairs + [envs[i]];
    }
    assert envs[..|envs|] == envs;
  }

  /** The body of the second loop: four pushes. */
  method PushEntry(block: Text, p: Pair) returns (longer: Text)
    ensures longer == block + Entry(p)
  {
    longer := block + p.key;
    longer := longer + [EQUALS];
    longer := longer + p.value;
    longer := longer + [NUL];
  }

  /** The second loop of `build_env_block` and the terminator. */
  method WriteBlock(pairs: seq<Pair>) returns (block: Text)
    ensures block == Serialize(pairs)
  {
    block := [];
    for i := 0 to |pairs|
      invariant block + Serialize(pairs[i..]) == Serialize(pairs)
    {
      assert pairs[i..][1..] == pairs[i + 1..];
      block := PushEntry(block, pairs[i]);
    }
    block := block + [NUL];
  }

  /** "WORRYWART_SENTINEL_HANDLE" */
  const SENTINEL_VAR: Text :=
    [87, 79, 82, 82, 89, 87, 65, 82, 84, 95, 83, 69, 78, 84, 73, 78, 69, 76, 95, 72, 65, 78, 68, 76, 69]

  // ------------------------------------------------------------------ sorting

  predicate SameLetter(u: Unit, v: Unit) {
    u == v || (65 <= u <= 90 && v == u + 32) || (65 <= v <= 90 && u == v + 32)
  }

  /** Two names fold to the same sort key exactly if they differ in the case of ASCII letters
      only, and no key keeps a lower-case letter. */
  lemma {:induction false} FoldMeaning(a: Text, b: Text)
    ensures UpperWide(a) == UpperWide(b)
       <==> |a| == |b| && forall i :: 0 <= i < |a| ==> SameLetter(a[i], b[i])
    ensures forall u :: u in UpperWide(a) ==> !(97 <= u <= 122)
  {
    if UpperWide(a) == UpperWide(b) {
      assert |UpperWide(a)| == |a| && |UpperWide(b)| == |b|;
      forall i | 0 <= i < |a| ensures SameLetter(a[i], b[i]) {
        assert UpperWide(a)[i] == UpperWide(b)[i];
      }
    }
  }

  /** The length of the longest common prefix. */
  function CommonPrefix(a: Text, b: Text): (n: nat)
    ensures n <= |a| && n <= |b| && a[..n] == b[..n]
    ensures n < |a| && n < |b| ==> a[n] != b[n]
  {
    if a == [] || b == [] || a[0] != b[0] then 0 else
      var n := 1 + CommonPrefix(a[1..], b[1..]);
      assert a[..n] == [a[0]] + a[1..][..n - 1] && b[..n] == [b[0]] + b[1..][..n - 1];
      n
  }

  /** The order compares code units at the first difference, and a prefix comes first. */
  lemma {:induction false} LexMeaning(a: Text, b: Text)
    ensures var n := CommonPrefix(a, b);
      LexLe(a, b) <==> n == |a| || (n < |b| && a[n] < b[n])
  {
    if a != [] && b != [] && a[0] == b[0] {
      LexMeaning(a[1..], b[1..]);
    }
  }

  lemma {:induction false} LexReflexive(a: Text)
    ensures LexLe(a, a)
  {
    if a != [] {
      LexReflexive(a[1..]);
    }
  }

  lemma {:induction false} LexTotal(a: Text, b: Text)
    ensures LexLe(a, b) || LexLe(b, a)
  {
    if a != [] && b != [] {
      LexTotal(a[1..], b[1..]);
    }
  }

  lemma {:induction false} LexTransitive(a: Text, b: Text, c: Text)
    requires LexLe(a, b) && LexLe(b, c)
    ensures LexLe(a, c)
  {
    if a != [] && a[0] == b[0] == c[0] {
      LexTransitive(a[1..], b[1..], c[1..]);
    }
  }

  lemma {:induction false} LexAntisymmetric(a: Text, b: Text)
    requires LexLe(a, b) && LexLe(b, a)
    ensures a == b
  {
    if a != [] {
      LexAntisymmetric(a[1..], b[1..]);
      assert a == [a[0]] + a[1..] && b == [b[0]] + b[1..];
    }
  }

  predicate IsSorted(pairs: seq<Pair>) {
    forall i, j :: 0 <= i < j < |pairs| ==> Le(pairs[i], pairs[j])
  }

  /** The pairs whose upper-cased name is `name`, in order. */
  function WithName(pairs: seq<Pair>, name: Text): seq<Pair> {
    if pairs == [] then []
    else if UpperWide(pairs[0].key) == name then [pairs[0]] + WithName(pairs[1..], name)
    else WithName(pairs[1..], name)
  }

  lemma {:induction false} InsertMultiset(p: Pair, sorted: seq<Pair>)
    ensures multiset(Insert(p, sorted)) == multiset{p} + multiset(sorted)
  {
    if sorted != [] {
      assert sorted == [sorted[0]] + sorted[1..];
      InsertMultiset(p, sorted[1..]);
    }
  }

  lemma {:induction false} SortedCons(p: Pair, rest: seq<Pair>)
    requires IsSorted(rest) && forall x :: x in rest ==> Le(p, x)
    ensures IsSorted([p] + rest)
  {}

  lemma {:induction false} InsertSorted(p: Pair, sorted: seq<Pair>)
    requires IsSorted(sorted)
    ensures IsSorted(Insert(p, sorted))
  {
    if sorted != [] {
      var q, rest := sorted[0], sorted[1..];
      if Le(p, q) {
        forall x | x in sorted ensures Le(p, x) {
          if x != q {
            LexTransitive(UpperWide(p.key), UpperWide(q.key), UpperWide(x.key));
          }
        }
        SortedCons(p, sorted);
      } else {
        LexTotal(UpperWide(p.key), UpperWide(q.key));
        InsertSorted(p, rest);
        InsertMultiset(p, rest);
        forall x | x in Insert(p, rest) ensures Le(q, x) {
          assert x in multiset(Insert(p, rest));
        }
        SortedCons(q, Insert(p, rest));
      }
    }
  }

  lemma {:induction false} InsertStable(p: Pair, sorted: seq<Pair>, name: Text)
    ensures WithName(Insert(p, sorted), name) == WithName([p] + sorted, name)
  {
    assert ([p] + sorted)[1..] == sorted;
    if sorted != [] && !Le(p, sorted[0]) {
      LexReflexive(UpperWide(p.key));
      InsertStable(p, sorted[1..], name);
      assert ([p] + sorted[1..])[1..] == sorted[1..];
      var all := [sorted[0]] + Insert(p, sorted[1..]);
      assert all[1..] == Insert(p, sorted[1..]);
    }
  }

  /** The sort is a stable, sorted permutation. */
  lemma {:induction false} StableSortIsStable(pairs: seq<Pair>, name: Text)
    ensures IsSorted(StableSort(pairs))
    ensures multiset(StableSort(pairs)) == multiset(pairs)
    ensures WithName(StableSort(pairs), name) == WithName(pairs, name)
  {
    if pairs != [] {
      var sorted := StableSort(pairs[1..]);
      StableSortIsStable(pairs[1..], name);
      InsertSorted(pairs[0], sorted);
      InsertMultiset(pairs[0], sorted);
      InsertStable(pairs[0], sorted, name);
      assert pairs == [pairs[0]] + pairs[1..];
      assert ([pairs[0]] + sorted)[1..] == sorted;
    }
  }

  lemma {:induction false} WithNameMember(pairs: seq<Pair>, name: Text)
    ensures forall p :: p in WithName(pairs, name) ==> p in pairs && UpperWide(p.key) == name
    ensures forall p :: p in pairs && UpperWide(p.key) == name ==> p in WithName(pairs, name)
  {
    if pairs != [] {
      WithNameMember(pairs[1..], name);
      assert pairs == [pairs[0]] + pairs[1..];
    }
  }

  lemma {:induction false} SomethingNamed(pairs: seq<Pair>)
    ensures pairs == [] || exists name :: WithName(pairs, name) != []
  {
    if pairs != [] {
      var name := UpperWide(pairs[0].key);
      assert WithName(pairs, name)[0] == pairs[0];
    }
  }

  lemma {:induction false} FirstNameLe(a: seq<Pair>, b: seq<Pair>)
    requires a != [] && b != [] && IsSorted(b)
    requires WithName(a, UpperWide(a[0].key)) == WithName(b, UpperWide(a[0].key))
    ensures Le(b[0], a[0])
  {
    var name := UpperWide(a[0].key);
    WithNameMember(b, name);
    assert a[0] == WithName(a, name)[0];
    assert a[0] in WithName(b, name);
    var i :| 0 <= i < |b| && b[i] == a[0];
    if i == 0 {
      LexReflexive(name);
    }
  }

  /** Being sorted and keeping the order within each name determines the result: whichever
      stable sorting algorithm runs, the block is the same. */
  lemma {:induction false} StableSortIsUnique(a: seq<Pair>, b: seq<Pair>)
    requires IsSorted(a) && IsSorted(b)
    requires forall name :: WithName(a, name) == WithName(b, name)
    ensures a == b
  {
    if a == [] || b == [] {
      SomethingNamed(a);
      SomethingNamed(b);
    } else {
      FirstNameLe(a, b);
      FirstNameLe(b, a);
      LexAntisymmetric(UpperWide(a[0].key), UpperWide(b[0].key));
      var first := UpperWide(a[0].key);
      assert WithName(a, first)[0] == a[0] && WithName(b, first)[0] == b[0];
      forall name ensures WithName(a[1..], name) == WithName(b[1..], name) {
        var head := if first == name then 1 else 0;
        assert WithName(a[1..], name) == WithName(a, name)[head..];
        assert WithName(b[1..], name) == WithName(b, name)[head..];
      }
      StableSortIsUnique(a[1..], b[1..]);
      assert a == [a[0]] + a[1..] && b == [b[0]] + b[1..];
    }
  }

  // ----------------------------------------------------------------- meanings

  /** What a list of pairs means to a reader that takes the first pair with an exact key. */
  function Denotes(pairs: seq<Pair>): map<Text, Text> {
    if pairs == [] then map[] else Denotes(pairs[1..])[pairs[0].key := pairs[0].value]
  }

  /** The reference meaning of a sequence of builder calls: a plain map of overrides. */
  function Overrides(calls: seq<EnvCall>): map<Text, Text> {
    if calls == [] then map[]
    else
      var m := Overrides(calls[..|calls| - 1]);
      match calls[|calls| - 1]
      case SetVar(k, v) => m[k := v]
      case RemoveVar(k) => m - {k}
      case ClearAll => map[]
  }

  predicate Cleared(calls: seq<EnvCall>) {
    ClearAll in calls
  }

  function Environment(calls: seq<EnvCall>, parent: seq<Pair>): map<Text, Text> {
    (if Cleared(calls) then map[] else Denotes(parent)) + Overrides(calls)
  }

  function LastWins(envs: seq<Pair>): map<Text, Text> {
    if envs == [] then map[]
    else LastWins(envs[..|envs| - 1])[envs[|envs| - 1].key := envs[|envs| - 1].value]
  }

  lemma {:induction false} DenotesWithout(pairs: seq<Pair>, key: Text)
    ensures Denotes(Without(pairs, key)) == Denotes(pairs) - {key}
  {
    if pairs != [] {
      DenotesWithout(pairs[1..], key);
      var kept := [pairs[0]] + Without(pairs[1..], key);
      assert kept[1..] == Without(pairs[1..], key);
    }
  }

  lemma {:induction false} DenotesAppend(pairs: seq<Pair>, p: Pair)
    requires p.key !in Denotes(pairs)
    ensures Denotes(pairs + [p]) == Denotes(pairs)[p.key := p.value]
  {
    if pairs == [] {
      assert pairs + [p] == [p];
    } else {
      assert (pairs + [p])[1..] == pairs[1..] + [p];
      DenotesAppend(pairs[1..], p);
    }
  }

  lemma {:induction false} DenotesMerge(pairs: seq<Pair>, envs: seq<Pair>)
    ensures Denotes(Merge(pairs, envs)) == Denotes(pairs) + LastWins(envs)
  {
    if envs != [] {
      var p := envs[|envs| - 1];
      var merged := Merge(pairs, envs[..|envs| - 1]);
      DenotesMerge(pairs, envs[..|envs| - 1]);
      DenotesWithout(merged, p.key);
      DenotesAppend(Without(merged, p.key), p);
      UpdateOverlay(Denotes(pairs), LastWins(envs[..|envs| - 1]), p.key, p.value);
    }
  }

  lemma {:induction false} DenotesInsert(p: Pair, sorted: seq<Pair>)
    ensures Denotes(Insert(p, sorted)) == Denotes(sorted)[p.key := p.value]
  {
    if sorted != [] {
      if Le(p, sorted[0]) {
        assert ([p] + sorted)[1..] == sorted;
      } else {
        LexReflexive(UpperWide(p.key));
        DenotesInsert(p, sorted[1..]);
        var all := [sorted[0]] + Insert(p, sorted[1..]);
        assert all[1..] == Insert(p, sorted[1..]);
      }
    }
  }

  lemma {:induction false} DenotesStableSort(pairs: seq<Pair>)
    ensures Denotes(StableSort(pairs)) == Denotes(pairs)
  {
    if pairs != [] {
      DenotesStableSort(pairs[1..]);
      DenotesInsert(pairs[0], StableSort(pairs[1..]));
    }
  }

  lemma {:induction false} RemoveAfterUpdate(m: map<Text, Text>, k: Text, v: Text, removed: Text)
    ensures m[k := v] - {removed} == if k == removed then m - {removed} else (m - {removed})[k := v]
  {}

  lemma {:induction false} UpdateOverlay(base: map<Text, Text>, over: map<Text, Text>, k: Text, v: Text)
    ensures ((base + over) - {k})[k := v] == base + over[k := v]
  {}

  lemma {:induction false} LastWinsAppend(envs: seq<Pair>, p: Pair)
    ensures LastWins(envs + [p]) == LastWins(envs)[p.key := p.value]
  {}

  lemma {:induction false} LastWinsWithout(envs: seq<Pair>, key: Text)
    ensures LastWins(Without(envs, key)) == LastWins(envs) - {key}
  {
    if envs != [] {
      var front, p := envs[..|envs| - 1], envs[|envs| - 1];
      assert envs == front + [p];
      LastWinsWithout(front, key);
      WithoutAppend(front, p, key);
      LastWinsAppend(front, p);
      LastWinsAppend(Without(front, key), p);
      RemoveAfterUpdate(LastWins(front), p.key, p.value, key);
    }
  }

  lemma {:induction false} WithoutAppend(pairs: seq<Pair>, p: Pair, key: Text)
    ensures Without(pairs + [p], key)
         == if p.key == key then Without(pairs, key) else Without(pairs, key) + [p]
  {
    if pairs == [] {
      assert pairs + [p] == [p] && [p][1..] == [];
    } else {
      assert (pairs + [p])[1..] == pairs[1..] + [p];
      WithoutAppend(pairs[1..], p, key);
    }
  }

  /** The override log is a faithful record of the calls. */
  lemma {:induction false} LogMeansOverrides(calls: seq<EnvCall>)
    ensures RunCalls(calls).clear == Cleared(calls)
    ensures LastWins(RunCalls(calls).envs) == Overrides(calls)
  {
    if calls != [] {
      var n := |calls| - 1;
      LogMeansOverrides(calls[..n]);
      assert calls == calls[..n] + [calls[n]];
      var envs := RunCalls(calls[..n]).envs;
      match calls[n]
      case SetVar(k, v) => assert (envs + [Pair(k, v)])[..|envs|] == envs;
      case RemoveVar(k) => LastWinsWithout(envs, k);
      case ClearAll =>
    }
  }

  /** The pairs a child finds: those its block is written from, or its parent's own when no
      block is passed. */
  function ChildPairs(calls: seq<EnvCall>, parent: seq<Pair>): seq<Pair> {
    var st := RunCalls(calls);
    if BlockOf(st, parent).None? then parent else StableSort(MergedPairs(st, parent))
  }

  /** Whatever the calls, the pairs that the child finds mean the reference map. */
  lemma {:induction false} PairsMeanEnvironment(calls: seq<EnvCall>, parent: seq<Pair>)
    ensures Denotes(ChildPairs(calls, parent)) == Environment(calls, parent)
  {
    var st := RunCalls(calls);
    LogMeansOverrides(calls);
    DenotesMerge(if st.clear then [] else parent, st.envs);
    DenotesStableSort(MergedPairs(st, parent));
  }

  lemma {:induction false} DenotesKeys(pairs: seq<Pair>, key: Text)
    ensures key in Denotes(pairs) <==> exists p :: p in pairs && p.key == key
  {
    if pairs != [] {
      DenotesKeys(pairs[1..], key);
      assert pairs == [pairs[0]] + pairs[1..];
    }
  }

  /** A reader that ignores case finds a name exactly if the reference map has it in some case. */
  lemma {:induction false} NameFound(calls: seq<EnvCall>, parent: seq<Pair>, name: Text)
    ensures WithName(ChildPairs(calls, parent), name) == []
       <==> forall k :: k in Environment(calls, parent) ==> UpperWide(k) != name
  {
    var pairs := ChildPairs(calls, parent);
    PairsMeanEnvironment(calls, parent);
    WithNameMember(pairs, name);
    forall k ensures k in Denotes(pairs) <==> exists p :: p in pairs && p.key == k {
      DenotesKeys(pairs, k);
    }
    if WithName(pairs, name) != [] {
      assert WithName(pairs, name)[0] in pairs;
    }
  }

  /** `env_remove` is documented to remove a variable from the child's environment; it removes
      overrides of that exact name.  A child that looks names up without regard to case, as
      Windows does, no longer finds the variable exactly when no inherited name and no other
      override spells it in any case; one that compares exactly, when it was not inherited. */
  lemma {:induction false} RemoveHidesOnlyOverrides(calls: seq<EnvCall>, key: Text, parent: seq<Pair>)
    ensures
      var pairs := ChildPairs(calls + [RemoveVar(key)], parent);
      && (WithName(pairs, UpperWide(key)) == [] <==>
            && (Cleared(calls) || forall p :: p in parent ==> UpperWide(p.key) != UpperWide(key))
            && (forall k :: k in Overrides(calls) && k != key ==> UpperWide(k) != UpperWide(key)))
      && (key !in Denotes(pairs) <==> Cleared(calls) || key !in Denotes(parent))
  {
    var all, name := calls + [RemoveVar(key)], UpperWide(key);
    assert all[..|calls|] == calls;
    PairsMeanEnvironment(all, parent);
    NameFound(all, parent, name);
    var base := if Cleared(calls) then map[] else Denotes(parent);
    assert Environment(all, parent) == base + (Overrides(calls) - {key});
    forall k ensures k in Denotes(parent) <==> exists p :: p in parent && p.key == k {
      DenotesKeys(parent, k);
    }
  }

  /** Two inputs at which the variable stays: it was inherited, and nothing is overridden; and
      an override of the same name in another case, even in a cleared environment. */
  lemma {:induction false} RemoveLeavesVariable(key: Text, other: Text, value: Text)
    ensures WithName(ChildPairs([RemoveVar(key)], [Pair(key, value)]), UpperWide(key)) == [Pair(key, value)]
    ensures other != key && UpperWide(other) == UpperWide(key) ==>
      WithName(ChildPairs([ClearAll, SetVar(other, value), RemoveVar(key)], []), UpperWide(key))
        == [Pair(other, value)]
  {
    var first, second := [RemoveVar(key)], [ClearAll, SetVar(other, value), RemoveVar(key)];
    assert first[..0] == [] && second[..2] == [ClearAll, SetVar(other, value)];
    assert second[..2][..1] == [ClearAll] && [ClearAll][..0] == [];
    assert RunCalls(first) == EnvState(false, []);
    var mine := Pair(other, value);
    assert RunCalls(second[..2]) == EnvState(true, [mine]);
    assert [mine][1..] == [] && (other != key ==> Without([mine], key) == [mine]);
    assert other != key ==> RunCalls(second) == EnvState(true, [mine]);
    assert [mine][..0] == [] && Merge([], [mine]) == Override([], mine) == [mine];
    assert StableSort([mine]) == [mine];
  }

  // ------------------------------------------------------------ how often, who wins

  function CountKey(pairs: seq<Pair>, key: Text): nat {
    if pairs == [] then 0 else (if pairs[0].key == key then 1 else 0) + CountKey(pairs[1..], key)
  }

  lemma {:induction false} CountKeyAppend(a: seq<Pair>, p: Pair, key: Text)
    ensures CountKey(a + [p], key) == CountKey(a, key) + if p.key == key then 1 else 0
  {
    if a == [] {
      assert a + [p] == [p] && [p][1..] == [];
    } else {
      assert (a + [p])[1..] == a[1..] + [p];
      CountKeyAppend(a[1..], p, key);
    }
  }

  lemma {:induction false} CountKeyWithout(pairs: seq<Pair>, removed: Text, key: Text)
    ensures CountKey(Without(pairs, removed), key) == if key == removed then 0 else CountKey(pairs, key)
  {
    if pairs != [] {
      CountKeyWithout(pairs[1..], removed, key);
      var kept := [pairs[0]] + Without(pairs[1..], removed);
      assert kept[1..] == Without(pairs[1..], removed);
    }
  }

  lemma {:induction false} CountKeySort(pairs: seq<Pair>, key: Text)
    ensures CountKey(StableSort(pairs), key) == CountKey(pairs, key)
  {
    if pairs != [] {
      CountKeySort(pairs[1..], key);
      CountKeyInsert(pairs[0], StableSort(pairs[1..]), key);
    }
  }

  lemma {:induction false} CountKeyInsert(p: Pair, sorted: seq<Pair>, key: Text)
    ensures CountKey(Insert(p, sorted), key) == CountKey(sorted, key) + if p.key == key then 1 else 0
  {
    assert ([p] + sorted)[1..] == sorted;
    if sorted != [] && !Le(p, sorted[0]) {
      CountKeyInsert(p, sorted[1..], key);
      var all := [sorted[0]] + Insert(p, sorted[1..]);
      assert all[1..] == Insert(p, sorted[1..]);
    }
  }

  lemma {:induction false} CountKeyMerge(pairs: seq<Pair>, envs: seq<Pair>, key: Text)
    ensures CountKey(Merge(pairs, envs), key) == if key in LastWins(envs) then 1 else CountKey(pairs, key)
  {
    if envs != [] {
      var n := |envs| - 1;
      var merged := Merge(pairs, envs[..n]);
      CountKeyMerge(pairs, envs[..n], key);
      CountKeyWithout(merged, envs[n].key, key);
      CountKeyAppend(Without(merged, envs[n].key), envs[n], key);
    }
  }

  /** An overridden exact key stands in the block once; any other key as often as it was
      inherited. */
  lemma {:induction false} OverriddenOnce(calls: seq<EnvCall>, parent: seq<Pair>, key: Text)
    ensures CountKey(ChildPairs(calls, parent), key) ==
      if key in Overrides(calls) then 1
      else if Cleared(calls) then 0
      else CountKey(parent, key)
  {
    var st := RunCalls(calls);
    LogMeansOverrides(calls);
    CountKeyMerge(if st.clear then [] else parent, st.envs, key);
    CountKeySort(MergedPairs(st, parent), key);
  }

  // -------------------------------------------------------- which spelling is found

  /** The inherited pairs whose exact name is not overridden. */
  function Unoverridden(pairs: seq<Pair>, over: map<Text, Text>): seq<Pair> {
    if pairs == [] then []
    else if pairs[0].key in over then Unoverridden(pairs[1..], over)
    else [pairs[0]] + Unoverridden(pairs[1..], over)
  }

  function Inherited(calls: seq<EnvCall>, parent: seq<Pair>): seq<Pair> {
    Unoverridden(if Cleared(calls) then [] else parent, Overrides(calls))
  }

  /** The overrides in the order in which they were last set (see `SettingsInOrder`). */
  function Settings(calls: seq<EnvCall>): seq<Pair> {
    if calls == [] then []
    else
      var earlier := Settings(calls[..|calls| - 1]);
      match calls[|calls| - 1]
      case SetVar(k, v) => Override(earlier, Pair(k, v))
      case RemoveVar(k) => Without(earlier, k)
      case ClearAll => []
  }

  /** How many calls there are up to the last one that sets a name, that one included. */
  function LastSet(calls: seq<EnvCall>, key: Text): nat {
    if calls == [] then 0
    else
      var last := calls[|calls| - 1];
      if last.SetVar? && last.key == key then |calls| else LastSet(calls[..|calls| - 1], key)
  }

  lemma {:induction false} LastSetMeaning(calls: seq<EnvCall>, key: Text)
    ensures var n := LastSet(calls, key);
      && n <= |calls|
      && (n > 0 ==> calls[n - 1].SetVar? && calls[n - 1].key == key)
      && forall i :: n <= i < |calls| ==> !(calls[i].SetVar? && calls[i].key == key)
  {
    if calls != [] {
      LastSetMeaning(calls[..|calls| - 1], key);
    }
  }

  lemma {:induction false} WithoutMember(pairs: seq<Pair>, key: Text)
    ensures forall p :: p in Without(pairs, key) <==> p in pairs && p.key != key
  {
    if pairs != [] {
      WithoutMember(pairs[1..], key);
      assert pairs == [pairs[0]] + pairs[1..];
    }
  }

  lemma {:induction false} WithoutConcat(a: seq<Pair>, b: seq<Pair>, key: Text)
    ensures Without(a + b, key) == Without(a, key) + Without(b, key)
  {
    if a == [] {
      assert a + b == b;
    } else {
      assert (a + b)[1..] == a[1..] + b;
      WithoutConcat(a[1..], b, key);
    }
  }

  lemma {:induction false} WithoutBoth(pairs: seq<Pair>, a: Text, b: Text)
    ensures Without(Without(pairs, a), b) == Without(Without(pairs, b), a)
    ensures a == b ==> Without(Without(pairs, a), b) == Without(pairs, a)
  {
    if pairs != [] {
      WithoutBoth(pairs[1..], a, b);
      assert ([pairs[0]] + Without(pairs[1..], a))[1..] == Without(pairs[1..], a);
      assert ([pairs[0]] + Without(pairs[1..], b))[1..] == Without(pairs[1..], b);
    }
  }

  lemma {:induction false} MergeWithout(envs: seq<Pair>, key: Text)
    ensures Merge([], Without(envs, key)) == Without(Merge([], envs), key)
  {
    if envs != [] {
      var front, p := envs[..|envs| - 1], envs[|envs| - 1];
      var merged := Merge([], front);
      assert envs == front + [p];
      MergeWithout(front, key);
      WithoutAppend(front, p, key);
      WithoutAppend(Without(merged, p.key), p, key);
      WithoutBoth(merged, p.key, key);
      assert (Without(front, key) + [p])[..|Without(front, key)|] == Without(front, key);
    }
  }

  lemma {:induction false} LogKeepsOrder(calls: seq<EnvCall>)
    ensures Merge([], RunCalls(calls).envs) == Settings(calls)
  {
    if calls != [] {
      var n := |calls| - 1;
      LogKeepsOrder(calls[..n]);
      var envs := RunCalls(calls[..n]).envs;
      match calls[n]
      case SetVar(k, v) => assert (envs + [Pair(k, v)])[..|envs|] == envs;
      case RemoveVar(k) => MergeWithout(envs, k);
      case ClearAll =>
    }
  }

  lemma {:induction false} UnoverriddenMember(pairs: seq<Pair>, over: map<Text, Text>)
    ensures forall p :: p in Unoverridden(pairs, over) <==> p in pairs && p.key !in over
  {
    if pairs != [] {
      UnoverriddenMember(pairs[1..], over);
      assert pairs == [pairs[0]] + pairs[1..];
    }
  }

  lemma {:induction false} UnoverriddenMore(pairs: seq<Pair>, over: map<Text, Text>, k: Text, v: Text)
    ensures Unoverridden(pairs, over[k := v]) == Without(Unoverridden(pairs, over), k)
  {
    if pairs != [] {
      UnoverriddenMore(pairs[1..], over, k, v);
      var kept := [pairs[0]] + Unoverridden(pairs[1..], over);
      assert kept[1..] == Unoverridden(pairs[1..], over);
    }
  }

  /** Merging keeps what is not overridden in place and puts the overrides behind it. */
  lemma {:induction false} MergeSplits(pairs: seq<Pair>, envs: seq<Pair>)
    ensures Merge(pairs, envs) == Unoverridden(pairs, LastWins(envs)) + Merge([], envs)
  {
    if envs == [] {
      NothingOverridden(pairs);
    } else {
      var front, p := envs[..|envs| - 1], envs[|envs| - 1];
      MergeSplits(pairs, front);
      WithoutConcat(Unoverridden(pairs, LastWins(front)), Merge([], front), p.key);
      UnoverriddenMore(pairs, LastWins(front), p.key, p.value);
    }
  }

  lemma {:induction false} NothingOverridden(pairs: seq<Pair>)
    ensures Unoverridden(pairs, map[]) == pairs
  {
    if pairs != [] {
      NothingOverridden(pairs[1..]);
    }
  }

  lemma {:induction false} WithNameConcat(a: seq<Pair>, b: seq<Pair>, name: Text)
    ensures WithName(a + b, name) == WithName(a, name) + WithName(b, name)
  {
    if a == [] {
      assert a + b == b;
    } else {
      assert (a + b)[1..] == a[1..] + b;
      WithNameConcat(a[1..], b, name);
    }
  }

  /** What a reader that ignores case meets under a name, in order: the inherited spellings
      that are not overridden, then the overrides, the longest unchanged first. */
  lemma {:induction false} MatchesInOrder(calls: seq<EnvCall>, parent: seq<Pair>, name: Text)
    ensures WithName(ChildPairs(calls, parent), name)
         == WithName(Inherited(calls, parent), name) + WithName(Settings(calls), name)
  {
    var st := RunCalls(calls);
    LogMeansOverrides(calls);
    LogKeepsOrder(calls);
    MergeSplits(if st.clear then [] else parent, st.envs);
    WithNameConcat(Inherited(calls, parent), Settings(calls), name);
    StableSortIsStable(MergedPairs(st, parent), name);
  }

  /** Each pair was last set before all that follow it. */
  predicate ByLastSet(pairs: seq<Pair>, calls: seq<EnvCall>) {
    pairs == [] ||
    (&& (forall p :: p in pairs[1..] ==> LastSet(calls, pairs[0].key) < LastSet(calls, p.key))
     && ByLastSet(pairs[1..], calls))
  }

  lemma {:induction false} WithoutByLastSet(pairs: seq<Pair>, calls: seq<EnvCall>, key: Text)
    requires ByLastSet(pairs, calls)
    ensures ByLastSet(Without(pairs, key), calls)
  {
    if pairs != [] {
      WithoutByLastSet(pairs[1..], calls, key);
      WithoutMember(pairs[1..], key);
      assert ([pairs[0]] + Without(pairs[1..], key))[1..] == Without(pairs[1..], key);
    }
  }

  lemma {:induction false} OtherCall(pairs: seq<Pair>, calls: seq<EnvCall>, call: EnvCall)
    requires ByLastSet(pairs, calls)
    requires forall p :: p in pairs ==> !(call.SetVar? && call.key == p.key)
    ensures ByLastSet(pairs, calls + [call])
  {
    assert (calls + [call])[..|calls|] == calls;
    if pairs != [] {
      assert pairs == [pairs[0]] + pairs[1..];
      OtherCall(pairs[1..], calls, call);
      forall p | p in pairs ensures LastSet(calls + [call], p.key) == LastSet(calls, p.key) {}
    }
  }

  lemma {:induction false} LastByLastSet(pairs: seq<Pair>, calls: seq<EnvCall>, p: Pair)
    requires ByLastSet(pairs, calls)
    requires forall q :: q in pairs ==> LastSet(calls, q.key) < LastSet(calls, p.key)
    ensures ByLastSet(pairs + [p], calls)
  {
    if pairs == [] {
      assert pairs + [p] == [p] && [p][1..] == [];
    } else {
      assert pairs == [pairs[0]] + pairs[1..];
      assert (pairs + [p])[1..] == pairs[1..] + [p];
      LastByLastSet(pairs[1..], calls, p);
    }
  }

  lemma {:induction false} SettingsByLastSet(calls: seq<EnvCall>)
    ensures ByLastSet(Settings(calls), calls)
  {
    if calls != [] {
      var front, last := calls[..|calls| - 1], calls[|calls| - 1];
      assert calls == front + [last];
      SettingsByLastSet(front);
      if !last.ClearAll? {
        var kept := Without(Settings(front), last.key);
        WithoutByLastSet(Settings(front), front, last.key);
        WithoutMember(Settings(front), last.key);
        OtherCall(kept, front, last);
        if last.SetVar? {
          forall q | q in kept ensures LastSet(calls, q.key) < LastSet(calls, last.key) {
            LastSetMeaning(front, q.key);
          }
          LastByLastSet(kept, calls, Pair(last.key, last.value));
        }
      }
    }
  }

  lemma {:induction false} SettingsAreOverrides(calls: seq<EnvCall>)
    ensures forall p :: p in Settings(calls)
                   <==> p.key in Overrides(calls) && Overrides(calls)[p.key] == p.value
  {
    if calls != [] {
      var front, last := calls[..|calls| - 1], calls[|calls| - 1];
      SettingsAreOverrides(front);
      if !last.ClearAll? {
        WithoutMember(Settings(front), last.key);
      }
    }
  }

  /** `Settings` holds exactly the overrides, in the order of the calls that last set them. */
  lemma {:induction false} SettingsInOrder(calls: seq<EnvCall>)
    ensures ByLastSet(Settings(calls), calls)
    ensures forall p :: p in Settings(calls)
                   <==> p.key in Overrides(calls) && Overrides(calls)[p.key] == p.value
  {
    SettingsByLastSet(calls);
    SettingsAreOverrides(calls);
  }

  lemma {:induction false} LeastFirst(pairs: seq<Pair>, calls: seq<EnvCall>, name: Text)
    requires ByLastSet(pairs, calls)
    ensures
      var matches := WithName(pairs, name);
      forall p :: p in matches && p != matches[0] ==> LastSet(calls, matches[0].key) < LastSet(calls, p.key)
  {
    if pairs != [] {
      LeastFirst(pairs[1..], calls, name);
      WithNameMember(pairs[1..], name);
    }
  }

  /** Of the overrides that spell a name in some case, the one set longest ago stands first. */
  lemma {:induction false} EarliestFirst(calls: seq<EnvCall>, key: Text)
    requires key in Overrides(calls)
    ensures
      var mine := Pair(key, Overrides(calls)[key]);
      var matches := WithName(Settings(calls), UpperWide(key));
      && mine in matches
      && (matches[0] == mine <==>
            forall k :: k in Overrides(calls) && UpperWide(k) == UpperWide(key) ==>
              LastSet(calls, key) <= LastSet(calls, k))
  {
    var settings, name := Settings(calls), UpperWide(key);
    var matches := WithName(settings, name);
    SettingsInOrder(calls);
    WithNameMember(settings, name);
    LeastFirst(settings, calls, name);
    assert Pair(key, Overrides(calls)[key]) in matches;
    forall k | k in Overrides(calls) && UpperWide(k) == name
      ensures LastSet(calls, matches[0].key) <= LastSet(calls, k)
    {
      assert Pair(k, Overrides(calls)[k]) in matches;
    }
    assert matches[0] in matches;
  }

  /** An override is what a reader that ignores case finds first under its name, exactly when
      no inherited name that is not itself overridden spells it in another case, and no other
      override that does was last set before it. */
  lemma {:induction false} OverrideFoundExactly(calls: seq<EnvCall>, parent: seq<Pair>, key: Text)
    requires key in Overrides(calls)
    ensures
      var mine := Pair(key, Overrides(calls)[key]);
      var matches := WithName(ChildPairs(calls, parent), UpperWide(key));
      && mine in matches
      && (matches[0] == mine <==>
            && (Cleared(calls) || forall p :: p in parent && UpperWide(p.key) == UpperWide(key) ==>
                                    p.key in Overrides(calls))
            && (forall k :: k in Overrides(calls) && UpperWide(k) == UpperWide(key) ==>
                  LastSet(calls, key) <= LastSet(calls, k)))
  {
    var name := UpperWide(key);
    MatchesInOrder(calls, parent, name);
    EarliestFirst(calls, key);
    WithNameMember(Inherited(calls, parent), name);
    UnoverriddenMember(if Cleared(calls) then [] else parent, Overrides(calls));
    var inherited := WithName(Inherited(calls, parent), name);
    if inherited != [] {
      assert inherited[0] in Inherited(calls, parent);
      assert inherited[0].key !in Overrides(calls);
    }
  }

  /** An input at which an override is lost: the name is inherited in another case. */
  lemma {:induction false} OverrideShadowed(key: Text, other: Text, value: Text, was: Text)
    requires other != key && UpperWide(other) == UpperWide(key)
    ensures
      var calls, parent := [SetVar(key, value)], [Pair(other, was)];
      && Environment(calls, parent)[key] == value
      && WithName(ChildPairs(calls, parent), UpperWide(key)) == [Pair(other, was), Pair(key, value)]
  {
    var calls, parent := [SetVar(key, value)], [Pair(other, was)];
    MatchesInOrder(calls, parent, UpperWide(key));
    assert calls[..0] == [];
    assert Overrides(calls) == map[key := value];
    assert Settings(calls) == [Pair(key, value)];
    assert parent[1..] == [] && Unoverridden([], Overrides(calls)) == [];
    assert Inherited(calls, parent) == parent;
  }

  /** An override set last of all is found first exactly when the environment has no other
      spelling of its name without it. */
  lemma {:induction false} LatestFoundExactly(calls: seq<EnvCall>, key: Text, value: Text, parent: seq<Pair>)
    ensures
      var matches := WithName(ChildPairs(calls + [SetVar(key, value)], parent), UpperWide(key));
      && matches != []
      && (matches[0] == Pair(key, value) <==>
            forall k :: k in Environment(calls, parent) && k != key ==> UpperWide(k) != UpperWide(key))
  {
    var all := calls + [SetVar(key, value)];
    assert all[..|calls|] == calls;
    assert Overrides(all) == Overrides(calls)[key := value] && Cleared(all) == Cleared(calls);
    OverrideFoundExactly(all, parent, key);
    forall k | k != key ensures LastSet(all, k) < LastSet(all, key) {
      LastSetMeaning(calls, k);
    }
    forall k ensures k in Denotes(parent) <==> exists p :: p in parent && p.key == k {
      DenotesKeys(parent, k);
    }
  }

  /** The sentinel handle, pushed last, wins over any other value for its exact name.  To a
      reader that ignores case it is the first match exactly when the environment has no other
      spelling of that name without it. */
  lemma {:induction false} SentinelHandleWins(calls: seq<EnvCall>, handle: Text, parent: seq<Pair>)
    ensures
      var pairs := ChildPairs(calls + [SetVar(SENTINEL_VAR, handle)], parent);
      var matches := WithName(pairs, UpperWide(SENTINEL_VAR));
      && SENTINEL_VAR in Denotes(pairs) && Denotes(pairs)[SENTINEL_VAR] == handle
      && CountKey(pairs, SENTINEL_VAR) == 1
      && matches != []
      && (matches[0] == Pair(SENTINEL_VAR, handle) <==>
            forall k :: k in Environment(calls, parent) && k != SENTINEL_VAR ==>
              UpperWide(k) != UpperWide(SENTINEL_VAR))
  {
    var all := calls + [SetVar(SENTINEL_VAR, handle)];
    assert all[..|calls|] == calls;
    PairsMeanEnvironment(all, parent);
    OverriddenOnce(all, parent, SENTINEL_VAR);
    LatestFoundExactly(calls, SENTINEL_VAR, handle, parent);
  }

  // ------------------------------------------------------------ reading a block

  /** The first index at or after `from` that holds `u`, or the length. */
  function IndexOf(t: Text, u: Unit, from: nat): (n: nat)
    requires from <= |t|
    ensures from <= n <= |t|
    ensures forall i :: from <= i < n ==> t[i] != u
    ensures n < |t| ==> t[n] == u
    decreases |t| - from
  {
    if from == |t| || t[from] == u then from else IndexOf(t, u, from + 1)
  }

  /** A name may begin with `=` (the hidden per-drive variables do) but not contain one later. */
  predicate WellFormed(p: Pair) {
    && p.key != [] && NUL !in p.key && EQUALS !in p.key[1..]
    && NUL !in p.value
  }

  function SplitEntry(entry: Text): (p: Option<Pair>)
    requires entry != [] && NUL !in entry
    ensures p.Some? ==> WellFormed(p.value)
  {
    var at := IndexOf(entry, EQUALS, 1);
    if at == |entry| then None else Some(Pair(entry[..at], entry[at + 1..]))
  }

  /** Reads a block: entries end in NUL, an empty entry ends the block, and a name ends at the
      first `=` after its first unit. */
  function ParseBlock(block: Text): (pairs: Option<seq<Pair>>)
    ensures pairs.Some? ==> forall p :: p in pairs.value ==> WellFormed(p)
    decreases |block|
  {
    var end := IndexOf(block, NUL, 0);
    if end == |block| then None
    else if end == 0 then Some([])
    else
      var first := SplitEntry(block[..end]);
      var rest := ParseBlock(block[end + 1..]);
      if first.None? || rest.None? then None else Some([first.value] + rest.value)
  }

  lemma {:induction false} IndexOfIs(t: Text, u: Unit, from: nat, n: nat)
    requires from <= n < |t| && t[n] == u && forall i :: from <= i < n ==> t[i] != u
    ensures IndexOf(t, u, from) == n
  {}

  lemma {:induction false} ParseEntry(p: Pair, rest: Text)
    requires WellFormed(p)
    ensures ParseBlock(Entry(p) + rest) ==
      if ParseBlock(rest).None? then None else Some([p] + ParseBlock(rest).value)
  {
    var body := p.key + [EQUALS] + p.value;
    var block := Entry(p) + rest;
    assert block == body + ([NUL] + rest);
    forall i | 0 <= i < |body| ensures block[i] != NUL {
      if i < |p.key| {
        assert p.key[i] in p.key;
      } else if i > |p.key| {
        assert p.value[i - |p.key| - 1] in p.value;
      }
    }
    IndexOfIs(block, NUL, 0, |body|);
    assert block[..|body|] == body && block[|body| + 1..] == rest;
    forall i | 1 <= i < |p.key| ensures body[i] != EQUALS {
      assert p.key[1..][i - 1] == p.key[i];
    }
    IndexOfIs(body, EQUALS, 1, |p.key|);
    assert body[..|p.key|] == p.key && body[|p.key| + 1..] == p.value;
  }

  lemma {:induction false} ParseSerialized(pairs: seq<Pair>)
    requires forall p :: p in pairs ==> WellFormed(p)
    ensures ParseBlock(Serialize(pairs)) == Some(pairs)
  {
    if pairs != [] {
      ParseSerialized(pairs[1..]);
      ParseEntry(pairs[0], Serialize(pairs[1..]));
      assert pairs == [pairs[0]] + pairs[1..];
    } else {
      IndexOfIs([NUL], NUL, 0, 0);
    }
  }

  /** The block reads back as the pairs it was written from if and only if every pair is
      well formed. */
  lemma {:induction false} BlockRoundTrip(pairs: seq<Pair>)
    ensures ParseBlock(Serialize(pairs)) == Some(pairs) <==> forall p :: p in pairs ==> WellFormed(p)
  {
    if forall p :: p in pairs ==> WellFormed(p) {
      ParseSerialized(pairs);
    }
  }

  predicate WellFormedCalls(calls: seq<EnvCall>) {
    forall c :: c in calls && c.SetVar? ==> WellFormed(Pair(c.key, c.value))
  }

  lemma {:induction false} MergeSubset(pairs: seq<Pair>, envs: seq<Pair>)
    ensures forall p :: p in Merge(pairs, envs) ==> p in pairs || p in envs
  {
    if envs != [] {
      var n := |envs| - 1;
      MergeSubset(pairs, envs[..n]);
      WithoutMember(Merge(pairs, envs[..n]), envs[n].key);
    }
  }

  lemma {:induction false} LogWellFormed(calls: seq<EnvCall>)
    requires WellFormedCalls(calls)
    ensures forall p :: p in RunCalls(calls).envs ==> WellFormed(p)
  {
    if calls != [] {
      var n := |calls| - 1;
      LogWellFormed(calls[..n]);
      if calls[n].RemoveVar? {
        WithoutMember(RunCalls(calls[..n]).envs, calls[n].key);
      }
    }
  }

  /** What a child reads: its block, or the inherited environment when there is none. */
  function ChildReads(calls: seq<EnvCall>, parent: seq<Pair>): Option<seq<Pair>> {
    match BlockOf(RunCalls(calls), parent)
    case None => Some(parent)
    case Some(block) => ParseBlock(block)
  }

  /** The whole path: for every sequence of builder calls with well-formed names and values,
      what the child reads means the reference environment to a reader that compares names
      exactly; and one that ignores case meets, under every name, what is inherited and not
      overridden and then the overrides, in the order in which they were last set. */
  lemma {:induction false} ChildReadsEnvironment(calls: seq<EnvCall>, parent: seq<Pair>)
    requires WellFormedCalls(calls) && forall p :: p in parent ==> WellFormed(p)
    ensures
      var read := ChildReads(calls, parent);
      && read.Some? && Denotes(read.value) == Environment(calls, parent)
      && (BlockOf(RunCalls(calls), parent).Some? ==> IsSorted(read.value))
      && (forall name :: WithName(read.value, name)
                      == WithName(Inherited(calls, parent), name) + WithName(Settings(calls), name))
  {
    var st := RunCalls(calls);
    var merged := MergedPairs(st, parent);
    var sorted := StableSort(merged);
    PairsMeanEnvironment(calls, parent);
    StableSortIsStable(merged, []);
    LogWellFormed(calls);
    MergeSubset(if st.clear then [] else parent, st.envs);
    forall p | p in sorted ensures WellFormed(p) {
      assert p in multiset(sorted);
    }
    BlockRoundTrip(sorted);
    assert ChildReads(calls, parent) == Some(ChildPairs(calls, parent));
    forall name ensures WithName(ChildPairs(calls, parent), name)
                     == WithName(Inherited(calls, parent), name) + WithName(Settings(calls), name)
    {
      MatchesInOrder(calls, parent, name);
    }
  }

  /** `CreateProcessW` wants two NULs at the end of a block.  A block that is passed has them
      exactly when some override is left; otherwise, after `env_clear`, it is one NUL. */
  lemma {:induction false} DoubleNulExactly(st: EnvState, parent: seq<Pair>)
    requires BlockOf(st, parent).Some?
    ensures
      var block := BlockOf(st, parent).value;
      (|block| >= 2 && block[|block| - 2..] == [NUL, NUL]) <==> st.envs != []
    ensures st.envs == [] ==> st.clear && BlockOf(st, parent) == Some([NUL])
  {
    var merged := MergedPairs(st, parent);
    StableSortIsStable(merged, []);
    assert |multiset(StableSort(merged))| == |multiset(merged)|;
    if st.envs != [] {
      SerializedEnd(StableSort(merged));
    }
  }

  lemma {:induction false} SerializedEnd(pairs: seq<Pair>)
    requires pairs != []
    ensures |Serialize(pairs)| >= 2 && Serialize(pairs)[|Serialize(pairs)| - 2..] == [NUL, NUL]
  {
    var rest := Serialize(pairs[1..]);
    if |pairs| > 1 {
      SerializedEnd(pairs[1..]);
      var all := Serialize(pairs);
      assert all[|all| - 2..] == rest[|rest| - 2..];
    }
  }
}
