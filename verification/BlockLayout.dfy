/** The environment block unit by unit: when there is one, its order, its entries. */
module BlockLayout {
  import opened Termination
  import opened EnvBlock

  /** The child inherits exactly when the calls have neither cleared nor overridden anything. */
  lemma {:induction false} InheritsExactly(calls: seq<EnvCall>, parent: seq<Pair>)
    ensures BlockOf(RunCalls(calls), parent) == None <==> ClearAll !in calls && Overrides(calls) == map[]
  {
    LogMeansOverrides(calls);
    var envs := RunCalls(calls).envs;
    if envs != [] {
      assert envs[|envs| - 1].key in LastWins(envs);
    }
  }

  /** Of two folded names, the one that is a prefix, or has the smaller unit where they first
      differ, comes first. */
  predicate Ascends(pairs: seq<Pair>) {
    forall i, j :: 0 <= i < j < |pairs| ==>
      var a, b := UpperWide(pairs[i].key), UpperWide(pairs[j].key);
      var n := CommonPrefix(a, b);
      n == |a| || (n < |b| && a[n] < b[n])
  }

  lemma {:induction false} SortedAscends(pairs: seq<Pair>)
    requires IsSorted(pairs)
    ensures Ascends(pairs)
  {
    forall i, j | 0 <= i < j < |pairs|
      ensures
        var a, b := UpperWide(pairs[i].key), UpperWide(pairs[j].key);
        var n := CommonPrefix(a, b);
        n == |a| || (n < |b| && a[n] < b[n])
    {
      assert Le(pairs[i], pairs[j]);
      LexMeaning(UpperWide(pairs[i].key), UpperWide(pairs[j].key));
    }
  }

  /** For every sequence of builder calls, a block that is passed lists its names in ascending
      order of their folded units, and so does what a child reads from it. */
  lemma {:induction false} BlockAscends(calls: seq<EnvCall>, parent: seq<Pair>)
    requires BlockOf(RunCalls(calls), parent).Some?
    ensures Ascends(ChildPairs(calls, parent))
    ensures WellFormedCalls(calls) && (forall p :: p in parent ==> WellFormed(p)) ==>
      var read := ChildReads(calls, parent);
      read.Some? && Ascends(read.value)
  {
    StableSortIsStable(MergedPairs(RunCalls(calls), parent), []);
    SortedAscends(ChildPairs(calls, parent));
    if WellFormedCalls(calls) && forall p :: p in parent ==> WellFormed(p) {
      ChildReadsEnvironment(calls, parent);
      SortedAscends(ChildReads(calls, parent).value);
    }
  }

  /** One more pair in the block: before the last NUL come its name, an equals sign, its value
      and a NUL of its own; with no pair there is the last NUL alone. */
  lemma {:induction false} EntryLayout(pairs: seq<Pair>, p: Pair)
    ensures Serialize([]) == [0] && Serialize(pairs) != []
    ensures Serialize(pairs + [p]) == AllButLast(Serialize(pairs)) + (p.key + [61] + p.value + [0, 0])
  {
    var entry := p.key + [61] + p.value + [0, 0];
    if pairs == [] {
      assert pairs + [p] == [p] && [p][1..] == [];
      assert Entry(p) + [NUL] == [] + entry;
    } else {
      EntryLayout(pairs[1..], p);
      assert (pairs + [p])[1..] == pairs[1..] + [p];
      Behind(Entry(pairs[0]), Serialize(pairs[1..]), entry);
    }
  }

  function AllButLast(t: Text): Text
    requires t != []
  {
    t[..|t| - 1]
  }

  lemma {:induction false} Behind(head: Text, rest: Text, entry: Text)
    requires rest != []
    ensures head + (AllButLast(rest) + entry) == AllButLast(head + rest) + entry
  {}

  const SENTINEL_NAME: string := "WORRYWART_SENTINEL_HANDLE"

  /** The variable under which the sentinel handle is pushed spells this name. */
  lemma {:induction false} SentinelVariable()
    ensures |SENTINEL_VAR| == |SENTINEL_NAME|
    ensures forall i :: 0 <= i < |SENTINEL_NAME| ==> SENTINEL_VAR[i] as int == SENTINEL_NAME[i] as int
  {}
}
