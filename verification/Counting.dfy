/** How many elements of a sequence, or values of a map, satisfy a predicate. */
module Counting {

  function Count<T>(s: seq<T>, f: T -> bool): nat {
    if s == [] then 0
    else Count(s[..|s| - 1], f) + if f(s[|s| - 1]) then 1 else 0
  }

  lemma {:induction false} CountSnoc<T>(s: seq<T>, x: T, f: T -> bool)
    ensures Count(s + [x], f) == Count(s, f) + if f(x) then 1 else 0
  {}

  lemma {:induction false} CountConcat<T>(a: seq<T>, b: seq<T>, f: T -> bool)
    ensures Count(a + b, f) == Count(a, f) + Count(b, f)
  {
    if b == [] {
      assert a + b == a;
    } else {
      var front, x := b[..|b| - 1], b[|b| - 1];
      CountConcat(a, front, f);
      CountSnoc(a + front, x, f);
      assert a + b == a + front + [x];
    }
  }

  lemma {:induction false} CountFirst<T>(s: seq<T>, f: T -> bool)
    requires s != []
    ensures Count(s, f) == Count(s[1..], f) + if f(s[0]) then 1 else 0
  {
    assert s == [s[0]] + s[1..];
    CountConcat([s[0]], s[1..], f);
    CountSnoc([], s[0], f);
    assert [] + [s[0]] == [s[0]];
  }

  lemma {:induction false} CountMember<T>(s: seq<T>, f: T -> bool, x: T)
    requires x in s && f(x)
    ensures Count(s, f) > 0
  {
    if x != s[|s| - 1] {
      assert s == s[..|s| - 1] + [s[|s| - 1]];
      CountMember(s[..|s| - 1], f, x);
    }
  }

  lemma {:induction false} CountWitness<T>(s: seq<T>, f: T -> bool) returns (x: T)
    requires Count(s, f) > 0
    ensures x in s && f(x)
  {
    if f(s[|s| - 1]) {
      x := s[|s| - 1];
    } else {
      x := CountWitness(s[..|s| - 1], f);
    }
  }

  lemma {:induction false} CountUnique<T>(s: seq<T>, f: T -> bool, x: T, y: T)
    requires Count(s, f) == 1 && x in s && f(x) && y in s && f(y)
    ensures x == y
  {
    var front, last := s[..|s| - 1], s[|s| - 1];
    assert s == front + [last];
    if !f(last) {
      CountUnique(front, f, x, y);
    } else if x != last {
      CountMember(front, f, x);
    } else if y != last {
      CountMember(front, f, y);
    }
  }

  lemma {:induction false} CountMiddle<T>(a: seq<T>, x: T, b: seq<T>, f: T -> bool)
    ensures Count(a + [x] + b, f) == Count(a + b, f) + if f(x) then 1 else 0
  {
    CountConcat(a + [x], b, f);
    CountSnoc(a, x, f);
    CountConcat(a, b, f);
  }

  lemma {:induction false} SplitAt<T>(s: seq<T>, i: nat)
    requires i < |s|
    ensures s == s[..i] + [s[i]] + s[i + 1..]
  {}

  lemma {:induction false} MultisetMiddle<T>(a: seq<T>, x: T, b: seq<T>)
    ensures multiset(a + b) == multiset(a + [x] + b) - multiset{x}
  {}

  /** Counting does not depend on the order. */
  lemma {:induction false} CountMultiset<T>(a: seq<T>, b: seq<T>, f: T -> bool)
    requires multiset(a) == multiset(b)
    ensures Count(a, f) == Count(b, f)
  {
    assert |a| == |multiset(a)| == |multiset(b)| == |b|;
    if a != [] {
      var x := a[0];
      assert x in multiset(b);
      var i :| 0 <= i < |b| && b[i] == x;
      SplitAt(a, 0);
      SplitAt(b, i);
      MultisetMiddle(a[..0], x, a[1..]);
      MultisetMiddle(b[..i], x, b[i + 1..]);
      CountMultiset(a[..0] + a[1..], b[..i] + b[i + 1..], f);
      CountMiddle(a[..0], x, a[1..], f);
      CountMiddle(b[..i], x, b[i + 1..], f);
    }
  }

  /** What holds from some step on holds exactly if one of the steps so far has brought it about. */
  lemma {:induction false} BroughtAbout(holds: nat -> bool, brings: nat -> bool, n: nat)
    requires !holds(0)
    requires forall i: nat :: i < n ==> (holds(i + 1) <==> holds(i) || brings(i))
    ensures holds(n) <==> exists i: nat :: i < n && brings(i)
  {
    if n > 0 {
      BroughtAbout(holds, brings, n - 1);
      assert holds(n) <==> holds(n - 1) || brings(n - 1);
    }
  }

  /** Two sequences that begin empty and grow by the same parts are the same. */
  lemma {:induction false} SameGrowth<T>(a: nat -> seq<T>, b: nat -> seq<T>, part: nat -> seq<T>, n: nat)
    requires a(0) == b(0)
    requires forall i: nat :: i < n ==> a(i + 1) == a(i) + part(i) && b(i + 1) == b(i) + part(i)
    ensures a(n) == b(n)
  {
    if n > 0 {
      SameGrowth(a, b, part, n - 1);
      assert a(n) == a(n - 1) + part(n - 1);
    }
  }

  lemma {:induction false} SameWitnesses(f: nat -> bool, g: nat -> bool, n: nat)
    requires forall i: nat :: i < n ==> (f(i) <==> g(i))
    ensures (exists i: nat :: i < n && f(i)) <==> (exists i: nat :: i < n && g(i))
  {}

  // ------------------------------------------------------------------------ maps

  /** The keys under which a map holds values that satisfy a predicate. */
  function Under<K, V>(m: map<K, V>, f: V -> bool): set<K> {
    set k | k in m && f(m[k])
  }

  lemma {:induction false} UnderUpdate<K, V>(m: map<K, V>, k: K, v: V, f: V -> bool)
    ensures |Under(m[k := v], f)|
         == |Under(m, f)| - (if k in m && f(m[k]) then 1 else 0) + if f(v) then 1 else 0
  {
    var kept, after := Under(m, f) - {k}, Under(m[k := v], f);
    if f(v) {
      assert after == kept + {k};
    } else {
      assert after == kept;
    }
  }

  lemma {:induction false} UnderRemove<K, V>(m: map<K, V>, k: K, f: V -> bool)
    ensures |Under(m - {k}, f)| == |Under(m, f)| - if k in m && f(m[k]) then 1 else 0
  {
    assert Under(m - {k}, f) == Under(m, f) - {k};
  }
}
