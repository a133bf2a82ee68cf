/** Searching, filtering and sorting lists the way the storages do. */
module Lists {
  import opened Exchange

  /** `std::find_if`: the first index that satisfies the predicate, or the length. */
  function FindIf<T>(s: seq<T>, p: T -> bool): (k: nat)
    ensures k <= |s|
    ensures k < |s| ==> p(s[k])
    ensures forall i | 0 <= i < k :: !p(s[i])
  {
    if s == [] || p(s[0]) then 0 else 1 + FindIf(s[1..], p)
  }

  lemma {:induction false} FindIfAppend<T>(s: seq<T>, x: T, p: T -> bool)
    ensures FindIf(s + [x], p) ==
            var k := FindIf(s, p); if k < |s| then k else if p(x) then |s| else |s| + 1
  {
    var k, k' := FindIf(s, p), FindIf(s + [x], p);
    assert k < |s| ==> (s + [x])[k] == s[k];
    assert k' < |s| ==> (s + [x])[k'] == s[k'];
    assert (s + [x])[|s|] == x;
  }

  /** The first element that satisfies the predicate. */
  function Lookup<T>(s: seq<T>, p: T -> bool): Option<T> {
    var k := FindIf(s, p);
    if k < |s| then Some(s[k]) else None
  }

  lemma LookupAppend<T>(s: seq<T>, x: T, p: T -> bool)
    ensures Lookup(s + [x], p) == if Lookup(s, p).Some? then Lookup(s, p) else if p(x) then Some(x) else None
  {
    FindIfAppend(s, x, p);
  }

  lemma LookupCons<T>(x: T, s: seq<T>, p: T -> bool)
    ensures Lookup([x] + s, p) == if p(x) then Some(x) else Lookup(s, p)
  {
    assert ([x] + s)[1..] == s;
  }

  /** Overwriting the element at the predicate's own first index, or at the first index of a disjoint one. */
  lemma LookupUpdate<T>(s: seq<T>, k: nat, x: T, p: T -> bool)
    requires k < |s| && p(x) == p(s[k])
    ensures Lookup(s[k := x], p) == if FindIf(s, p) == k then Some(x) else Lookup(s, p)
  {
    var j, j' := FindIf(s, p), FindIf(s[k := x], p);
    assert j < |s| ==> p(s[k := x][j]);
    assert j' < |s| ==> p(s[j']);
  }

  method Find<T>(s: seq<T>, p: T -> bool) returns (k: nat)
    ensures k == FindIf(s, p)
  {
    k := 0;
    while k < |s|
      invariant k <= FindIf(s, p)
    {
      if p(s[k]) {
        return;
      }
      k := k + 1;
    }
  }

  function Not<T>(p: T -> bool): T -> bool { (x: T) => !p(x) }

  /** The elements that satisfy the predicate, in order. */
  function Filter<T>(s: seq<T>, p: T -> bool): seq<T> {
    if s == [] then [] else (if p(s[0]) then [s[0]] else []) + Filter(s[1..], p)
  }

  lemma {:induction false} FilterConcat<T>(a: seq<T>, b: seq<T>, p: T -> bool)
    ensures Filter(a + b, p) == Filter(a, p) + Filter(b, p)
  {
    if a == [] {
      assert a + b == b;
    } else {
      assert (a + b)[1..] == a[1..] + b;
      FilterConcat(a[1..], b, p);
      Associates(if p(a[0]) then [a[0]] else [], Filter(a[1..], p), Filter(b, p));
    }
  }

  lemma Associates<T>(a: seq<T>, b: seq<T>, c: seq<T>)
    ensures a + (b + c) == (a + b) + c
  {}

  lemma {:induction false} FilterMembers<T>(s: seq<T>, p: T -> bool)
    ensures forall x :: x in Filter(s, p) <==> x in s && p(x)
  {
    if s != [] {
      FilterMembers(s[1..], p);
      assert s == [s[0]] + s[1..];
    }
  }

  lemma {:induction false} FilterSame<T>(s: seq<T>, p: T -> bool, q: T -> bool)
    requires forall x | x in s :: p(x) == q(x)
    ensures Filter(s, p) == Filter(s, q)
  {
    if s != [] {
      FilterSame(s[1..], p, q);
    }
  }

  function And<T>(p: T -> bool, q: T -> bool): T -> bool { (x: T) => p(x) && q(x) }

  lemma {:induction false} FilterTwice<T>(s: seq<T>, p: T -> bool, q: T -> bool)
    ensures Filter(Filter(s, p), q) == Filter(s, And(p, q))
  {
    if s != [] {
      FilterTwice(s[1..], p, q);
      FilterConcat(if p(s[0]) then [s[0]] else [], Filter(s[1..], p), q);
    }
  }

  lemma {:induction false} FilterAll<T>(s: seq<T>, p: T -> bool)
    ensures (forall x | x in s :: p(x)) ==> Filter(s, p) == s
    ensures (forall x | x in s :: !p(x)) ==> Filter(s, p) == []
  {
    if s != [] {
      FilterAll(s[1..], p);
      assert s == [s[0]] + s[1..];
    }
  }

  /** When exactly one element fails the predicate, filtering cuts it out. */
  lemma {:induction false} FilterCutsOut<T>(s: seq<T>, k: nat, p: T -> bool)
    requires k < |s| && !p(s[k])
    requires forall i | 0 <= i < |s| && i != k :: p(s[i])
    ensures Filter(s, p) == s[..k] + s[k+1..]
  {
    if k == 0 {
      FilterAll(s[1..], p);
    } else {
      FilterCutsOut(s[1..], k - 1, p);
      assert s[..k] == [s[0]] + s[1..][..k-1];
      assert s[1..][k..] == s[k+1..];
    }
  }

  /** The erase-while-iterating loop: removes everything that satisfies the predicate. */
  method EraseIf<T>(s: seq<T>, p: T -> bool) returns (r: seq<T>)
    ensures r == Filter(s, Not(p))
  {
    r := s;
    var i := 0;
    while i < |r|
      invariant 0 <= i <= |r|
      invariant Filter(s, Not(p)) == r[..i] + Filter(r[i..], Not(p))
      decreases |r| - i
    {
      assert r[i..] == [r[i]] + r[i+1..];
      if p(r[i]) {
        var next := r[..i] + r[i+1..];
        assert next[i..] == r[i+1..];
        r := next;
      } else {
        assert r[..i] + ([r[i]] + Filter(r[i+1..], Not(p))) == r[..i+1] + Filter(r[i+1..], Not(p));
        i := i + 1;
      }
    }
  }

  // ----- The markets a batch of orders is about

  predicate Names(batch: seq<OrderEntry>, id: string) {
    exists i | 0 <= i < |batch| :: batch[i].marketId == id
  }

  lemma NamesAppend(batch: seq<OrderEntry>, i: nat)
    requires i < |batch|
    ensures forall x :: Names(batch[..i+1], x) <==> Names(batch[..i], x) || x == batch[i].marketId
  {}

  // ----- What a sort by time can return

  predicate NewestFirst<T>(s: seq<T>, time: T -> int) {
    forall i, j | 0 <= i < j < |s| :: time(s[i]) >= time(s[j])
  }

  ghost predicate DistinctTimes<T>(s: seq<T>, time: T -> int) {
    forall i, j | 0 <= i < j < |s| :: time(s[i]) != time(s[j])
  }

  lemma SameHead<T>(a: seq<T>, b: seq<T>, time: T -> int)
    requires multiset(a) == multiset(b) && a != [] && b != []
    requires NewestFirst(a, time) && NewestFirst(b, time) && DistinctTimes(a, time)
    ensures a[0] == b[0]
  {
    assert a[0] in multiset(b) && b[0] in multiset(a) by {
      assert a[0] in multiset(a) && b[0] in multiset(b);
    }
    var i :| 0 <= i < |b| && b[i] == a[0];
    var j :| 0 <= j < |a| && a[j] == b[0];
    assert time(b[0]) >= time(b[i]) && time(a[0]) >= time(a[j]);
  }

  lemma SameTails<T>(a: seq<T>, b: seq<T>)
    requires multiset(a) == multiset(b) && a != [] && b != [] && a[0] == b[0]
    ensures multiset(a[1..]) == multiset(b[1..])
  {
    assert a == [a[0]] + a[1..] && b == [b[0]] + b[1..];
    assert multiset(a[1..]) == multiset(a) - multiset{a[0]};
  }

  /** Two newest-first arrangements of the same elements are equal when no two share a time. */
  lemma {:induction false} SortIsDetermined<T>(a: seq<T>, b: seq<T>, time: T -> int)
    requires multiset(a) == multiset(b)
    requires NewestFirst(a, time) && NewestFirst(b, time) && DistinctTimes(a, time)
    ensures a == b
  {
    assert |multiset(a)| == |a| && |multiset(b)| == |b|;
    if a != [] {
      SameHead(a, b, time);
      SameTails(a, b);
      SortIsDetermined(a[1..], b[1..], time);
      assert a == [a[0]] + a[1..] && b == [b[0]] + b[1..];
    }
  }
}
