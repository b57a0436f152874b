/** Facts about sequences and maps of any element type. */
module Collections {
  import opened Results

  function Flag<T>(raised: bool, x: T): seq<T> {
    if raised then [x] else []
  }

  function Listed<T>(o: Option<T>): seq<T> {
    if o.None? then [] else [o.value]
  }

  lemma AppendFlag<T>(s: seq<T>, raised: bool, x: T)
    ensures s + Flag(raised, x) == if raised then s + [x] else s
  {
  }

  lemma Advance<T>(all: seq<T>, done: seq<T>, x: T, left: seq<T>)
    requires all == done + ([x] + left)
    ensures all == (done + [x]) + left
    ensures |done| < |all| && all[|done|] == x && all[..|done|] == done
  {
  }

  lemma EmptyTail<T>(s: seq<T>)
    ensures s + [] == s
  {
  }

  lemma EmptyConcat<T>(a: seq<T>, b: seq<T>)
    ensures a + b == [] <==> a == [] && b == []
  {
    assert |a + b| == |a| + |b|;
  }

  lemma InAppend<T>(s: seq<T>, x: T)
    ensures forall y :: y in s + [x] <==> y in s || y == x
  {
  }

  lemma InConcat<T>(a: seq<T>, b: seq<T>)
    ensures forall y :: y in a + b <==> y in a || y in b
  {
  }

  lemma OverrideAssoc<K, V>(a: map<K, V>, b: map<K, V>, c: map<K, V>)
    ensures (a + b) + c == a + (b + c)
  {
  }

  lemma OverrideUpdate<K, V>(a: map<K, V>, b: map<K, V>, k: K, v: V)
    ensures (a + b)[k := v] == a + b[k := v]
  {
  }

  lemma OverrideOne<K, V>(m: map<K, V>, k: K, v: V)
    ensures m + map[] == m
    ensures m + map[k := v] == m[k := v]
  {
  }

  lemma SplitLast<T>(x: seq<T>, y: seq<T>)
    requires y != []
    ensures x + y == (x + y[..|y| - 1]) + [y[|y| - 1]]
    ensures y == y[..|y| - 1] + [y[|y| - 1]]
  {
  }

  lemma AppendAssoc<T>(a: seq<T>, b: seq<T>, c: seq<T>)
    ensures (a + b) + c == a + (b + c)
  {
  }

  lemma SplitAt<T>(a: seq<T>, b: seq<T>, n: nat)
    requires n < |a|
    ensures a + b == a[..n] + [a[n]] + (a[n + 1..] + b)
    ensures a == a[..n] + [a[n]] + a[n + 1..]
  {
  }

  function Restrict<K, V>(m: map<K, V>, keys: seq<K>): map<K, V> {
    map k | k in keys && k in m :: m[k]
  }

  lemma RestrictAppend<K, V>(m: map<K, V>, keys: seq<K>)
    requires keys != [] && keys[|keys| - 1] in m
    ensures Restrict(m, keys) ==
            Restrict(m, keys[..|keys| - 1]) + map[keys[|keys| - 1] := m[keys[|keys| - 1]]]
  {
  }

  lemma SizeOfAdd<T>(s: set<T>, x: T)
    ensures |s + {x}| == |s| + if x in s then 0 else 1
  {
    if x in s {
      assert s + {x} == s;
    }
  }

  function Mapped<A, B>(f: A -> B, s: seq<A>): seq<B> {
    seq(|s|, i requires 0 <= i < |s| => f(s[i]))
  }

  function RemoveAt<T>(s: seq<T>, j: nat): seq<T>
    requires j < |s|
  {
    s[..j] + s[j + 1..]
  }

  lemma RemoveOne<T>(s: seq<T>, j: nat)
    requires j < |s|
    ensures multiset(s) == multiset(RemoveAt(s, j)) + multiset{s[j]}
  {
    assert s == s[..j] + [s[j]] + s[j + 1..];
  }

  lemma MappedRemove<A, B>(f: A -> B, s: seq<A>, j: nat)
    requires j < |s|
    ensures Mapped(f, RemoveAt(s, j)) == RemoveAt(Mapped(f, s), j)
  {
  }

  /** Mapping two permutations of each other gives permutations of each other. */
  lemma {:induction false} MappedPermutation<A, B>(f: A -> B, a: seq<A>, b: seq<A>)
    requires multiset(a) == multiset(b)
    ensures multiset(Mapped(f, a)) == multiset(Mapped(f, b))
    decreases |a|
  {
    if a == [] {
      assert |multiset(a)| == |multiset(b)|;
    } else {
      assert a[0] in multiset(b);
      var j: nat :| j < |b| && b[j] == a[0];
      hide RemoveAt;
      RemoveOne(a, 0);
      RemoveOne(b, j);
      assert multiset(RemoveAt(a, 0)) == multiset(a) - multiset{a[0]};
      assert multiset(RemoveAt(b, j)) == multiset(b) - multiset{a[0]};
      assert |RemoveAt(a, 0)| < |a| by {
        assert |multiset(a)| == |multiset(RemoveAt(a, 0))| + 1;
      }
      MappedPermutation(f, RemoveAt(a, 0), RemoveAt(b, j));
      MappedRemove(f, a, 0);
      MappedRemove(f, b, j);
      RemoveOne(Mapped(f, a), 0);
      RemoveOne(Mapped(f, b), j);
    }
  }
}
