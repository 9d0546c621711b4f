/**
 The order behind every ranked list of the repository: by score, ties by identifier in
 byte order; and the stable library sort (`sort_by`) as insertion into a sorted sequence.
 */
module Ordering {
  import opened Text

  /** Byte-wise lexicographic order, `Ord` of Rust strings. */
  predicate LexLeq(a: Bytes, b: Bytes) {
    a == [] || (b != [] && (a[0] < b[0] || (a[0] == b[0] && LexLeq(a[1..], b[1..]))))
  }

  datatype Key = Key(score: real, id: Bytes)

  predicate Leq(a: Key, b: Key) {
    a.score < b.score || (a.score == b.score && LexLeq(a.id, b.id))
  }

  /** The sort key of a key. */
  function Itself(k: Key): Key {
    k
  }

  predicate Below(a: Key, b: Key) {
    Leq(a, b) && a != b
  }

  lemma {:induction false} LexReflexive(a: Bytes)
    ensures LexLeq(a, a)
  {
    if a != [] { LexReflexive(a[1..]); }
  }

  lemma {:induction false} LexTotal(a: Bytes, b: Bytes)
    ensures LexLeq(a, b) || LexLeq(b, a)
    ensures LexLeq(a, b) && LexLeq(b, a) ==> a == b
  {
    if a != [] && b != [] {
      LexTotal(a[1..], b[1..]);
      assert a == [a[0]] + a[1..] && b == [b[0]] + b[1..];
    }
  }

  lemma {:induction false} LexTransitive(a: Bytes, b: Bytes, c: Bytes)
    requires LexLeq(a, b) && LexLeq(b, c)
    ensures LexLeq(a, c)
  {
    if a != [] && a[0] == b[0] && b[0] == c[0] { LexTransitive(a[1..], b[1..], c[1..]); }
  }

  lemma Total(a: Key, b: Key)
    ensures Leq(a, b) || Leq(b, a)
    ensures Leq(a, b) && Leq(b, a) ==> a == b
  {
    LexTotal(a.id, b.id);
  }

  lemma Reflexive(a: Key)
    ensures Leq(a, a)
  {
    LexReflexive(a.id);
  }

  lemma Transitive(a: Key, b: Key, c: Key)
    requires Leq(a, b) && Leq(b, c)
    ensures Leq(a, c)
  {
    if a.score == b.score == c.score { LexTransitive(a.id, b.id, c.id); }
  }

  // ----- the order of two texts, said without recursion -----

  /** The texts agree on their first `n` bytes; then `a` is over and `b` is not, or `a` has the smaller byte. */
  predicate PrecedesAt(a: Bytes, b: Bytes, n: nat) {
    n <= |a| && n < |b| && a[..n] == b[..n] && (n < |a| ==> a[n] < b[n])
  }

  /** `a` comes strictly before `b` at the first byte where they differ. */
  ghost predicate Precedes(a: Bytes, b: Bytes) {
    exists n: nat :: PrecedesAt(a, b, n)
  }

  lemma PrecedesTail(a: Bytes, b: Bytes, n: nat)
    requires a != [] && b != [] && a[0] == b[0]
    ensures PrecedesAt(a[1..], b[1..], n) <==> PrecedesAt(a, b, n + 1)
    ensures !PrecedesAt(a, b, 0)
  {
    if n < |a| && n + 1 < |b| {
      assert a[..n + 1] == [a[0]] + a[1..][..n] && b[..n + 1] == [b[0]] + b[1..][..n];
      assert a[1..][..n] == a[..n + 1][1..] && b[1..][..n] == b[..n + 1][1..];
    }
  }

  /** The recursive order is equality or the first difference. */
  lemma {:induction false} LexIsPrecedes(a: Bytes, b: Bytes)
    ensures LexLeq(a, b) <==> a == b || Precedes(a, b)
    ensures !(a == b && Precedes(a, b))
    decreases |a|
  {
    if a == [] || b == [] || a[0] != b[0] {
      assert PrecedesAt(a, b, 0) <==> b != [] && (a == [] || a[0] < b[0]);
      forall n: nat ensures PrecedesAt(a, b, n) <==> n == 0 && PrecedesAt(a, b, 0) {
        assert 0 < n <= |a| ==> a[..n][0] == a[0];
        assert 0 < n <= |b| ==> b[..n][0] == b[0];
      }
    } else {
      LexIsPrecedes(a[1..], b[1..]);
      assert a == [a[0]] + a[1..] && b == [b[0]] + b[1..];
      forall n: nat ensures PrecedesAt(a[1..], b[1..], n) <==> PrecedesAt(a, b, n + 1) { PrecedesTail(a, b, n); }
      PrecedesTail(a, b, 0);
      if Precedes(a, b) {
        var n: nat :| PrecedesAt(a, b, n);
        assert PrecedesAt(a[1..], b[1..], n - 1);
      }
      if Precedes(a[1..], b[1..]) {
        var n: nat :| PrecedesAt(a[1..], b[1..], n);
        assert PrecedesAt(a, b, n + 1);
      }
    }
  }

  /** What being below means on the fields. */
  lemma BelowIsPrecedes(a: Key, b: Key)
    ensures Below(a, b) <==> a.score < b.score || (a.score == b.score && Precedes(a.id, b.id))
  {
    LexIsPrecedes(a.id, b.id);
  }

  // ----- sorting -----

  ghost predicate LeqAll<T(!new)>(k: Key, s: seq<T>, key: T -> Key) {
    forall x | x in s :: Leq(k, key(x))
  }

  ghost predicate Sorted<T(!new)>(s: seq<T>, key: T -> Key) {
    s == [] || (LeqAll(key(s[0]), s[1..], key) && Sorted(s[1..], key))
  }

  lemma {:induction false} SortedAt<T(!new)>(s: seq<T>, key: T -> Key, i: nat, j: nat)
    requires Sorted(s, key) && i < j < |s|
    ensures Leq(key(s[i]), key(s[j]))
  {
    if i > 0 {
      SortedAt(s[1..], key, i - 1, j - 1);
    } else {
      assert s[j] == s[1..][j - 1];
    }
  }

  /** Inserts behind everything not above `x`, so equal keys keep their order. */
  function Insert<T>(x: T, s: seq<T>, key: T -> Key): seq<T> {
    if s == [] then [x]
    else if Leq(key(x), key(s[0])) then [x] + s
    else [s[0]] + Insert(x, s[1..], key)
  }

  function Sort<T>(s: seq<T>, key: T -> Key): seq<T> {
    if s == [] then [] else Insert(s[0], Sort(s[1..], key), key)
  }

  lemma {:induction false} InsertPermutes<T>(x: T, s: seq<T>, key: T -> Key)
    ensures multiset(Insert(x, s, key)) == multiset{x} + multiset(s)
  {
    if s != [] && !Leq(key(x), key(s[0])) {
      InsertPermutes(x, s[1..], key);
      assert s == [s[0]] + s[1..];
    }
  }

  lemma {:induction false} InsertSorts<T(!new)>(x: T, s: seq<T>, key: T -> Key)
    requires Sorted(s, key)
    ensures Sorted(Insert(x, s, key), key)
  {
    if s != [] {
      var h, tail := s[0], s[1..];
      assert s == [h] + tail;
      if Leq(key(x), key(h)) {
        forall y | y in s ensures Leq(key(x), key(y)) {
          if y != h { Transitive(key(x), key(h), key(y)); }
        }
        assert ([x] + s)[1..] == s;
      } else {
        Total(key(x), key(h));
        InsertSorts(x, tail, key);
        var rest := Insert(x, tail, key);
        InsertPermutes(x, tail, key);
        MembersOf(rest);
        MembersOf(tail);
        assert ([h] + rest)[1..] == rest;
      }
    }
  }

  lemma MembersOf<T(!new)>(s: seq<T>)
    ensures forall y :: y in s <==> y in multiset(s)
    ensures |multiset(s)| == |s|
  {
  }

  lemma {:induction false} SortSorts<T(!new)>(s: seq<T>, key: T -> Key)
    ensures Sorted(Sort(s, key), key)
    ensures multiset(Sort(s, key)) == multiset(s)
    ensures |Sort(s, key)| == |s|
    ensures forall x :: x in Sort(s, key) <==> x in s
  {
    if s != [] {
      SortSorts(s[1..], key);
      InsertSorts(s[0], Sort(s[1..], key), key);
      InsertPermutes(s[0], Sort(s[1..], key), key);
      assert s == [s[0]] + s[1..];
    }
    MembersOf(s);
    MembersOf(Sort(s, key));
  }

  lemma SortedHeadLeast<T(!new)>(s: seq<T>, key: T -> Key, x: T)
    requires Sorted(s, key) && x in s
    ensures Leq(key(s[0]), key(x))
  {
    Reflexive(key(x));
    assert s == [s[0]] + s[1..];
  }

  ghost predicate Distinguishes<T(!new)>(key: T -> Key, s: seq<T>) {
    forall x, y | x in s && y in s && key(x) == key(y) :: x == y
  }

  lemma TailMembers<T(!new)>(s: seq<T>, tail: seq<T>)
    requires s != [] && tail == s[1..]
    ensures multiset(tail) == multiset(s) - multiset{s[0]}
    ensures forall x | x in tail :: x in s
  {
    assert s == [s[0]] + tail;
  }

  lemma SameHead<T(!new)>(a: seq<T>, b: seq<T>, key: T -> Key)
    requires Sorted(a, key) && Sorted(b, key) && multiset(a) == multiset(b) && Distinguishes(key, a) && a != []
    ensures b != [] && a[0] == b[0]
  {
    MembersOf(a);
    MembersOf(b);
    assert a[0] in b && b[0] in a;
    SortedHeadLeast(a, key, b[0]);
    SortedHeadLeast(b, key, a[0]);
    Total(key(a[0]), key(b[0]));
  }

  /** Two sorted arrangements of the same elements are the same sequence. */
  lemma {:induction false} SortedUnique<T(!new)>(a: seq<T>, b: seq<T>, key: T -> Key)
    requires Sorted(a, key) && Sorted(b, key) && multiset(a) == multiset(b) && Distinguishes(key, a)
    ensures a == b
    decreases |a|
  {
    if a == [] {
      MembersOf(b);
    } else {
      SameHead(a, b, key);
      var a', b' := a[1..], b[1..];
      TailMembers(a, a');
      TailMembers(b, b');
      SortedUnique(a', b', key);
      assert a == [a[0]] + a' && b == [b[0]] + b';
    }
  }

  /** The sorted arrangement does not depend on the order the elements came in. */
  lemma SortPermutation<T(!new)>(a: seq<T>, b: seq<T>, key: T -> Key)
    requires multiset(a) == multiset(b) && Distinguishes(key, a)
    ensures Sort(a, key) == Sort(b, key)
  {
    SortSorts(a, key);
    SortSorts(b, key);
    SortedUnique(Sort(a, key), Sort(b, key), key);
  }

  // ----- distinct elements -----

  ghost predicate NoDuplicates<T(!new)>(s: seq<T>) {
    forall i, j | 0 <= i < j < |s| :: s[i] != s[j]
  }

  lemma {:induction false} OnceEach<T(!new)>(s: seq<T>, x: T)
    requires NoDuplicates(s)
    ensures multiset(s)[x] <= 1
  {
    if s != [] {
      var front, last := s[..|s| - 1], s[|s| - 1];
      assert s == front + [last];
      OnceEach(front, x);
      assert last !in front;
      assert last !in multiset(front);
    }
  }

  lemma PermutedNoDuplicates<T(!new)>(a: seq<T>, b: seq<T>)
    requires NoDuplicates(a) && multiset(a) == multiset(b)
    ensures NoDuplicates(b)
  {
    forall i, j | 0 <= i < j < |b| ensures b[i] != b[j] {
      OnceEach(a, b[i]);
      var front, back := b[..j], b[j..];
      assert b == front + back;
      assert multiset(b) == multiset(front) + multiset(back);
      assert front[i] in multiset(front) && back[0] in multiset(back);
    }
  }

  /** A sorted sequence without repetitions is fixed by what is in it. */
  lemma SortedMembersUnique<T(!new)>(a: seq<T>, b: seq<T>, key: T -> Key)
    requires Sorted(a, key) && Sorted(b, key) && Distinguishes(key, a)
    requires NoDuplicates(a) && NoDuplicates(b) && forall x :: x in a <==> x in b
    ensures a == b
  {
    forall x ensures multiset(a)[x] == multiset(b)[x] {
      OnceEach(a, x);
      OnceEach(b, x);
      assert x in a <==> x in multiset(a);
      assert x in b <==> x in multiset(b);
    }
    assert multiset(a) == multiset(b);
    SortedUnique(a, b, key);
  }
}
