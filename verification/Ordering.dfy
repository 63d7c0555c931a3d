/**
 Python's ordering on `str` and on the tuples used as sort keys, and its stable `sorted`.

 Every sort in the program uses a key that is a tuple of strings, once preceded by a
 number; `Key` covers them all.  The lemmas say what makes a sort independent of the
 order in which its input was collected.
 */
module Ordering {

  datatype Key = Key(rank: int, parts: seq<string>)

  /** Code-point order on strings. */
  predicate StringLeq(a: string, b: string) {
    a == [] || (b != [] && (a[0] < b[0] || (a[0] == b[0] && StringLeq(a[1..], b[1..]))))
  }

  /** Order on tuples of strings: the first difference decides. */
  predicate PartsLeq(a: seq<string>, b: seq<string>) {
    a == [] || (b != [] && if a[0] == b[0] then PartsLeq(a[1..], b[1..]) else StringLeq(a[0], b[0]))
  }

  predicate KeyLeq(a: Key, b: Key) {
    a.rank < b.rank || (a.rank == b.rank && PartsLeq(a.parts, b.parts))
  }

  predicate KeyLess(a: Key, b: Key) {
    KeyLeq(a, b) && a != b
  }

  // ---------- the order is total ----------

  lemma {:induction false} StringLeqReflexive(a: string)
    ensures StringLeq(a, a)
  {
    if a != [] {
      StringLeqReflexive(a[1..]);
    }
  }

  lemma {:induction false} StringLeqTotal(a: string, b: string)
    ensures StringLeq(a, b) || StringLeq(b, a)
  {
    if a != [] && b != [] && a[0] == b[0] {
      StringLeqTotal(a[1..], b[1..]);
    }
  }

  lemma {:induction false} StringLeqAntisymmetric(a: string, b: string)
    requires StringLeq(a, b) && StringLeq(b, a)
    ensures a == b
  {
    if a != [] {
      StringLeqAntisymmetric(a[1..], b[1..]);
      assert a == [a[0]] + a[1..] && b == [b[0]] + b[1..];
    }
  }

  lemma {:induction false} StringLeqTransitive(a: string, b: string, c: string)
    requires StringLeq(a, b) && StringLeq(b, c)
    ensures StringLeq(a, c)
  {
    if a != [] && a[0] == b[0] == c[0] {
      StringLeqTransitive(a[1..], b[1..], c[1..]);
    }
  }

  lemma {:induction false} PartsLeqTotal(a: seq<string>, b: seq<string>)
    ensures PartsLeq(a, b) || PartsLeq(b, a)
  {
    if a != [] && b != [] {
      if a[0] == b[0] {
        PartsLeqTotal(a[1..], b[1..]);
      } else {
        StringLeqTotal(a[0], b[0]);
      }
    }
  }

  lemma {:induction false} PartsLeqAntisymmetric(a: seq<string>, b: seq<string>)
    requires PartsLeq(a, b) && PartsLeq(b, a)
    ensures a == b
  {
    if a != [] {
      if a[0] == b[0] {
        PartsLeqAntisymmetric(a[1..], b[1..]);
        assert a == [a[0]] + a[1..] && b == [b[0]] + b[1..];
      } else {
        StringLeqAntisymmetric(a[0], b[0]);
      }
    }
  }

  lemma {:induction false} PartsLeqTransitive(a: seq<string>, b: seq<string>, c: seq<string>)
    requires PartsLeq(a, b) && PartsLeq(b, c)
    ensures PartsLeq(a, c)
  {
    if a != [] {
      if a[0] == b[0] == c[0] {
        PartsLeqTransitive(a[1..], b[1..], c[1..]);
      } else if a[0] != b[0] && b[0] != c[0] {
        StringLeqTransitive(a[0], b[0], c[0]);
        if a[0] == c[0] {
          StringLeqAntisymmetric(a[0], b[0]);
        }
      }
    }
  }

  lemma KeyLeqTotal(a: Key, b: Key)
    ensures KeyLeq(a, b) || KeyLeq(b, a)
  {
    PartsLeqTotal(a.parts, b.parts);
  }

  lemma KeyLeqAntisymmetric(a: Key, b: Key)
    requires KeyLeq(a, b) && KeyLeq(b, a)
    ensures a == b
  {
    PartsLeqAntisymmetric(a.parts, b.parts);
  }

  lemma KeyLeqTransitive(a: Key, b: Key, c: Key)
    requires KeyLeq(a, b) && KeyLeq(b, c)
    ensures KeyLeq(a, c)
  {
    if a.rank == b.rank == c.rank {
      PartsLeqTransitive(a.parts, b.parts, c.parts);
    }
  }

  // ---------- what the order means ----------

  /** At the first position where they differ, a has ended or has the smaller character. */
  ghost predicate Precedes(a: string, b: string) {
    exists k {:trigger a[..k]} :: 0 <= k <= |a| && k < |b| && a[..k] == b[..k] && (k == |a| || a[k] < b[k])
  }

  /** At the first component where they differ, that of a precedes that of b. */
  ghost predicate TuplePrecedes(a: seq<string>, b: seq<string>) {
    exists k {:trigger a[..k]} :: 0 <= k < |a| && k < |b| && a[..k] == b[..k] && Precedes(a[k], b[k])
  }

  lemma SameFirst<T>(a: seq<T>, b: seq<T>, k: nat)
    requires k <= |a| && k <= |b| && a[..k] == b[..k]
    ensures k > 0 ==> a[0] == b[0]
  {
    assert k > 0 ==> a[..k][0] == b[..k][0];
  }

  lemma {:induction false} StringLeqIff(a: string, b: string)
    ensures StringLeq(a, b) <==> a == b || Precedes(a, b)
  {
    if a == [] {
      if b != [] { assert a[..0] == b[..0]; }
    } else if b != [] {
      StringLeqIff(a[1..], b[1..]);
      if a[0] < b[0] {
        assert a[..0] == b[..0];
      }
      if a[0] == b[0] {
        TailPrecedes(a, b);
        assert a == [a[0]] + a[1..] && b == [b[0]] + b[1..];
      }
      if k :| 0 <= k <= |a| && k < |b| && a[..k] == b[..k] && (k == |a| || a[k] < b[k]) {
        SameFirst(a, b, k);
      }
    }
  }

  lemma TailPrecedes(a: string, b: string)
    requires a != [] && b != [] && a[0] == b[0]
    ensures Precedes(a, b) <==> Precedes(a[1..], b[1..])
  {
    if Precedes(a, b) {
      var k :| 0 <= k <= |a| && k < |b| && a[..k] == b[..k] && (k == |a| || a[k] < b[k]);
      assert a[1..][..k - 1] == a[..k][1..] && b[1..][..k - 1] == b[..k][1..];
    }
    if Precedes(a[1..], b[1..]) {
      var c, d := a[1..], b[1..];
      var k :| 0 <= k <= |c| && k < |d| && c[..k] == d[..k] && (k == |c| || c[k] < d[k]);
      assert a[..k + 1] == [a[0]] + a[1..][..k] && b[..k + 1] == [b[0]] + b[1..][..k];
    }
  }

  lemma {:induction false} PartsLeqIff(a: seq<string>, b: seq<string>)
    requires |a| == |b|
    ensures PartsLeq(a, b) <==> a == b || TuplePrecedes(a, b)
  {
    if a != [] {
      PartsLeqIff(a[1..], b[1..]);
      StringLeqIff(a[0], b[0]);
      assert a == [a[0]] + a[1..] && b == [b[0]] + b[1..];
      if a[0] == b[0] {
        TailTuplePrecedes(a, b);
      } else {
        if k :| 0 <= k < |a| && k < |b| && a[..k] == b[..k] && Precedes(a[k], b[k]) {
          SameFirst(a, b, k);
        }
        if Precedes(a[0], b[0]) { assert a[..0] == b[..0]; }
      }
    }
  }

  lemma PrecedesIrreflexive(a: string)
    ensures !Precedes(a, a)
  {
  }

  lemma TailTuplePrecedes(a: seq<string>, b: seq<string>)
    requires a != [] && b != [] && a[0] == b[0]
    ensures TuplePrecedes(a, b) <==> TuplePrecedes(a[1..], b[1..])
  {
    if TuplePrecedes(a, b) {
      var k :| 0 <= k < |a| && k < |b| && a[..k] == b[..k] && Precedes(a[k], b[k]);
      PrecedesIrreflexive(a[0]);
      assert a[1..][..k - 1] == a[..k][1..] && b[1..][..k - 1] == b[..k][1..];
    }
    if TuplePrecedes(a[1..], b[1..]) {
      var k :| 0 <= k < |a[1..]| && k < |b[1..]| && a[1..][..k] == b[1..][..k] && Precedes(a[1..][k], b[1..][k]);
      assert a[..k + 1] == [a[0]] + a[1..][..k] && b[..k + 1] == [b[0]] + b[1..][..k];
    }
  }

  /** Keys of one shape: the rank decides, then the first component that differs. */
  lemma KeyLeqIff(a: Key, b: Key)
    requires |a.parts| == |b.parts|
    ensures KeyLeq(a, b) <==> a == b || a.rank < b.rank || (a.rank == b.rank && TuplePrecedes(a.parts, b.parts))
  {
    PartsLeqIff(a.parts, b.parts);
  }

  // ---------- stable sorting ----------

  function Insert<T>(x: T, s: seq<T>, key: T -> Key): seq<T> {
    if s == [] || KeyLeq(key(x), key(s[0])) then [x] + s else [s[0]] + Insert(x, s[1..], key)
  }

  /** `sorted(s, key=key)`: ascending, equal keys keep their input order. */
  function SortBy<T>(s: seq<T>, key: T -> Key): seq<T> {
    if s == [] then [] else Insert(s[0], SortBy(s[1..], key), key)
  }

  ghost predicate Ascending<T>(s: seq<T>, key: T -> Key) {
    forall i, j :: 0 <= i < j < |s| ==> KeyLeq(key(s[i]), key(s[j]))
  }

  ghost predicate StrictlyAscending<T>(s: seq<T>, key: T -> Key) {
    forall i, j :: 0 <= i < j < |s| ==> KeyLess(key(s[i]), key(s[j]))
  }

  ghost predicate NoDuplicates<T>(s: seq<T>) {
    forall i, j :: 0 <= i < j < |s| ==> s[i] != s[j]
  }

  /** No two positions share a sort key. */
  ghost predicate DistinctKeys<T>(s: seq<T>, key: T -> Key) {
    forall i, j :: 0 <= i < j < |s| ==> key(s[i]) != key(s[j])
  }

  /** Elements with the same sort key are the same element. */
  ghost predicate KeyDetermines<T>(s: seq<T>, key: T -> Key) {
    forall i, j :: 0 <= i < |s| && 0 <= j < |s| && key(s[i]) == key(s[j]) ==> s[i] == s[j]
  }

  lemma {:induction false} InsertKeepsAscending<T>(x: T, s: seq<T>, key: T -> Key)
    requires Ascending(s, key)
    ensures Ascending(Insert(x, s, key), key)
    ensures multiset(Insert(x, s, key)) == multiset{x} + multiset(s)
  {
    if s == [] {
    } else if KeyLeq(key(x), key(s[0])) {
      forall j | 0 <= j < |s| ensures KeyLeq(key(x), key(s[j])) {
        if j > 0 {
          KeyLeqTransitive(key(x), key(s[0]), key(s[j]));
        }
      }
    } else {
      var rest := Insert(x, s[1..], key);
      InsertKeepsAscending(x, s[1..], key);
      assert s == [s[0]] + s[1..];
      forall j | 0 <= j < |rest| ensures KeyLeq(key(s[0]), key(rest[j])) {
        assert rest[j] in multiset(rest);
        if rest[j] == x {
          KeyLeqTotal(key(x), key(s[0]));
        } else {
          assert rest[j] in multiset(s[1..]);
          assert rest[j] in s[1..];
        }
      }
    }
  }

  lemma {:induction false} SortByIsAscendingPermutation<T>(s: seq<T>, key: T -> Key)
    ensures Ascending(SortBy(s, key), key)
    ensures multiset(SortBy(s, key)) == multiset(s)
  {
    if s != [] {
      SortByIsAscendingPermutation(s[1..], key);
      InsertKeepsAscending(s[0], SortBy(s[1..], key), key);
      assert s == [s[0]] + s[1..];
    }
  }

  lemma SameElements<T>(a: seq<T>, b: seq<T>)
    requires multiset(a) == multiset(b)
    ensures forall x :: x in a <==> x in b
    ensures |a| == |b|
  {
    forall x ensures x in a <==> x in b {
      assert x in a <==> x in multiset(a);
      assert x in b <==> x in multiset(b);
    }
    assert |a| == |multiset(a)| && |b| == |multiset(b)|;
  }

  lemma SortByKeepsElements<T>(s: seq<T>, key: T -> Key)
    ensures forall x :: x in SortBy(s, key) <==> x in s
    ensures |SortBy(s, key)| == |s|
  {
    SortByIsAscendingPermutation(s, key);
    SameElements(SortBy(s, key), s);
  }

  lemma LeastFirst<T>(s: seq<T>, x: T, key: T -> Key)
    requires Ascending(s, key) && x in s
    ensures KeyLeq(key(s[0]), key(x))
  {
    KeyLeqTotal(key(s[0]), key(s[0]));
    var i :| 0 <= i < |s| && s[i] == x;
  }

  lemma LeastUnique<T>(a: seq<T>, b: seq<T>, key: T -> Key)
    requires multiset(a) == multiset(b) && a != [] && b != []
    requires Ascending(a, key) && Ascending(b, key) && KeyDetermines(a, key)
    ensures a[0] == b[0]
  {
    SameElements(a, b);
    assert a[0] in b && b[0] in a;
    LeastFirst(a, b[0], key);
    LeastFirst(b, a[0], key);
    KeyLeqAntisymmetric(key(a[0]), key(b[0]));
    var i :| 0 <= i < |a| && a[i] == b[0];
    assert key(a[i]) == key(a[0]);
  }

  lemma TailMultiset<T>(s: seq<T>)
    requires s != []
    ensures multiset(s[1..]) == multiset(s) - multiset{s[0]}
  {
    assert s == [s[0]] + s[1..];
  }

  lemma TailAscending<T>(s: seq<T>, key: T -> Key)
    requires s != [] && Ascending(s, key)
    ensures Ascending(s[1..], key)
    ensures KeyDetermines(s, key) ==> KeyDetermines(s[1..], key)
  {
  }

  lemma SameHeadAndTail<T>(a: seq<T>, b: seq<T>)
    requires a != [] && b != [] && a[0] == b[0] && a[1..] == b[1..]
    ensures a == b
  {
    assert a == [a[0]] + a[1..] && b == [b[0]] + b[1..];
  }

  lemma TailsMatch<T>(a: seq<T>, b: seq<T>, key: T -> Key)
    requires multiset(a) == multiset(b) && a != [] && b != []
    requires Ascending(a, key) && Ascending(b, key) && KeyDetermines(a, key)
    ensures a[0] == b[0] && multiset(a[1..]) == multiset(b[1..])
    ensures Ascending(a[1..], key) && Ascending(b[1..], key) && KeyDetermines(a[1..], key)
  {
    LeastUnique(a, b, key);
    TailMultiset(a);
    TailMultiset(b);
    TailAscending(a, key);
    TailAscending(b, key);
  }

  lemma SameLength<T>(a: seq<T>, b: seq<T>)
    requires multiset(a) == multiset(b)
    ensures |a| == |b|
  {
    assert |a| == |multiset(a)| && |b| == |multiset(b)|;
  }

  /** An ascending arrangement of given elements is unique when keys determine elements. */
  lemma {:induction false} AscendingUnique<T>(a: seq<T>, b: seq<T>, key: T -> Key)
    requires multiset(a) == multiset(b)
    requires Ascending(a, key) && Ascending(b, key) && KeyDetermines(a, key)
    ensures a == b
  {
    SameLength(a, b);
    if a != [] {
      TailsMatch(a, b, key);
      AscendingUnique(a[1..], b[1..], key);
      SameHeadAndTail(a, b);
    }
  }

  lemma KeyDeterminesPermutation<T>(a: seq<T>, b: seq<T>, key: T -> Key)
    requires multiset(a) == multiset(b) && KeyDetermines(a, key)
    ensures KeyDetermines(b, key)
  {
    SameElements(a, b);
    forall i, j | 0 <= i < |b| && 0 <= j < |b| && key(b[i]) == key(b[j]) ensures b[i] == b[j] {
      assert b[i] in a && b[j] in a;
    }
  }

  /** Sorting does not depend on the order of the input when keys determine elements. */
  lemma SortByCanonical<T>(a: seq<T>, b: seq<T>, key: T -> Key)
    requires multiset(a) == multiset(b)
    requires KeyDetermines(a, key)
    ensures SortBy(a, key) == SortBy(b, key)
  {
    var r, t := SortBy(a, key), SortBy(b, key);
    SortByIsAscendingPermutation(a, key);
    SortByIsAscendingPermutation(b, key);
    KeyDeterminesPermutation(a, r, key);
    AscendingUnique(r, t, key);
  }

  lemma StrictlyAscendingFacts<T>(s: seq<T>, key: T -> Key)
    requires StrictlyAscending(s, key)
    ensures Ascending(s, key) && DistinctKeys(s, key) && KeyDetermines(s, key) && NoDuplicates(s)
  {
  }

  lemma DistinctKeysFacts<T>(s: seq<T>, key: T -> Key)
    requires DistinctKeys(s, key)
    ensures KeyDetermines(s, key) && NoDuplicates(s)
  {
  }

  lemma {:induction false} MultiplicityOne<T>(s: seq<T>, x: T)
    requires NoDuplicates(s)
    ensures multiset(s)[x] == if x in s then 1 else 0
  {
    if s != [] {
      assert s == [s[0]] + s[1..];
      MultiplicityOne(s[1..], x);
    }
  }

  lemma SameMultiset<T>(a: seq<T>, b: seq<T>)
    requires NoDuplicates(a) && NoDuplicates(b)
    requires forall x :: x in a <==> x in b
    ensures multiset(a) == multiset(b)
  {
    forall x ensures multiset(a)[x] == multiset(b)[x] {
      MultiplicityOne(a, x);
      MultiplicityOne(b, x);
    }
  }

  lemma DuplicateCounts<T>(s: seq<T>, i: nat, j: nat)
    requires i < j < |s| && s[i] == s[j]
    ensures multiset(s)[s[i]] >= 2
  {
    assert s == s[..j] + [s[j]] + s[j + 1..];
    assert s[..j][i] == s[i];
    assert s[i] in multiset(s[..j]);
  }

  lemma NoDuplicatesPermutation<T>(a: seq<T>, b: seq<T>)
    requires multiset(a) == multiset(b) && NoDuplicates(a)
    ensures NoDuplicates(b)
  {
    forall i, j | 0 <= i < j < |b| ensures b[i] != b[j] {
      MultiplicityOne(a, b[i]);
      if b[i] == b[j] {
        DuplicateCounts(b, i, j);
      }
    }
  }

  /** A strictly ascending sequence is determined by its set of elements. */
  lemma StrictlyAscendingUnique<T>(a: seq<T>, b: seq<T>, key: T -> Key)
    requires StrictlyAscending(a, key) && StrictlyAscending(b, key)
    requires forall x :: x in a <==> x in b
    ensures a == b
  {
    StrictlyAscendingFacts(a, key);
    StrictlyAscendingFacts(b, key);
    SameMultiset(a, b);
    AscendingUnique(a, b, key);
  }

  lemma SortByStrict<T>(s: seq<T>, key: T -> Key)
    requires DistinctKeys(s, key)
    ensures StrictlyAscending(SortBy(s, key), key)
  {
    var r := SortBy(s, key);
    SortByIsAscendingPermutation(s, key);
    DistinctKeysFacts(s, key);
    NoDuplicatesPermutation(s, r);
    KeyDeterminesPermutation(s, r, key);
  }

  // ---------- listing a set ----------

  /** The elements of a finite set in some order: what iterating over it gives. */
  ghost function Listing<T(!new)>(s: set<T>): (r: seq<T>)
    ensures NoDuplicates(r)
    ensures forall x :: x in r <==> x in s
    ensures |r| == |s|
  {
    if s == {} then [] else
    var x :| x in s;
    [x] + Listing(s - {x})
  }
}
