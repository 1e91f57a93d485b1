/** Vocabulary shared by the whole model: failure values, first-seen
    de-duplication (what a JavaScript `Set`, or a dictionary of flags, does
    to a list of keys), the string order that `Array.prototype.sort` and
    `localeCompare` are modelled by, and a stable sort by a string key. */
module Common {

  datatype Option<+T> = None | Some(value: T)

  datatype Result<+T, +E> = Success(value: T) | Failure(error: E)

  /** No value occurs twice in `s`. */
  predicate NoDup<T(==)>(s: seq<T>) {
    forall i, j :: 0 <= i < j < |s| ==> s[i] != s[j]
  }

  /** The position of the first occurrence of `x` in `s`. */
  function FirstIndex<T(==)>(s: seq<T>, x: T): (i: nat)
    requires x in s
    ensures i < |s| && s[i] == x && x !in s[..i]
  {
    if s[0] == x then 0
    else
      var i := 1 + FirstIndex(s[1..], x);
      assert s[..i] == [s[0]] + s[1..][..i - 1];
      i
  }

  lemma {:induction false} FirstIndexAppend<T>(s: seq<T>, x: T, y: T)
    requires y in s
    ensures FirstIndex(s + [x], y) == FirstIndex(s, y)
  {
    if s[0] != y {
      assert (s + [x])[1..] == s[1..] + [x];
      FirstIndexAppend(s[1..], x, y);
    }
  }

  lemma FirstIndexLast<T>(s: seq<T>, x: T)
    requires x !in s
    ensures FirstIndex(s + [x], x) == |s|
  {
    assert (s + [x])[..|s|] == s;
  }

  /** A non-empty sequence has its first element as a member. */
  lemma HeadMember<T>(s: seq<T>)
    ensures |s| > 0 ==> s[0] in s
  {
  }

  /** A prefix one element longer. */
  lemma TakeSnoc<T>(s: seq<T>, i: nat)
    requires i < |s|
    ensures s[..i + 1] == s[..i] + [s[i]]
    ensures s[..i + 1][..i] == s[..i]
  {
  }

  /** The values of `s` in first-seen order, each once: the list that the
      pattern `if (!seen[x]) { seen[x] = true; out.push(x) }` builds, and
      the iteration order of a `Set` filled by `add` in the order of `s`. */
  function Dedup<T(==)>(s: seq<T>): seq<T>
  {
    if s == [] then []
    else
      var r := Dedup(s[..|s| - 1]);
      if s[|s| - 1] in r then r else r + [s[|s| - 1]]
  }

  /** Dedup keeps exactly the values of `s`, each once. */
  lemma {:induction false} DedupMembers<T>(s: seq<T>)
    ensures NoDup(Dedup(s))
    ensures forall x :: x in Dedup(s) ==> x in s
    ensures forall x :: x in s ==> x in Dedup(s)
  {
    if s != [] {
      var p := s[..|s| - 1];
      DedupMembers(p);
      assert s == p + [s[|s| - 1]];
    }
  }

  /** Dedup lists the values in the order of their first occurrence in `s`. */
  lemma {:induction false} DedupFirstSeen<T>(s: seq<T>)
    ensures forall x :: x in Dedup(s) ==> x in s
    ensures forall x :: x in s ==> x in Dedup(s)
    ensures forall i, j :: 0 <= i < j < |Dedup(s)| ==>
              FirstIndex(s, Dedup(s)[i]) < FirstIndex(s, Dedup(s)[j])
  {
    DedupMembers(s);
    if s != [] {
      var p, x := s[..|s| - 1], s[|s| - 1];
      assert s == p + [x];
      DedupFirstSeen(p);
      var r := Dedup(p);
      forall y | y in r
        ensures FirstIndex(s, y) == FirstIndex(p, y)
      {
        assert y in p;
        FirstIndexAppend(p, x, y);
      }
      if x !in r {
        FirstIndexLast(p, x);
        forall i, j | 0 <= i < j < |Dedup(s)|
          ensures FirstIndex(s, Dedup(s)[i]) < FirstIndex(s, Dedup(s)[j])
        {
          assert Dedup(s)[i] == r[i];
          if j < |r| {
            assert Dedup(s)[j] == r[j];
          }
        }
      }
    }
  }

  /** Dedup of a list extended by one value. */
  lemma DedupSnoc<T>(s: seq<T>, x: T)
    ensures Dedup(s + [x]) == if x in Dedup(s) then Dedup(s) else Dedup(s) + [x]
  {
    assert (s + [x])[..|s + [x]| - 1] == s;
  }

  // ---------------------------------------------------------------------
  // String order

  /** `a` sorts strictly before `b`: lexicographic order on character codes,
      a proper prefix first. */
  predicate Below(a: string, b: string)
  {
    if a == [] then b != []
    else if b == [] then false
    else a[0] < b[0] || (a[0] == b[0] && Below(a[1..], b[1..]))
  }

  predicate AtMost(a: string, b: string)
  {
    a == b || Below(a, b)
  }

  lemma {:induction false} BelowIrreflexive(a: string)
    ensures !Below(a, a)
  {
    if a != [] {
      BelowIrreflexive(a[1..]);
    }
  }

  lemma {:induction false} BelowTransitive(a: string, b: string, c: string)
    requires Below(a, b) && Below(b, c)
    ensures Below(a, c)
  {
    if a != [] && a[0] == b[0] && b[0] == c[0] {
      BelowTransitive(a[1..], b[1..], c[1..]);
    }
  }

  lemma {:induction false} BelowTotal(a: string, b: string)
    ensures a == b || Below(a, b) || Below(b, a)
  {
    if a != [] && b != [] && a[0] == b[0] {
      BelowTotal(a[1..], b[1..]);
      if a[1..] == b[1..] {
        assert a == [a[0]] + a[1..] && b == [b[0]] + b[1..];
      }
    }
  }

  lemma BelowAsymmetric(a: string, b: string)
    requires Below(a, b)
    ensures !Below(b, a) && a != b
  {
    if Below(b, a) {
      BelowTransitive(a, b, a);
      BelowIrreflexive(a);
    }
    if a == b {
      BelowIrreflexive(a);
    }
  }

  lemma AtMostTransitive(a: string, b: string, c: string)
    requires AtMost(a, b) && AtMost(b, c)
    ensures AtMost(a, c)
  {
    if Below(a, b) && Below(b, c) {
      BelowTransitive(a, b, c);
    }
  }

  // ---------------------------------------------------------------------
  // Stable sort by a string key

  /** Every element's key is at most the key of every later element. */
  ghost predicate SortedBy<T>(s: seq<T>, key: T -> string)
  {
    forall i, j :: 0 <= i < j < |s| ==> AtMost(key(s[i]), key(s[j]))
  }

  /** Every element's key is strictly below the key of every later element. */
  ghost predicate StrictlySortedBy<T>(s: seq<T>, key: T -> string)
  {
    forall i, j :: 0 <= i < j < |s| ==> Below(key(s[i]), key(s[j]))
  }

  /** Inserts `x` after every element whose key is not above its own, so that
      elements with equal keys keep their order. */
  function InsertBy<T>(x: T, s: seq<T>, key: T -> string): (r: seq<T>)
    ensures |r| == |s| + 1
  {
    if s == [] then [x]
    else if Below(key(x), key(s[0])) then [x] + s
    else [s[0]] + InsertBy(x, s[1..], key)
  }

  /** A stable insertion sort; the model of `Array.prototype.sort` with a
      comparator that compares one string key of each element. */
  function SortBy<T>(s: seq<T>, key: T -> string): (r: seq<T>)
    ensures |r| == |s|
  {
    if s == [] then []
    else InsertBy(s[|s| - 1], SortBy(s[..|s| - 1], key), key)
  }

  lemma {:induction false} InsertByPermutes<T>(x: T, s: seq<T>, key: T -> string)
    ensures multiset(InsertBy(x, s, key)) == multiset(s) + multiset{x}
  {
    if s != [] && !Below(key(x), key(s[0])) {
      InsertByPermutes(x, s[1..], key);
      assert s == [s[0]] + s[1..];
    }
  }

  /** A sorted sequence stays sorted under a new head whose key is at most
      every key in it. */
  lemma ConsSorted<T>(h: T, t: seq<T>, key: T -> string)
    requires SortedBy(t, key)
    requires forall y :: y in t ==> AtMost(key(h), key(y))
    ensures SortedBy([h] + t, key)
  {
    var r := [h] + t;
    forall i, j | 0 <= i < j < |r|
      ensures AtMost(key(r[i]), key(r[j]))
    {
      assert r[j] == t[j - 1];
      if i > 0 {
        assert r[i] == t[i - 1];
      }
    }
  }

  lemma {:induction false} InsertBySorted<T>(x: T, s: seq<T>, key: T -> string)
    requires SortedBy(s, key)
    ensures SortedBy(InsertBy(x, s, key), key)
  {
    if s == [] {
    } else if Below(key(x), key(s[0])) {
      forall y | y in s
        ensures AtMost(key(x), key(y))
      {
        var k :| 0 <= k < |s| && s[k] == y;
        AtMostTransitive(key(x), key(s[0]), key(y));
      }
      ConsSorted(x, s, key);
    } else {
      var t := InsertBy(x, s[1..], key);
      InsertBySorted(x, s[1..], key);
      InsertByPermutes(x, s[1..], key);
      BelowTotal(key(x), key(s[0]));
      forall y | y in t
        ensures AtMost(key(s[0]), key(y))
      {
        assert y in multiset(t);
        if y != x {
          assert y in multiset(s[1..]);
          var k :| 1 <= k < |s| && s[k] == y;
        }
      }
      ConsSorted(s[0], t, key);
    }
  }

  /** SortBy orders its input by key and only rearranges it. */
  lemma {:induction false} SortByCorrect<T>(s: seq<T>, key: T -> string)
    ensures SortedBy(SortBy(s, key), key)
    ensures multiset(SortBy(s, key)) == multiset(s)
    ensures |SortBy(s, key)| == |s|
  {
    if s != [] {
      var p := s[..|s| - 1];
      SortByCorrect(p, key);
      InsertBySorted(s[|s| - 1], SortBy(p, key), key);
      InsertByPermutes(s[|s| - 1], SortBy(p, key), key);
      assert s == p + [s[|s| - 1]];
    }
    assert |SortBy(s, key)| == |multiset(SortBy(s, key))|;
  }

  /** When no two elements share a key, SortBy orders them strictly. */
  lemma SortByStrict<T>(s: seq<T>, key: T -> string)
    requires forall i, j :: 0 <= i < j < |s| ==> key(s[i]) != key(s[j])
    ensures StrictlySortedBy(SortBy(s, key), key)
    ensures multiset(SortBy(s, key)) == multiset(s)
  {
    SortByCorrect(s, key);
    var r := SortBy(s, key);
    forall i, j | 0 <= i < j < |r|
      ensures Below(key(r[i]), key(r[j]))
    {
      assert r[i] in multiset(s) && r[j] in multiset(s);
      var a :| 0 <= a < |s| && s[a] == r[i];
      var b :| 0 <= b < |s| && s[b] == r[j];
      if key(r[i]) == key(r[j]) {
        assert a == b;
        MultisetTwoPositions(r, i, j);
        assert multiset(r)[r[i]] >= 2;
        MultisetOnce(s, a, key);
      }
    }
  }

  lemma MultisetTwoPositions<T>(s: seq<T>, i: nat, j: nat)
    requires i < j < |s| && s[i] == s[j]
    ensures multiset(s)[s[i]] >= 2
  {
    assert s == s[..i] + [s[i]] + s[i + 1..j] + [s[j]] + s[j + 1..];
  }

  lemma {:induction false} MultisetOnce<T>(s: seq<T>, a: nat, key: T -> string)
    requires a < |s|
    requires forall i, j :: 0 <= i < j < |s| ==> key(s[i]) != key(s[j])
    ensures multiset(s)[s[a]] == 1
  {
    var x := s[a];
    var rest := s[..a] + s[a + 1..];
    assert s == s[..a] + [x] + s[a + 1..];
    forall k | 0 <= k < |rest|
      ensures rest[k] != x
    {
      if k < a {
        assert rest[k] == s[k];
      } else {
        assert rest[k] == s[k + 1];
      }
    }
    assert x !in rest;
    assert multiset(rest)[x] == 0;
    assert multiset(s) == multiset(rest) + multiset{x};
  }

  function Identity(s: string): string { s }

  /** The model of `Array.from(set).sort()` on strings. */
  function SortStrings(s: seq<string>): seq<string>
  {
    SortBy(s, Identity)
  }

  /** Sorting a duplicate-free list of strings gives a strictly ascending list
      of exactly the same strings. */
  lemma SortStringsDistinct(s: seq<string>)
    requires NoDup(s)
    ensures StrictlySortedBy(SortStrings(s), Identity)
    ensures NoDup(SortStrings(s))
    ensures forall x :: x in SortStrings(s) ==> x in s
    ensures forall x :: x in s ==> x in SortStrings(s)
  {
    SortByStrict(s, Identity);
    var r := SortStrings(s);
    forall i, j | 0 <= i < j < |r|
      ensures r[i] != r[j]
    {
      BelowAsymmetric(r[i], r[j]);
    }
    forall x
      ensures x in r <==> x in s
    {
      assert x in r <==> x in multiset(r);
      assert x in s <==> x in multiset(s);
    }
  }
}
