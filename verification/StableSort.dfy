/** The library's stable `sort_by_key`, and what a first-match scan of its result finds. */
module StableSort {
  import opened Prelude

  function Insert<T>(x: T, s: seq<T>, key: T -> int): seq<T> {
    if s == [] || key(x) <= key(s[0]) then [x] + s
    else [s[0]] + Insert(x, s[1..], key)
  }

  function SortByKey<T>(s: seq<T>, key: T -> int): seq<T> {
    if s == [] then [] else Insert(s[0], SortByKey(s[1..], key), key)
  }

  predicate Sorted<T>(s: seq<T>, key: T -> int) {
    forall i, j :: 0 <= i < j < |s| ==> key(s[i]) <= key(s[j])
  }

  lemma {:induction false} InsertPermutes<T>(x: T, s: seq<T>, key: T -> int)
    ensures multiset(Insert(x, s, key)) == multiset(s) + multiset{x}
  {
    if s != [] && key(x) > key(s[0]) {
      InsertPermutes(x, s[1..], key);
      assert s == [s[0]] + s[1..];
    }
  }

  lemma {:induction false} InsertSorted<T>(x: T, s: seq<T>, key: T -> int)
    requires Sorted(s, key)
    ensures Sorted(Insert(x, s, key), key)
  {
    if s != [] && key(x) > key(s[0]) {
      InsertSorted(x, s[1..], key);
      InsertPermutes(x, s[1..], key);
      var rest := Insert(x, s[1..], key);
      forall j | 0 <= j < |rest| ensures key(s[0]) <= key(rest[j]) {
        assert rest[j] in multiset(rest);
        assert rest[j] == x || rest[j] in s[1..];
      }
    }
  }

  lemma {:induction false} SortPermutes<T>(s: seq<T>, key: T -> int)
    ensures multiset(SortByKey(s, key)) == multiset(s)
  {
    if s != [] {
      SortPermutes(s[1..], key);
      InsertPermutes(s[0], SortByKey(s[1..], key), key);
      assert s == [s[0]] + s[1..];
    }
  }

  /** Sorting permutes and orders. */
  lemma {:induction false} SortByKeySorts<T>(s: seq<T>, key: T -> int)
    ensures multiset(SortByKey(s, key)) == multiset(s)
    ensures Sorted(SortByKey(s, key), key)
    ensures |SortByKey(s, key)| == |s|
  {
    SortPermutes(s, key);
    assert |multiset(SortByKey(s, key))| == |multiset(s)|;
    if s != [] {
      SortByKeySorts(s[1..], key);
      InsertSorted(s[0], SortByKey(s[1..], key), key);
    }
  }

  lemma SortKeepsMembers<T(!new)>(s: seq<T>, key: T -> int)
    ensures forall x :: x in SortByKey(s, key) <==> x in s
  {
    SortPermutes(s, key);
    forall x ensures x in SortByKey(s, key) <==> x in s {
      assert x in multiset(SortByKey(s, key)) <==> x in multiset(s);
    }
  }

  // ---- first match ----

  function FirstMatch<T>(s: seq<T>, p: T -> bool): Option<T> {
    if s == [] then None
    else if p(s[0]) then Some(s[0])
    else FirstMatch(s[1..], p)
  }

  /** Element `i` matches, no match has a smaller key, and none with the same key stands before it. */
  predicate IsBest<T>(s: seq<T>, p: T -> bool, key: T -> int, i: nat) {
    && i < |s| && p(s[i])
    && (forall j :: 0 <= j < |s| && p(s[j]) ==> key(s[i]) <= key(s[j]))
    && (forall j :: 0 <= j < i && p(s[j]) ==> key(s[i]) < key(s[j]))
  }

  predicate NoMatch<T>(s: seq<T>, p: T -> bool) {
    forall j :: 0 <= j < |s| ==> !p(s[j])
  }

  lemma {:induction false} FirstMatchMember<T>(s: seq<T>, p: T -> bool)
    ensures FirstMatch(s, p).None? <==> NoMatch(s, p)
    ensures FirstMatch(s, p).Some? ==> FirstMatch(s, p).value in s && p(FirstMatch(s, p).value)
  {
    if s != [] && !p(s[0]) {
      FirstMatchMember(s[1..], p);
      assert s == [s[0]] + s[1..];
    }
  }

  lemma {:induction false} FirstMatchOfInsert<T>(x: T, s: seq<T>, p: T -> bool, key: T -> int)
    requires Sorted(s, key)
    ensures var m := FirstMatch(s, p);
            FirstMatch(Insert(x, s, key), p) ==
              if p(x) && (m.None? || key(x) <= key(m.value)) then Some(x) else m
  {
    FirstMatchMember(s, p);
    if s == [] || key(x) <= key(s[0]) {
      assert ([x] + s)[1..] == s;
    } else {
      FirstMatchOfInsert(x, s[1..], p, key);
      var t := Insert(x, s, key);
      assert t[1..] == Insert(x, s[1..], key);
    }
  }

  // ---- the best match ----

  /** The first unless the second has a strictly smaller key. */
  function Better<T>(a: Option<T>, b: Option<T>, key: T -> int): Option<T> {
    if a.Some? && (b.None? || key(a.value) <= key(b.value)) then a else b
  }

  /** The match with the smallest key, the earliest among equals. */
  function Best<T>(s: seq<T>, p: T -> bool, key: T -> int): Option<T> {
    if s == [] then None
    else Better(if p(s[0]) then Some(s[0]) else None, Best(s[1..], p, key), key)
  }

  /** The first match of the sorted list is the best match of the original list. */
  lemma {:induction false} FirstMatchOfSorted<T>(s: seq<T>, p: T -> bool, key: T -> int)
    ensures FirstMatch(SortByKey(s, key), p) == Best(s, p, key)
  {
    if s != [] {
      FirstMatchOfSorted(s[1..], p, key);
      SortByKeySorts(s[1..], key);
      FirstMatchOfInsert(s[0], SortByKey(s[1..], key), p, key);
    }
  }

  lemma {:induction false} BestIsBest<T>(s: seq<T>, p: T -> bool, key: T -> int) returns (i: nat)
    ensures Best(s, p, key).None? <==> NoMatch(s, p)
    ensures Best(s, p, key).Some? ==> IsBest(s, p, key, i) && Best(s, p, key) == Some(s[i])
  {
    i := 0;
    if s != [] {
      var j := BestIsBest(s[1..], p, key);
      assert s == [s[0]] + s[1..];
      var rest := Best(s[1..], p, key);
      if !(p(s[0]) && (rest.None? || key(s[0]) <= key(rest.value))) {
        i := j + 1;
      }
    }
  }

  lemma BestOfOne<T>(x: T, p: T -> bool, key: T -> int)
    ensures Best([x], p, key) == if p(x) then Some(x) else None
  {
    assert [x][1..] == [];
  }

  /** Only the answers for the members matter. */
  lemma {:induction false} BestAgrees<T>(s: seq<T>, p: T -> bool, key: T -> int, q: T -> bool, other: T -> int)
    requires forall x :: x in s ==> p(x) == q(x) && key(x) == other(x)
    ensures Best(s, p, key) == Best(s, q, other)
    ensures Best(s, p, key).Some? ==> Best(s, p, key).value in s
  {
    if s != [] {
      BestAgrees(s[1..], p, key, q, other);
    }
  }

  lemma {:induction false} BestOfConcat<T>(s: seq<T>, t: seq<T>, p: T -> bool, key: T -> int)
    ensures Best(s + t, p, key) == Better(Best(s, p, key), Best(t, p, key), key)
  {
    if s == [] {
      assert s + t == t;
    } else {
      BestOfConcat(s[1..], t, p, key);
      assert (s + t)[1..] == s[1..] + t;
    }
  }

  // ---- lists made of pieces ----

  function FlatMap<S, T>(s: seq<S>, f: S -> seq<T>): seq<T> {
    if s == [] then [] else FlatMap(s[..|s| - 1], f) + f(s[|s| - 1])
  }

  /** Where each item yields at most one matching piece, the best piece comes from the best item. */
  lemma {:induction false} BestOfFlatMap<S, T>(s: seq<S>, f: S -> seq<T>, p: T -> bool, key: T -> int,
                                               image: S -> T, ps: S -> bool, keys: S -> int)
    requires forall x :: x in s ==> Best(f(x), p, key) == if ps(x) then Some(image(x)) else None
    requires forall x :: x in s && ps(x) ==> key(image(x)) == keys(x)
    ensures var b := Best(s, ps, keys);
            && (b.Some? ==> ps(b.value) && b.value in s)
            && Best(FlatMap(s, f), p, key) == if b.Some? then Some(image(b.value)) else None
  {
    if s != [] {
      var n := |s| - 1;
      var before, last := s[..n], s[n];
      assert s == before + [last];
      BestOfFlatMap(before, f, p, key, image, ps, keys);
      BestOfConcat(before, [last], ps, keys);
      BestOfConcat(FlatMap(before, f), f(last), p, key);
      BestOfOne(last, ps, keys);
    }
  }

  /** Where only item `k` yields matches, the best piece is the best of its pieces. */
  lemma {:induction false} BestOfOnePiece<S, T>(s: seq<S>, f: S -> seq<T>, p: T -> bool, key: T -> int, k: nat)
    requires k <= |s| && forall i :: 0 <= i < |s| && i != k ==> Best(f(s[i]), p, key) == None
    ensures Best(FlatMap(s, f), p, key) == if k < |s| then Best(f(s[k]), p, key) else None
  {
    if s != [] {
      var n := |s| - 1;
      BestOfOnePiece(s[..n], f, p, key, if k < n then k else n);
      BestOfConcat(FlatMap(s[..n], f), f(s[n]), p, key);
    }
  }

  lemma BestIsUnique<T>(s: seq<T>, p: T -> bool, key: T -> int, i: nat, j: nat)
    requires IsBest(s, p, key, i) && IsBest(s, p, key, j)
    ensures i == j
  {
  }
}
