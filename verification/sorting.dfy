/**
  A stable sort over an arbitrary "less than or equal" relation.

  `Array.prototype.sort` is required to be stable by section 22.1.3.27 of
  ECMAScript 2019: elements the comparator reports as equal keep their
  original relative order. A sort result is therefore pinned down by three
  facts: it is sorted, it holds the same elements, and for every element `p`
  the elements tied with `p` appear in the same order as in the input.
  `Sort` below is one such function; `StableSortIsUnique` shows there is
  only one.
 */
module Sorting {
  import opened Seqs

  /** `le` is total and transitive: the order a consistent comparator induces. */
  ghost predicate TotalPreorder<T(!new)>(le: (T, T) -> bool) {
    && (forall a, b :: le(a, b) || le(b, a))
    && (forall a, b, c :: le(a, b) && le(b, c) ==> le(a, c))
  }

  ghost predicate Sorted<T>(s: seq<T>, le: (T, T) -> bool) {
    forall i, j :: 0 <= i < j < |s| ==> le(s[i], s[j])
  }

  /** `a` and `b` compare equal under `le`. */
  predicate Tied<T>(le: (T, T) -> bool, a: T, b: T) {
    le(a, b) && le(b, a)
  }

  /** The elements of `s` that compare equal to `p`, in their order in `s`. */
  function Ties<T(!new)>(s: seq<T>, p: T, le: (T, T) -> bool): seq<T> {
    Filter(s, x => Tied(le, x, p))
  }

  /** `r` is a stable sort of `s` under `le`. */
  ghost predicate StablySorted<T(!new)>(s: seq<T>, r: seq<T>, le: (T, T) -> bool) {
    && Sorted(r, le)
    && multiset(r) == multiset(s)
    && forall p :: Ties(r, p, le) == Ties(s, p, le)
  }

  lemma TiesCons<T(!new)>(x: T, s: seq<T>, p: T, le: (T, T) -> bool)
    ensures Ties([x] + s, p, le) == if Tied(le, x, p) then [x] + Ties(s, p, le) else Ties(s, p, le)
  {
    assert ([x] + s)[1..] == s;
  }

  /** Inserts `x` in front of the first element it is not strictly greater than. */
  function Insert<T(!new)>(x: T, s: seq<T>, le: (T, T) -> bool): (r: seq<T>)
    requires TotalPreorder(le)
    ensures multiset(r) == multiset{x} + multiset(s)
    ensures Sorted(s, le) ==> Sorted(r, le)
    ensures forall p :: Ties(r, p, le) == Ties([x] + s, p, le)
  {
    if s == [] || le(x, s[0]) then [x] + s
    else
      var rest := Insert(x, s[1..], le);
      assert s == [s[0]] + s[1..];
      assert Sorted(s, le) ==> Sorted([s[0]] + rest, le) by {
        if Sorted(s, le) {
          forall k | 0 <= k < |rest|
            ensures le(s[0], rest[k])
          {
            assert rest[k] in multiset(rest);
            if rest[k] != x {
              assert rest[k] in s[1..];
            }
          }
        }
      }
      assert forall p :: Ties([s[0]] + rest, p, le) == Ties([x] + s, p, le) by {
        forall p
          ensures Ties([s[0]] + rest, p, le) == Ties([x] + s, p, le)
        {
          TiesCons(s[0], rest, p, le);
          TiesCons(x, s[1..], p, le);
          TiesCons(x, s, p, le);
          TiesCons(s[0], s[1..], p, le);
        }
      }
      [s[0]] + rest
  }

  /** Insertion sort; the insertion rule makes it stable. */
  function Sort<T(!new)>(s: seq<T>, le: (T, T) -> bool): (r: seq<T>)
    requires TotalPreorder(le)
    ensures StablySorted(s, r, le)
  {
    if s == [] then []
    else
      assert s == [s[0]] + s[1..];
      var r := Insert(s[0], Sort(s[1..], le), le);
      assert forall p :: Ties(r, p, le) == Ties(s, p, le) by {
        forall p
          ensures Ties(r, p, le) == Ties(s, p, le)
        {
          TiesCons(s[0], Sort(s[1..], le), p, le);
          TiesCons(s[0], s[1..], p, le);
        }
      }
      r
  }

  /** Two sorted sequences with the same ties for every element are equal. */
  lemma {:induction false} SortedWithSameTiesAreEqual<T(!new)>(r1: seq<T>, r2: seq<T>, le: (T, T) -> bool)
    requires TotalPreorder(le)
    requires Sorted(r1, le) && Sorted(r2, le)
    requires forall p :: Ties(r1, p, le) == Ties(r2, p, le)
    ensures r1 == r2
  {
    if r1 == [] || r2 == [] {
      NonEmptyHasTies(r1, le);
      NonEmptyHasTies(r2, le);
    } else {
      SameHead(r1, r2, le);
      SameTailTies(r1, r2, le);
      SortedWithSameTiesAreEqual(r1[1..], r2[1..], le);
      assert r1 == [r1[0]] + r1[1..];
      assert r2 == [r2[0]] + r2[1..];
    }
  }

  /** A non-empty sequence has a non-empty tie class for its head. */
  lemma NonEmptyHasTies<T(!new)>(r: seq<T>, le: (T, T) -> bool)
    requires TotalPreorder(le)
    ensures r != [] ==> Ties(r, r[0], le) != []
  {
    if r != [] {
      assert r == [r[0]] + r[1..];
      TiesCons(r[0], r[1..], r[0], le);
    }
  }

  /** Sorted sequences with the same ties start with the same element. */
  lemma SameHead<T(!new)>(r1: seq<T>, r2: seq<T>, le: (T, T) -> bool)
    requires TotalPreorder(le)
    requires Sorted(r1, le) && Sorted(r2, le)
    requires forall p :: Ties(r1, p, le) == Ties(r2, p, le)
    requires r1 != [] && r2 != []
    ensures r1[0] == r2[0]
  {
    var a, b := r1[0], r2[0];
    assert r1 == [a] + r1[1..];
    assert r2 == [b] + r2[1..];
    TiesCons(a, r1[1..], a, le);
    assert Ties(r2, a, le) != [];
    FirstTieBounds(r2, a, le);
    TiesCons(b, r2[1..], b, le);
    assert Ties(r1, b, le) != [];
    FirstTieBounds(r1, b, le);
    TiesCons(b, r2[1..], a, le);
  }

  /** Removing an equal head from both sequences keeps their ties equal. */
  lemma SameTailTies<T(!new)>(r1: seq<T>, r2: seq<T>, le: (T, T) -> bool)
    requires forall p :: Ties(r1, p, le) == Ties(r2, p, le)
    requires r1 != [] && r2 != [] && r1[0] == r2[0]
    ensures forall p :: Ties(r1[1..], p, le) == Ties(r2[1..], p, le)
  {
    assert r1 == [r1[0]] + r1[1..];
    assert r2 == [r2[0]] + r2[1..];
    forall p
      ensures Ties(r1[1..], p, le) == Ties(r2[1..], p, le)
    {
      TiesCons(r1[0], r1[1..], p, le);
      TiesCons(r2[0], r2[1..], p, le);
    }
  }

  /** In a sorted non-empty sequence whose tie class of `p` is non-empty, the head is at most `p`. */
  lemma FirstTieBounds<T(!new)>(r: seq<T>, p: T, le: (T, T) -> bool)
    requires TotalPreorder(le)
    requires Sorted(r, le) && r != []
    requires Ties(r, p, le) != []
    ensures le(r[0], p)
  {
    var y := Ties(r, p, le)[0];
    assert y in multiset(Ties(r, p, le));
    assert y in r;
    var k :| 0 <= k < |r| && r[k] == y;
    assert Tied(le, y, p);
    if k > 0 {
      assert le(r[0], r[k]);
    }
  }

  /** Any stable sort of `s` is `Sort(s)`: the specification determines the result. */
  lemma StableSortIsUnique<T(!new)>(s: seq<T>, r: seq<T>, le: (T, T) -> bool)
    requires TotalPreorder(le)
    requires StablySorted(s, r, le)
    ensures r == Sort(s, le)
  {
    SortedWithSameTiesAreEqual(r, Sort(s, le), le);
  }

  /** Sorting a sorted list again changes nothing. */
  lemma SortIdempotent<T(!new)>(s: seq<T>, le: (T, T) -> bool)
    requires TotalPreorder(le)
    ensures Sort(Sort(s, le), le) == Sort(s, le)
  {
    StableSortIsUnique(Sort(s, le), Sort(s, le), le);
  }
}
