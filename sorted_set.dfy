/** `sorted(set(xs), key=rank)`: the distinct elements of a list in ascending order of a
    key. Python's `sorted` leaves distinct elements with equal keys in the order the set
    yields them; this model breaks such ties by the element itself, so the result is
    determined. With the identity as key the order is plain string order. */
module SortedSet {
  import opened Text

  /** The identity key: plain string order, the order of `sorted` on strings. */
  function Verbatim(s: string): string
  {
    s
  }

  function Elems(xs: seq<string>): set<string>
  {
    set x | x in xs
  }

  /** The strict order used: by key, then by the element. */
  predicate Before(rank: string -> string, a: string, b: string)
  {
    Less(rank(a), rank(b)) || (rank(a) == rank(b) && Less(a, b))
  }

  predicate StrictlySorted(rank: string -> string, xs: seq<string>)
  {
    forall i, j :: 0 <= i < j < |xs| ==> Before(rank, xs[i], xs[j])
  }

  lemma BeforeIrreflexive(rank: string -> string, a: string)
    ensures !Before(rank, a, a)
  {
    LessIrreflexive(rank(a));
    LessIrreflexive(a);
  }

  lemma BeforeTransitive(rank: string -> string, a: string, b: string, c: string)
    requires Before(rank, a, b) && Before(rank, b, c)
    ensures Before(rank, a, c)
  {
    if Less(rank(a), rank(b)) && Less(rank(b), rank(c)) {
      LessTransitive(rank(a), rank(b), rank(c));
    } else if rank(a) == rank(b) && rank(b) == rank(c) {
      LessTransitive(a, b, c);
    }
  }

  lemma BeforeTotal(rank: string -> string, a: string, b: string)
    requires a != b
    ensures Before(rank, a, b) || Before(rank, b, a)
  {
    if rank(a) == rank(b) {
      LessTotal(a, b);
    } else {
      LessTotal(rank(a), rank(b));
    }
  }

  lemma BeforeAsymmetric(rank: string -> string, a: string, b: string)
    requires Before(rank, a, b)
    ensures !Before(rank, b, a)
  {
    if Before(rank, b, a) {
      BeforeTransitive(rank, a, b, a);
      BeforeIrreflexive(rank, a);
    }
  }

  /** Inserts `x` at its place in a strictly sorted list, unless it is already there. */
  function Insert(rank: string -> string, x: string, xs: seq<string>): (r: seq<string>)
    requires StrictlySorted(rank, xs)
    ensures StrictlySorted(rank, r)
    ensures Elems(r) == Elems(xs) + {x}
  {
    if |xs| == 0 then [x]
    else if x == xs[0] then xs
    else if Before(rank, x, xs[0]) then
      InsertFront(rank, x, xs);
      [x] + xs
    else
      BeforeTotal(rank, x, xs[0]);
      var tail := Insert(rank, x, xs[1..]);
      InsertBehind(rank, x, xs, tail);
      [xs[0]] + tail
  }

  /** An element before the first goes in front. */
  lemma InsertFront(rank: string -> string, x: string, xs: seq<string>)
    requires StrictlySorted(rank, xs) && |xs| > 0 && Before(rank, x, xs[0])
    ensures StrictlySorted(rank, [x] + xs)
    ensures Elems([x] + xs) == Elems(xs) + {x}
  {
    forall j | 0 < j < |xs| ensures Before(rank, x, xs[j]) {
      BeforeTransitive(rank, x, xs[0], xs[j]);
    }
  }

  /** An element after the first goes into the rest, behind the first. */
  lemma InsertBehind(rank: string -> string, x: string, xs: seq<string>, tail: seq<string>)
    requires StrictlySorted(rank, xs) && |xs| > 0 && Before(rank, xs[0], x)
    requires StrictlySorted(rank, tail) && Elems(tail) == Elems(xs[1..]) + {x}
    ensures StrictlySorted(rank, [xs[0]] + tail)
    ensures Elems([xs[0]] + tail) == Elems(xs) + {x}
  {
    assert Elems(xs) == {xs[0]} + Elems(xs[1..]) by {
      assert xs == [xs[0]] + xs[1..];
    }
    assert Elems([xs[0]] + tail) == {xs[0]} + Elems(tail);
    forall y | y in tail ensures Before(rank, xs[0], y) {
      assert y in Elems(tail);
      if y != x {
        var j :| 0 <= j < |xs[1..]| && xs[1..][j] == y;
        assert xs[j + 1] == y;
      }
    }
  }


  /** `sorted(set(xs), key=rank)`. */
  function SortUnique(rank: string -> string, xs: seq<string>): (r: seq<string>)
    ensures StrictlySorted(rank, r)
    ensures Elems(r) == Elems(xs)
  {
    if |xs| == 0 then []
    else
      assert Elems(xs) == {xs[0]} + Elems(xs[1..]) by {
        assert xs == [xs[0]] + xs[1..];
      }
      Insert(rank, xs[0], SortUnique(rank, xs[1..]))
  }

  /** A strictly sorted list is determined by its elements. */
  lemma {:induction false} SortedUnique(rank: string -> string, a: seq<string>, b: seq<string>)
    requires StrictlySorted(rank, a) && StrictlySorted(rank, b)
    requires Elems(a) == Elems(b)
    ensures a == b
    decreases |a|
  {
    if |a| > 0 {
      assert a[0] in Elems(b);
      assert |b| > 0;
      assert b[0] in Elems(a);
      var k :| 0 <= k < |b| && b[k] == a[0];
      var m :| 0 <= m < |a| && a[m] == b[0];
      if k > 0 && m > 0 {
        BeforeAsymmetric(rank, a[0], b[0]);
      } else if k > 0 {
        BeforeIrreflexive(rank, b[0]);
      }
      assert a[0] == b[0];
      assert Elems(a[1..]) == Elems(b[1..]) by {
        forall y ensures y in Elems(a[1..]) <==> y in Elems(b[1..]) {
          ElemsTail(rank, a, y);
          ElemsTail(rank, b, y);
        }
      }
      SortedUnique(rank, a[1..], b[1..]);
      assert a == [a[0]] + a[1..] && b == [b[0]] + b[1..];
    } else {
      ElemsNonEmpty(b);
    }
  }

  lemma ElemsNonEmpty(b: seq<string>)
    ensures |b| > 0 ==> b[0] in Elems(b)
  {
  }

  lemma ElemsTail(rank: string -> string, a: seq<string>, y: string)
    requires StrictlySorted(rank, a) && |a| > 0
    ensures y in Elems(a[1..]) <==> y in Elems(a) && y != a[0]
  {
    if y in Elems(a[1..]) {
      var j :| 0 <= j < |a[1..]| && a[1..][j] == y;
      assert Before(rank, a[0], a[j + 1]);
      BeforeIrreflexive(rank, a[0]);
    }
    if y in Elems(a) && y != a[0] {
      var j :| 0 <= j < |a| && a[j] == y;
      assert a[1..][j - 1] == y;
    }
  }

  /** Sorting an already sorted, duplicate-free list returns it unchanged. */
  lemma SortUniqueOfSorted(rank: string -> string, xs: seq<string>)
    requires StrictlySorted(rank, xs)
    ensures SortUnique(rank, xs) == xs
  {
    SortedUnique(rank, SortUnique(rank, xs), xs);
  }

  /** The result does not depend on the order or multiplicity of the input. */
  lemma SortUniqueOrderInvariant(rank: string -> string, xs: seq<string>, ys: seq<string>)
    requires Elems(xs) == Elems(ys)
    ensures SortUnique(rank, xs) == SortUnique(rank, ys)
  {
    SortedUnique(rank, SortUnique(rank, xs), SortUnique(rank, ys));
  }
}
