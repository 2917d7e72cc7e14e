/** The optional value used by the models, and the sequence vocabulary they share. */
module Wrappers {
  datatype Option<+T> = None | Some(value: T) {
    function UnwrapOr(default: T): T {
      if Some? then value else default
    }
  }
}

module Sequences {
  ghost predicate Distinct<T>(s: seq<T>) {
    forall i, j :: 0 <= i < j < |s| ==> s[i] != s[j]
  }

  /** A slice bound, cut off at the length. */
  function Min(a: nat, b: nat): nat {
    if a < b then a else b
  }

  ghost function ToSet<T>(s: seq<T>): set<T> {
    set x | x in s
  }

  /** The key order of a Python dict filled from `s`: each element at its first occurrence. */
  function Dedup<T(==)>(s: seq<T>): seq<T> {
    if s == [] then []
    else
      var rest := Dedup(s[..|s| - 1]);
      if s[|s| - 1] in rest then rest else rest + [s[|s| - 1]]
  }

  lemma {:induction false} DedupIsSet<T(!new)>(s: seq<T>)
    ensures forall x :: x in Dedup(s) <==> x in s
    ensures Distinct(Dedup(s))
  {
    if s != [] {
      var front, last := s[..|s| - 1], s[|s| - 1];
      DedupIsSet(front);
      assert s == front + [last];
    }
  }

  /** `x` stands before `y` somewhere in `s`. */
  ghost predicate Before<T>(s: seq<T>, x: T, y: T) {
    exists a: nat, b: nat :: a < b < |s| && s[a] == x && s[b] == y
  }

  lemma BeforeSnoc<T>(s: seq<T>, last: T, x: T, y: T)
    ensures Before(s + [last], x, y) <==> Before(s, x, y) || (x in s && y == last)
  {
    var longer := s + [last];
    if a: nat, b: nat :| a < b < |s| && s[a] == x && s[b] == y {
      assert longer[a] == x && longer[b] == y;
    }
    if x in s && y == last {
      var a: nat :| a < |s| && s[a] == x;
      assert longer[a] == x && longer[|s|] == y;
    }
  }

  /** `i` is where `x` stands in `s` for the first time. */
  ghost predicate FirstAt<T>(s: seq<T>, i: nat, x: T) {
    i < |s| && s[i] == x && x !in s[..i]
  }

  /** `Dedup` orders the elements by their first occurrences. */
  lemma {:induction false} DedupByFirst<T(!new)>(s: seq<T>, x: T, y: T, i: nat, j: nat)
    requires Before(Dedup(s), x, y) && FirstAt(s, i, x) && FirstAt(s, j, y)
    ensures i < j
  {
    var front, last := s[..|s| - 1], s[|s| - 1];
    assert s == front + [last];
    DedupIsSet(front);
    if last !in front {
      BeforeSnoc(Dedup(front), last, x, y);
    }
    if Before(Dedup(front), x, y) {
      assert front[..i] == s[..i] by { FirstInFront(s, i, x); }
      assert front[..j] == s[..j] by { FirstInFront(s, j, y); }
      FirstInFront(s, i, x);
      FirstInFront(s, j, y);
      DedupByFirst(front, x, y, i, j);
    } else {
      FirstInFront(s, i, x);
    }
  }

  lemma FirstInFront<T>(s: seq<T>, i: nat, x: T)
    requires FirstAt(s, i, x)
    ensures x in s[..|s| - 1] ==> FirstAt(s[..|s| - 1], i, x)
  {
    var front := s[..|s| - 1];
    if x in front {
      var k: nat :| k < |front| && front[k] == x;
      forall m | 0 <= m < i ensures s[m] != x {
        assert s[..i][m] == s[m];
      }
      assert front[..i] == s[..i];
    }
  }

  lemma DedupSnoc<T(!new)>(s: seq<T>, x: T)
    ensures Dedup(s + [x]) == if x in s then Dedup(s) else Dedup(s) + [x]
  {
    assert (s + [x])[..|s|] == s;
    DedupIsSet(s);
  }

  /** The elements of `s` that lie in `keep`, in their order in `s`. */
  function Restrict<T(==)>(s: seq<T>, keep: set<T>): seq<T> {
    if s == [] then []
    else
      var rest := Restrict(s[..|s| - 1], keep);
      if s[|s| - 1] in keep then rest + [s[|s| - 1]] else rest
  }

  lemma {:induction false} RestrictIsSet<T>(s: seq<T>, keep: set<T>)
    ensures ToSet(Restrict(s, keep)) == ToSet(s) * keep
    ensures Distinct(s) ==> Distinct(Restrict(s, keep))
  {
    if s != [] {
      var front, last := s[..|s| - 1], s[|s| - 1];
      RestrictIsSet(front, keep);
      assert s == front + [last];
      assert ToSet(s) == ToSet(front) + {last};
      var rest := Restrict(front, keep);
      assert last in keep ==> ToSet(rest + [last]) == ToSet(rest) + {last};
      if Distinct(s) && last in keep {
        assert last !in ToSet(front);
        assert last !in ToSet(rest);
        DistinctSnoc(rest, last);
      }
    }
  }

  /** A restriction keeps the order of what it keeps. */
  lemma {:induction false} RestrictKeepsBefore<T>(s: seq<T>, keep: set<T>, x: T, y: T)
    ensures Before(Restrict(s, keep), x, y) <==> Before(s, x, y) && x in keep && y in keep
  {
    if s != [] {
      var front, last := s[..|s| - 1], s[|s| - 1];
      assert s == front + [last];
      var rest := Restrict(front, keep);
      RestrictKeepsBefore(front, keep, x, y);
      RestrictIsSet(front, keep);
      assert x in rest <==> x in ToSet(rest);
      BeforeSnoc(front, last, x, y);
      if last in keep {
        BeforeSnoc(rest, last, x, y);
      }
    }
  }

  lemma {:induction false} RestrictTwice<T>(s: seq<T>, a: set<T>, b: set<T>)
    requires b <= a
    ensures Restrict(Restrict(s, a), b) == Restrict(s, b)
  {
    if s != [] {
      var front, last := s[..|s| - 1], s[|s| - 1];
      RestrictTwice(front, a, b);
      var rest := Restrict(front, a);
      assert (rest + [last])[..|rest|] == rest;
    }
  }

  lemma {:induction false} RestrictNothing<T>(s: seq<T>, keep: set<T>)
    requires ToSet(s) <= keep
    ensures Restrict(s, keep) == s
  {
    if s != [] {
      var front, last := s[..|s| - 1], s[|s| - 1];
      assert s == front + [last];
      assert last in ToSet(s) && ToSet(front) <= ToSet(s);
      RestrictNothing(front, keep);
    }
  }

  /** `order` lists each of `elements` once, and nothing else. */
  ghost predicate InOrder<T>(order: seq<T>, elements: set<T>) {
    if order == [] then elements == {}
    else
      var last := order[|order| - 1];
      last in elements && InOrder(order[..|order| - 1], elements - {last})
  }

  lemma {:induction false} InOrderIff<T>(order: seq<T>, elements: set<T>)
    ensures InOrder(order, elements) <==> Distinct(order) && ToSet(order) == elements
  {
    if order == [] {
      assert ToSet(order) == {};
    } else {
      var front, last := order[..|order| - 1], order[|order| - 1];
      InOrderIff(front, elements - {last});
      assert order == front + [last];
      assert ToSet(order) == ToSet(front) + {last};
      if Distinct(order) && ToSet(order) == elements {
        assert last !in ToSet(front) && last in ToSet(order);
        assert elements - {last} == ToSet(front);
        assert Distinct(front);
      }
      if InOrder(order, elements) {
        assert last !in ToSet(front);
        DistinctSnoc(front, last);
        assert elements - {last} + {last} == elements;
      }
    }
  }

  lemma RestrictInOrder<T>(order: seq<T>, elements: set<T>, keep: set<T>)
    requires InOrder(order, elements) && keep <= elements
    ensures InOrder(Restrict(order, keep), keep)
  {
    InOrderIff(order, elements);
    RestrictIsSet(order, keep);
    InOrderIff(Restrict(order, keep), keep);
  }

  lemma RestrictToAll<T>(order: seq<T>, elements: set<T>)
    requires InOrder(order, elements)
    ensures Restrict(order, elements) == order
  {
    InOrderIff(order, elements);
    RestrictNothing(order, elements);
  }

  lemma AppendInOrder<T>(order: seq<T>, elements: set<T>, x: T)
    requires InOrder(order, elements) && x !in elements
    ensures InOrder(order + [x], elements + {x})
  {
    assert (order + [x])[..|order|] == order;
    assert elements + {x} - {x} == elements;
  }

  /** The prefixes a loop over `s` passes through. */
  lemma Prefixes<T>(s: seq<T>)
    ensures s[..0] == [] && s[..|s|] == s
    ensures forall i {:trigger s[..i]} :: 0 <= i < |s| ==> s[..i + 1] == s[..i] + [s[i]]
  {
  }

  function Count<T(==)>(s: seq<T>, x: T): nat {
    if s == [] then 0
    else Count(s[..|s| - 1], x) + if s[|s| - 1] == x then 1 else 0
  }

  lemma {:induction false} CountPositive<T>(s: seq<T>, i: nat)
    requires i < |s|
    ensures Count(s[..i], s[i]) < Count(s, s[i])
  {
    if i == |s| - 1 {
    } else {
      var front := s[..|s| - 1];
      CountPositive(front, i);
      assert front[..i] == s[..i];
    }
  }

  lemma {:induction false} CountSplits<T>(a: seq<T>, b: seq<T>, x: T)
    ensures Count(a + b, x) == Count(a, x) + Count(b, x)
  {
    if b == [] {
      assert a + b == a;
    } else {
      CountSplits(a, b[..|b| - 1], x);
      assert (a + b)[..|a + b| - 1] == a + b[..|b| - 1];
    }
  }

  lemma {:induction false} CountZero<T>(s: seq<T>, x: T)
    ensures Count(s, x) == 0 <==> x !in s
  {
    if s != [] {
      CountZero(s[..|s| - 1], x);
      assert s == s[..|s| - 1] + [s[|s| - 1]];
    }
  }

  /** A duplicate-free sequence has as many elements as its set. */
  lemma {:induction false} DistinctSize<T>(s: seq<T>)
    requires Distinct(s)
    ensures |ToSet(s)| == |s|
  {
    if s != [] {
      var front := s[..|s| - 1];
      var last := s[|s| - 1];
      DistinctSize(front);
      assert s == front + [last];
      assert last !in front;
      assert ToSet(s) == ToSet(front) + {last};
    }
  }

  lemma DistinctSnoc<T>(s: seq<T>, x: T)
    requires Distinct(s) && x !in s
    ensures Distinct(s + [x])
    ensures ToSet(s + [x]) == ToSet(s) + {x}
  {
  }

  lemma SubsetSize<T>(a: set<T>, b: set<T>)
    requires a <= b
    ensures |a| <= |b|
    ensures |a| == |b| ==> a == b
  {
    assert b == a + (b - a);
    assert a !! (b - a);
  }
}
