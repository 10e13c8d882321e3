/** Keeping the elements of a list that satisfy a test, in order. */
module Lists {
  function Filter<T>(keep: T -> bool, xs: seq<T>): seq<T> {
    if xs == [] then []
    else (if keep(xs[0]) then [xs[0]] else []) + Filter(keep, xs[1..])
  }

  lemma {:induction false} FilterConcat<T>(keep: T -> bool, a: seq<T>, b: seq<T>)
    ensures Filter(keep, a + b) == Filter(keep, a) + Filter(keep, b)
  {
    if a == [] {
      assert a + b == b;
    } else {
      assert (a + b)[1..] == a[1..] + b;
      FilterConcat(keep, a[1..], b);
      var first := if keep(a[0]) then [a[0]] else [];
      assert Filter(keep, a + b) == first + Filter(keep, a[1..] + b);
      assert first + (Filter(keep, a[1..]) + Filter(keep, b)) == (first + Filter(keep, a[1..])) + Filter(keep, b);
    }
  }

  lemma FilterNothing<T>(keep: T -> bool)
    ensures Filter(keep, []) == []
  {
  }

  lemma FilterFirst<T>(keep: T -> bool, xs: seq<T>)
    requires xs != []
    ensures Filter(keep, xs) == (if keep(xs[0]) then [xs[0]] else []) + Filter(keep, xs[1..])
  {
  }

  lemma FilterOne<T>(keep: T -> bool, x: T)
    ensures Filter(keep, [x]) == if keep(x) then [x] else []
  {
  }

  lemma {:induction false} FilterMembers<T>(keep: T -> bool, xs: seq<T>)
    ensures forall x :: x in Filter(keep, xs) <==> x in xs && keep(x)
  {
    if xs != [] {
      FilterMembers(keep, xs[1..]);
    }
  }

  lemma {:induction false} FilterAll<T>(keep: T -> bool, xs: seq<T>)
    requires forall x | x in xs :: keep(x)
    ensures Filter(keep, xs) == xs
  {
    if xs != [] {
      assert xs[0] in xs;
      FilterAll(keep, xs[1..]);
    }
  }

  lemma {:induction false} FilterNone<T>(keep: T -> bool, xs: seq<T>)
    requires forall x | x in xs :: !keep(x)
    ensures Filter(keep, xs) == []
  {
    if xs != [] {
      assert xs[0] in xs;
      FilterNone(keep, xs[1..]);
    }
  }

  /** Keeping fewer after keeping more is keeping fewer. */
  lemma {:induction false} FilterFilter<T>(fewer: T -> bool, more: T -> bool, xs: seq<T>)
    requires forall x | x in xs && fewer(x) :: more(x)
    ensures Filter(fewer, Filter(more, xs)) == Filter(fewer, xs)
  {
    if xs != [] {
      assert xs[0] in xs;
      FilterFilter(fewer, more, xs[1..]);
      var first, rest := if more(xs[0]) then [xs[0]] else [], Filter(more, xs[1..]);
      FilterConcat(fewer, first, rest);
      assert Filter(fewer, first) == if fewer(xs[0]) then [xs[0]] else [];
    }
  }

  /** A test and its opposite divide a list. */
  lemma {:induction false} FilterCount<T>(yes: T -> bool, no: T -> bool, xs: seq<T>)
    requires forall x | x in xs :: yes(x) <==> !no(x)
    ensures |Filter(yes, xs)| + |Filter(no, xs)| == |xs|
  {
    if xs != [] {
      assert xs[0] in xs;
      FilterCount(yes, no, xs[1..]);
    }
  }

  /** Some of the elements of `ys`, in their order. */
  ghost predicate IsSubsequence<T>(xs: seq<T>, ys: seq<T>)
    decreases |ys|
  {
    xs == [] || (ys != [] && (IsSubsequence(xs, ys[1..]) || (xs[0] == ys[0] && IsSubsequence(xs[1..], ys[1..]))))
  }

  lemma {:induction false} SubsequenceConcat<T>(a: seq<T>, b: seq<T>, c: seq<T>, d: seq<T>)
    requires IsSubsequence(a, c) && IsSubsequence(b, d)
    ensures IsSubsequence(a + b, c + d)
    decreases |c|
  {
    if c == [] {
      assert a + b == b && c + d == d;
    } else {
      assert (c + d)[1..] == c[1..] + d;
      if IsSubsequence(a, c[1..]) {
        SubsequenceConcat(a, b, c[1..], d);
      } else {
        assert (a + b)[1..] == a[1..] + b;
        SubsequenceConcat(a[1..], b, c[1..], d);
      }
    }
  }

  lemma {:induction false} PrefixIsSubsequence<T>(xs: seq<T>, ys: seq<T>)
    requires xs <= ys
    ensures IsSubsequence(xs, ys)
  {
    if xs != [] {
      PrefixIsSubsequence(xs[1..], ys[1..]);
    }
  }
}
