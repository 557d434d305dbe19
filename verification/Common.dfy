/** Small definitions every component uses: optional values and order-preserving filters. */
module Common {

  datatype Option<+T> = None | Some(value: T)

  /** A sensor value: absent, not a finite number, or a number. */
  datatype Measurement = Missing | NotFinite | Value(c: real)

  /** The elements of `s` that satisfy `p`, in their original order. */
  function Filter<T(!new)>(p: T -> bool, s: seq<T>): (r: seq<T>)
    ensures |r| <= |s|
    ensures forall x :: x in r <==> x in s && p(x)
  {
    if s == [] then []
    else if p(s[0]) then [s[0]] + Filter(p, s[1..])
    else Filter(p, s[1..])
  }

  lemma {:induction false} FilterAppend<T(!new)>(p: T -> bool, s: seq<T>, t: seq<T>)
    ensures Filter(p, s + t) == Filter(p, s) + Filter(p, t)
  {
    if s == [] {
      assert s + t == t;
    } else {
      assert (s + t)[1..] == s[1..] + t;
      FilterAppend(p, s[1..], t);
    }
  }

  /** Filtering keeps every copy of what satisfies `p`, and nothing else. */
  lemma {:induction false} FilterCounts<T(!new)>(p: T -> bool, s: seq<T>, x: T)
    ensures multiset(Filter(p, s))[x] == if p(x) then multiset(s)[x] else 0
  {
    if s == [] {
    } else {
      FilterCounts(p, s[1..], x);
      assert s == [s[0]] + s[1..];
    }
  }

  /** A weaker filter applied first does not change what a stronger one finds. */
  lemma {:induction false} FilterFilter<T(!new)>(p: T -> bool, q: T -> bool, s: seq<T>)
    requires forall x :: x in s && p(x) ==> q(x)
    ensures Filter(p, Filter(q, s)) == Filter(p, s)
  {
    if s == [] {
    } else {
      FilterFilter(p, q, s[1..]);
      if q(s[0]) {
        assert ([s[0]] + Filter(q, s[1..]))[1..] == Filter(q, s[1..]);
      }
    }
  }

  /** The greatest element of a nonempty set of integers. */
  function SetMax(s: set<int>): (m: int)
    requires s != {}
    ensures m in s && forall x :: x in s ==> x <= m
  {
    assert exists m :: m in s && forall x :: x in s ==> x <= m by {
      var shifted := set x | x in s :: x + 1;
      assert forall x :: x in s ==> x + 1 in shifted;
      ghost var a :| a in s;
      SetMaxExists(s, a);
    }
    var m :| m in s && forall x :: x in s ==> x <= m;
    m
  }

  lemma {:induction false} SetMaxExists(s: set<int>, a: int)
    requires a in s
    ensures exists m :: m in s && forall x :: x in s ==> x <= m
  {
    if b :| b in s && a < b {
      var rest := s - {a};
      SetMaxExists(rest, b);
      var m :| m in rest && forall x :: x in rest ==> x <= m;
      assert forall x :: x in s ==> x == a || x in rest;
      assert m in s && forall x :: x in s ==> x <= m;
    } else {
      assert a in s && forall x :: x in s ==> x <= a;
    }
  }

  /** The least element of a nonempty set of integers. */
  function SetMin(s: set<int>): (m: int)
    requires s != {}
    ensures m in s && forall x :: x in s ==> m <= x
  {
    var negated := set x | x in s :: -x;
    assert forall x :: x in s ==> -x in negated;
    assert negated != {} by {
      var a: int :| a in s;
      assert -a in negated;
    }
    -SetMax(negated)
  }
}
