/** Sorting by a strict total order, as sort.Slice and sort.Strings do on
    lists without repeats. */
module Sorting {

  ghost predicate StrictOrder<T(!new)>(less: (T, T) -> bool) {
    && (forall a :: !less(a, a))
    && (forall a, b, c :: less(a, b) && less(b, c) ==> less(a, c))
    && (forall a, b :: less(a, b) || a == b || less(b, a))
  }

  ghost predicate Sorted<T>(less: (T, T) -> bool, s: seq<T>) {
    forall i, j :: 0 <= i < j < |s| ==> less(s[i], s[j])
  }

  /** `s` with `x` in its place. */
  function Insert<T(!new)>(less: (T, T) -> bool, s: seq<T>, x: T): (r: seq<T>)
    requires StrictOrder(less) && Sorted(less, s) && x !in s
    ensures Sorted(less, r) && forall y :: y in r <==> y in s || y == x
  {
    if s == [] then [x]
    else
      var front, last := s[..|s| - 1], s[|s| - 1];
      assert last in s && (forall y :: y in front ==> less(y, last)) && s == front + [last];
      if less(last, x) then
        Extend(less, s, x);
        s + [x]
      else
        var r := Insert(less, front, x);
        Extend(less, r, last);
        r + [last]
  }

  lemma {:induction false} Extend<T(!new)>(less: (T, T) -> bool, s: seq<T>, x: T)
    requires StrictOrder(less) && Sorted(less, s)
    requires s != [] ==> less(s[|s| - 1], x)
    ensures Sorted(less, s + [x])
  {
    forall i | 0 <= i < |s| ensures less(s[i], x) {
      if i < |s| - 1 {
        assert less(s[i], s[|s| - 1]);
      }
    }
  }

  lemma FirstIn<T>(s: seq<T>)
    ensures s != [] ==> s[0] in s
  {
  }

  /** A sorted list is determined by its members. */
  lemma {:induction false} SortedUnique<T(!new)>(less: (T, T) -> bool, a: seq<T>, b: seq<T>)
    requires StrictOrder(less) && Sorted(less, a) && Sorted(less, b) && forall x :: x in a <==> x in b
    ensures a == b
    decreases |a|
  {
    if a == [] {
      FirstIn(b);
    } else {
      assert a[|a| - 1] in a && a[|a| - 1] in b;
      SameLast(less, a, b);
      var a', b' := a[..|a| - 1], b[..|b| - 1];
      forall x ensures x in a' <==> x in b' {
        FrontMembers(less, a, x);
        FrontMembers(less, b, x);
      }
      SortedUnique(less, a', b');
      assert a == a' + [a[|a| - 1]] && b == b' + [b[|b| - 1]];
    }
  }

  lemma {:induction false} FrontMembers<T(!new)>(less: (T, T) -> bool, a: seq<T>, x: T)
    requires StrictOrder(less) && Sorted(less, a) && a != []
    ensures x in a[..|a| - 1] <==> x in a && x != a[|a| - 1]
  {
    assert a == a[..|a| - 1] + [a[|a| - 1]];
  }

  lemma {:induction false} SameLast<T(!new)>(less: (T, T) -> bool, a: seq<T>, b: seq<T>)
    requires StrictOrder(less) && Sorted(less, a) && Sorted(less, b) && a != [] && b != []
             && forall x :: x in a <==> x in b
    ensures a[|a| - 1] == b[|b| - 1]
  {
    var x, y := a[|a| - 1], b[|b| - 1];
    assert x in a && y in b;
    var i :| 0 <= i < |a| && a[i] == y;
    var j :| 0 <= j < |b| && b[j] == x;
    assert i < |a| - 1 ==> less(y, x);
    assert j < |b| - 1 ==> less(x, y);
  }

  // ----- Strings, compared byte by byte

  predicate LessString(a: string, b: string) {
    if b == "" then false
    else if a == "" then true
    else a[0] < b[0] || (a[0] == b[0] && LessString(a[1..], b[1..]))
  }

  lemma {:induction false} StringTotal(a: string, b: string)
    ensures LessString(a, b) || a == b || LessString(b, a)
    ensures !LessString(a, a)
  {
    if a != "" && b != "" && a[0] == b[0] {
      StringTotal(a[1..], b[1..]);
      assert a == [a[0]] + a[1..] && b == [b[0]] + b[1..];
    } else if a != "" {
      StringTotal(a[1..], "");
    }
  }

  lemma {:induction false} StringTransitive(a: string, b: string, c: string)
    requires LessString(a, b) && LessString(b, c)
    ensures LessString(a, c)
  {
    if a != "" && a[0] == b[0] == c[0] {
      StringTransitive(a[1..], b[1..], c[1..]);
    }
  }

  lemma {:induction false} StringOrder()
    ensures StrictOrder(LessString)
  {
    forall a, b ensures (LessString(a, b) || a == b || LessString(b, a)) && !LessString(a, a) {
      StringTotal(a, b);
    }
    forall a, b, c | LessString(a, b) && LessString(b, c) ensures LessString(a, c) {
      StringTransitive(a, b, c);
    }
  }
}
