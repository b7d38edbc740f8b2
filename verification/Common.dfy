/** Small things several modules share. */
module Common {

  datatype Option<T> = None | Some(value: T)

  type byte = b: int | 0 <= b < 256

  lemma Regroup<T>(a: seq<T>, b: seq<T>, c: seq<T>)
    ensures a + b + c == a + (b + c)
  {
  }

  /** Lists that are equal up to order stay so without one common member. */
  lemma {:induction false} WithoutOne<T>(a: seq<T>, x: seq<T>, y: seq<T>, m: T)
    requires multiset(a + [m]) == multiset(x + [m] + y)
    ensures multiset(a) == multiset(x + y)
  {
    assert multiset(a) == multiset(a + [m]) - multiset{m};
    assert multiset(x + y) == multiset(x + [m] + y) - multiset{m};
  }
}
