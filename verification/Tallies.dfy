/** Counting over sequences, used to state that nothing is lost or duplicated. */
module Tallies {

  /** How often `x` occurs. */
  function Count<T(==)>(s: seq<T>, x: T): nat {
    if s == [] then 0 else (if s[0] == x then 1 else 0) + Count(s[1..], x)
  }

  /** The sum over a sequence of what each element contributes for `x`. */
  ghost function Tally<A, T>(f: (A, T) -> nat, s: seq<A>, x: T): nat {
    if s == [] then 0 else f(s[0], x) + Tally(f, s[1..], x)
  }

  lemma HeadAndRest<T>(xs: seq<T>, ys: seq<T>)
    requires xs != []
    ensures xs + ys == [xs[0]] + (xs[1..] + ys)
  {
  }

  lemma ConcatAssociates<T>(a: seq<T>, b: seq<T>, c: seq<T>)
    ensures (a + b) + c == a + (b + c)
  {
  }

  lemma {:induction false} CountConcat<T>(a: seq<T>, b: seq<T>, x: T)
    ensures Count(a + b, x) == Count(a, x) + Count(b, x)
  {
    if a == [] {
      assert a + b == b;
    } else {
      assert (a + b)[1..] == a[1..] + b;
      CountConcat(a[1..], b, x);
    }
  }

  lemma CountAppend<T>(a: seq<T>, y: T, x: T)
    ensures Count(a + [y], x) == Count(a, x) + if y == x then 1 else 0
  {
    CountConcat(a, [y], x);
  }

  /** Removing the element at index `i`. */
  lemma CountRemove<T>(a: seq<T>, i: nat, x: T)
    requires i < |a|
    ensures Count(a[..i] + a[i + 1..], x) == Count(a, x) - if a[i] == x then 1 else 0
  {
    CountConcat(a[..i], a[i + 1..], x);
    CountConcat(a[..i], [a[i]] + a[i + 1..], x);
    assert a == a[..i] + ([a[i]] + a[i + 1..]);
  }

  /** Replacing the element at index `i`. */
  lemma {:induction false} CountUpdate<T>(a: seq<T>, i: nat, y: T, x: T)
    requires i < |a|
    ensures Count(a[i := y], x) + (if a[i] == x then 1 else 0) == Count(a, x) + (if y == x then 1 else 0)
  {
    if i == 0 {
      assert a[i := y][1..] == a[1..];
    } else {
      assert a[i := y][1..] == a[1..][i - 1 := y];
      CountUpdate(a[1..], i - 1, y, x);
    }
  }

  lemma {:induction false} CountPositive<T>(s: seq<T>, x: T)
    ensures Count(s, x) > 0 <==> x in s
  {
    if s != [] {
      CountPositive(s[1..], x);
    }
  }

  /** Replacing one element exchanges its contribution. */
  lemma {:induction false} TallyUpdate<A, T>(f: (A, T) -> nat, s: seq<A>, i: nat, a: A, x: T)
    requires i < |s|
    ensures Tally(f, s[i := a], x) + f(s[i], x) == Tally(f, s, x) + f(a, x)
  {
    if i == 0 {
      assert s[i := a][1..] == s[1..];
    } else {
      assert s[i := a][1..] == s[1..][i - 1 := a];
      TallyUpdate(f, s[1..], i - 1, a, x);
    }
  }

  /** Removing one element removes its contribution. */
  lemma {:induction false} TallyRemove<A, T>(f: (A, T) -> nat, s: seq<A>, i: nat, x: T)
    requires i < |s|
    ensures Tally(f, s[..i] + s[i + 1..], x) + f(s[i], x) == Tally(f, s, x)
  {
    if i == 0 {
      assert s[..i] + s[i + 1..] == s[1..];
    } else {
      assert (s[..i] + s[i + 1..])[1..] == s[1..][..i - 1] + s[1..][i..];
      TallyRemove(f, s[1..], i - 1, x);
    }
  }

  lemma {:induction false} TallyAtLeast<A, T>(f: (A, T) -> nat, s: seq<A>, i: nat, j: nat, x: T)
    requires i < |s| && j < |s|
    ensures f(s[i], x) <= Tally(f, s, x)
    ensures i != j ==> f(s[i], x) + f(s[j], x) <= Tally(f, s, x)
  {
    if i == 0 {
      if j != 0 {
        TallyAtLeast(f, s[1..], j - 1, j - 1, x);
      }
    } else {
      TallyAtLeast(f, s[1..], i - 1, if j == 0 then i - 1 else j - 1, x);
    }
  }

  lemma {:induction false} TallyZero<A, T>(f: (A, T) -> nat, s: seq<A>, x: T)
    requires forall i :: 0 <= i < |s| ==> f(s[i], x) == 0
    ensures Tally(f, s, x) == 0
  {
    if s != [] {
      TallyZero(f, s[1..], x);
    }
  }
}
