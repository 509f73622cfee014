/** Types shared by every model in the project. */
module Basics {
  datatype Option<+T> = None | Some(value: T)

  type Byte = b: int | 0 <= b < 0x100

  const U64_LIMIT := 0x1_0000_0000_0000_0000
  const U32_LIMIT := 0x1_0000_0000
  const U16_LIMIT := 0x1_0000

  /** A piece of work stays within its bound of steps, and is killed only when the budget is smaller than that. */
  ghost predicate Within(budget: nat, left: nat, killed: bool, bound: nat) {
    left <= budget && budget - left <= bound && (killed ==> left == 0 && budget < bound)
  }

  lemma UpdateSame<T>(s: seq<T>, i: nat, x: T)
    requires i < |s| && s[i] == x
    ensures s[i := x] == s
  {
  }

  lemma UpdateTwice<T>(s: seq<T>, i: nat, x: T, y: T)
    requires i < |s|
    ensures s[i := x][i := y] == s[i := y]
  {
  }

  lemma Regroup<T>(a: seq<T>, x: T, b: seq<T>)
    ensures a + [x] + b == a + ([x] + b)
  {
  }

  // ---------------------------------------------------------------- runs of a relation

  /** `b` is reached from `a` in exactly `n` steps. */
  ghost predicate Chain<T(!new)>(step: (T, T) -> bool, a: T, b: T, n: nat) {
    if n == 0 then a == b else exists m :: Chain(step, a, m, n - 1) && step(m, b)
  }

  ghost predicate Reaches<T(!new)>(step: (T, T) -> bool, a: T, b: T) {
    exists n: nat :: Chain(step, a, b, n)
  }

  lemma ReachesItself<T(!new)>(step: (T, T) -> bool, a: T)
    ensures Reaches(step, a, a)
  {
    assert Chain(step, a, a, 0);
  }

  lemma ReachesOnward<T(!new)>(step: (T, T) -> bool, a: T, m: T, b: T)
    requires Reaches(step, a, m) && step(m, b)
    ensures Reaches(step, a, b)
  {
    var n: nat :| Chain(step, a, m, n);
    assert Chain(step, a, b, n + 1);
  }

  lemma {:induction false} ChainsJoin<T(!new)>(step: (T, T) -> bool, a: T, m: T, b: T, j: nat)
    requires Reaches(step, a, m) && Chain(step, m, b, j)
    ensures Reaches(step, a, b)
  {
    if j > 0 {
      var k :| Chain(step, m, k, j - 1) && step(k, b);
      ChainsJoin(step, a, m, k, j - 1);
      ReachesOnward(step, a, k, b);
    }
  }

  lemma ReachesTransitive<T(!new)>(step: (T, T) -> bool, a: T, m: T, b: T)
    requires Reaches(step, a, m) && Reaches(step, m, b)
    ensures Reaches(step, a, b)
  {
    var j: nat :| Chain(step, m, b, j);
    ChainsJoin(step, a, m, b, j);
  }

  /** What every step keeps holds wherever the steps lead. */
  lemma {:induction false} ChainKeeps<T(!new)>(step: (T, T) -> bool, kept: T -> bool, a: T, b: T, n: nat)
    requires forall x, y | kept(x) && step(x, y) :: kept(y)
    requires kept(a) && Chain(step, a, b, n)
    ensures kept(b)
  {
    if n > 0 {
      var m :| Chain(step, a, m, n - 1) && step(m, b);
      ChainKeeps(step, kept, a, m, n - 1);
    }
  }

  lemma ReachesKeeps<T(!new)>(step: (T, T) -> bool, kept: T -> bool, a: T, b: T)
    requires forall x, y | kept(x) && step(x, y) :: kept(y)
    requires kept(a) && Reaches(step, a, b)
    ensures kept(b)
  {
    var n: nat :| Chain(step, a, b, n);
    ChainKeeps(step, kept, a, b, n);
  }
}
