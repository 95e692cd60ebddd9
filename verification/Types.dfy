/** Values shared by every component of the cache. */
module Types {
  datatype Option<+T> = None | Some(value: T)

  type Byte = b: int | 0 <= b < 256
  type Bytes = seq<Byte>

  const TWO32: int := 4294967296

  /** A cache item's identifier: a `uint32_t`. */
  type Id = i: int | 0 <= i < TWO32

  /** A slot on disk: `struct zn_pair` without its bookkeeping fields. */
  datatype Loc = Loc(zone: nat, chunk: nat)

  /** Unsigned 32-bit subtraction, which wraps. */
  function Sub32(a: nat, b: nat): nat {
    (a - b) % TWO32
  }

  /** The subtraction is exact when it does not wrap, and otherwise lands near the top. */
  lemma Sub32Meaning(a: nat, b: nat)
    requires a < TWO32 && b < TWO32
    ensures Sub32(a, b) == if b <= a then a - b else 4294967296 + a - b
  {
  }

  lemma MulMono(x: nat, y: nat, k: nat)
    requires x <= y
    ensures x * k <= y * k
  {
    assert y * k == x * k + (y - x) * k;
  }

  lemma NextMultiple(x: nat, y: nat, k: nat)
    requires x < y
    ensures x * k + k <= y * k
  {
    MulMono(x + 1, y, k);
    assert (x + 1) * k == x * k + k;
  }

  ghost predicate NoDup<T>(s: seq<T>) {
    forall i, j :: 0 <= i < j < |s| ==> s[i] != s[j]
  }
}

/** Counting the elements of a sequence that satisfy a predicate. */
module Counting {
  ghost function Count<T>(s: seq<T>, p: T -> bool): nat {
    if s == [] then 0
    else Count(s[..|s| - 1], p) + (if p(s[|s| - 1]) then 1 else 0)
  }

  /** Replacing one element moves the count by at most that element. */
  lemma {:induction false} CountUpdate<T>(s: seq<T>, i: nat, x: T, p: T -> bool)
    requires i < |s|
    ensures Count(s[i := x], p)
         == Count(s, p) - (if p(s[i]) then 1 else 0) + (if p(x) then 1 else 0)
  {
    var n := |s| - 1;
    if i == n {
      assert s[i := x][..n] == s[..n];
    } else {
      assert s[i := x][..n] == s[..n][i := x];
      CountUpdate(s[..n], i, x, p);
    }
  }

  /** The count is zero exactly when no element satisfies the predicate. */
  lemma {:induction false} CountZero<T>(s: seq<T>, p: T -> bool)
    ensures Count(s, p) == 0 <==> forall i :: 0 <= i < |s| ==> !p(s[i])
  {
    if s != [] {
      var n := |s| - 1;
      CountZero(s[..n], p);
      assert forall i :: 0 <= i < n ==> s[..n][i] == s[i];
    }
  }

  /** Two sequences that agree pointwise on the predicate have equal counts. */
  lemma {:induction false} CountAgree<T>(s: seq<T>, r: seq<T>, p: T -> bool)
    requires |s| == |r|
    requires forall i :: 0 <= i < |s| ==> p(s[i]) == p(r[i])
    ensures Count(s, p) == Count(r, p)
  {
    if s != [] {
      var n := |s| - 1;
      CountAgree(s[..n], r[..n], p);
    }
  }

  ghost function Sum<T>(s: seq<T>, f: T -> nat): nat {
    if s == [] then 0 else Sum(s[..|s| - 1], f) + f(s[|s| - 1])
  }

  /** Replacing one element moves the sum by that element. */
  lemma {:induction false} SumUpdate<T>(s: seq<T>, i: nat, x: T, f: T -> nat)
    requires i < |s|
    ensures Sum(s[i := x], f) == Sum(s, f) - f(s[i]) + f(x)
  {
    var n := |s| - 1;
    if i == n {
      assert s[i := x][..n] == s[..n];
    } else {
      assert s[i := x][..n] == s[..n][i := x];
      SumUpdate(s[..n], i, x, f);
    }
  }

  /** Two sequences that agree pointwise on the function have equal sums. */
  lemma {:induction false} SumAgree<T>(s: seq<T>, r: seq<T>, f: T -> nat)
    requires |s| == |r|
    requires forall i :: 0 <= i < |s| ==> f(s[i]) == f(r[i])
    ensures Sum(s, f) == Sum(r, f)
  {
    if s != [] {
      var n := |s| - 1;
      SumAgree(s[..n], r[..n], f);
    }
  }

  /** The sum is zero exactly when every element counts for nothing. */
  lemma {:induction false} SumZero<T>(s: seq<T>, f: T -> nat)
    ensures Sum(s, f) == 0 <==> forall i :: 0 <= i < |s| ==> f(s[i]) == 0
  {
    if s != [] {
      var n := |s| - 1;
      SumZero(s[..n], f);
      assert forall i :: 0 <= i < n ==> s[..n][i] == s[i];
    }
  }
}

/** Induction over the moments of a run, with the run itself kept out of sight. */
module Moments {
  import opened Types

  /** `p` holds at the start, and each of the first `n` moments hands it on to the next. */
  ghost predicate Carried(p: nat -> bool, n: nat) {
    p(0) && forall i: nat :: i < n && p(i) ==> p(i + 1)
  }

  lemma {:induction false} HoldsAt(p: nat -> bool, n: nat, i: nat)
    requires Carried(p, n) && i <= n
    ensures p(i)
  {
    if i > 0 {
      HoldsAt(p, n, i - 1);
    }
  }

  /** Moment by moment, the state either stays as it is or takes the step of an operation. */
  ghost predicate Stutters<S, O>(step: (S, O, S) -> bool, op: nat -> Option<O>, at: nat -> S, n: nat) {
    forall i: nat :: i < n ==>
      if op(i).Some? then step(at(i), op(i).value, at(i + 1)) else at(i + 1) == at(i)
  }

  /** The operations of the first `i` moments. */
  ghost function OpsOf<O>(op: nat -> Option<O>, i: nat): seq<O> {
    if i == 0 then [] else OpsOf(op, i - 1) + (if op(i - 1).Some? then [op(i - 1).value] else [])
  }

  /** The states around them. */
  ghost function StatesOf<S, O>(op: nat -> Option<O>, at: nat -> S, i: nat): seq<S> {
    if i == 0 then [at(0)] else StatesOf(op, at, i - 1) + (if op(i - 1).Some? then [at(i)] else [])
  }

  ghost predicate Chained<S, O>(step: (S, O, S) -> bool, states: seq<S>, ops: seq<O>) {
    |states| == |ops| + 1 && forall i :: 0 <= i < |ops| ==> step(states[i], ops[i], states[i + 1])
  }

  /** Without the moments at which nothing happens, what is left is a chain of steps. */
  lemma {:induction false} WithoutStutter<S, O>(
    step: (S, O, S) -> bool, op: nat -> Option<O>, at: nat -> S, n: nat, i: nat)
    requires Stutters(step, op, at, n) && i <= n
    ensures Chained(step, StatesOf(op, at, i), OpsOf(op, i))
    ensures StatesOf(op, at, i)[|OpsOf(op, i)|] == at(i) && StatesOf(op, at, i)[0] == at(0)
  {
    if i > 0 {
      WithoutStutter(step, op, at, n, i - 1);
      assert if op(i - 1).Some? then step(at(i - 1), op(i - 1).value, at(i)) else at(i) == at(i - 1);
    }
  }
}
