/** Option and Result, the failure-compatible wrappers used throughout the model. */
module Wrappers {

  datatype Option<+T> = None | Some(value: T)

  datatype Result<+T, +E> = Ok(value: T) | Err(error: E) {

    predicate IsFailure() {
      Err?
    }

    function PropagateFailure<U>(): Result<U, E>
      requires Err?
    {
      Err(error)
    }

    function Extract(): T
      requires Ok?
    {
      value
    }
  }

  /** `p` in front of a successful sequence result; an error passes through. Used to
      state what a loop has built so far against what remains to be built. */
  function Prefixed<T, E>(p: seq<T>, r: Result<seq<T>, E>): Result<seq<T>, E> {
    match r
    case Ok(v) => Ok(p + v)
    case Err(e) => Err(e)
  }

  lemma PrefixedAssoc<T, E>(p: seq<T>, q: seq<T>, r: Result<seq<T>, E>)
    ensures Prefixed(p, Prefixed(q, r)) == Prefixed(p + q, r)
  {
    if r.Ok? {
      assert p + (q + r.value) == (p + q) + r.value;
    }
  }

  lemma PrefixedEmpty<T, E>(r: Result<seq<T>, E>)
    ensures Prefixed([], r) == r
  {
    if r.Ok? {
      assert [] + r.value == r.value;
    }
  }

  /** Concatenation regrouped; a step the solver finds slowly in a large context. */
  lemma SeqAssoc<T>(a: seq<T>, b: seq<T>, c: seq<T>)
    ensures a + (b + c) == (a + b) + c
  {
  }

  /** Indexing past the first element of a cons. */
  lemma ConsAt<T>(x: T, rest: seq<T>, k: nat)
    requires 0 < k <= |rest|
    ensures ([x] + rest)[k] == rest[k - 1]
  {
  }

  /** Updating a key twice keeps the second value. */
  lemma UpdateTwice<K, V>(m: map<K, V>, k: K, a: V, b: V)
    ensures m[k := a][k := b] == m[k := b]
  {
  }

  /** A sequence is its prefix followed by the rest. */
  lemma TakeDrop<T>(s: seq<T>, n: nat)
    requires n <= |s|
    ensures s[..n] + s[n..] == s
  {
  }
}
