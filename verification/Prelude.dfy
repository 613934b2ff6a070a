/** Optional values, results, and counting by injection. */
module Prelude {

  datatype Option<+T> = None | Some(value: T)

  datatype Result<+T, +E> = Ok(value: T) | Err(error: E)

  /** A finite map with distinct values below n has at most n keys. */
  lemma {:induction false} InjectionBound(slots: map<nat, nat>, n: nat)
    requires forall i | i in slots :: slots[i] < n
    requires forall i, j | i in slots && j in slots && slots[i] == slots[j] :: i == j
    ensures |slots.Keys| <= n
  {
    if n == 0 {
      assert slots.Keys == {};
    } else if exists i :: i in slots && slots[i] == n - 1 {
      var top :| top in slots && slots[top] == n - 1;
      var rest := map i | i in slots && i != top :: slots[i];
      assert slots.Keys == rest.Keys + {top};
      InjectionBound(rest, n - 1);
    } else {
      InjectionBound(slots, n - 1);
    }
  }

  /** A subset is no larger than its superset. */
  lemma {:induction false} SubsetSize<T>(a: set<T>, b: set<T>)
    requires a <= b
    ensures |a| <= |b|
    ensures |a| == |b| ==> a == b
  {
    if a != {} {
      var x :| x in a;
      SubsetSize(a - {x}, b - {x});
      assert a == (a - {x}) + {x} && b == (b - {x}) + {x};
    }
  }

  /** A prefix is the one before it and one more element. */
  lemma TakeOne<T>(s: seq<T>, j: nat, n: nat)
    requires n == j + 1 <= |s|
    ensures s[..n] == s[..j] + [s[j]]
  {
  }
}
