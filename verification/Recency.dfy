/** What happened to other keys since a key was last seen in a log. */
module Recency {
  import opened Prelude

  /** The other keys in a log after the last occurrence of `key`. */
  ghost function Since(log: seq<string>, key: string): set<string> {
    if log == [] || log[|log| - 1] == key then {}
    else {log[|log| - 1]} + Since(log[..|log| - 1], key)
  }

  lemma SinceLonger(log: seq<string>, key: string, k: string)
    ensures Since(log + [key], k) == if k == key then {} else Since(log, k) + {key}
  {
    assert (log + [key])[..|log|] == log;
  }

  lemma {:induction false} SinceWithin(log: seq<string>, key: string, keys: set<string>)
    requires forall k | k in log :: k in keys
    ensures Since(log, key) <= keys - {key}
  {
    if log != [] {
      SinceWithin(log[..|log| - 1], key, keys);
    }
  }
}
