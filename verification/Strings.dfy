/** Prefixes, suffixes and positions in strings. */
module Strings {
  predicate HasPrefix(s: string, prefix: string) {
    |s| >= |prefix| && s[..|prefix|] == prefix
  }

  predicate HasSuffix(s: string, suffix: string) {
    |s| >= |suffix| && s[|s| - |suffix|..] == suffix
  }

  /** The position of the first `c`, the length if there is none. */
  function Index(s: string, c: char): (k: nat)
    ensures k <= |s|
  {
    if s == "" || s[0] == c then 0 else Index(s[1..], c) + 1
  }

  lemma {:induction false} IndexOf(a: string, c: char, rest: string)
    requires c !in a && (rest == "" || rest[0] == c)
    ensures Index(a + rest, c) == |a|
    decreases |a|
  {
    if a == "" {
      assert a + rest == rest;
    } else {
      assert (a + rest)[1..] == a[1..] + rest;
      IndexOf(a[1..], c, rest);
    }
  }

  lemma Cut(a: string, b: string)
    ensures (a + b)[..|a|] == a && (a + b)[|a|..] == b
  {
  }
}
