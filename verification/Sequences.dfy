/** Facts about sequences that several components need. */
module Sequences {

  /** `s` holds `part` from position `at` on. */
  ghost predicate HoldsAt<T>(s: seq<T>, at: nat, part: seq<T>) {
    at + |part| <= |s| && forall k :: 0 <= k < |part| ==> s[at + k] == part[k]
  }

  lemma {:induction false} HoldsSplit<T>(s: seq<T>, at: nat, a: seq<T>, b: seq<T>)
    requires HoldsAt(s, at, a + b)
    ensures HoldsAt(s, at, a) && HoldsAt(s, at + |a|, b)
  {
    forall k | 0 <= k < |a| ensures s[at + k] == a[k] { assert (a + b)[k] == a[k]; }
    forall k | 0 <= k < |b| ensures s[at + |a| + k] == b[k] {
      assert (a + b)[|a| + k] == b[k] && s[at + (|a| + k)] == (a + b)[|a| + k];
    }
  }

  lemma {:induction false} HoldsJoined<T>(before: seq<T>, part: seq<T>, after: seq<T>)
    ensures HoldsAt(before + part + after, |before|, part)
  {
  }

  lemma {:induction false} Reassociate<T>(a: seq<T>, b: seq<T>, c: seq<T>)
    ensures (a + b) + c == a + (b + c)
  {
  }
}
