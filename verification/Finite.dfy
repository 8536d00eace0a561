/** Counting: how long a sequence without repetition can be. */
module Finite {

  function Pow2(n: nat): (p: nat)
    ensures p > 0
  {
    if n == 0 then 1 else 2 * Pow2(n - 1)
  }

  ghost predicate Injective<T>(s: seq<T>) {
    forall i, j | 0 <= i < j < |s| :: s[i] != s[j]
  }

  /** A repetition-free sequence drawn from a finite set is no longer than the set is large. */
  lemma {:induction false} Pigeonhole<T>(s: seq<T>, universe: set<T>)
    requires Injective(s) && forall i | 0 <= i < |s| :: s[i] in universe
    ensures |s| <= |universe|
  {
    if s != [] {
      Pigeonhole(s[..|s| - 1], universe - {s[|s| - 1]});
    }
  }

  function SetOf(s: seq<nat>): set<nat> { set v | v in s }

  lemma {:induction false} SetSize(s: seq<nat>)
    ensures |SetOf(s)| <= |s|
  {
    if s != [] {
      var t, x := s[..|s| - 1], s[|s| - 1];
      SetSize(t);
      assert s == t + [x];
      assert SetOf(s) == SetOf(t) + {x};
      assert |SetOf(t) + {x}| <= |SetOf(t)| + |{x}|;
    }
  }

  /** A subset of {0,..,n-1} read as an n-bit number. */
  function Code(s: set<nat>, n: nat): (c: nat)
    ensures c < Pow2(n)
  {
    if n == 0 then 0 else Code(s, n - 1) + if n - 1 in s then Pow2(n - 1) else 0
  }

  lemma {:induction false} CodeInjective(s: set<nat>, t: set<nat>, n: nat, v: nat)
    requires Code(s, n) == Code(t, n) && v < n
    ensures v in s <==> v in t
  {
    if v < n - 1 {
      CodeInjective(s, t, n - 1, v);
    }
  }

  lemma CodeDecides(s: set<nat>, t: set<nat>, n: nat)
    requires Code(s, n) == Code(t, n)
    requires forall v | v in s + t :: v < n
    ensures s == t
  {
    forall v: nat ensures v in s <==> v in t {
      if v < n {
        CodeInjective(s, t, n, v);
      }
    }
  }

  lemma PairCode(a: nat, b: nat, a': nat, b': nat, k: nat)
    requires b < k && b' < k && a * k + b == a' * k + b'
    ensures a == a' && b == b'
  {
    if a > a' {
      assert (a - a') * k == a * k - a' * k;
      Multiple(a - a', k);
      assert false;
    } else if a < a' {
      assert (a' - a) * k == a' * k - a * k;
      Multiple(a' - a, k);
      assert false;
    }
  }

  lemma Multiple(d: nat, k: nat)
    requires d > 0
    ensures d * k >= k
  {}

  lemma PairCodeBound(a: nat, b: nat, k: nat)
    requires a < k && b < k
    ensures a * k + b < k * k
  {
    assert a * k <= (k - 1) * k;
  }

  function Below(n: nat): (s: set<nat>)
    ensures |s| == n && forall i :: i in s <==> 0 <= i < n
  {
    if n == 0 then {} else Below(n - 1) + {n - 1}
  }

  ghost predicate Within(p: (set<nat>, set<nat>), n: nat) {
    forall v | v in p.0 + p.1 :: v < n
  }

  function CodeOfPair(p: (set<nat>, set<nat>), n: nat): nat {
    Code(p.0, n) * Pow2(n) + Code(p.1, n)
  }

  lemma CodeOfPairDecides(p: (set<nat>, set<nat>), q: (set<nat>, set<nat>), n: nat)
    requires Within(p, n) && Within(q, n) && CodeOfPair(p, n) == CodeOfPair(q, n)
    ensures p == q
  {
    PairCode(Code(p.0, n), Code(p.1, n), Code(q.0, n), Code(q.1, n), Pow2(n));
    assert forall v | v in p.0 + q.0 :: v in p.0 + p.1 || v in q.0 + q.1;
    assert forall v | v in p.1 + q.1 :: v in p.0 + p.1 || v in q.0 + q.1;
    CodeDecides(p.0, q.0, n);
    CodeDecides(p.1, q.1, n);
  }

  /** A repetition-free sequence of pairs of subsets of {0,..,n-1} has at most 4^n entries. */
  lemma PairsOfSubsetsBound(h: seq<(set<nat>, set<nat>)>, n: nat)
    requires Injective(h) && forall i | 0 <= i < |h| :: Within(h[i], n)
    ensures |h| <= Pow2(n) * Pow2(n)
  {
    var codes := seq(|h|, i requires 0 <= i < |h| => CodeOfPair(h[i], n));
    forall i | 0 <= i < |h| ensures codes[i] in Below(Pow2(n) * Pow2(n)) {
      PairCodeBound(Code(h[i].0, n), Code(h[i].1, n), Pow2(n));
    }
    forall i, j | 0 <= i < j < |h| ensures codes[i] != codes[j] {
      if codes[i] == codes[j] {
        CodeOfPairDecides(h[i], h[j], n);
      }
    }
    Pigeonhole(codes, Below(Pow2(n) * Pow2(n)));
  }
}
