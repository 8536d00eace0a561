/** Lexicographic enumeration of the k-element subsets of {0,..,n-1}, stepped in place. */
module Subsets {

  /** A k-subset, listed in increasing order. */
  predicate IsSubset(s: seq<nat>, k: nat, n: nat) {
    && |s| == k && (forall i | 0 <= i < k :: s[i] < n)
    && forall i, j | 0 <= i < j < k :: s[i] < s[j]
  }

  predicate LessAt(s: seq<nat>, t: seq<nat>, p: nat) {
    p < |s| && p < |t| && s[..p] == t[..p] && s[p] < t[p]
  }

  /** s comes before t in lexicographic order. */
  ghost predicate Less(s: seq<nat>, t: seq<nat>) {
    exists p: nat :: LessAt(s, t, p)
  }

  /** Nothing lies strictly between a subset and its successor. */
  ghost predicate IsSuccessor(s: seq<nat>, t: seq<nat>, k: nat, n: nat) {
    && IsSubset(t, k, n) && Less(s, t)
    && forall u: seq<nat> | IsSubset(u, k, n) && Less(u, t) :: u == s || Less(u, s)
  }

  ghost predicate IsLast(s: seq<nat>, k: nat, n: nat) {
    forall u: seq<nat> | IsSubset(u, k, n) :: u == s || Less(u, s)
  }

  /** Elements of a k-subset leave room for the larger ones. */
  lemma {:induction false} RoomAbove(s: seq<nat>, k: nat, n: nat, i: nat)
    requires IsSubset(s, k, n) && i < k
    ensures s[i] + (k - i) <= n
    decreases k - i
  {
    if i + 1 < k {
      RoomAbove(s, k, n, i + 1);
    }
  }

  lemma {:induction false} RoomBelow(s: seq<nat>, k: nat, n: nat, i: nat)
    requires IsSubset(s, k, n) && i < k
    ensures s[i] >= i
  {
    if i > 0 {
      RoomBelow(s, k, n, i - 1);
    }
  }

  /** u is no later than s when they agree before position i and u is nowhere larger from i on. */
  lemma {:induction false} NotLater(u: seq<nat>, s: seq<nat>, i: nat)
    requires |u| == |s| && i <= |s| && u[..i] == s[..i]
    requires forall j | i <= j < |s| :: u[j] <= s[j]
    ensures u == s || Less(u, s)
    decreases |s| - i
  {
    if i == |s| {
      assert u == u[..i] && s == s[..i];
    } else if u[i] < s[i] {
      assert LessAt(u, s, i);
    } else {
      assert u[..i + 1] == u[..i] + [u[i]] == s[..i] + [s[i]] == s[..i + 1];
      NotLater(u, s, i + 1);
    }
  }

  /** s with position i raised by one and everything after it packed tightly. */
  function Bumped(s: seq<nat>, i: nat): (t: seq<nat>)
    requires i < |s|
    ensures |t| == |s|
  {
    seq(|s|, j requires 0 <= j < |s| => if j < i then s[j] else s[i] + 1 + (j - i))
  }

  lemma BumpedIsSubset(s: seq<nat>, k: nat, n: nat, i: nat)
    requires IsSubset(s, k, n) && i < k && s[i] + k < n + i
    ensures IsSubset(Bumped(s, i), k, n) && Less(s, Bumped(s, i))
  {
    var t := Bumped(s, i);
    assert s[..i] == t[..i];
    assert LessAt(s, t, i);
  }

  lemma AgreeBefore(u: seq<nat>, t: seq<nat>, p: nat, q: nat)
    requires LessAt(u, t, p) && q < p
    ensures u[q] == t[q]
  {
    assert u[..p][q] == t[..p][q];
  }

  lemma BumpedIsSuccessor(s: seq<nat>, k: nat, n: nat, i: nat)
    requires IsSubset(s, k, n) && i < k && s[i] + k < n + i
    requires forall j | i < j < k :: s[j] + k >= n + j
    ensures IsSuccessor(s, Bumped(s, i), k, n)
  {
    var t := Bumped(s, i);
    BumpedIsSubset(s, k, n, i);
    forall u: seq<nat> | IsSubset(u, k, n) && Less(u, t) ensures u == s || Less(u, s) {
      var p: nat :| LessAt(u, t, p);
      if p < i {
        assert u[..p] == s[..p] by { assert t[..p] == s[..p]; }
        assert LessAt(u, s, p);
      } else if p == i {
        assert u[..i] == s[..i] by { assert t[..i] == s[..i]; }
        if u[i] < s[i] {
          assert LessAt(u, s, i);
        } else {
          forall j | i <= j < k ensures u[j] <= s[j] {
            RoomAbove(u, k, n, j);
          }
          NotLater(u, s, i);
        }
      } else {
        AgreeBefore(u, t, p, p - 1);
        assert false;
      }
    }
  }

  lemma TightIsLast(s: seq<nat>, k: nat, n: nat)
    requires IsSubset(s, k, n) && forall j | 0 <= j < k :: s[j] + k >= n + j
    ensures IsLast(s, k, n)
  {
    forall u: seq<nat> | IsSubset(u, k, n) ensures u == s || Less(u, s) {
      forall j | 0 <= j < k ensures u[j] <= s[j] {
        RoomAbove(u, k, n, j);
      }
      NotLater(u, s, 0);
    }
  }

  // ---- The enumeration is finite: subsets read as numbers in base n ----

  function Power(n: nat, k: nat): nat {
    if k == 0 then 1 else Power(n, k - 1) * n
  }

  function Value(s: seq<nat>, n: nat): nat {
    if s == [] then 0 else Value(s[..|s| - 1], n) * n + s[|s| - 1]
  }

  lemma DigitCarry(v: nat, w: nat, n: nat, a: nat)
    requires v < w && a < n
    ensures v * n + a < w * n
  {
    assert w * n >= (v + 1) * n == v * n + n;
  }

  lemma {:induction false} ValueBelow(s: seq<nat>, n: nat)
    requires forall i | 0 <= i < |s| :: s[i] < n
    ensures Value(s, n) < Power(n, |s|)
  {
    if s != [] {
      ValueBelow(s[..|s| - 1], n);
      DigitCarry(Value(s[..|s| - 1], n), Power(n, |s| - 1), n, s[|s| - 1]);
    }
  }

  /** The lexicographic order is the order of the values. */
  lemma {:induction false} LessIsSmaller(s: seq<nat>, t: seq<nat>, n: nat, p: nat)
    requires |s| == |t| && LessAt(s, t, p) && forall i | 0 <= i < |s| :: s[i] < n && t[i] < n
    ensures Value(s, n) < Value(t, n)
  {
    var k := |s| - 1;
    if p == k {
      assert s[..k] == t[..k];
    } else {
      assert s[..k][..p] == s[..p] && t[..k][..p] == t[..p];
      LessIsSmaller(s[..k], t[..k], n, p);
      DigitCarry(Value(s[..k], n), Value(t[..k], n), n, s[k]);
    }
  }

  /** How many subsets can still follow s. */
  function Remaining(s: seq<nat>, k: nat, n: nat): nat
    requires IsSubset(s, k, n)
  {
    ValueBelow(s, n);
    Power(n, k) - Value(s, n)
  }

  lemma SuccessorCloser(s: seq<nat>, t: seq<nat>, k: nat, n: nat)
    requires IsSubset(s, k, n) && IsSuccessor(s, t, k, n)
    ensures Remaining(t, k, n) < Remaining(s, k, n)
  {
    var p: nat :| LessAt(s, t, p);
    LessIsSmaller(s, t, n, p);
  }

  /** Moves S to the next k-subset; false, with S untouched, exactly when there is none. */
  method NextSubset(S: array<nat>, n: nat) returns (more: bool)
    requires IsSubset(S[..], S.Length, n)
    modifies S
    ensures more ==> IsSuccessor(old(S[..]), S[..], S.Length, n)
    ensures !more ==> S[..] == old(S[..]) && IsLast(S[..], S.Length, n)
  {
    var k := S.Length;
    ghost var s := S[..];
    if k == 0 {
      TightIsLast(s, k, n);
      return false;
    }
    RoomAbove(s, k, n, 0);
    var i := k;
    while i > 0
      invariant 0 <= i <= k && S[..] == s
      invariant forall j | i <= j < k :: s[j] + k >= n + j
    {
      i := i - 1;
      if S[i] < n - k + i {
        S[i] := S[i] + 1;
        for j := i + 1 to k
          invariant forall h | 0 <= h < k :: S[h] == if h < j then Bumped(s, i)[h] else s[h]
        {
          S[j] := S[j - 1] + 1;
        }
        assert S[..] == Bumped(s, i);
        BumpedIsSuccessor(s, k, n, i);
        return true;
      }
    }
    TightIsLast(s, k, n);
    return false;
  }

  /** The lexicographically least k-subset {0,..,k-1}. */
  method FirstSubset(k: nat) returns (S: array<nat>)
    ensures fresh(S) && S.Length == k
    ensures forall n: nat | k <= n :: IsSubset(S[..], k, n)
    ensures forall u: seq<nat>, n: nat | IsSubset(u, k, n) :: !Less(u, S[..])
  {
    S := new nat[k];
    for i := 0 to k
      invariant forall j | 0 <= j < i :: S[j] == j
    {
      S[i] := i;
    }
    forall u: seq<nat>, n: nat | IsSubset(u, k, n) ensures !Less(u, S[..]) {
      if Less(u, S[..]) {
        var p: nat :| LessAt(u, S[..], p);
        RoomBelow(u, k, n, p);
        assert false;
      }
    }
  }

  lemma LessTransitive(s: seq<nat>, t: seq<nat>, u: seq<nat>)
    requires Less(s, t) && Less(t, u)
    ensures Less(s, u)
  {
    var p: nat :| LessAt(s, t, p);
    var q: nat :| LessAt(t, u, q);
    var r := if p < q then p else q;
    assert s[..r] == s[..p][..r] && t[..r] == t[..p][..r] && t[..r] == t[..q][..r] && u[..r] == u[..q][..r];
    assert p < q ==> t[p] == t[..q][p] && u[p] == u[..q][p];
    assert q < p ==> s[q] == s[..p][q] && t[q] == t[..p][q];
    assert LessAt(s, u, r);
  }

  /** Every k-subset up to s, and nothing else, each once and in strict lexicographic order. */
  ghost predicate ListsUpTo(all: seq<seq<nat>>, s: seq<nat>, k: nat, n: nat) {
    && all != [] && all[|all| - 1] == s && (forall i | 0 <= i < |all| :: IsSubset(all[i], k, n))
    && (forall i, j | 0 <= i < j < |all| :: Less(all[i], all[j]))
    && (forall u: seq<nat> | IsSubset(u, k, n) && (u == s || Less(u, s)) :: u in all)
  }

  lemma ListsNext(all: seq<seq<nat>>, s: seq<nat>, t: seq<nat>, k: nat, n: nat)
    requires ListsUpTo(all, s, k, n) && IsSuccessor(s, t, k, n)
    ensures ListsUpTo(all + [t], t, k, n)
  {
    forall i | 0 <= i < |all| ensures Less(all[i], t) {
      if i < |all| - 1 {
        LessTransitive(all[i], s, t);
      }
    }
  }

  /** Stepping from the first subset until there is no next one visits every k-subset exactly once, in
      strict lexicographic order. */
  method AllSubsets(k: nat, n: nat) returns (all: seq<seq<nat>>)
    requires 1 <= k <= n
    ensures forall u: seq<nat> :: u in all <==> IsSubset(u, k, n)
    ensures forall i, j | 0 <= i < j < |all| :: Less(all[i], all[j])
  {
    var S := FirstSubset(k);
    all := [S[..]];
    assert ListsUpTo(all, S[..], k, n);
    var more := true;
    while more
      invariant S.Length == k && fresh(S) && ListsUpTo(all, S[..], k, n) && (!more ==> IsLast(S[..], k, n))
      decreases Remaining(S[..], k, n), more
    {
      ghost var s := S[..];
      more := NextSubset(S, n);
      if more {
        ListsNext(all, s, S[..], k, n);
        SuccessorCloser(s, S[..], k, n);
        all := all + [S[..]];
      }
    }
  }
}
