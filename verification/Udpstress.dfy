/** udpstress's receive loop: message numbers classified as they arrive. */
module Udpstress {

  /** Message i carried number i, up to k. */
  ghost predicate InStep(ns: seq<nat>, k: nat) {
    k <= |ns| && forall i :: 0 <= i < k ==> ns[i] == i
  }

  /** k is the length of the longest prefix in step. */
  ghost predicate LongestInStep(ns: seq<nat>, k: nat) {
    InStep(ns, k) && (k < |ns| ==> ns[k] != k)
  }

  predicate DescendsAt(ns: seq<nat>, i: nat) { 0 < i < |ns| && ns[i] < ns[i - 1] }

  predicate RepeatsAt(ns: seq<nat>, i: nat) { 0 < i < |ns| && ns[i] == ns[i - 1] }

  ghost function Descents(ns: seq<nat>): set<nat> { set i: nat | i < |ns| && DescendsAt(ns, i) }

  ghost function Repeats(ns: seq<nat>): set<nat> { set i: nat | i < |ns| && RepeatsAt(ns, i) }

  /** With no descent and no repeat the numbers rise, each at least as large as its index. */
  lemma {:induction false} Rising(ns: seq<nat>)
    requires forall i :: 0 < i < |ns| ==> !DescendsAt(ns, i) && !RepeatsAt(ns, i)
    ensures forall i :: 0 <= i < |ns| ==> ns[i] >= i
    ensures forall i :: 0 <= i < |ns| && ns[|ns| - 1] == |ns| - 1 ==> ns[i] == i
  {
    if |ns| > 1 {
      var k := |ns| - 1;
      forall i | 0 < i < k
        ensures !DescendsAt(ns[..k], i) && !RepeatsAt(ns[..k], i)
      {
        assert !DescendsAt(ns, i) && !RepeatsAt(ns, i);
      }
      Rising(ns[..k]);
      assert !DescendsAt(ns, k) && !RepeatsAt(ns, k);
      assert ns[..k][k - 1] == ns[k - 1];
    }
  }

  lemma Extend(ns: seq<nat>, n: nat)
    ensures Descents(ns + [n]) == Descents(ns) + (if DescendsAt(ns + [n], |ns|) then {|ns|} else {})
    ensures Repeats(ns + [n]) == Repeats(ns) + (if RepeatsAt(ns + [n], |ns|) then {|ns|} else {})
  {
    var after := ns + [n];
    forall i: nat | i < |ns|
      ensures DescendsAt(after, i) <==> DescendsAt(ns, i)
      ensures RepeatsAt(after, i) <==> RepeatsAt(ns, i)
    {
    }
  }

  /** What the counters say of the numbers received. */
  ghost predicate Classified(ns: seq<nat>, consecutive: nat, outOfOrder: nat, adjacentDups: nat) {
    LongestInStep(ns, consecutive) && outOfOrder == |Descents(ns)| && adjacentDups == |Repeats(ns)|
  }

  /** The loop over received messages; `arrived` is what the socket yields. */
  method Classify(arrived: seq<nat>) returns (consecutive: nat, outOfOrder: nat, adjacentDups: nat, count: nat)
    ensures count == |arrived| && Classified(arrived, consecutive, outOfOrder, adjacentDups)
  {
    hide Classified;
    consecutive, outOfOrder, adjacentDups, count := 0, 0, 0, 0;
    var recent := 0;
    NothingYet();
    assert arrived[..0] == [];
    while count < |arrived|
      invariant 0 <= count <= |arrived|
      invariant count > 0 ==> recent == arrived[count - 1]
      invariant Classified(arrived[..count], consecutive, outOfOrder, adjacentDups)
    {
      var n := arrived[count];
      assert arrived[..count + 1] == arrived[..count] + [n];
      OneMore(arrived[..count], n, consecutive, outOfOrder, adjacentDups);
      if count > 0 && n < recent {
        outOfOrder := outOfOrder + 1;
      }
      if count > 0 && n == recent {
        adjacentDups := adjacentDups + 1;
      }
      if adjacentDups == 0 && outOfOrder == 0 && n == consecutive {
        consecutive := consecutive + 1;
      }
      count := count + 1;
      recent := n;
    }
    assert arrived[..count] == arrived;
  }

  lemma NothingYet()
    ensures Classified([], 0, 0, 0)
  {
    assert Descents([]) == {} && Repeats([]) == {};
  }

  lemma OneMore(ns: seq<nat>, n: nat, k: nat, outOfOrder: nat, adjacentDups: nat)
    requires Classified(ns, k, outOfOrder, adjacentDups)
    ensures var ooo := outOfOrder + if ns != [] && n < ns[|ns| - 1] then 1 else 0;
      var dups := adjacentDups + if ns != [] && n == ns[|ns| - 1] then 1 else 0;
      Classified(ns + [n], if dups == 0 && ooo == 0 && n == k then k + 1 else k, ooo, dups)
  {
    Extend(ns, n);
    OnlyInStep(ns, n, k);
    NextInStep(ns, n, k);
    assert DescendsAt(ns + [n], |ns|) <==> ns != [] && n < ns[|ns| - 1];
    assert RepeatsAt(ns + [n], |ns|) <==> ns != [] && n == ns[|ns| - 1];
    assert |ns| !in Descents(ns) && |ns| !in Repeats(ns);
    assert forall s: set<nat> :: |s| == 0 <==> s == {};
    hide Descents, Repeats, LongestInStep, DescendsAt, RepeatsAt;
  }

  lemma NextInStep(ns: seq<nat>, n: nat, k: nat)
    requires LongestInStep(ns, k)
    ensures LongestInStep(ns + [n], if k == |ns| && n == k then k + 1 else k)
  {
  }

  /** The guard of the counter says exactly that the whole sequence, this message included,
      is in step. */
  lemma OnlyInStep(ns: seq<nat>, n: nat, k: nat)
    requires LongestInStep(ns, k)
    ensures Descents(ns + [n]) == {} && Repeats(ns + [n]) == {} && n == k ==> k == |ns|
    ensures k == |ns| && n == k ==> Descents(ns + [n]) == {} && Repeats(ns + [n]) == {}
  {
    var after := ns + [n];
    if Descents(after) == {} && Repeats(after) == {} && n == k {
      forall i | 0 < i < |after|
        ensures !DescendsAt(after, i) && !RepeatsAt(after, i)
      {
        assert i !in Descents(after) && i !in Repeats(after);
      }
      Rising(after);
      assert after[|ns|] == n;
    }
  }

  /** N messages numbered below N, none before or equal to its predecessor: all in step. */
  lemma {:induction false} AllArrived(ns: seq<nat>, k: nat)
    requires Classified(ns, k, 0, 0)
    requires forall i :: 0 <= i < |ns| ==> ns[i] < |ns|
    ensures k == |ns|
  {
    forall i | 0 < i < |ns|
      ensures !DescendsAt(ns, i) && !RepeatsAt(ns, i)
    {
      assert i !in Descents(ns) && i !in Repeats(ns);
    }
    Rising(ns);
  }
}
