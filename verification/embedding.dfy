/** The dense operator embedding `_embed_gate(U, targets, n)`.

    The code sorts the targets and folds Kronecker products over the qubit
    positions 0 .. n-1 (qubit 0 is the most significant factor). The
    position of the lowest target contributes the whole gate U, every other
    target position contributes nothing, and every remaining position
    contributes a 2 × 2 identity. The result is therefore
    I_(2^t0) ⊗ U ⊗ I_(2^(n - t0 - k)) for the lowest target t0 and k placed
    targets, whatever the positions of the other targets are. */
module Embedding {

  import opened Complexes
  import opened Matrices
  import opened Arith
  import opened Sorting

  /** One pass of the loop over q: ts is the sorted target list, t the index
      of the next target still to be met, acc the product built so far. */
  function Walk(u: Matrix, ts: seq<nat>, t: nat, q: nat, n: nat, acc: Matrix): (r: Matrix)
    requires IsMatrix(u) && IsMatrix(acc) && t <= |ts|
    ensures IsMatrix(r)
    decreases n - q
  {
    if q >= n then acc
    else if t < |ts| && q == ts[t] then
      Walk(u, ts, t + 1, q + 1, n, if t == 0 then Kron(acc, u) else acc)
    else
      Walk(u, ts, t, q + 1, n, Kron(acc, Id(2)))
  }

  /** `_embed_gate(U, targets, n)`: the fold starts from the 1 × 1 matrix [[1]]. */
  function EmbedGate(u: Matrix, targets: seq<nat>, n: nat): (r: Matrix)
    requires IsMatrix(u)
    ensures IsMatrix(r)
  {
    Walk(u, Sort(targets), 0, 0, n, [[One]])
  }

  /** How many sorted targets from index t on the walk meets: the run of
      strictly increasing targets below n that starts at t. */
  function Placed(s: seq<nat>, t: nat, n: nat): (c: nat)
    requires t <= |s|
    ensures c <= |s| - t
    ensures c > 0 ==> t < |s| && s[t] < n && (t == 0 || s[t - 1] < s[t])
    ensures c > 0 ==> s[t] + c <= n
    decreases |s| - t
  {
    if t < |s| && s[t] < n && (t == 0 || s[t - 1] < s[t]) then 1 + Placed(s, t + 1, n) else 0
  }

  /** I_(2^lo) ⊗ u ⊗ I_(2^(n - lo - c)). */
  function Spliced(u: Matrix, lo: nat, c: nat, n: nat): Matrix
    requires IsMatrix(u) && lo + c <= n
  {
    Kron(Kron(Id(Pow2(lo)), u), Id(Pow2(n - lo - c)))
  }

  lemma SplicedSquare(u: Matrix, lo: nat, k: nat, n: nat)
    requires IsSquare(u, Pow2(k)) && lo + k <= n
    ensures IsSquare(Spliced(u, lo, k, n), Pow2(n))
  {
    var a, b, c := Pow2(lo), Pow2(k), Pow2(n - lo - k);
    var l := Kron(Id(a), u);
    var m := Kron(l, Id(c));
    assert |l| == a * b && Cols(l) == a * b;
    assert |m| == (a * b) * c && Cols(m) == (a * b) * c;
    Pow2Split(lo, k, n);
  }

  lemma SplicedIdentity(lo: nat, k: nat, n: nat)
    requires lo + k <= n
    ensures Spliced(Id(Pow2(k)), lo, k, n) == Id(Pow2(n))
  {
    var a, b, c := Pow2(lo), Pow2(k), Pow2(n - lo - k);
    KronIdentities(a, b);
    KronIdentities(a * b, c);
    Pow2Split(lo, k, n);
  }

  /** 2^n = 2^lo · 2^k · 2^(n - lo - k). */
  lemma Pow2Split(lo: nat, k: nat, n: nat)
    requires lo + k <= n
    ensures Pow2(n) == (Pow2(lo) * Pow2(k)) * Pow2(n - lo - k)
  {
    Pow2Add(lo, k);
    Pow2Add(lo + k, n - lo - k);
    assert lo + k + (n - lo - k) == n;
  }

  /** Appending one more identity factor doubles the trailing identity block. */
  lemma IdentityStep(x: Matrix, e: nat)
    requires IsMatrix(x)
    ensures Kron(Kron(x, Id(Pow2(e))), Id(2)) == Kron(x, Id(Pow2(e + 1)))
  {
    KronAssoc(x, Id(Pow2(e)), Id(2));
    KronIdentities(Pow2(e), 2);
    assert Pow2(e + 1) == Pow2(e) * 2;
  }

  /** After target t - 1 at a position below q, the targets still to be
      placed fit into the positions q .. n - 1. */
  lemma {:induction false} PlacedBound(s: seq<nat>, t: nat, q: nat, n: nat)
    requires 1 <= t <= |s| && s[t - 1] < q <= n
    requires t < |s| && s[t - 1] < s[t] ==> q <= s[t]
    ensures Placed(s, t, n) <= n - q
    decreases |s| - t
  {
    if Placed(s, t, n) > 0 {
      PlacedBound(s, t + 1, s[t] + 1, n);
    }
  }

  /** The walk after U has been spliced in: matched targets add nothing and
      every other position adds one qubit to the trailing identity, so the
      trailing identity ends with m = e + (n - q) - Placed(s, t, n) qubits. */
  lemma {:induction false} AfterSplice(u: Matrix, s: seq<nat>, t: nat, q: nat, n: nat, x: Matrix, e: nat, m: nat)
    requires IsMatrix(u) && IsMatrix(x)
    requires 1 <= t <= |s| && s[t - 1] < q <= n
    requires t < |s| && s[t - 1] < s[t] ==> q <= s[t]
    requires m == e + (n - q) - Placed(s, t, n)
    ensures Walk(u, s, t, q, n, Kron(x, Id(Pow2(e)))) == Kron(x, Id(Pow2(m)))
    decreases n - q
  {
    if q == n {
      assert Placed(s, t, n) == 0;
    } else if t < |s| && q == s[t] {
      assert Placed(s, t, n) == 1 + Placed(s, t + 1, n);
      AfterSplice(u, s, t + 1, q + 1, n, x, e, m);
    } else {
      IdentityPosition(u, s, t, q, n, x, e);
      AfterSplice(u, s, t, q + 1, n, x, e + 1, m);
    }
  }

  /** A position that is not the next target, once U is placed, widens the
      trailing identity by one qubit. */
  lemma IdentityPosition(u: Matrix, s: seq<nat>, t: nat, q: nat, n: nat, x: Matrix, e: nat)
    requires IsMatrix(u) && IsMatrix(x) && 1 <= t <= |s| && q < n
    requires !(t < |s| && q == s[t])
    ensures Walk(u, s, t, q, n, Kron(x, Id(Pow2(e)))) == Walk(u, s, t, q + 1, n, Kron(x, Id(Pow2(e + 1))))
  {
    IdentityStep(x, e);
  }

  /** The walk up to the lowest target builds the identity on the qubits
      seen so far, then splices U in and hands over to AfterSplice. */
  lemma {:induction false} BeforeSplice(u: Matrix, s: seq<nat>, q: nat, n: nat)
    requires IsMatrix(u) && q <= n
    requires |s| > 0 ==> q <= s[0]
    ensures Walk(u, s, 0, q, n, Id(Pow2(q))) ==
      if |s| > 0 && s[0] < n then Spliced(u, s[0], Placed(s, 0, n), n) else Id(Pow2(n))
    decreases n - q
  {
    if q == n {
    } else if |s| > 0 && q == s[0] {
      LowestTarget(u, s, q, n);
    } else {
      LeadingIdentity(u, s, q, n);
      BeforeSplice(u, s, q + 1, n);
    }
  }

  /** A position below the lowest target widens the leading identity by one
      qubit. */
  lemma LeadingIdentity(u: Matrix, s: seq<nat>, q: nat, n: nat)
    requires IsMatrix(u) && q < n
    requires !(|s| > 0 && q == s[0])
    ensures Walk(u, s, 0, q, n, Id(Pow2(q))) == Walk(u, s, 0, q + 1, n, Id(Pow2(q + 1)))
  {
    KronIdentities(Pow2(q), 2);
    assert Pow2(q + 1) == Pow2(q) * 2;
  }

  /** At the lowest target the walk splices U in after the leading identity,
      and AfterSplice finishes the product. */
  lemma LowestTarget(u: Matrix, s: seq<nat>, q: nat, n: nat)
    requires IsMatrix(u) && q < n && |s| > 0 && q == s[0]
    ensures Walk(u, s, 0, q, n, Id(Pow2(q))) == Spliced(u, q, Placed(s, 0, n), n)
  {
    var x := Kron(Id(Pow2(q)), u);
    GateStep(u, s, q, n, Id(Pow2(q)));
    KronUnitRight(x);
    assert Pow2(0) == 1;
    PlacedBound(s, 1, q + 1, n);
    assert Placed(s, 0, n) == 1 + Placed(s, 1, n);
    AfterSplice(u, s, 1, q + 1, n, x, 0, n - q - Placed(s, 0, n));
  }

  /** The walk multiplies U in at the lowest target. */
  lemma GateStep(u: Matrix, s: seq<nat>, q: nat, n: nat, acc: Matrix)
    requires IsMatrix(u) && IsMatrix(acc) && q < n && |s| > 0 && q == s[0]
    ensures Walk(u, s, 0, q, n, acc) == Walk(u, s, 1, q + 1, n, Kron(acc, u))
  {
  }

  /** What `_embed_gate` computes for any target list: the identity when no
      target lies below n, and otherwise U spliced in at the lowest target,
      followed by identities on the positions that are not targets. */
  lemma EmbedGateGeneral(u: Matrix, targets: seq<nat>, n: nat)
    requires IsMatrix(u)
    ensures var s := Sort(targets);
      EmbedGate(u, targets, n) ==
        if |s| > 0 && s[0] < n then Spliced(u, s[0], Placed(s, 0, n), n) else Id(Pow2(n))
  {
    IdOne();
    assert Pow2(0) == 1;
    BeforeSplice(u, Sort(targets), 0, n);
  }

  /** A strictly increasing list of targets below n is met in full. */
  lemma {:induction false} PlacedAll(s: seq<nat>, t: nat, n: nat)
    requires Increasing(s) && t <= |s|
    requires forall i :: 0 <= i < |s| ==> s[i] < n
    ensures Placed(s, t, n) == |s| - t
    decreases |s| - t
  {
    if t < |s| {
      PlacedAll(s, t + 1, n);
    }
  }

  /** For distinct targets below n, `_embed_gate` is I_(2^t0) ⊗ U ⊗ I_(2^(n - t0 - k))
      with t0 the lowest target and k the number of targets. */
  lemma EmbedGateCharacterization(u: Matrix, targets: seq<nat>, n: nat)
    requires IsMatrix(u) && |targets| > 0 && Distinct(targets)
    requires forall i :: 0 <= i < |targets| ==> targets[i] < n
    ensures Lowest(targets) + |targets| <= n
    ensures EmbedGate(u, targets, n) == Spliced(u, Lowest(targets), |targets|, n)
  {
    var s := Sort(targets);
    SortHeadIsLowest(targets);
    SortDistinct(targets);
    forall i | 0 <= i < |s|
      ensures s[i] < n
    {
      assert s[i] in multiset(targets);
    }
    PlacedAll(s, 0, n);
    EmbedGateGeneral(u, targets, n);
  }

  /** Only the lowest target and the number of targets matter: the positions
      of the other targets are ignored. */
  lemma EmbedGateIgnoresUpperTargets(u: Matrix, a: seq<nat>, b: seq<nat>, n: nat)
    requires IsMatrix(u) && |a| > 0 && Distinct(a) && Distinct(b)
    requires forall i :: 0 <= i < |a| ==> a[i] < n
    requires forall i :: 0 <= i < |b| ==> b[i] < n
    requires |a| == |b| && Lowest(a) == Lowest(b)
    ensures EmbedGate(u, a, n) == EmbedGate(u, b, n)
  {
    EmbedGateCharacterization(u, a, n);
    EmbedGateCharacterization(u, b, n);
  }

  /** The targets {0, 2} of a two-qubit gate on three qubits give the same
      operator as {0, 1}: U acts on qubits 0 and 1, qubit 2 is left alone. */
  lemma NonAdjacentTargets(u: Matrix)
    requires IsMatrix(u)
    ensures EmbedGate(u, [0, 2], 3) == EmbedGate(u, [0, 1], 3) == Spliced(u, 0, 2, 3)
  {
    EmbedGateCharacterization(u, [0, 2], 3);
    EmbedGateCharacterization(u, [0, 1], 3);
  }

  /** Permuting the targets, for instance listing them in descending order,
      does not change the operator. */
  lemma EmbedGateOrderIrrelevant(u: Matrix, a: seq<nat>, b: seq<nat>, n: nat)
    requires IsMatrix(u) && multiset(a) == multiset(b)
    ensures EmbedGate(u, a, n) == EmbedGate(u, b, n)
  {
    SortOrderIrrelevant(a, b);
  }

  /** With no target below n, in particular with no targets at all, the fold
      only ever adds identities. */
  lemma EmbedGateNoTargets(u: Matrix, targets: seq<nat>, n: nat)
    requires IsMatrix(u)
    requires forall i :: 0 <= i < |targets| ==> targets[i] >= n
    ensures EmbedGate(u, targets, n) == Id(Pow2(n))
  {
    EmbedGateGeneral(u, targets, n);
    if |targets| > 0 {
      assert Sort(targets)[0] in multiset(targets);
    }
  }

  /** A 2^k × 2^k gate on k distinct targets below n becomes a
      2^n × 2^n operator. */
  lemma EmbedGateSquare(u: Matrix, targets: seq<nat>, n: nat)
    requires IsSquare(u, Pow2(|targets|)) && Distinct(targets)
    requires forall i :: 0 <= i < |targets| ==> targets[i] < n
    ensures IsMatrix(u)
    ensures IsSquare(EmbedGate(u, targets, n), Pow2(n))
  {
    var k := |targets|;
    if k == 0 {
      EmbedGateNoTargets(u, targets, n);
    } else {
      EmbedGateCharacterization(u, targets, n);
      SplicedSquare(u, Lowest(targets), k, n);
    }
  }

  /** Embedding the identity gate gives the identity on all n qubits. */
  lemma EmbedGateIdentity(targets: seq<nat>, n: nat)
    requires Distinct(targets)
    requires forall i :: 0 <= i < |targets| ==> targets[i] < n
    ensures EmbedGate(Id(Pow2(|targets|)), targets, n) == Id(Pow2(n))
  {
    var k, u := |targets|, Id(Pow2(|targets|));
    if k == 0 {
      EmbedGateNoTargets(u, targets, n);
    } else {
      EmbedGateCharacterization(u, targets, n);
      SplicedIdentity(Lowest(targets), k, n);
    }
  }
}
