/** The mandala's conserved budget: admission, contraction down a chain, renewal out of the parent's steps. */
module Budgets {
  import opened Words
  import opened Bits

  datatype Budget = Budget(depth: nat, cells: nat, steps: nat, deadline: nat)

  predicate Admissible(parent: Budget, child: Budget, ringFree: nat) {
    && child.depth < parent.depth
    && child.cells <= parent.cells
    && child.cells >= 1
    && ringFree >= 1
    && child.steps <= parent.steps
    && child.deadline <= parent.deadline
    && child.depth > 0
    && child.steps > 0
  }

  function Max(a: nat, b: nat): (r: nat) { if a < b then b else a }

  function ContractChild(parent: Budget): (r: Budget) {
    Budget(SaturatingSub(parent.depth, 1), 1, Max(parent.steps / 2, 1), parent.deadline)
  }

  /** Each budget in the chain was admitted under the one before it. */
  ghost predicate AdmittedChain(chain: seq<Budget>, ringFree: seq<nat>) {
    |ringFree| == |chain| && forall i :: 0 < i < |chain| ==> Admissible(chain[i - 1], chain[i], ringFree[i])
  }

  /** Descent: depth drops at every admission, so a chain ends within the root's depth and never gains steps. */
  lemma {:induction false} ChainIsBounded(chain: seq<Budget>, ringFree: seq<nat>)
    requires AdmittedChain(chain, ringFree) && chain != []
    ensures |chain| - 1 + chain[|chain| - 1].depth <= chain[0].depth
    ensures |chain| > 1 ==> |chain| <= chain[0].depth
    ensures |chain| > 1 ==> chain[|chain| - 1].steps >= 1 && chain[|chain| - 1].cells >= 1
    ensures chain[|chain| - 1].steps <= chain[0].steps && chain[|chain| - 1].deadline <= chain[0].deadline
    decreases |chain|
  {
    if |chain| > 1 {
      var n := |chain| - 1;
      ChainIsBounded(chain[..n], ringFree[..n]);
      assert Admissible(chain[n - 1], chain[n], ringFree[n]);
    }
  }

  /** A contracted child is admitted exactly when there is depth for it, a step to give, and room. */
  lemma ContractIsAdmissible(parent: Budget, ringFree: nat)
    ensures Admissible(parent, ContractChild(parent), ringFree) <==>
            parent.depth >= 2 && parent.steps >= 1 && parent.cells >= 1 && ringFree >= 1
  {
  }

  /** Steps summed along `k` cells of a contraction chain, the first of them included. */
  function ChainSteps(steps: nat, k: nat): (r: nat)
    decreases k
  {
    if k == 0 then 0 else steps + ChainSteps(Max(steps / 2, 1), k - 1)
  }

  /** The steps of the chain that `ContractChild` really builds. */
  function ContractedSteps(b: Budget, k: nat): (r: nat)
    decreases k
  {
    if k == 0 then 0 else b.steps + ContractedSteps(ContractChild(b), k - 1)
  }

  lemma {:induction false} ContractedIsChain(b: Budget, k: nat)
    ensures ContractedSteps(b, k) == ChainSteps(b.steps, k)
    decreases k
  {
    if k > 0 { ContractedIsChain(ContractChild(b), k - 1); }
  }

  lemma {:induction false} ChainStepsBound(steps: nat, k: nat)
    ensures ChainSteps(steps, k) <= 2 * steps + k
    ensures steps <= 1 ==> ChainSteps(steps, k) <= k
    decreases k
  {
    if k > 0 { ChainStepsBound(Max(steps / 2, 1), k - 1); }
  }

  /** Total work down a contraction chain no longer than the root's depth. */
  lemma TotalWorkIsBounded(root: Budget, k: nat)
    requires k <= root.depth
    ensures ContractedSteps(root, k) <= 2 * root.steps + root.depth
  {
    ContractedIsChain(root, k);
    ChainStepsBound(root.steps, k);
  }

  function BitLength(n: nat): (r: nat) { if n == 0 then 0 else 1 + BitLength(n / 2) }
  function Ones(n: nat): (r: nat) { if n == 0 then 0 else n % 2 + Ones(n / 2) }

  lemma {:induction false} LongChainSteps(steps: nat, k: nat)
    requires steps >= 1 && k >= BitLength(steps)
    ensures ChainSteps(steps, k) == 2 * steps - Ones(steps) + k - BitLength(steps)
    decreases k
  {
    if steps == 1 {
      assert BitLength(1) == 1 + BitLength(0) && Ones(1) == 1 + Ones(0);
      if k > 1 { LongChainSteps(1, k - 1); }
      assert ChainSteps(1, k) == 1 + ChainSteps(1, k - 1);
    } else {
      LongChainSteps(steps / 2, k - 1);
    }
  }

  lemma {:induction false} ChainGrows(steps: nat, k: nat, m: nat)
    requires k <= m
    ensures ChainSteps(steps, k) <= ChainSteps(steps, m)
    decreases k
  {
    if k > 0 { ChainGrows(Max(steps / 2, 1), k - 1, m - 1); }
  }

  /**
   The documented "at most twice the root" holds exactly for chains no longer
   than the root's bit length plus its number of one bits; past that the floor
   of one step per cell breaks it.
   */
  lemma TwiceTheRootExactly(root: Budget, k: nat)
    requires root.steps >= 1
    ensures ContractedSteps(root, k) <= 2 * root.steps <==> k <= BitLength(root.steps) + Ones(root.steps)
  {
    ContractedIsChain(root, k);
    var n := BitLength(root.steps);
    LongChainSteps(root.steps, Max(k, n));
    if k < n { ChainGrows(root.steps, k, n); }
  }

  /** A root of one step with three cells down its chain already spends three. */
  lemma TwiceTheRootFails()
    ensures ContractedSteps(Budget(3, 1, 1, 0), 3) > 2 * 1
  {
    assert BitLength(1) == 1 + BitLength(0) && Ones(1) == 1 + Ones(0);
    TwiceTheRootExactly(Budget(3, 1, 1, 0), 3);
  }

  // ---- Renewal ----

  function RenewalGrant(parentSteps: nat, history: seq<nat>): (r: Option<nat>) {
    var n := |history|;
    var progressing := n >= 2 && history[n - 1] < history[n - 2];
    if !progressing || parentSteps < 2 then None else Some(Max(parentSteps / 2, 1))
  }

  /** A granted renewal moves steps from the parent's budget to the cell's. */
  function Renew(parent: Budget, cell: Budget, history: seq<nat>): (r: (Budget, Budget)) {
    match RenewalGrant(parent.steps, history)
    case None => (parent, cell)
    case Some(g) =>
      (parent.(steps := SaturatingSub(parent.steps, g)),
       cell.(steps := if cell.steps + g > U16_MAX then U16_MAX else cell.steps + g))
  }

  /** Nothing appears from nowhere: the sum is conserved exactly until the cell's word saturates, else it shrinks. */
  lemma RenewalConserves(parent: Budget, cell: Budget, history: seq<nat>)
    requires parent.steps <= U16_MAX && cell.steps <= U16_MAX
    ensures var (p, c) := Renew(parent, cell, history);
            && p.steps + c.steps <= parent.steps + cell.steps
            && (p.steps + c.steps == parent.steps + cell.steps <==>
                RenewalGrant(parent.steps, history).None? || cell.steps + parent.steps / 2 <= U16_MAX)
            && (parent.steps >= 1 ==> p.steps >= 1)
  {
  }

  /** The parent's steps after `k` renewals of a cell that keeps progressing. */
  function Drained(p: nat, k: nat): (r: nat)
    decreases k
  {
    if k == 0 || p < 2 then p else Drained(p - Max(p / 2, 1), k - 1)
  }

  /** How many of them it funds. */
  function GrantCount(p: nat): (r: nat) { if p < 2 then 0 else 1 + GrantCount(p - Max(p / 2, 1)) }

  /** Renewals run a parent of `p >= 1` steps down to exactly one, in ceil(log2 p) grants. */
  lemma {:induction false} RenewalsDrainTheParent(p: nat)
    requires p >= 1
    ensures Drained(p, GrantCount(p)) == 1
    ensures p <= Pow2(GrantCount(p))
    ensures GrantCount(p) > 0 ==> Pow2(GrantCount(p) - 1) < p
    ensures forall k :: 0 <= k < GrantCount(p) ==> Drained(p, k) >= 2
    decreases p
  {
    if p >= 2 {
      var rest := p - p / 2;
      RenewalsDrainTheParent(rest);
      forall k | 0 <= k < GrantCount(p) ensures Drained(p, k) >= 2 {
        if k > 0 { assert Drained(p, k) == Drained(rest, k - 1); }
      }
    }
  }

  lemma {:induction false} DrainedAdds(p: nat, a: nat, b: nat)
    ensures Drained(Drained(p, a), b) == Drained(p, a + b)
    decreases a
  {
    if a > 0 && p >= 2 { DrainedAdds(p - Max(p / 2, 1), a - 1, b); }
  }
}
