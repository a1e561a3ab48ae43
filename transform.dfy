/** What the decoders over a TransformMatrixDictionary share: the cost of
    taking a candidate label after a given label, a row of such costs, and
    the greedy walk that Viterbi.compute(List<Vertex>, ...) and
    computeEnumSimply perform, each position taking the first cheapest
    candidate given the label chosen before it. */
module Transform {
  import opened ArgMin

  /** A label (a Nature or a role tag), by its ordinal. */
  type Label = nat

  /** The transition cost between two ordinals, and the emission cost of a
      label seen with a given frequency; the latter stands for
      -log((frequency + 1e-8) / getTotalFrequency(label)). */
  datatype Matrix = Matrix(trans: seq<seq<int>>, emission: (Label, int) -> int)

  /** A candidate label of one position, with its frequency there. */
  datatype Candidate = Candidate(tag: Label, freq: int)

  /** What a decode walk takes from one step to the next: the accumulated
      cost `total`, the label `pre` chosen last, and the index of the
      candidate chosen at each position so far. */
  datatype Walk = Walk(total: int, pre: Label, picks: seq<nat>)

  /** The transition matrix is square: one row and one column per ordinal. */
  predicate Square(m: Matrix) {
    forall r :: 0 <= r < |m.trans| ==> |m.trans[r]| == |m.trans|
  }

  /** Every candidate label has an ordinal the matrix covers. */
  predicate Known(m: Matrix, cs: seq<Candidate>) {
    forall j :: 0 <= j < |cs| ==> cs[j].tag < |m.trans|
  }

  /** Every position offers at least one candidate; otherwise the greedy
      step's `nature[perfect_j]` (line 131) or `entryArray[perfect_j]` (line
      259) is out of bounds. */
  predicate NonEmpty(chain: seq<seq<Candidate>>) {
    forall i :: 0 <= i < |chain| ==> |chain[i]| > 0
  }

  /** The transition cost between two ordinals. The decoders only ever look
      up ordinals the matrix covers (their methods require it), so the value
      outside the matrix is immaterial; it makes the specification total. */
  function Trans(m: Matrix, from: Label, to: Label): int {
    if from < |m.trans| && to < |m.trans[from]| then m.trans[from][to] else 0
  }

  /** Cost of taking candidate `c` after label `pre`, having spent `total`
      (lines 118, 170 and 246). */
  function StepCost(m: Matrix, total: int, pre: Label, c: Candidate): int {
    total + Trans(m, pre, c.tag) + m.emission(c.tag, c.freq)
  }

  /** The row of step costs of every candidate after `pre`, in candidate
      order. */
  function Costs(m: Matrix, total: int, pre: Label, cs: seq<Candidate>): (row: seq<int>)
    ensures |row| == |cs|
  {
    seq(|cs|, j requires 0 <= j < |cs| => StepCost(m, total, pre, cs[j]))
  }

  /** The greedy walk over the first `n` positions of `chain`, starting from
      the anchor label with nothing spent. */
  function Greedy(m: Matrix, anchor: Label, chain: seq<seq<Candidate>>, n: nat): (w: Walk)
    requires NonEmpty(chain) && n <= |chain|
    ensures |w.picks| == n
    ensures forall i :: 0 <= i < n ==> w.picks[i] < |chain[i]|
  {
    if n == 0 then Walk(0, anchor, [])
    else
      var w := Greedy(m, anchor, chain, n - 1);
      var row := Costs(m, w.total, w.pre, chain[n - 1]);
      var j := FirstMin(row);
      Walk(row[j], chain[n - 1][j].tag, w.picks + [j])
  }

  /** Picks that name a candidate at each of the first positions. */
  predicate Picks(chain: seq<seq<Candidate>>, picks: seq<nat>) {
    |picks| <= |chain| && forall i :: 0 <= i < |picks| ==> picks[i] < |chain[i]|
  }

  /** The labels a sequence of picks selects. */
  function Labels(chain: seq<seq<Candidate>>, picks: seq<nat>): (ls: seq<Label>)
    requires Picks(chain, picks)
    ensures |ls| == |picks|
  {
    seq(|picks|, i requires 0 <= i < |picks| => chain[i][picks[i]].tag)
  }

  /** The label in force before position `i`: the anchor, or the label
      picked at position i - 1. */
  function Before(anchor: Label, chain: seq<seq<Candidate>>, picks: seq<nat>, i: nat): Label
    requires Picks(chain, picks) && i <= |picks|
  {
    if i == 0 then anchor else chain[i - 1][picks[i - 1]].tag
  }

  /** The accumulated cost of the first `n` picks, one transition and one
      emission per position: the reference the walk's `total` is checked
      against. */
  function ChainCost(m: Matrix, anchor: Label, chain: seq<seq<Candidate>>, picks: seq<nat>, n: nat): int
    requires Picks(chain, picks) && n <= |picks|
  {
    if n == 0 then 0
    else
      var c := chain[n - 1][picks[n - 1]];
      ChainCost(m, anchor, chain, picks, n - 1) + Trans(m, Before(anchor, chain, picks, n - 1), c.tag)
        + m.emission(c.tag, c.freq)
  }

  /** The cost of the first `n` picks depends on those picks alone. */
  lemma {:induction false} ChainCostAgree(m: Matrix, anchor: Label, chain: seq<seq<Candidate>>,
                                          p: seq<nat>, q: seq<nat>, n: nat)
    requires Picks(chain, p) && Picks(chain, q) && n <= |p| && n <= |q|
    requires forall i :: 0 <= i < n ==> p[i] == q[i]
    ensures ChainCost(m, anchor, chain, p, n) == ChainCost(m, anchor, chain, q, n)
  {
    if n > 0 {
      ChainCostAgree(m, anchor, chain, p, q, n - 1);
    }
  }

  /** Appending a pick adds one transition, from the label picked last, and
      one emission. */
  lemma {:induction false} ChainCostSnoc(m: Matrix, anchor: Label, chain: seq<seq<Candidate>>, q: seq<nat>, k: nat)
    requires 0 < |q| < |chain| && Picks(chain, q) && k < |chain[|q|]|
    ensures Picks(chain, q + [k])
    ensures var c := chain[|q|][k];
            ChainCost(m, anchor, chain, q + [k], |q| + 1)
            == ChainCost(m, anchor, chain, q, |q|) + Trans(m, chain[|q| - 1][q[|q| - 1]].tag, c.tag) + m.emission(c.tag, c.freq)
  {
    ChainCostAgree(m, anchor, chain, q + [k], q, |q|);
  }

  /** The walk's `total` is the accumulated cost of the labels it picked
      (`total = perfect_cost_line` at lines 130 and 258). */
  lemma {:induction false} GreedyTotal(m: Matrix, anchor: Label, chain: seq<seq<Candidate>>, n: nat)
    requires NonEmpty(chain) && n <= |chain|
    ensures Greedy(m, anchor, chain, n).total
            == ChainCost(m, anchor, chain, Greedy(m, anchor, chain, n).picks, n)
  {
    if n > 0 {
      var w := Greedy(m, anchor, chain, n - 1);
      var p := Greedy(m, anchor, chain, n).picks;
      GreedyTotal(m, anchor, chain, n - 1);
      assert p == w.picks + [p[n - 1]];
      ChainCostAgree(m, anchor, chain, p, w.picks, n - 1);
      assert Before(anchor, chain, p, n - 1) == w.pre;
    }
  }

  /** One more position appends the first minimum of the cost row the walk
      sees there, and keeps the earlier picks. An unfolding helper: it
      names one step of `Greedy` for the inductions that use it. */
  lemma {:induction false} GreedyLast(m: Matrix, anchor: Label, chain: seq<seq<Candidate>>, n: nat)
    requires NonEmpty(chain) && 0 < n <= |chain|
    ensures var w := Greedy(m, anchor, chain, n - 1);
            var j := FirstMin(Costs(m, w.total, w.pre, chain[n - 1]));
            && Greedy(m, anchor, chain, n).picks[n - 1] == j
            && forall i :: 0 <= i < n - 1 ==> Greedy(m, anchor, chain, n).picks[i] == w.picks[i]
  {
  }

  /** One step of the walk as a loop performs it: the new total is the cost
      of the first cheapest candidate, whose label becomes `pre`. An
      unfolding helper: it names one step of `Greedy` in the terms the
      decoders' loop invariants use. */
  lemma {:induction false} GreedyStep(m: Matrix, anchor: Label, chain: seq<seq<Candidate>>, n: nat)
    requires NonEmpty(chain) && n < |chain|
    ensures var w := Greedy(m, anchor, chain, n);
            var j := FirstMin(Costs(m, w.total, w.pre, chain[n]));
            var w' := Greedy(m, anchor, chain, n + 1);
            && w'.total == StepCost(m, w.total, w.pre, chain[n][j])
            && w'.pre == chain[n][j].tag
  {
  }

  /** Later positions never change an earlier pick. */
  lemma {:induction false} GreedyPrefix(m: Matrix, anchor: Label, chain: seq<seq<Candidate>>, k: nat, n: nat, i: nat)
    requires NonEmpty(chain) && i < k <= n <= |chain|
    ensures Greedy(m, anchor, chain, n).picks[i] == Greedy(m, anchor, chain, k).picks[i]
  {
    if n > k {
      GreedyPrefix(m, anchor, chain, k, n - 1, i);
      GreedyLast(m, anchor, chain, n);
    }
  }

  /** The pick at position `i` is the first minimum of the cost row the walk
      sees there. */
  lemma {:induction false} GreedyPick(m: Matrix, anchor: Label, chain: seq<seq<Candidate>>, n: nat, i: nat)
    requires NonEmpty(chain) && i < n <= |chain|
    ensures var w := Greedy(m, anchor, chain, i);
            Greedy(m, anchor, chain, n).picks[i] == FirstMin(Costs(m, w.total, w.pre, chain[i]))
  {
    GreedyPrefix(m, anchor, chain, i + 1, n, i);
    GreedyLast(m, anchor, chain, i + 1);
  }

  /** At each position the walk takes the first cheapest candidate given the
      state it arrived in: none is cheaper, and every candidate listed
      before it is strictly dearer (the strict comparisons at lines 124 and
      252). */
  lemma {:induction false} GreedyPicksFirstMinimum(m: Matrix, anchor: Label, chain: seq<seq<Candidate>>, n: nat, i: nat, j: nat)
    requires NonEmpty(chain) && i < n <= |chain| && j < |chain[i]|
    ensures var w := Greedy(m, anchor, chain, i);
            var p := Greedy(m, anchor, chain, n).picks[i];
            && StepCost(m, w.total, w.pre, chain[i][p]) <= StepCost(m, w.total, w.pre, chain[i][j])
            && (j < p ==> StepCost(m, w.total, w.pre, chain[i][p]) < StepCost(m, w.total, w.pre, chain[i][j]))
  {
    var w := Greedy(m, anchor, chain, i);
    GreedyPick(m, anchor, chain, n, i);
    FirstMinIsFirst(Costs(m, w.total, w.pre, chain[i]), |chain[i]|, j);
  }

  /** Greedy choice is not optimal: with one label whose cheap transition
      leads to an expensive one, the walk pays 10 where picking the other
      candidate first pays 1. */
  lemma GreedyNotOptimal()
    ensures var m := Matrix([[0, 0, 1], [10, 0, 0], [0, 0, 0]], (l: Label, f: int) => 0);
            var chain := [[Candidate(1, 0), Candidate(2, 0)], [Candidate(0, 0)]];
            && NonEmpty(chain)
            && Greedy(m, 0, chain, 2).total == 10
            && Picks(chain, [1, 0]) && ChainCost(m, 0, chain, [1, 0], 2) == 1
  {
    var m := Matrix([[0, 0, 1], [10, 0, 0], [0, 0, 0]], (l: Label, f: int) => 0);
    var chain := [[Candidate(1, 0), Candidate(2, 0)], [Candidate(0, 0)]];
    var w1 := Greedy(m, 0, chain, 1);
    assert Costs(m, 0, 0, chain[0]) == [0, 1];
    assert w1 == Walk(0, 1, [0]);
    assert Costs(m, 0, 1, chain[1]) == [10];
  }

  /** Fills the cost row of one position (the loops at lines 115-119 and
      243-247). */
  method CostRow(m: Matrix, total: int, pre: Label, cs: seq<Candidate>) returns (row: array<int>)
    requires Square(m) && pre < |m.trans| && Known(m, cs)
    ensures fresh(row) && row[..] == Costs(m, total, pre, cs)
  {
    row := new int[|cs|];
    for j := 0 to |cs|
      invariant forall k :: 0 <= k < j ==> row[k] == StepCost(m, total, pre, cs[k])
    {
      row[j] := total + m.trans[pre][cs[j].tag] + m.emission(cs[j].tag, cs[j].freq);
    }
  }

  /** One greedy step: cost every candidate after `pre`, then take the first
      cheapest one (lines 115-129 and 243-257). Returns its cost, the new
      `total`, and its index, `perfect_j`. */
  method Choose(m: Matrix, total: int, pre: Label, cs: seq<Candidate>) returns (cost: int, j: nat)
    requires Square(m) && pre < |m.trans| && Known(m, cs) && |cs| > 0
    ensures j < |cs| && j == FirstMin(Costs(m, total, pre, cs))
    ensures cost == StepCost(m, total, pre, cs[j])
  {
    var row := CostRow(m, total, pre, cs);
    cost, j := PickFirstMinimum(row);
  }
}
