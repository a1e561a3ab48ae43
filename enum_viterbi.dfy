/** Viterbi.computeEnum and Viterbi.computeEnumSimply: decoders over a
    sequence of role-tag items, each a label map from candidate labels to
    frequencies. Both take the first key of the start item as the first
    label. computeEnumSimply then walks greedily, one label per item;
    computeEnum relaxes a full cost row per item but reports, per position,
    the predecessor of the single cheapest transition into the next item. */
module EnumViterbi {
  import opened ArgMin
  import opened Transform

  /** An EnumItem: its label map as the entries it yields in iteration
      order, each a label and its frequency. */
  datatype EnumItem = EnumItem(labelMap: seq<(Label, int)>)

  /** The frequency of `label` among the entries from index `i` on: the
      first entry with that key, or 0 when none has it. */
  function FrequencyFrom(entries: seq<(Label, int)>, key: Label, i: nat): int
    decreases |entries| - i
  {
    if i >= |entries| then 0
    else if entries[i].0 == key then entries[i].1
    else FrequencyFrom(entries, key, i + 1)
  }

  /** item.getFrequency(label) (lines 170, 194 and 246). */
  function Frequency(item: EnumItem, key: Label): int {
    FrequencyFrom(item.labelMap, key, 0)
  }

  /** The keys of a label map are distinct, as in any map. */
  predicate Keyed(item: EnumItem) {
    forall i, j :: 0 <= i < j < |item.labelMap| ==> item.labelMap[i].0 != item.labelMap[j].0
  }

  /** From index `i` on, the lookup finds the first entry at or after `i`
      whose key is `label`. */
  lemma {:induction false} FrequencyFromFinds(entries: seq<(Label, int)>, key: Label, i: nat, j: nat)
    requires i <= j < |entries| && entries[j].0 == key
    requires forall t :: i <= t < j ==> entries[t].0 != key
    ensures FrequencyFrom(entries, key, i) == entries[j].1
    decreases j - i
  {
    if i < j {
      FrequencyFromFinds(entries, key, i + 1, j);
    }
  }

  /** From index `i` on, a label no entry has is looked up as 0. */
  lemma {:induction false} FrequencyFromAbsent(entries: seq<(Label, int)>, key: Label, i: nat)
    requires forall t :: i <= t < |entries| ==> entries[t].0 != key
    ensures FrequencyFrom(entries, key, i) == 0
    decreases |entries| - i
  {
    if i < |entries| {
      FrequencyFromAbsent(entries, key, i + 1);
    }
  }

  /** getFrequency answers the frequency the map holds for a key, and 0 for
      a label it does not hold. */
  lemma FrequencyOfKey(item: EnumItem, key: Label)
    requires Keyed(item)
    ensures forall j :: 0 <= j < |item.labelMap| && item.labelMap[j].0 == key ==>
              Frequency(item, key) == item.labelMap[j].1
    ensures (forall j :: 0 <= j < |item.labelMap| ==> item.labelMap[j].0 != key) ==>
              Frequency(item, key) == 0
  {
    forall j | 0 <= j < |item.labelMap| && item.labelMap[j].0 == key
      ensures Frequency(item, key) == item.labelMap[j].1
    {
      FrequencyFromFinds(item.labelMap, key, 0, j);
    }
    if forall j :: 0 <= j < |item.labelMap| ==> item.labelMap[j].0 != key {
      FrequencyFromAbsent(item.labelMap, key, 0);
    }
  }

  /** The candidates of an item, as the entry array the decoders copy out
      of its entry set (lines 161-166, 180-185 and 233-238): each key with
      the frequency getFrequency gives it. */
  function Entries(item: EnumItem): (cs: seq<Candidate>)
    ensures |cs| == |item.labelMap|
  {
    seq(|item.labelMap|, j requires 0 <= j < |item.labelMap| =>
      Candidate(item.labelMap[j].0, Frequency(item, item.labelMap[j].0)))
  }

  /** The first label: the first key of the start item (lines 150 and 228). */
  function Anchor(items: seq<EnumItem>): Label
    requires |items| > 0 && |items[0].labelMap| > 0
  {
    items[0].labelMap[0].0
  }

  /** The candidates of every item after the start, position by position,
      read from each item's label map (compare `VertexChain.Chain`, which
      reads a vertex's attribute arrays). */
  function Chain(items: seq<EnumItem>): (chain: seq<seq<Candidate>>)
    requires |items| > 0
    ensures |chain| == |items| - 1
  {
    seq(|items| - 1, i requires 0 <= i < |items| - 1 => Entries(items[i + 1]))
  }

  /** The labels computeEnumSimply has reported once it has walked `n`
      items past the start: the anchor, then the label in force after each
      step of the greedy walk. */
  function SimplyOf(m: Matrix, items: seq<EnumItem>, n: nat): (tags: seq<Label>)
    requires |items| > 0 && |items[0].labelMap| > 0 && NonEmpty(Chain(items)) && n < |items|
    ensures |tags| == n + 1 && tags[0] == Anchor(items)
  {
    if n == 0 then [Anchor(items)]
    else SimplyOf(m, items, n - 1) + [Greedy(m, Anchor(items), Chain(items), n).pre]
  }

  /** What computeEnumSimply returns: one label per item. */
  function Simply(m: Matrix, items: seq<EnumItem>): (tags: seq<Label>)
    requires |items| > 0 && |items[0].labelMap| > 0 && NonEmpty(Chain(items))
    ensures |tags| == |items|
  {
    SimplyOf(m, items, |items| - 1)
  }

  /** The label reported for item `i + 1` is the label in force after the
      walk's step at that position, however far the walk goes on. */
  lemma {:induction false} SimplyAt(m: Matrix, items: seq<EnumItem>, n: nat, i: nat)
    requires |items| > 0 && |items[0].labelMap| > 0 && NonEmpty(Chain(items)) && i < n < |items|
    ensures SimplyOf(m, items, n)[i + 1] == Greedy(m, Anchor(items), Chain(items), i + 1).pre
  {
    if n > i + 1 {
      SimplyAt(m, items, n - 1, i);
    }
  }

  /** computeEnumSimply starts with the first key of the start item, and
      reports for every later item one of its keys: compared with any key
      `k` of that item, the reported one costs no more after the label
      reported before it, and strictly less when `k` comes earlier in the
      map. */
  lemma {:induction false} SimplyPicksFirstMinimum(m: Matrix, items: seq<EnumItem>, i: nat, k: nat)
    requires |items| > 0 && |items[0].labelMap| > 0 && NonEmpty(Chain(items))
    requires i < |items| - 1 && k < |items[i + 1].labelMap|
    ensures Simply(m, items)[0] == items[0].labelMap[0].0
    ensures var w := Greedy(m, Anchor(items), Chain(items), i);
            var c := Entries(items[i + 1]);
            exists j :: 0 <= j < |c| && Simply(m, items)[i + 1] == items[i + 1].labelMap[j].0
                        && StepCost(m, w.total, w.pre, c[j]) <= StepCost(m, w.total, w.pre, c[k])
                        && (k < j ==> StepCost(m, w.total, w.pre, c[j]) < StepCost(m, w.total, w.pre, c[k]))
  {
    var chain := Chain(items);
    assert chain[i] == Entries(items[i + 1]);
    SimplyAt(m, items, |items| - 1, i);
    GreedyPicksFirstMinimum(m, Anchor(items), chain, i + 1, i, k);
    var j := Greedy(m, Anchor(items), chain, i + 1).picks[i];
    assert Greedy(m, Anchor(items), chain, i + 1).pre == chain[i][j].tag;
  }

  /** The inputs the decoders read without checking: a transition matrix
      with a row and a column per ordinal, a start item with a first key,
      and keys the matrix covers. The start key is looked up in the matrix
      only once there is a second item. */
  predicate Readable(m: Matrix, items: seq<EnumItem>) {
    && |items| > 0 && |items[0].labelMap| > 0
    && Square(m) && (|items| > 1 ==> items[0].labelMap[0].0 < |m.trans|)
    && forall i, j :: 1 <= i < |items| && 0 <= j < |items[i].labelMap| ==> items[i].labelMap[j].0 < |m.trans|
  }

  /** Every candidate set of `chain` before position `n` is non-empty. */
  predicate Offered(chain: seq<seq<Candidate>>, n: nat) {
    n <= |chain| && forall i :: 0 <= i < n ==> |chain[i]| > 0
  }

  /** The candidates of item `i + 1` are in the matrix. An unfolding helper
      for the decoders' loops. */
  lemma {:induction false} ChainKnown(m: Matrix, items: seq<EnumItem>, i: nat)
    requires Readable(m, items) && i < |items| - 1
    ensures Chain(items)[i] == Entries(items[i + 1]) && Known(m, Chain(items)[i])
  {
  }

  /** Every item after the start offers a candidate when every label map
      after the start has a key. */
  lemma {:induction false} ChainNonEmpty(items: seq<EnumItem>)
    requires |items| > 0 && forall i :: 1 <= i < |items| ==> |items[i].labelMap| > 0
    ensures NonEmpty(Chain(items))
  {
    var chain := Chain(items);
    forall i | 0 <= i < |chain|
      ensures |chain[i]| > 0
    {
      assert chain[i] == Entries(items[i + 1]);
    }
  }

  /** One step of computeEnumSimply's loop (lines 234-260) at item
      `i + 1`: costs its keys after `pre` and carries the first cheapest's
      cost and label on, as the greedy walk does. */
  method SimplyNext(items: seq<EnumItem>, m: Matrix, i: nat, total: int, pre: Label)
    returns (total': int, pre': Label)
    requires Readable(m, items) && NonEmpty(Chain(items)) && i < |items| - 1
    requires total == Greedy(m, Anchor(items), Chain(items), i).total
    requires pre == Greedy(m, Anchor(items), Chain(items), i).pre
    ensures total' == Greedy(m, Anchor(items), Chain(items), i + 1).total
    ensures pre' == Greedy(m, Anchor(items), Chain(items), i + 1).pre
  {
    if i > 0 {
      // the label in force is a key of the item before
      ChainKnown(m, items, i - 1);
      GreedyStep(m, Anchor(items), Chain(items), i - 1);
    }
    var entries := Entries(items[i + 1]);
    ChainKnown(m, items, i);
    GreedyStep(m, Anchor(items), Chain(items), i);
    var cost, j := Choose(m, total, pre, entries);
    total' := cost;
    pre' := entries[j].tag;
  }

  /** computeEnumSimply (lines 221-267): walks the items after the start,
      costs every key after the label chosen before it, and appends the
      first cheapest. */
  method ComputeEnumSimply(items: seq<EnumItem>, m: Matrix) returns (tags: seq<Label>)
    requires Readable(m, items)
    requires forall i :: 1 <= i < |items| ==> |items[i].labelMap| > 0
    ensures NonEmpty(Chain(items)) && tags == Simply(m, items)
  {
    ChainNonEmpty(items);
    ghost var chain := Chain(items);
    ghost var anchor := Anchor(items);
    var pre := items[0].labelMap[0].0;
    tags := [pre];
    var total := 0;
    for i := 0 to |items| - 1
      invariant total == Greedy(m, anchor, chain, i).total && pre == Greedy(m, anchor, chain, i).pre
      invariant tags == SimplyOf(m, items, i)
    {
      total, pre := SimplyNext(items, m, i, total, pre);
      tags := tags + [pre];
    }
  }

  /** The costs of reaching candidate `c` from each predecessor `j`, that is
      `now` at line 194: the predecessor's cost, the transition from its
      label, and the emission of `c`. */
  function Into(m: Matrix, prev: seq<int>, pcs: seq<Candidate>, c: Candidate): (col: seq<int>)
    requires |prev| == |pcs|
    ensures |col| == |pcs|
  {
    seq(|pcs|, j requires 0 <= j < |pcs| => StepCost(m, prev[j], pcs[j].tag, c))
  }

  /** The next cost row: each candidate's cheapest way in (lines 188-204). */
  function Relax(m: Matrix, prev: seq<int>, pcs: seq<Candidate>, cs: seq<Candidate>): (row: seq<int>)
    requires |prev| == |pcs| > 0
    ensures |row| == |cs|
  {
    seq(|cs|, k requires 0 <= k < |cs| => Min(Into(m, prev, pcs, cs[k])))
  }

  /** perfect_j: the predecessor of the cheapest transition into the next
      item, the first such in the order the loops visit them; 0 when the
      next item has no candidate. */
  function PerfectJ(m: Matrix, prev: seq<int>, pcs: seq<Candidate>, cs: seq<Candidate>): (j: nat)
    requires |prev| == |pcs| > 0
    ensures j < |pcs|
  {
    if |cs| == 0 then 0
    else FirstMin(Into(m, prev, pcs, cs[FirstMin(Relax(m, prev, pcs, cs))]))
  }

  /** The cost row `cost[s]` of position `s` of `chain`: costed from the
      anchor at the first position (lines 156-173), relaxed from the row
      before it after that. */
  function Row(m: Matrix, anchor: Label, chain: seq<seq<Candidate>>, s: nat): (row: seq<int>)
    requires s < |chain| && Offered(chain, s)
    ensures |row| == |chain[s]|
  {
    if s == 0 then Costs(m, 0, anchor, chain[0])
    else Relax(m, Row(m, anchor, chain, s - 1), chain[s - 1], chain[s])
  }

  /** The label computeEnum appends at its loop step `s + 1`: a key of item
      `s + 1`, the predecessor of the cheapest transition into item `s + 2`. */
  function Picked(m: Matrix, items: seq<EnumItem>, s: nat): Label
    requires |items| > 0 && |items[0].labelMap| > 0 && s + 2 < |items| && Offered(Chain(items), s + 1)
  {
    var chain := Chain(items);
    chain[s][PerfectJ(m, Row(m, Anchor(items), chain, s), chain[s], chain[s + 1])].tag
  }

  /** The labels computeEnum has reported after `n` steps of its loop: the
      anchor, then one label per step. */
  function TagsOf(m: Matrix, items: seq<EnumItem>, n: nat): (tags: seq<Label>)
    requires |items| >= 2 && |items[0].labelMap| > 0 && n <= |items| - 2 && Offered(Chain(items), n)
    ensures |tags| == n + 1 && tags[0] == Anchor(items)
  {
    if n == 0 then [Anchor(items)] else TagsOf(m, items, n - 1) + [Picked(m, items, n - 1)]
  }

  /** What computeEnum returns: the anchor, then one label per loop step,
      one fewer than there are items. */
  function Tags(m: Matrix, items: seq<EnumItem>): (tags: seq<Label>)
    requires |items| >= 2 && |items[0].labelMap| > 0 && Offered(Chain(items), |items| - 2)
    ensures |tags| == |items| - 1
  {
    TagsOf(m, items, |items| - 2)
  }

  /** Each cell of a relaxed row is the cheapest way into its candidate:
      no predecessor offers less, and one offers exactly that. */
  lemma {:induction false} RelaxIsMin(m: Matrix, prev: seq<int>, pcs: seq<Candidate>, cs: seq<Candidate>, k: nat)
    requires |prev| == |pcs| > 0 && k < |cs|
    ensures forall j :: 0 <= j < |pcs| ==> Relax(m, prev, pcs, cs)[k] <= StepCost(m, prev[j], pcs[j].tag, cs[k])
    ensures exists j :: 0 <= j < |pcs| && Relax(m, prev, pcs, cs)[k] == StepCost(m, prev[j], pcs[j].tag, cs[k])
  {
    var col := Into(m, prev, pcs, cs[k]);
    MinAtFirstMin(col, |pcs|);
    forall j | 0 <= j < |pcs|
      ensures Relax(m, prev, pcs, cs)[k] <= StepCost(m, prev[j], pcs[j].tag, cs[k])
    {
      FirstMinIsFirst(col, |pcs|, j);
    }
    var j := FirstMin(col);
    assert Relax(m, prev, pcs, cs)[k] == col[j];
  }

  /** perfect_j belongs to the cheapest transition into the next item over
      all pairs (cell `k`, predecessor `j`), and to the first such pair in
      the order the loops visit them: no pair is cheaper, and every pair
      visited earlier is strictly dearer. */
  lemma {:induction false} PerfectIsFirstGlobalMin(m: Matrix, prev: seq<int>, pcs: seq<Candidate>, cs: seq<Candidate>, k: nat, j: nat)
    requires |prev| == |pcs| > 0 && k < |cs| && j < |pcs|
    ensures var k' := FirstMin(Relax(m, prev, pcs, cs));
            var j' := PerfectJ(m, prev, pcs, cs);
            var best := StepCost(m, prev[j'], pcs[j'].tag, cs[k']);
            var here := StepCost(m, prev[j], pcs[j].tag, cs[k]);
            && best <= here
            && (k < k' || (k == k' && j < j') ==> best < here)
  {
    var r := Relax(m, prev, pcs, cs);
    var k' := FirstMin(r);
    var col' := Into(m, prev, pcs, cs[k']);
    var j' := FirstMin(col');
    FirstMinIsFirst(r, |cs|, k);
    RelaxIsMin(m, prev, pcs, cs, k);
    MinAtFirstMin(col', |pcs|);
    assert r[k'] == col'[j'];
    FirstMinIsFirst(col', |pcs|, j);
  }

  /** No sequence of candidates ending with candidate `picks[s]` at
      position `s` costs less than cell `picks[s]` of the row `cost[s]`. */
  lemma {:induction false} RowIsLowerBound(m: Matrix, anchor: Label, chain: seq<seq<Candidate>>, s: nat, picks: seq<nat>)
    requires s < |chain| && Offered(chain, s) && Picks(chain, picks) && s < |picks|
    ensures Row(m, anchor, chain, s)[picks[s]] <= ChainCost(m, anchor, chain, picks, s + 1)
  {
    if s > 0 {
      RowIsLowerBound(m, anchor, chain, s - 1, picks);
      RelaxIsMin(m, Row(m, anchor, chain, s - 1), chain[s - 1], chain[s], picks[s]);
    }
  }

  /** A cheapest sequence of candidates ending with candidate `k` at position
      `s`, read back through the cheapest predecessor of each cell. */
  function BestPath(m: Matrix, anchor: Label, chain: seq<seq<Candidate>>, s: nat, k: nat): (p: seq<nat>)
    requires s < |chain| && Offered(chain, s) && k < |chain[s]|
    ensures |p| == s + 1 && p[s] == k && Picks(chain, p)
  {
    if s == 0 then [k]
    else BestPath(m, anchor, chain, s - 1, FirstMin(Into(m, Row(m, anchor, chain, s - 1), chain[s - 1], chain[s][k]))) + [k]
  }

  /** Cell `k` of a relaxed row is reached from the predecessor `BestPath`
      steps back to. */
  lemma {:induction false} RowFromBest(m: Matrix, anchor: Label, chain: seq<seq<Candidate>>, s: nat, k: nat)
    requires 0 < s < |chain| && Offered(chain, s) && k < |chain[s]|
    ensures var j := FirstMin(Into(m, Row(m, anchor, chain, s - 1), chain[s - 1], chain[s][k]));
            Row(m, anchor, chain, s)[k] == StepCost(m, Row(m, anchor, chain, s - 1)[j], chain[s - 1][j].tag, chain[s][k])
  {
    var col := Into(m, Row(m, anchor, chain, s - 1), chain[s - 1], chain[s][k]);
    MinAtFirstMin(col, |col|);
  }

  /** Cell `k` of the row `cost[s]` is the cost of a sequence of candidates
      ending with candidate `k`: with `RowIsLowerBound`, the row holds the
      cheapest cost of reaching each candidate. */
  lemma {:induction false} BestPathCost(m: Matrix, anchor: Label, chain: seq<seq<Candidate>>, s: nat, k: nat)
    requires s < |chain| && Offered(chain, s) && k < |chain[s]|
    ensures ChainCost(m, anchor, chain, BestPath(m, anchor, chain, s, k), s + 1) == Row(m, anchor, chain, s)[k]
  {
    if s > 0 {
      var j := FirstMin(Into(m, Row(m, anchor, chain, s - 1), chain[s - 1], chain[s][k]));
      var q := BestPath(m, anchor, chain, s - 1, j);
      var p := BestPath(m, anchor, chain, s, k);
      assert p == q + [k] && |q| == s && q[s - 1] == j;
      BestPathCost(m, anchor, chain, s - 1, j);
      ChainCostSnoc(m, anchor, chain, q, k);
      RowFromBest(m, anchor, chain, s, k);
      var c := chain[s][k];
      assert ChainCost(m, anchor, chain, p, s + 1)
          == ChainCost(m, anchor, chain, q, s) + Trans(m, chain[s - 1][j].tag, c.tag) + m.emission(c.tag, c.freq);
      assert Row(m, anchor, chain, s)[k]
          == Row(m, anchor, chain, s - 1)[j] + Trans(m, chain[s - 1][j].tag, c.tag) + m.emission(c.tag, c.freq);
    } else {
      assert BestPath(m, anchor, chain, 0, k) == [k];
      assert Row(m, anchor, chain, 0)[k] == StepCost(m, 0, anchor, chain[0][k]);
    }
  }

  /** Once appended, the label of step `s + 1` stays in place however many
      steps follow. */
  lemma {:induction false} TagsPicked(m: Matrix, items: seq<EnumItem>, n: nat, s: nat)
    requires |items| >= 2 && |items[0].labelMap| > 0 && n <= |items| - 2 && Offered(Chain(items), n) && s < n
    ensures TagsOf(m, items, n)[s + 1] == Picked(m, items, s)
  {
    if n > s + 1 {
      TagsPicked(m, items, n - 1, s);
    }
  }

  /** The label appended at step `s + 1` is a key of item `s + 1`. An
      unfolding helper for TagsAt. */
  lemma {:induction false} PickedKey(m: Matrix, items: seq<EnumItem>, s: nat)
    requires |items| > 0 && |items[0].labelMap| > 0 && s + 2 < |items| && Offered(Chain(items), s + 1)
    ensures var chain := Chain(items);
            Picked(m, items, s)
            == items[s + 1].labelMap[PerfectJ(m, Row(m, Anchor(items), chain, s), chain[s], chain[s + 1])].0
  {
    assert Chain(items)[s] == Entries(items[s + 1]);
  }

  /** computeEnum starts with the first key of the start item; the label it
      appends at loop step `s + 1` is the key of item `s + 1` that
      perfect_j names, for the transition into item `s + 2`. */
  lemma {:induction false} TagsAt(m: Matrix, items: seq<EnumItem>, n: nat, s: nat)
    requires |items| >= 2 && |items[0].labelMap| > 0 && n <= |items| - 2 && Offered(Chain(items), n) && s < n
    ensures TagsOf(m, items, n)[0] == items[0].labelMap[0].0
    ensures var chain := Chain(items);
            TagsOf(m, items, n)[s + 1]
            == items[s + 1].labelMap[PerfectJ(m, Row(m, Anchor(items), chain, s), chain[s], chain[s + 1])].0
  {
    TagsPicked(m, items, n, s);
    PickedKey(m, items, s);
  }

  /** The state of the scan over one column `c`, entered with best cost
      `line0` and index `j0`, after its first `n` predecessors. */
  function Scanned(line0: Option<int>, j0: nat, c: seq<int>, n: nat): (Option<int>, nat)
    requires 0 < n <= |c|
  {
    if Below(MinOf(c, n), line0) then (Some(MinOf(c, n)), FirstMinOf(c, n)) else (line0, j0)
  }

  /** One step of the inner loop (lines 192-203) keeps `cost[i][k]` at the
      column's minimum so far and the running best at `Scanned`: the best
      never exceeds the cell, so the nested test against the cell changes
      nothing. */
  lemma {:induction false} ScanStep(line0: Option<int>, j0: nat, c: seq<int>, n: nat)
    requires n < |c|
    ensures var cell := if n == 0 then None else Some(MinOf(c, n));
            var (line, pj) := if n == 0 then (line0, j0) else Scanned(line0, j0, c, n);
            && Some(MinOf(c, n + 1)) == (if Below(c[n], cell) then Some(c[n]) else cell)
            && Scanned(line0, j0, c, n + 1)
               == (if Below(c[n], cell) && Below(c[n], line) then (Some(c[n]), n) else (line, pj))
  {
    if n > 0 {
      MinAtFirstMin(c, n);
    }
  }

  /** The running best after the first `k` cells of the next row: the
      smallest of them, with the first cheapest predecessor of the first
      cheapest cell; nothing before any cell. */
  function Best(m: Matrix, prev: seq<int>, pcs: seq<Candidate>, cs: seq<Candidate>, k: nat): (Option<int>, nat)
    requires |prev| == |pcs| > 0 && k <= |cs|
  {
    if k == 0 then (None, 0)
    else
      var r := Relax(m, prev, pcs, cs);
      (Some(MinOf(r, k)), FirstMin(Into(m, prev, pcs, cs[FirstMinOf(r, k)])))
  }

  /** Scanning the column of cell `k` takes the running best from `Best` at
      `k` to `Best` at `k + 1`, and the cell is the column's minimum. */
  lemma {:induction false} RowStep(m: Matrix, prev: seq<int>, pcs: seq<Candidate>, cs: seq<Candidate>, k: nat)
    requires |prev| == |pcs| > 0 && k < |cs|
    ensures Relax(m, prev, pcs, cs)[k] == Min(Into(m, prev, pcs, cs[k]))
    ensures var b := Best(m, prev, pcs, cs, k);
            Scanned(b.0, b.1, Into(m, prev, pcs, cs[k]), |pcs|) == Best(m, prev, pcs, cs, k + 1)
  {
    var r := Relax(m, prev, pcs, cs);
    assert r[k] == MinOf(Into(m, prev, pcs, cs[k]), |pcs|);
    if k > 0 {
      MinAtFirstMin(r, k);
    }
  }

  /** The inner loop of lines 192-203 for one candidate `c`: scans its
      predecessors, keeping the cell `cost[i][k]` at the cheapest way in so
      far and updating the running best `perfect_cost_line` / `perfect_j`
      only on a cost below both. Returns the cell and the running best. */
  method ScanColumn(m: Matrix, prev: array<int>, pcs: seq<Candidate>, c: Candidate, line0: Option<int>, j0: nat)
    returns (cell: int, line: Option<int>, perfectJ: nat)
    requires prev.Length == |pcs| > 0 && Square(m) && Known(m, pcs) && c.tag < |m.trans|
    ensures var col := Into(m, prev[..], pcs, c);
            cell == Min(col) && (line, perfectJ) == Scanned(line0, j0, col, |pcs|)
  {
    ghost var col := Into(m, prev[..], pcs, c);
    var best: Option<int> := None;
    line, perfectJ := line0, j0;
    for j := 0 to |pcs|
      invariant j == 0 ==> best.None? && line == line0 && perfectJ == j0
      invariant j > 0 ==> best == Some(MinOf(col, j)) && (line, perfectJ) == Scanned(line0, j0, col, j)
    {
      var now := prev[j] + m.trans[pcs[j].tag][c.tag] + m.emission(c.tag, c.freq);
      assert now == col[j];
      ScanStep(line0, j0, col, j);
      if Below(now, best) {
        best := Some(now);
        if Below(now, line) {
          line := Some(now);
          perfectJ := j;
        }
      }
    }
    cell := best.value;
  }

  /** One relaxation step of computeEnum (lines 186-204): fills the next
      cost row and finds perfect_j. Each cell is written once, after its
      column is scanned. */
  method Relaxation(m: Matrix, prev: array<int>, pcs: seq<Candidate>, cs: seq<Candidate>)
    returns (cur: array<int>, perfectJ: nat)
    requires prev.Length == |pcs| > 0 && Square(m) && Known(m, pcs) && Known(m, cs)
    ensures fresh(cur) && cur[..] == Relax(m, prev[..], pcs, cs)
    ensures perfectJ == PerfectJ(m, prev[..], pcs, cs)
  {
    ghost var p := prev[..];
    ghost var r := Relax(m, p, pcs, cs);
    cur := new int[|cs|];
    var line: Option<int> := None;
    perfectJ := 0;
    for k := 0 to |cs|
      invariant cur[..k] == r[..k]
      invariant (line, perfectJ) == Best(m, p, pcs, cs, k)
    {
      RowStep(m, p, pcs, cs, k);
      var cell;
      cell, line, perfectJ := ScanColumn(m, prev, pcs, cs[k], line, perfectJ);
      cur[k] := cell;
    }
    assert cur[..] == cur[..|cs|];
  }

  /** Every candidate set computeEnum indexes is non-empty: those of items 1
      to size - 2 (an empty one leaves `preEntryArray[perfect_j]` at line 206
      out of bounds). */
  lemma {:induction false} ChainOffered(items: seq<EnumItem>)
    requires |items| >= 2 && forall i :: 1 <= i < |items| - 1 ==> |items[i].labelMap| > 0
    ensures Offered(Chain(items), |items| - 2)
  {
    var chain := Chain(items);
    forall i | 0 <= i < |items| - 2
      ensures |chain[i]| > 0
    {
      assert chain[i] == Entries(items[i + 1]);
    }
  }

  /** computeEnum (lines 144-211): costs the first item after the start from
      the anchor, then relaxes row after row, appending at each step the
      label of the previous item that perfect_j names. Only the previous
      row is kept. */
  method ComputeEnum(items: seq<EnumItem>, m: Matrix) returns (tags: seq<Label>)
    requires Readable(m, items) && |items| >= 2
    requires forall i :: 1 <= i < |items| - 1 ==> |items[i].labelMap| > 0
    ensures Offered(Chain(items), |items| - 2) && tags == Tags(m, items)
  {
    ChainOffered(items);
    ghost var chain := Chain(items);
    var pre := items[0].labelMap[0].0;
    tags := [pre];
    var preEntries := Entries(items[1]);
    ChainKnown(m, items, 0);
    var cost := CostRow(m, 0, pre, preEntries);
    for i := 1 to |items| - 1
      invariant preEntries == chain[i - 1] && Known(m, preEntries)
      invariant cost[..] == Row(m, Anchor(items), chain, i - 1)
      invariant tags == TagsOf(m, items, i - 1)
    {
      var entries := Entries(items[i + 1]);
      ChainKnown(m, items, i);
      var next, perfectJ := Relaxation(m, cost, preEntries, entries);
      pre := preEntries[perfectJ].tag;
      tags := tags + [pre];
      preEntries := entries;
      cost := next;
    }
  }
}
