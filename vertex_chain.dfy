/** Viterbi.compute(List<Vertex>, TransformMatrixDictionary<Nature>): the
    part-of-speech decoder over a chain of word vertices. The first vertex
    is the sentence start, whose guessed nature anchors the walk; every
    later vertex gets the first cheapest of its candidate natures given the
    nature confirmed before it, and is told so through confirmNature. */
module VertexChain {
  import opened ArgMin
  import opened Transform

  /** A word vertex: its candidate natures with their frequencies (the
      `attribute.nature` and `attribute.frequency` arrays), the nature its
      guessNature() answers, and the nature confirmNature settled on, if
      any. */
  class Vertex {
    const natures: seq<Label>
    const frequencies: seq<int>
    const guess: Label
    var confirmed: Option<Label>

    constructor (natures: seq<Label>, frequencies: seq<int>, guess: Label)
      ensures this.natures == natures && this.frequencies == frequencies
      ensures this.guess == guess && confirmed == None
    {
      this.natures := natures;
      this.frequencies := frequencies;
      this.guess := guess;
      confirmed := None;
    }

    /** The candidates of this vertex in attribute order, each nature with
        the frequency at the same index. The decoder only reads vertices
        with a frequency per nature (it requires so); the 0 beyond that is
        immaterial and makes the specification total. */
    function Options(): (cs: seq<Candidate>)
      ensures |cs| == |natures|
    {
      seq(|natures|, j requires 0 <= j < |natures| =>
        Candidate(natures[j], if j < |frequencies| then frequencies[j] else 0))
    }

    /** Settles this vertex on nature `l`. */
    method ConfirmNature(l: Label)
      modifies this
      ensures confirmed == Some(l)
    {
      confirmed := Some(l);
    }
  }

  /** Every nature of `v` has an ordinal the matrix covers (line 118). */
  predicate Covered(m: Matrix, v: Vertex) {
    forall j :: 0 <= j < |v.natures| ==> v.natures[j] < |m.trans|
  }

  /** The candidates of every vertex after the start, position by position.
      `EnumViterbi.Chain` is the same shape over items; the two differ only
      in how a position's candidates are read (attribute arrays here, the
      label map there). */
  function Chain(vl: seq<Vertex>): (chain: seq<seq<Candidate>>)
    requires |vl| > 0
    ensures |chain| == |vl| - 1
  {
    seq(|vl| - 1, i requires 0 <= i < |vl| - 1 => vl[i + 1].Options())
  }

  /** Position `i` of the chain offers the candidates of vertex `i + 1`. An
      unfolding helper for the decoder's loop. */
  lemma {:induction false} ChainAt(vl: seq<Vertex>, i: nat)
    requires i < |vl| - 1
    ensures Chain(vl)[i] == vl[i + 1].Options()
  {
  }

  /** The natures the decoder confirms, one per vertex after the start: the
      labels of the greedy walk over the chain, anchored at the start
      vertex's guessed nature. */
  function Confirmed(m: Matrix, vl: seq<Vertex>): (ls: seq<Label>)
    requires |vl| > 0 && NonEmpty(Chain(vl))
    ensures |ls| == |vl| - 1
  {
    Labels(Chain(vl), Greedy(m, vl[0].guess, Chain(vl), |vl| - 1).picks)
  }

  /** The nature confirmed on vertex `i + 1` is the label in force after the
      walk's step at that position. */
  lemma {:induction false} ConfirmedAt(m: Matrix, vl: seq<Vertex>, i: nat)
    requires |vl| > 0 && NonEmpty(Chain(vl)) && i < |vl| - 1
    ensures Confirmed(m, vl)[i] == Greedy(m, vl[0].guess, Chain(vl), i + 1).pre
  {
    GreedyPrefix(m, vl[0].guess, Chain(vl), i + 1, |vl| - 1, i);
  }

  /** Each confirmed nature is one of its vertex's candidates, and the one
      the greedy step picks there: compared with any candidate `k`, it costs
      no more after the nature confirmed before it, and strictly less when
      `k` is listed earlier. */
  lemma {:induction false} ConfirmedIsCandidate(m: Matrix, vl: seq<Vertex>, i: nat, k: nat)
    requires |vl| > 0 && NonEmpty(Chain(vl)) && i < |vl| - 1 && k < |vl[i + 1].natures|
    ensures var w := Greedy(m, vl[0].guess, Chain(vl), i);
            var c := vl[i + 1].Options();
            exists j :: 0 <= j < |c| && Confirmed(m, vl)[i] == c[j].tag
                        && StepCost(m, w.total, w.pre, c[j]) <= StepCost(m, w.total, w.pre, c[k])
                        && (k < j ==> StepCost(m, w.total, w.pre, c[j]) < StepCost(m, w.total, w.pre, c[k]))
  {
    var chain := Chain(vl);
    assert chain[i] == vl[i + 1].Options();
    ConfirmedAt(m, vl, i);
    GreedyPicksFirstMinimum(m, vl[0].guess, chain, i + 1, i, k);
    var j := Greedy(m, vl[0].guess, chain, i + 1).picks[i];
    assert Confirmed(m, vl)[i] == chain[i][j].tag;
  }

  /** Every vertex after the start offers a candidate when each has a
      nature. */
  lemma {:induction false} ChainNonEmpty(vl: seq<Vertex>)
    requires |vl| > 0 && forall i :: 1 <= i < |vl| ==> |vl[i].natures| > 0
    ensures NonEmpty(Chain(vl))
  {
    var chain := Chain(vl);
    forall i | 0 <= i < |chain|
      ensures |chain[i]| > 0
    {
      assert chain[i] == vl[i + 1].Options();
    }
  }

  /** One step of the decoder's loop (lines 113-132) at vertex `i + 1`:
      costs its candidates after `pre`, confirms the first cheapest and
      carries its cost and nature on. */
  method ConfirmNext(vl: seq<Vertex>, m: Matrix, i: nat, item: Vertex, total: int, pre: Label)
    returns (total': int, pre': Label)
    requires |vl| > 0 && NonEmpty(Chain(vl)) && i < |vl| - 1 && item == vl[i + 1]
    requires Square(m) && pre < |m.trans|
    requires 0 < |item.natures| <= |item.frequencies| && Covered(m, item)
    requires total == Greedy(m, vl[0].guess, Chain(vl), i).total
    requires pre == Greedy(m, vl[0].guess, Chain(vl), i).pre
    requires forall k :: 0 <= k <= i ==> vl[k] != item
    requires forall k :: 1 <= k <= i ==> vl[k].confirmed == Some(Confirmed(m, vl)[k - 1])
    modifies item
    ensures pre' < |m.trans|
    ensures total' == Greedy(m, vl[0].guess, Chain(vl), i + 1).total
    ensures pre' == Greedy(m, vl[0].guess, Chain(vl), i + 1).pre
    ensures item.confirmed == Some(Confirmed(m, vl)[i])
    ensures forall k :: 1 <= k <= i + 1 ==> vl[k].confirmed == Some(Confirmed(m, vl)[k - 1])
    ensures vl[0].confirmed == old(vl[0].confirmed)
  {
    var cs := item.Options();
    ChainAt(vl, i);
    GreedyStep(m, vl[0].guess, Chain(vl), i);
    ConfirmedAt(m, vl, i);
    var cost, j := Choose(m, total, pre, cs);
    total' := cost;
    pre' := item.natures[j];
    assert pre' == cs[j].tag == Confirmed(m, vl)[i];
    item.ConfirmNature(pre');
  }

  /** Under the no-repeats condition of the decoder, vertex `n` is none of
      the vertices before it. A helper that keeps the decoder's frame
      reasoning to one position at a time. */
  lemma {:induction false} Earlier(vl: seq<Vertex>, n: nat)
    requires forall k :: 0 <= k < |vl| ==> vl[k] !in vl[..k]
    requires n < |vl|
    ensures forall k :: 0 <= k < n ==> vl[k] != vl[n]
  {
  }

  /** The walk of the decoder once there is a vertex after the start:
      the start vertex's nature is then one the matrix covers. */
  method ConfirmAll(vl: seq<Vertex>, m: Matrix)
    requires |vl| > 1 && Square(m) && vl[0].guess < |m.trans|
    requires forall i :: 1 <= i < |vl| ==> 0 < |vl[i].natures| <= |vl[i].frequencies|
    requires forall i :: 1 <= i < |vl| ==> Covered(m, vl[i])
    requires forall k :: 0 <= k < |vl| ==> vl[k] !in vl[..k]
    modifies set i | 1 <= i < |vl| :: vl[i]
    ensures forall i :: 1 <= i < |vl| ==> vl[i].confirmed == Some(Confirmed(m, vl)[i - 1])
    ensures vl[0].confirmed == old(vl[0].confirmed)
  {
    ChainNonEmpty(vl);
    ghost var chain := Chain(vl);
    ghost var anchor := vl[0].guess;
    var pre := vl[0].guess;
    var total := 0;
    var i := 0;
    while i < |vl| - 1
      invariant i <= |vl| - 1 && pre < |m.trans|
      invariant total == Greedy(m, anchor, chain, i).total && pre == Greedy(m, anchor, chain, i).pre
      invariant forall k :: 1 <= k <= i ==> vl[k].confirmed == Some(Confirmed(m, vl)[k - 1])
      invariant vl[0].confirmed == old(vl[0].confirmed)
    {
      Earlier(vl, i + 1);
      total, pre := ConfirmNext(vl, m, i, vl[i + 1], total, pre);
      i := i + 1;
    }
  }

  /** The decoder (lines 101-134): walks the vertices after the start,
      costs each candidate nature after the nature confirmed before it,
      takes the first cheapest and confirms it on the vertex. Every vertex
      after the start ends up confirmed with the greedy walk's nature, and
      the start vertex is left as it was; a lone start vertex is left alone. */
  method Compute(vl: seq<Vertex>, m: Matrix)
    requires |vl| > 0 && Square(m) && (|vl| > 1 ==> vl[0].guess < |m.trans|)
    requires forall i :: 1 <= i < |vl| ==> 0 < |vl[i].natures| <= |vl[i].frequencies|
    requires forall i :: 1 <= i < |vl| ==> Covered(m, vl[i])
    requires forall k :: 0 <= k < |vl| ==> vl[k] !in vl[..k]
    modifies set i | 1 <= i < |vl| :: vl[i]
    ensures forall i :: 1 <= i < |vl| ==> vl[i].confirmed == Some(Confirmed(m, vl)[i - 1])
    ensures vl[0].confirmed == old(vl[0].confirmed)
  {
    if |vl| > 1 {
      ConfirmAll(vl, m);
    }
  }
}
