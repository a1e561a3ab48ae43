/** The textbook decoder `Viterbi.compute(int[] obs, int[] states, ...)`: a
    log-domain hidden Markov model whose costs are all given up front, decoded
    by dynamic programming with one best path kept per state.

    The specification names a listed state by its position `j` in `states`
    (the state itself is `states[j]`), so that "drawn from the listed states"
    is plain index arithmetic. */
module ArrayViterbi {
  import opened ArgMin

  /** One decode call's inputs: observations, the hidden states in the order
      the caller lists them, and start, transition and emission costs. */
  datatype Hmm = Hmm(obs: seq<nat>, states: seq<nat>, start: seq<int>,
                     trans: seq<seq<int>>, emit: seq<seq<int>>)

  /** What the code indexes without checking: every read sits inside a loop
      over the listed states, so once a state is listed there must be an
      observation (`obs[0]` at line 52, `V[obs.length - 1]` at line 86), and
      every table entry a listed state or an observation reaches must exist.
      A listed state's emission row must reach past the largest observation;
      once there is a second observation, its transition row must also reach
      every listed state, that is, past the largest one. The list of states
      may be empty, and then so may the observations. */
  predicate Valid(h: Hmm) {
    && (|h.states| > 0 ==> |h.obs| >= 1)
    && (forall j :: 0 <= j < |h.states| ==>
          && h.states[j] < |h.start| && h.states[j] < |h.emit|
          && Largest(h.obs) < |h.emit[h.states[j]]|
          && (|h.obs| > 1 ==> h.states[j] < |h.trans| && Largest(h.states) < |h.trans[h.states[j]]|))
  }

  /** The largest of the first `n` elements of `s`, or 0 when `n` is 0. */
  function LargestOf(s: seq<nat>, n: nat): (m: nat)
    requires n <= |s|
    ensures forall i :: 0 <= i < n ==> s[i] <= m
  {
    if n == 0 then 0
    else
      var m := LargestOf(s, n - 1);
      if m < s[n - 1] then s[n - 1] else m
  }

  /** The largest element of `s`, or 0 for the empty sequence. */
  function Largest(s: seq<nat>): (m: nat)
    ensures forall i :: 0 <= i < |s| ==> s[i] <= m
  {
    LargestOf(s, |s|)
  }

  /** A row of `n` zeros, as `new int[..][n]` allocates it. */
  function Zeros(n: nat): (z: seq<nat>)
    ensures |z| == n && forall i :: 0 <= i < n ==> z[i] == 0
  {
    seq(n, _ => 0)
  }

  /** A choice of one listed state per step, by position in `states`. */
  predicate Choice(h: Hmm, q: seq<nat>) {
    forall i :: 0 <= i < |q| ==> q[i] < |h.states|
  }

  /** The states a choice picks. */
  function States(h: Hmm, q: seq<nat>): (p: seq<nat>)
    requires Choice(h, q)
    ensures |p| == |q| && forall i :: 0 <= i < |q| ==> p[i] == h.states[q[i]]
  {
    seq(|q|, i requires 0 <= i < |q| => h.states[q[i]])
  }

  /** Accumulated cost of the first `n` steps along a choice: start cost,
      then one transition and one emission per step. */
  function Cost(h: Hmm, q: seq<nat>, n: nat): int
    requires Valid(h) && 1 <= n <= |q| && n <= |h.obs| && Choice(h, q)
  {
    var y := h.states[q[n - 1]];
    if n == 1 then h.start[y] + h.emit[y][h.obs[0]]
    else Cost(h, q, n - 1) + h.trans[h.states[q[n - 2]]][y] + h.emit[y][h.obs[n - 1]]
  }

  /** Accumulated cost of a whole choice. */
  function PathCost(h: Hmm, q: seq<nat>): int
    requires Valid(h) && 1 <= |q| <= |h.obs| && Choice(h, q)
  {
    Cost(h, q, |q|)
  }

  /** The costs `nprob` of reaching states[j] at step `t` from each listed
      state, in list order (line 65), given column t - 1 by position. */
  function Extend(h: Hmm, prev: seq<int>, t: nat, j: nat): (c: seq<int>)
    requires Valid(h) && 1 <= t < |h.obs| && j < |h.states| && |prev| == |h.states|
    ensures |c| == |h.states|
  {
    seq(|h.states|, i requires 0 <= i < |h.states| =>
      prev[i] + h.trans[h.states[i]][h.states[j]] + h.emit[h.states[j]][h.obs[t]])
  }

  /** The first `n` entries of column `t`: each listed state's cheapest
      candidate. */
  function Relaxed(h: Hmm, prev: seq<int>, t: nat, n: nat): (col: seq<int>)
    requires Valid(h) && 1 <= t < |h.obs| && |prev| == |h.states| && n <= |h.states|
    ensures |col| == n
  {
    if n == 0 then [] else Relaxed(h, prev, t, n - 1) + [Min(Extend(h, prev, t, n - 1))]
  }

  /** Column `t` of the table, by position in `states`: the cheapest way to
      be in each listed state at step `t`. */
  function Scores(h: Hmm, t: nat): (col: seq<int>)
    requires Valid(h) && t < |h.obs|
    ensures |col| == |h.states|
  {
    if t == 0 then
      seq(|h.states|, j requires 0 <= j < |h.states| =>
        h.start[h.states[j]] + h.emit[h.states[j]][h.obs[0]])
    else Relaxed(h, Scores(h, t - 1), t, |h.states|)
  }

  /** The table entry V[t][states[j]]. */
  function Score(h: Hmm, t: nat, j: nat): int
    requires Valid(h) && t < |h.obs| && j < |h.states|
  {
    Scores(h, t)[j]
  }

  /** The candidates the scan for states[j] at step `t` compares. */
  function Candidates(h: Hmm, t: nat, j: nat): (c: seq<int>)
    requires Valid(h) && 1 <= t < |h.obs| && j < |h.states|
    ensures |c| == |h.states|
  {
    Extend(h, Scores(h, t - 1), t, j)
  }

  /** The predecessor the scan keeps for states[j] at step `t`: the first
      listed state with the smallest candidate cost. */
  function Pred(h: Hmm, t: nat, j: nat): (i: nat)
    requires Valid(h) && 1 <= t < |h.obs| && j < |h.states|
    ensures i < |h.states|
  {
    FirstMin(Candidates(h, t, j))
  }

  /** The choice whose states make up the row path[states[j]][0..t]: the
      predecessor's choice followed by `j`. */
  function BestChoice(h: Hmm, t: nat, j: nat): (q: seq<nat>)
    requires Valid(h) && t < |h.obs| && j < |h.states|
    ensures |q| == t + 1 && Choice(h, q) && q[t] == j
  {
    if t == 0 then [j] else BestChoice(h, t - 1, Pred(h, t, j)) + [j]
  }

  /** The last column V[T-1][·], in list order. */
  function FinalScores(h: Hmm): (c: seq<int>)
    requires Valid(h) && |h.obs| >= 1
    ensures |c| == |h.states|
  {
    Scores(h, |h.obs| - 1)
  }

  /** Position of the state the final scan (lines 82-91) settles on. */
  function Final(h: Hmm): (j: nat)
    requires Valid(h) && |h.states| > 0
    ensures j < |h.states|
  {
    FirstMin(FinalScores(h))
  }

  /** The sequence `compute` returns: the kept path of the final state, or,
      with no listed state, the row `path[0]` that nothing ever wrote. */
  function Decode(h: Hmm): seq<nat>
    requires Valid(h)
  {
    if |h.states| == 0 then Zeros(|h.obs|)
    else States(h, BestChoice(h, |h.obs| - 1, Final(h)))
  }

  /** Entry `j` of a relaxed column is the smallest candidate of states[j]. */
  lemma {:induction false} RelaxedAt(h: Hmm, prev: seq<int>, t: nat, n: nat, j: nat)
    requires Valid(h) && 1 <= t < |h.obs| && |prev| == |h.states| && j < n <= |h.states|
    ensures Relaxed(h, prev, t, n)[j] == Min(Extend(h, prev, t, j))
  {
    if j < n - 1 {
      RelaxedAt(h, prev, t, n - 1, j);
    }
  }

  /** Score at step `t` is the smallest candidate. */
  lemma ScoreIsMin(h: Hmm, t: nat, j: nat)
    requires Valid(h) && 1 <= t < |h.obs| && j < |h.states|
    ensures Score(h, t, j) == Candidates(h, t, j)[Pred(h, t, j)]
  {
    RelaxedAt(h, Scores(h, t - 1), t, |h.states|, j);
    MinAtFirstMin(Candidates(h, t, j), |h.states|);
  }

  /** Candidate `i` is the score of states[i] one step earlier plus the
      transition and emission. */
  lemma CandidateAt(h: Hmm, t: nat, j: nat, i: nat)
    requires Valid(h) && 1 <= t < |h.obs| && j < |h.states| && i < |h.states|
    ensures Candidates(h, t, j)[i]
            == Score(h, t - 1, i) + h.trans[h.states[i]][h.states[j]] + h.emit[h.states[j]][h.obs[t]]
  {
  }

  /** Listing a state twice changes nothing: equal states get equal scores
      and equal rows. */
  lemma SameStateSameRow(h: Hmm, t: nat, j: nat, j': nat)
    requires Valid(h) && t < |h.obs| && j < |h.states| && j' < |h.states|
    requires h.states[j] == h.states[j']
    ensures Score(h, t, j) == Score(h, t, j')
    ensures States(h, BestChoice(h, t, j)) == States(h, BestChoice(h, t, j'))
  {
    if t > 0 {
      assert Candidates(h, t, j) == Candidates(h, t, j');
      ScoreIsMin(h, t, j);
      ScoreIsMin(h, t, j');
      var q := BestChoice(h, t - 1, Pred(h, t, j));
      StatesSnoc(h, q, j);
      StatesSnoc(h, q, j');
    }
  }

  /** One step of the kept-path recursion: the score of states[j] is the
      score of its kept predecessor plus that step's transition and
      emission. */
  lemma ScoreStep(h: Hmm, t: nat, j: nat)
    requires Valid(h) && 1 <= t < |h.obs| && j < |h.states|
    ensures Score(h, t, j) == Score(h, t - 1, Pred(h, t, j))
              + h.trans[h.states[Pred(h, t, j)]][h.states[j]] + h.emit[h.states[j]][h.obs[t]]
  {
    ScoreIsMin(h, t, j);
    CandidateAt(h, t, j, Pred(h, t, j));
  }

  /** The cost of a prefix depends only on the prefix. */
  lemma {:induction false} CostAgree(h: Hmm, q: seq<nat>, r: seq<nat>, n: nat)
    requires Valid(h) && 1 <= n <= |q| && n <= |r| && n <= |h.obs| && Choice(h, q) && Choice(h, r)
    requires forall i :: 0 <= i < n ==> q[i] == r[i]
    ensures Cost(h, q, n) == Cost(h, r, n)
  {
    if n > 1 {
      CostAgree(h, q, r, n - 1);
    }
  }

  /** Extending a choice by one state adds one transition and one emission
      to its cost. */
  lemma PathCostSnoc(h: Hmm, q: seq<nat>, j: nat)
    requires Valid(h) && 1 <= |q| < |h.obs| && Choice(h, q) && j < |h.states|
    ensures Choice(h, q + [j])
    ensures PathCost(h, q + [j])
            == PathCost(h, q) + h.trans[h.states[q[|q| - 1]]][h.states[j]] + h.emit[h.states[j]][h.obs[|q|]]
  {
    CostAgree(h, q + [j], q, |q|);
  }

  /** If the kept row of the predecessor costs its score, so does the kept
      row of states[j] one step later. */
  lemma BestChoiceStep(h: Hmm, t: nat, j: nat)
    requires Valid(h) && 1 <= t < |h.obs| && j < |h.states|
    requires PathCost(h, BestChoice(h, t - 1, Pred(h, t, j))) == Score(h, t - 1, Pred(h, t, j))
    ensures PathCost(h, BestChoice(h, t, j)) == Score(h, t, j)
  {
    var p := Pred(h, t, j);
    var q := BestChoice(h, t - 1, p);
    assert BestChoice(h, t, j) == q + [j];
    assert q[|q| - 1] == p;
    ScoreStep(h, t, j);
    PathCostSnoc(h, q, j);
  }

  /** The kept row of states[j] after step `t` costs exactly V[t][states[j]]. */
  lemma {:induction false} BestChoiceCost(h: Hmm, t: nat, j: nat)
    requires Valid(h) && t < |h.obs| && j < |h.states|
    ensures PathCost(h, BestChoice(h, t, j)) == Score(h, t, j)
  {
    if t > 0 {
      BestChoiceCost(h, t - 1, Pred(h, t, j));
      BestChoiceStep(h, t, j);
    }
  }

  /** No choice of listed states is cheaper over its first `n` steps than
      the score of the state it is in at step n - 1. */
  lemma {:induction false} ScoreIsLowerBound(h: Hmm, q: seq<nat>, n: nat)
    requires Valid(h) && 1 <= n <= |q| <= |h.obs| && Choice(h, q)
    ensures Score(h, n - 1, q[n - 1]) <= Cost(h, q, n)
  {
    if n > 1 {
      ScoreIsLowerBound(h, q, n - 1);
      var i, j := q[n - 2], q[n - 1];
      CandidateAt(h, n - 1, j, i);
      ScoreIsMin(h, n - 1, j);
      FirstMinIsFirst(Candidates(h, n - 1, j), |h.states|, i);
    }
  }

  /** The final scan's state has the smallest final score, and every state
      listed before it has a strictly larger one. */
  lemma FinalIsFirstMinimum(h: Hmm, j: nat)
    requires Valid(h) && j < |h.states|
    ensures Score(h, |h.obs| - 1, Final(h)) <= Score(h, |h.obs| - 1, j)
    ensures j < Final(h) ==> Score(h, |h.obs| - 1, Final(h)) < Score(h, |h.obs| - 1, j)
  {
    FirstMinIsFirst(FinalScores(h), |h.states|, j);
  }

  /** No choice of listed states is cheaper than the final scan's score. */
  lemma FinalIsLowerBound(h: Hmm, q: seq<nat>)
    requires Valid(h) && |h.states| > 0 && |q| == |h.obs| && Choice(h, q)
    ensures Score(h, |h.obs| - 1, Final(h)) <= PathCost(h, q)
  {
    ScoreIsLowerBound(h, q, |h.obs|);
    FinalIsFirstMinimum(h, q[|h.obs| - 1]);
  }

  /** No choice of listed states costs less than the choice behind the
      decoded sequence. */
  lemma DecodeOptimal(h: Hmm, q: seq<nat>)
    requires Valid(h) && |h.states| > 0 && |q| == |h.obs| && Choice(h, q)
    ensures PathCost(h, BestChoice(h, |h.obs| - 1, Final(h))) <= PathCost(h, q)
  {
    BestChoiceCost(h, |h.obs| - 1, Final(h));
    FinalIsLowerBound(h, q);
  }

  /** The decoded sequence has one entry per observation. With a listed
      state, every entry is a listed state and the last is the one the final
      scan settles on; with none, every entry is 0, a value no list named. */
  lemma DecodeShape(h: Hmm)
    requires Valid(h)
    ensures |Decode(h)| == |h.obs|
    ensures |h.states| > 0 ==> Decode(h)[|h.obs| - 1] == h.states[Final(h)]
    ensures |h.states| > 0 ==> forall i :: 0 <= i < |h.obs| ==> Decode(h)[i] in h.states
    ensures |h.states| == 0 ==> forall i :: 0 <= i < |h.obs| ==> Decode(h)[i] == 0
  {
    if |h.states| > 0 {
      var b := BestChoice(h, |h.obs| - 1, Final(h));
      forall i | 0 <= i < |h.obs|
        ensures Decode(h)[i] in h.states
      {
        assert Decode(h)[i] == h.states[b[i]];
      }
    }
  }

  /** `p` starts with `s`. */
  predicate StartsWith(p: seq<nat>, s: seq<nat>) {
    |s| <= |p| && forall i :: 0 <= i < |s| ==> p[i] == s[i]
  }

  /** A row that starts with a sequence as long as itself is that sequence
      (an unfolding helper of `StartsWith`). */
  lemma WholeRow(p: seq<nat>, s: seq<nat>)
    requires StartsWith(p, s) && |p| == |s|
    ensures p == s
  {
  }

  /** The states of a choice extended by one position (an unfolding helper
      of `States`). */
  lemma StatesSnoc(h: Hmm, q: seq<nat>, j: nat)
    requires Choice(h, q) && j < |h.states|
    ensures Choice(h, q + [j]) && States(h, q + [j]) == States(h, q) + [h.states[j]]
  {
    assert States(h, q + [j]) == States(h, q) + [h.states[j]];
  }

  /** The row System.arraycopy and the store at line 73 build: the first `t`
      entries of a row that starts with `s`, then `y`, then the old tail (an
      unfolding helper of `StartsWith`). */
  lemma CopyRow(a: seq<nat>, s: seq<nat>, y: nat, tail: seq<nat>)
    requires StartsWith(a, s)
    ensures StartsWith(a[..|s|] + [y] + tail, s)
    ensures |a[..|s|] + [y] + tail| == |s| + 1 + |tail| && (a[..|s|] + [y] + tail)[|s|] == y
  {
  }

  /** A row that starts with the kept path of the predecessor the scan chose
      and then holds states[j] at position `t` starts with the kept path of
      states[j]. */
  lemma KeptRow(h: Hmm, t: nat, j: nat, p: seq<nat>)
    requires Valid(h) && 1 <= t < |h.obs| && j < |h.states|
    requires StartsWith(p, States(h, BestChoice(h, t - 1, Pred(h, t, j))))
    requires t < |p| && p[t] == h.states[j]
    ensures StartsWith(p, States(h, BestChoice(h, t, j)))
  {
    var q := BestChoice(h, t - 1, Pred(h, t, j));
    var b := BestChoice(h, t, j);
    assert b == q + [j];
    forall i | 0 <= i < t + 1
      ensures p[i] == States(h, b)[i]
    {
      if i < t {
        assert b[i] == q[i];
      }
    }
  }

  /** Listed state `j` is settled for step `t`: `col` (column `t` of `V`)
      holds its score under its value, and its row of `rows` starts with its
      kept path. */
  ghost predicate Settled(h: Hmm, col: seq<int>, rows: seq<seq<nat>>, t: nat, j: nat)
    requires Valid(h) && t < |h.obs| && j < |h.states|
  {
    && h.states[j] < |col| && col[h.states[j]] == Score(h, t, j)
    && h.states[j] < |rows| && |rows[h.states[j]]| == |h.obs|
    && StartsWith(rows[h.states[j]], States(h, BestChoice(h, t, j)))
  }

  /** The first `n` listed states are settled for step `t`. */
  ghost predicate Filled(h: Hmm, col: seq<int>, rows: seq<seq<nat>>, t: nat, n: nat)
    requires Valid(h) && t < |h.obs| && n <= |h.states|
  {
    forall j :: 0 <= j < n ==> Settled(h, col, rows, t, j)
  }

  /** Step `t - 1` is done: every listed state is settled in `V` and `path`. */
  ghost predicate Ready(h: Hmm, V: array<seq<int>>, path: array<seq<nat>>, t: nat)
    reads V, path
    requires Valid(h) && 1 <= t <= |h.obs| == V.Length
  {
    Filled(h, V[t - 1], path[..], t - 1, |h.states|)
  }

  /** The facts `Filled` records for one settled state. */
  lemma FilledAt(h: Hmm, col: seq<int>, rows: seq<seq<nat>>, t: nat, n: nat, i: nat)
    requires Valid(h) && t < |h.obs| && n <= |h.states| && Filled(h, col, rows, t, n) && i < n
    ensures h.states[i] < |col| && col[h.states[i]] == Score(h, t, i)
    ensures h.states[i] < |rows| && |rows[h.states[i]]| == |h.obs|
    ensures StartsWith(rows[h.states[i]], States(h, BestChoice(h, t, i)))
  {
    assert Settled(h, col, rows, t, i);
  }

  /** Settling the next listed state: writing its score and its kept path
      under its value keeps every earlier state settled, including those
      listing the same value. */
  lemma FilledStep(h: Hmm, col: seq<int>, rows: seq<seq<nat>>, t: nat, i: nat, v: int, row: seq<nat>)
    requires Valid(h) && t < |h.obs| && i < |h.states| && Filled(h, col, rows, t, i)
    requires h.states[i] < |col| && h.states[i] < |rows|
    requires v == Score(h, t, i) && |row| == |h.obs| && StartsWith(row, States(h, BestChoice(h, t, i)))
    ensures Filled(h, col[h.states[i] := v], rows[h.states[i] := row], t, i + 1)
  {
    var y := h.states[i];
    var col', rows' := col[y := v], rows[y := row];
    forall j | 0 <= j < i + 1
      ensures Settled(h, col', rows', t, j)
    {
      if h.states[j] == y {
        SameStateSameRow(h, t, i, j);
      } else {
        assert Settled(h, col, rows, t, j);
      }
    }
  }

  /** Settling states[i] at step `t`: its score goes under its value, and so
      does the row of the predecessor the scan chose (`state`), cut to its
      first `t` entries and followed by states[i] and the untouched `tail`. */
  lemma NextRow(h: Hmm, t: nat, i: nat, prev: seq<int>, rows: seq<seq<nat>>, state: nat,
                tail: seq<nat>, col: seq<int>, rows': seq<seq<nat>>, prob: int)
    requires Valid(h) && 1 <= t < |h.obs| && i < |h.states|
    requires Filled(h, prev, rows, t - 1, |h.states|) && state == h.states[Pred(h, t, i)]
    requires Filled(h, col, rows', t, i) && h.states[i] < |col| && h.states[i] < |rows'|
    requires prob == Score(h, t, i) && |tail| == |h.obs| - t - 1
    ensures state < |rows| && t <= |rows[state]|
    ensures Filled(h, col[h.states[i] := prob],
                   rows'[h.states[i] := rows[state][..t] + [h.states[i]] + tail], t, i + 1)
  {
    FilledAt(h, prev, rows, t - 1, |h.states|, Pred(h, t, i));
    var y := h.states[i];
    var row := rows[state][..t] + [y] + tail;
    CopyRow(rows[state], States(h, BestChoice(h, t - 1, Pred(h, t, i))), y, tail);
    KeptRow(h, t, i, row);
    FilledStep(h, col, rows', t, i, prob, row);
  }

  /** The scan at lines 62-76 for y == states[j] at step `t`: visit the
      listed states in order, compute each `nprob` from `prev` (column t - 1
      of `V`), and keep the first strictly cheaper one. Returns the final
      `prob` and `state`. */
  method Scan(h: Hmm, prev: seq<int>, t: nat, j: nat) returns (prob: int, state: nat)
    requires Valid(h) && 1 <= t < |h.obs| && j < |h.states|
    requires forall i :: 0 <= i < |h.states| ==>
               h.states[i] < |prev| && prev[h.states[i]] == Score(h, t - 1, i)
    ensures prob == Score(h, t, j)
    ensures state == h.states[Pred(h, t, j)]
  {
    var y := h.states[j];
    ghost var c := Candidates(h, t, j);
    ghost var k := 0;
    var best: Option<int> := None;
    state := 0;
    for i0 := 0 to |h.states|
      invariant best.None? <==> i0 == 0
      invariant i0 > 0 ==> k == FirstMinOf(c, i0) && best.value == c[k] && state == h.states[k]
    {
      var y0 := h.states[i0];
      var nprob := prev[y0] + h.trans[y0][y] + h.emit[y][h.obs[t]];
      CandidateAt(h, t, j, i0);
      if Below(nprob, best) {
        best := Some(nprob);
        state := y0;
        k := i0;
      }
    }
    ScoreIsMin(h, t, j);
    prob := best.value;
  }

  /** One pass of the loop at lines 55-80: for each listed state y, scan the
      predecessors, then set V[t][y] to the cheapest cost and newpath[y] to
      the chosen predecessor's row followed by `y`. */
  method Advance(h: Hmm, V: array<seq<int>>, path: array<seq<nat>>, t: nat) returns (newpath: array<seq<nat>>)
    requires Valid(h) && 1 <= t < |h.obs| == V.Length
    requires forall j :: 0 <= j < |h.states| ==> h.states[j] < |V[t]|
    requires Ready(h, V, path, t)
    modifies V
    ensures fresh(newpath) && newpath.Length == path.Length
    ensures forall r :: 0 <= r < V.Length && r != t ==> V[r] == old(V[r])
    ensures |V[t]| == |old(V[t])|
    ensures Ready(h, V, newpath, t + 1)
    ensures |h.states| == 0 ==> forall z :: 0 <= z < newpath.Length ==> newpath[z] == Zeros(|h.obs|)
  {
    ghost var prev := V[t - 1];
    ghost var rows := path[..];
    forall i | 0 <= i < |h.states|
      ensures h.states[i] < |prev| && prev[h.states[i]] == Score(h, t - 1, i)
      ensures h.states[i] < path.Length
    {
      FilledAt(h, prev, rows, t - 1, |h.states|, i);
    }
    newpath := new seq<nat>[path.Length](_ => Zeros(|h.obs|));
    for i := 0 to |h.states|
      invariant |h.states| == 0 ==> forall z :: 0 <= z < newpath.Length ==> newpath[z] == Zeros(|h.obs|)
      invariant forall r :: 0 <= r < V.Length && r != t ==> V[r] == old(V[r])
      invariant |V[t]| == |old(V[t])|
      invariant forall z :: 0 <= z < newpath.Length ==> |newpath[z]| == |h.obs|
      invariant Filled(h, V[t], newpath[..], t, i)
    {
      var y := h.states[i];
      var prob, state := Scan(h, V[t - 1], t, i);
      ghost var col0 := V[t];
      ghost var rows0 := newpath[..];
      var tail := newpath[y][t + 1..];
      NextRow(h, t, i, prev, rows, state, tail, col0, rows0, prob);
      V[t] := V[t][y := prob];
      newpath[y] := path[state][..t] + [y] + tail;
      assert newpath[..] == rows0[y := newpath[y]];
    }
  }

  /** The entries of `col` under each listed state, in list order. */
  function Listed(h: Hmm, col: seq<int>): (c: seq<int>)
    requires forall i :: 0 <= i < |h.states| ==> h.states[i] < |col|
    ensures |c| == |h.states| && forall i :: 0 <= i < |h.states| ==> c[i] == col[h.states[i]]
  {
    seq(|h.states|, i requires 0 <= i < |h.states| => col[h.states[i]])
  }

  /** The final scan at lines 82-91: the first listed state whose entry in
      the last column of `V` is smallest, or 0 when no state is listed. The
      last column is read only under a listed state, so `V` may be empty
      when none is. */
  method Settle(h: Hmm, V: array<seq<int>>) returns (state: nat)
    requires |h.states| > 0 ==> V.Length >= 1
    requires |h.states| > 0 ==> forall i :: 0 <= i < |h.states| ==> h.states[i] < |V[V.Length - 1]|
    ensures |h.states| == 0 ==> state == 0
    ensures |h.states| > 0 ==> state == h.states[FirstMin(Listed(h, V[V.Length - 1]))]
  {
    var prob: Option<int> := None;
    state := 0;
    ghost var f := if |h.states| > 0 then Listed(h, V[V.Length - 1]) else [];
    ghost var k := 0;
    for i := 0 to |h.states|
      invariant prob.None? <==> i == 0
      invariant i == 0 ==> state == 0
      invariant i > 0 ==> k == FirstMinOf(f, i) && prob.value == f[k] && state == h.states[k]
    {
      var y := h.states[i];
      if Below(V[V.Length - 1][y], prob) {
        prob := Some(V[V.Length - 1][y]);
        state := y;
        k := i;
      }
    }
  }

  /** Two sequences with the same entries are equal (an unfolding helper of
      sequence extensionality). */
  lemma SameEntries(a: seq<int>, b: seq<int>)
    requires |a| == |b| && forall i :: 0 <= i < |a| ==> a[i] == b[i]
    ensures a == b
  {
  }

  /** Once the last column is filled, the final scan over it sees the final
      scores. */
  lemma LastColumn(h: Hmm, last: seq<int>, rows: seq<seq<nat>>)
    requires Valid(h) && |h.obs| >= 1 && Filled(h, last, rows, |h.obs| - 1, |h.states|)
    ensures forall i :: 0 <= i < |h.states| ==> h.states[i] < |last|
    ensures Listed(h, last) == FinalScores(h)
  {
    forall i | 0 <= i < |h.states|
      ensures h.states[i] < |last| && last[h.states[i]] == Score(h, |h.obs| - 1, i)
    {
      FilledAt(h, last, rows, |h.obs| - 1, |h.states|, i);
    }
    SameEntries(Listed(h, last), FinalScores(h));
  }

  /** The row the final scan picks out of a filled last column is the
      decoded sequence. */
  lemma ReadRow(h: Hmm, last: seq<int>, rows: seq<seq<nat>>, state: nat)
    requires Valid(h) && |h.states| > 0 && Filled(h, last, rows, |h.obs| - 1, |h.states|)
    requires forall i :: 0 <= i < |h.states| ==> h.states[i] < |last|
    requires state == h.states[FirstMin(Listed(h, last))]
    ensures state < |rows| && rows[state] == Decode(h)
  {
    LastColumn(h, last, rows);
    var f := Final(h);
    assert FirstMin(Listed(h, last)) == f;
    FilledAt(h, last, rows, |h.obs| - 1, |h.states|, f);
    WholeRow(rows[state], Decode(h));
  }

  /** The loop at lines 40-45: one more than the largest listed state, the
      number of rows `V` and `path` get. */
  method StateCount(h: Hmm) returns (n: nat)
    ensures n == Largest(h.states) + 1
    ensures forall j :: 0 <= j < |h.states| ==> h.states[j] < n
  {
    n := 0;
    for i := 0 to |h.states|
      invariant n == LargestOf(h.states, i)
    {
      n := if n < h.states[i] then h.states[i] else n;
    }
    n := n + 1;
  }

  /** The loop at lines 48-52: every listed state gets its start cost plus
      its emission of the first observation in column 0, and its row starts
      with itself. */
  method Start(h: Hmm, V: array<seq<int>>, path: array<seq<nat>>)
    requires Valid(h) && V.Length == |h.obs| && Largest(h.states) < path.Length
    requires forall r :: 0 <= r < V.Length ==> |V[r]| == path.Length
    requires forall z :: 0 <= z < path.Length ==> |path[z]| == |h.obs|
    modifies V, path
    ensures forall r :: 0 <= r < V.Length ==> |V[r]| == path.Length
    ensures forall r :: 1 <= r < V.Length ==> V[r] == old(V[r])
    ensures |h.obs| >= 1 ==> Ready(h, V, path, 1)
    ensures |h.states| == 0 ==> path[..] == old(path[..])
  {
    for i := 0 to |h.states|
      invariant |h.states| == 0 ==> path[..] == old(path[..])
      invariant forall r :: 0 <= r < V.Length ==> |V[r]| == path.Length
      invariant forall r :: 1 <= r < V.Length ==> V[r] == old(V[r])
      invariant forall z :: 0 <= z < path.Length ==> |path[z]| == |h.obs|
      invariant |h.obs| >= 1 ==> Filled(h, V[0], path[..], 0, i)
    {
      var y := h.states[i];
      ghost var col0 := V[0];
      ghost var rows0 := path[..];
      V[0] := V[0][y := h.start[y] + h.emit[y][h.obs[0]]];
      path[y] := path[y][0 := y];
      FilledStep(h, col0, rows0, 0, i, V[0][y], path[y]);
      assert path[..] == rows0[y := path[y]];
    }
  }

  /** The loop at lines 55-80: advance the table one step at a time until
      column T - 1 is settled, swapping in each step's fresh `newpath`. With
      fewer than two observations it does not run. */
  method Forward(h: Hmm, V: array<seq<int>>, path: array<seq<nat>>) returns (path': array<seq<nat>>)
    requires Valid(h) && V.Length == |h.obs| && Largest(h.states) < path.Length
    requires forall r :: 0 <= r < V.Length ==> |V[r]| == path.Length
    requires |h.obs| >= 1 ==> Ready(h, V, path, 1)
    requires |h.states| == 0 ==> path[0] == Zeros(|h.obs|)
    modifies V
    ensures path'.Length == path.Length
    ensures forall r :: 0 <= r < V.Length ==> |V[r]| == path.Length
    ensures |h.obs| >= 1 ==> Ready(h, V, path', |h.obs|)
    ensures |h.states| == 0 ==> path'[0] == Zeros(|h.obs|)
  {
    path' := path;
    var t := 1;
    while t < V.Length
      invariant V.Length >= 1 ==> t <= V.Length
      invariant forall r :: 0 <= r < V.Length ==> |V[r]| == path.Length
      invariant path'.Length == path.Length
      invariant V.Length >= 1 ==> Ready(h, V, path', t)
      invariant |h.states| == 0 ==> path'[0] == Zeros(|h.obs|)
    {
      path' := Advance(h, V, path', t);
      t := t + 1;
    }
  }

  /** Viterbi.compute over integer arrays (lines 38-94). `V` is the cost
      table and `path` holds one row per state value. With no listed state
      every loop over the states is empty and the zero row `path[0]` is
      returned, even for an empty `obs`. */
  method Compute(h: Hmm) returns (result: seq<nat>)
    requires Valid(h)
    ensures result == Decode(h)
  {
    var T := |h.obs|;
    var maxStates := StateCount(h);
    var V := new seq<int>[T](_ => seq(maxStates, _ => 0));
    var path := new seq<nat>[maxStates](_ => Zeros(T));
    Start(h, V, path);
    path := Forward(h, V, path);

    ghost var rows := path[..];
    var state := Settle(h, V);
    if |h.states| > 0 {
      ReadRow(h, V[T - 1], rows, state);
    }
    result := path[state];
  }
}
