/** The calibration curve of the Monte Carlo evaluator: probabilities of
    sampled parse trees turned into negative logarithms and sorted
    (`_rd_sampling`), and the running positions built from them
    (`_pos_calculating`). Logarithms are supplied as functions, so nothing
    here depends on floating-point behaviour. */
module Calibration {
  import opened Outcomes
  import opened Variates
  import opened GrammarWalk
  import opened Sorting

  /** The logarithms of Python's `math` module. */
  datatype MathLog = MathLog(log2: real -> real, log10: real -> real)

  /** `math.log10(x)` when `log_scale == 10`, `math.log2(x)` for every other
      scale. */
  function LogB(m: MathLog, logScale: int, x: real): real
  {
    if logScale != 10 then m.log2(x) else m.log10(x)
  }

  /** `math.log2`/`math.log10` raise ValueError outside (0, inf). */
  predicate AllPositive(probs: seq<real>)
  {
    forall i :: 0 <= i < |probs| ==> probs[i] > 0.0
  }

  /** The list comprehension `[-math.log2(x) for x in samples]`. */
  function NegLogs(m: MathLog, logScale: int, probs: seq<real>): (r: seq<real>)
    ensures |r| == |probs|
  {
    seq(|probs|, i requires 0 <= i < |probs| => -LogB(m, logScale, probs[i]))
  }

  /** NegLogs element by element. */
  lemma NegLogsPointwise(m: MathLog, logScale: int, probs: seq<real>, logs: seq<real>)
    requires |logs| == |probs|
    requires forall k :: 0 <= k < |probs| ==> logs[k] == -LogB(m, logScale, probs[k])
    ensures logs == NegLogs(m, logScale, probs)
  {
  }

  /** `_rd_sampling`: `samples_num` walks (none for a non-positive count),
      their probabilities converted to negative logarithms and sorted in
      non-increasing order. */
  function Sampling(grammar: Table, base: seq<BaseStructure>, findProb: (seq<Slot>, real) -> real,
                    m: MathLog, logScale: int, samplesNum: int, us: seq<Variate>): (r: Result<seq<real>>)
    ensures r.Ok? ==> |r.value| == (if samplesNum > 0 then samplesNum else 0) && SortedDesc(r.value)
  {
    var n := if samplesNum > 0 then samplesNum else 0;
    match Draws(grammar, base, findProb, n, us)
    case Err(e) => Err(e)
    case Ok((probs, _)) =>
      if !AllPositive(probs) then Err(ValueError)
      else Ok(SortDesc(NegLogs(m, logScale, probs)))
  }

  /** Sampling after the walks have produced `probs`. */
  lemma SamplingOfDraws(grammar: Table, base: seq<BaseStructure>, findProb: (seq<Slot>, real) -> real,
                        m: MathLog, logScale: int, samplesNum: int, us: seq<Variate>,
                        probs: seq<real>, rest: seq<Variate>)
    requires Draws(grammar, base, findProb, if samplesNum > 0 then samplesNum else 0, us) == Ok((probs, rest))
    ensures Sampling(grammar, base, findProb, m, logScale, samplesNum, us)
            == if AllPositive(probs) then Ok(SortDesc(NegLogs(m, logScale, probs))) else Err(ValueError)
  {
  }

  /** What `_rd_sampling` promises: exactly `samples_num` values, in
      non-increasing order, forming a permutation of -log_b of the drawn
      probabilities, with b = 10 exactly when `log_scale == 10`; it fails
      only when a walk fails or a drawn probability is not positive. */
  lemma SamplingSpec(grammar: Table, base: seq<BaseStructure>, findProb: (seq<Slot>, real) -> real,
                     m: MathLog, logScale: int, samplesNum: int, us: seq<Variate>)
    ensures var n := if samplesNum > 0 then samplesNum else 0;
            var d := Draws(grammar, base, findProb, n, us);
            var r := Sampling(grammar, base, findProb, m, logScale, samplesNum, us);
            && (d.Err? ==> r == Err(d.error))
            && (d.Ok? && !AllPositive(d.value.0) ==> r == Err(ValueError))
            && (d.Ok? && AllPositive(d.value.0) ==>
                  && r.Ok?
                  && |r.value| == n
                  && SortedDesc(r.value)
                  && multiset(r.value) == multiset(seq(n, i requires 0 <= i < n =>
                       if logScale == 10 then -m.log10(d.value.0[i]) else -m.log2(d.value.0[i]))))
  {
    var n := if samplesNum > 0 then samplesNum else 0;
    var d := Draws(grammar, base, findProb, n, us);
    if d.Ok? && AllPositive(d.value.0) {
      var probs := d.value.0;
      assert NegLogs(m, logScale, probs) == seq(n, i requires 0 <= i < n =>
                       if logScale == 10 then -m.log10(probs[i]) else -m.log2(probs[i]));
    }
  }

  /** `Sum(xs)`: xs[0] + ... + xs[|xs| - 1]. */
  function Sum(xs: seq<real>): real
  {
    if |xs| == 0 then 0.0 else Sum(xs[..|xs| - 1]) + xs[|xs| - 1]
  }

  /** numpy's `cumsum`: the running total, one entry per element. */
  function Cumsum(xs: seq<real>): (r: seq<real>)
    ensures |r| == |xs|
    decreases |xs|
  {
    if |xs| == 0 then []
    else
      var c := Cumsum(xs[..|xs| - 1]);
      c + [(if |c| == 0 then 0.0 else c[|c| - 1]) + xs[|xs| - 1]]
  }

  /** Entry i of the running total is the sum of the first i + 1 elements. */
  lemma {:induction false} CumsumIsPrefixSum(xs: seq<real>)
    ensures forall i :: 0 <= i < |xs| ==> Cumsum(xs)[i] == Sum(xs[..i + 1])
    decreases |xs|
  {
    if |xs| > 0 {
      var init := xs[..|xs| - 1];
      CumsumIsPrefixSum(init);
      forall i | 0 <= i < |xs|
        ensures Cumsum(xs)[i] == Sum(xs[..i + 1])
      {
        if i < |xs| - 1 {
          assert xs[..i + 1] == init[..i + 1];
        } else if i > 0 {
          assert xs[..i + 1] == xs;
          assert init[..i] == init;
        } else {
          assert xs[..1][..0] == [];
        }
      }
    }
  }

  /** `(logprobs - logn).cumsum()`. */
  function Positions(samples: seq<real>, logn: real): (r: seq<real>)
    ensures |r| == |samples|
  {
    Cumsum(seq(|samples|, i requires 0 <= i < |samples| => samples[i] - logn))
  }

  /** The positions follow the recurrence position[0] = s[0] - logn and
      position[i] = position[i - 1] + s[i] - logn. */
  lemma PositionsRecurrence(samples: seq<real>, logn: real)
    ensures |samples| > 0 ==> Positions(samples, logn)[0] == samples[0] - logn
    ensures forall i :: 0 < i < |samples| ==>
              Positions(samples, logn)[i] == Positions(samples, logn)[i - 1] + samples[i] - logn
  {
    var d := seq(|samples|, i requires 0 <= i < |samples| => samples[i] - logn);
    CumsumIsPrefixSum(d);
    forall i | 0 < i < |samples|
      ensures Positions(samples, logn)[i] == Positions(samples, logn)[i - 1] + samples[i] - logn
    {
      assert d[..i + 1][..i] == d[..i];
    }
    if |samples| > 0 {
      assert d[..1][..0] == [];
      assert Sum(d[..1]) == d[0];
    }
  }

  /** Closed form: position[i] = s[0] + ... + s[i] - (i + 1) * logn. */
  lemma {:induction false} PositionsClosedForm(samples: seq<real>, logn: real, i: nat)
    requires i < |samples|
    ensures Positions(samples, logn)[i] == Sum(samples[..i + 1]) - (i + 1) as real * logn
    decreases i
  {
    PositionsRecurrence(samples, logn);
    if i > 0 {
      PositionsClosedForm(samples, logn, i - 1);
      assert samples[..i + 1][..i] == samples[..i];
    } else {
      assert samples[..1][..0] == [];
    }
  }

  /** When every sample has the same value c, position[i] = (i + 1) * (c - logn);
      e.g. 100 samples of probability 0.5 on the log2 scale give
      (i + 1) * (1 - log2(100)). */
  lemma {:induction false} ConstantSamplesPositions(samples: seq<real>, logn: real, c: real, i: nat)
    requires forall k :: 0 <= k < |samples| ==> samples[k] == c
    requires i < |samples|
    ensures Positions(samples, logn)[i] == (i + 1) as real * (c - logn)
    decreases i
  {
    PositionsRecurrence(samples, logn);
    if i > 0 {
      ConstantSamplesPositions(samples, logn, c, i - 1);
    }
  }

  /** The positions need not be non-decreasing: an increment s[i] - logn is
      negative whenever a sample's probability exceeds 1 / samples_num. */
  lemma PositionsCanDecrease()
    ensures Positions([1.0, 1.0], 2.0) == [-1.0, -2.0]
  {
    PositionsRecurrence([1.0, 1.0], 2.0);
  }
}
