/** The Monte Carlo evaluator object: the grammar it was loaded with, the
    sample count and log scale, and the calibration data (`samples_prob`,
    `position`) that `setup` fills in. */
module MonteCarlo {
  import opened Outcomes
  import opened Variates
  import opened GrammarWalk
  import opened Sorting
  import opened Calibration

  class MonteCarloEvaluator {
    /** The grammar and base structures loaded by the superclass. */
    const grammar: Table
    const base: seq<BaseStructure>
    /** The superclass's `_find_prob(pt, base_prob)`. */
    const findProb: (seq<Slot>, real) -> real
    const math: MathLog
    const outputLabel: string
    /** 10 selects log10; any other value selects log2. */
    const logScale: int

    var samplesNum: int
    var samplesProb: seq<real>
    var position: seq<real>

    constructor (grammar: Table, base: seq<BaseStructure>, findProb: (seq<Slot>, real) -> real,
                 math: MathLog, outputLabel: string, logScale: int := 2, samplesNum: int := 10000)
      ensures this.grammar == grammar && this.base == base && this.findProb == findProb
      ensures this.math == math && this.outputLabel == outputLabel && this.logScale == logScale
      ensures this.samplesNum == samplesNum && this.samplesProb == [] && this.position == []
    {
      this.grammar := grammar;
      this.base := base;
      this.findProb := findProb;
      this.math := math;
      this.outputLabel := outputLabel;
      this.logScale := logScale;
      this.samplesNum := samplesNum;
      this.samplesProb := [];
      this.position := [];
    }

    /** `random_walk`: reject-and-retry choice of a base structure without
        "M", then one production index per replacement (FillSlots). Returns
        the parse tree and the variates it did not use. */
    method RandomWalk(us: seq<Variate>) returns (r: Result<(PtItem, seq<Variate>)>)
      ensures r == Walk(grammar, base, findProb, us)
      ensures r.Ok? ==> exists b :: 0 <= b < |base| && Eligible(base[b]) && IsWalkOf(grammar, base[b], r.value.0)
      ensures r.Ok? ==> r.value.0.prob == findProb(r.value.0.pt, r.value.0.baseProb)
    {
      if |base| == 0 {
        return Err(IndexError);
      }
      var rest := us;
      var rdBase: nat := 0;
      var isM := true;
      while isM
        invariant rdBase < |base|
        invariant isM ==> ChooseBase(base, us) == ChooseBase(base, rest)
        invariant !isM ==> ChooseBase(base, us) == Ok((rdBase, rest))
        decreases |rest|, isM
      {
        if |rest| == 0 {
          assert ChooseBase(base, us) == Err(OutOfDraws);
          return Err(OutOfDraws);
        }
        rdBase := Pick(rest[0], |base|);
        rest := rest[1..];
        if MARKOV !in base[rdBase].replacements {
          isM := false;
        }
      }
      var baseProb := base[rdBase].prob;
      var slots := FillSlots(base[rdBase].replacements, rest);
      if slots.Err? {
        return Err(slots.error);
      }
      var pt := slots.value.0;
      r := Ok((PtItem(baseProb, pt, findProb(pt, baseProb)), slots.value.1));
      WalkShape(grammar, base, findProb, us);
    }

    /** The parse-tree part of `random_walk`: one (tag, 0) placeholder per
        replacement, then each overwritten in place with an index drawn by
        `random.randint(0, len - 1)`, or 0 without a draw for a category with
        a single production. A missing category raises KeyError, an empty
        one ValueError. */
    method FillSlots(replacements: seq<string>, us: seq<Variate>) returns (r: Result<(seq<Slot>, seq<Variate>)>)
      ensures r == ChooseSlots(grammar, replacements, us)
    {
      var pt: seq<Slot> := [];
      for i := 0 to |replacements|
        invariant |pt| == i
        invariant forall j :: 0 <= j < i ==> pt[j] == (replacements[j], 0)
      {
        pt := pt + [(replacements[i], 0)];
      }

      var rest := us;
      var pointer := 0;
      assert pt[..0] == [] && replacements[0..] == replacements;
      PrependNoSlots(ChooseSlots(grammar, replacements, us));
      while pointer < |pt|
        invariant 0 <= pointer <= |pt| == |replacements|
        invariant forall j :: pointer <= j < |pt| ==> pt[j] == (replacements[j], 0)
        invariant ChooseSlots(grammar, replacements, us)
                  == PrependSlots(pt[..pointer], ChooseSlots(grammar, replacements[pointer..], rest))
      {
        var ptType := pt[pointer].0;
        if ptType !in grammar {
          ChooseSlotsStops(grammar, replacements, pointer, rest);
          return Err(KeyError);
        }
        var maxIndex := |grammar[ptType]|;
        var rdIndex: nat;
        ghost var restBefore := rest;
        if maxIndex == 1 {
          rdIndex := 0;
        } else {
          if maxIndex == 0 {
            ChooseSlotsStops(grammar, replacements, pointer, rest);
            return Err(ValueError);
          }
          if |rest| == 0 {
            ChooseSlotsStops(grammar, replacements, pointer, rest);
            return Err(OutOfDraws);
          }
          rdIndex := Pick(rest[0], maxIndex);
          rest := rest[1..];
        }
        ghost var done := pt[..pointer];
        ChooseSlotsAdvance(grammar, replacements, pointer, done, restBefore, rdIndex, rest);
        pt := pt[pointer := (ptType, rdIndex)];
        assert pt[..pointer + 1] == done + [(replacements[pointer], rdIndex)];
        pointer := pointer + 1;
      }
      assert pt[..pointer] == pt;
      assert replacements[pointer..] == [];
      NoTagsLeft(grammar, pt, rest);
      r := Ok((pt, rest));
    }

    /** `_rd_sampling`: `samples_num` walks in a row, each probability
        appended, then converted to -log2 (or -log10 when `log_scale` is 10)
        and sorted in non-increasing order. */
    method RdSampling(us: seq<Variate>) returns (r: Result<seq<real>>)
      ensures r == Sampling(grammar, base, findProb, math, logScale, samplesNum, us)
      ensures r.Ok? ==> |r.value| == (if samplesNum > 0 then samplesNum else 0)
      ensures r.Ok? ==> SortedDesc(r.value)
    {
      var n := if samplesNum > 0 then samplesNum else 0;
      var drawn := DrawSamples(n, us);
      if drawn.Err? {
        return Err(drawn.error);
      }
      var samples := drawn.value.0;
      var rest := drawn.value.1;
      SamplingOfDraws(grammar, base, findProb, math, logScale, samplesNum, us, samples, rest);
      if !AllPositive(samples) {
        return Err(ValueError);
      }
      var logSamples: seq<real>;
      if logScale != 10 {
        logSamples := seq(|samples|, k requires 0 <= k < |samples| => -math.log2(samples[k]));
      } else {
        logSamples := seq(|samples|, k requires 0 <= k < |samples| => -math.log10(samples[k]));
      }
      NegLogsPointwise(math, logScale, samples, logSamples);
      r := Ok(SortDesc(logSamples));
    }

    /** The sampling loop of `_rd_sampling`: n walks in a row, each one
        continuing the random stream where the last stopped, with the
        probability of each parse tree appended in order. */
    method DrawSamples(n: nat, us: seq<Variate>) returns (r: Result<(seq<real>, seq<Variate>)>)
      ensures r == Draws(grammar, base, findProb, n, us)
    {
      var samples: seq<real> := [];
      var rest := us;
      for i := 0 to n
        invariant Draws(grammar, base, findProb, i, us) == Ok((samples, rest))
      {
        var item := RandomWalk(rest);
        DrawsStep(grammar, base, findProb, i, us, samples, rest);
        if item.Err? {
          DrawsErrorPersists(grammar, base, findProb, i + 1, n, us);
          return Err(item.error);
        }
        samples := samples + [item.value.0.prob];
        rest := item.value.1;
      }
      r := Ok((samples, rest));
    }

    /** log_b(samples_num) with the evaluator's base. */
    function LogN(): real
      reads this
    {
      LogB(math, logScale, samplesNum as real)
    }

    /** `_pos_calculating`: position := cumsum(samples - log_b(samples_num)),
        returning True; `math.log` raises ValueError when samples_num <= 0. */
    method PosCalculating(samples: seq<real>) returns (r: Result<bool>)
      modifies this`position
      ensures samplesNum > 0 ==> r == Ok(true) && position == Positions(samples, LogN()) && |position| == |samples|
      ensures samplesNum <= 0 ==> r == Err(ValueError) && position == old(position)
    {
      var logprobs := samples;
      if samplesNum <= 0 {
        return Err(ValueError);
      }
      var logn: real;
      if logScale != 10 {
        logn := math.log2(samplesNum as real);
      } else {
        logn := math.log10(samplesNum as real);
      }
      position := Positions(logprobs, logn);
      return Ok(true);
    }

    /** `setup(samples_num=10)`: record the sample count, sample, then
        compute the positions. An exception leaves the fields it had not yet
        reached unchanged. */
    method Setup(us: seq<Variate>, n: int := 10) returns (r: Result<()>)
      modifies this`samplesNum, this`samplesProb, this`position
      ensures samplesNum == n
      ensures var s := Sampling(grammar, base, findProb, math, logScale, n, us);
              && (s.Err? ==> r == Err(s.error) && samplesProb == old(samplesProb) && position == old(position))
              && (s.Ok? ==> samplesProb == s.value)
              && (s.Ok? && n <= 0 ==> r == Err(ValueError) && position == old(position))
              && (s.Ok? && n > 0 ==> r == Ok(()) && position == Positions(samplesProb, LogN()))
      ensures r.Ok? ==> |samplesProb| == n && |position| == n && SortedDesc(samplesProb)
    {
      samplesNum := n;
      var s := RdSampling(us);
      if s.Err? {
        return Err(s.error);
      }
      samplesProb := s.value;
      var ok := PosCalculating(samplesProb);
      if ok.Err? {
        return Err(ok.error);
      }
      // `if not self._pos_calculating(...): sys.exit()` never fires.
      assert ok.value;
      r := Ok(());
    }
  }
}
