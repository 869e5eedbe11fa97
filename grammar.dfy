/** The probabilistic grammar as read-only input data, and the random walk
    that draws one parse tree from it (`random_walk` of the Monte Carlo
    evaluator), stated as functions of an explicit stream of variates. */
module GrammarWalk {
  import opened Outcomes
  import opened Variates

  /** One production of a category: its realisations and their probability. */
  datatype Entry = Entry(values: seq<string>, prob: real)

  /** `grammar`: category tag (e.g. "D3", "C4", "A5") to its productions. */
  type Table = map<string, seq<Entry>>

  /** One base structure: the ordered category tags it expands to and its prior. */
  datatype BaseStructure = BaseStructure(replacements: seq<string>, prob: real)

  /** One parse-tree slot: a category tag and the index of the chosen production. */
  type Slot = (string, nat)

  /** The walk's result: the base prior, the parse tree and its probability. */
  datatype PtItem = PtItem(baseProb: real, pt: seq<Slot>, prob: real)

  /** The tag of the statistical-language-model continuation. */
  const MARKOV: string := "M"

  /** A base structure the walk may keep: none of its replacements is "M". */
  predicate Eligible(b: BaseStructure)
  {
    MARKOV !in b.replacements
  }

  /** Whether the draw `u` lands on an eligible base structure. */
  predicate DrawIsEligible(base: seq<BaseStructure>, u: Variate)
    requires |base| > 0
  {
    Eligible(base[Pick(u, |base|)])
  }

  /** Reject-and-retry choice of a base structure: draw an index uniformly,
      keep it if that base is eligible, otherwise draw again. Yields the index
      and the stream that remains. */
  function ChooseBase(base: seq<BaseStructure>, us: seq<Variate>): (r: Result<(nat, seq<Variate>)>)
    requires |base| > 0
    ensures r.Ok? ==> r.value.0 < |base| && Eligible(base[r.value.0])
    ensures r.Ok? ==> |r.value.1| < |us| && r.value.1 == us[|us| - |r.value.1|..]
    ensures r.Err? ==> r.error == OutOfDraws
    decreases |us|
  {
    if |us| == 0 then Err(OutOfDraws)
    else
      var i := Pick(us[0], |base|);
      if Eligible(base[i]) then Ok((i, us[1..])) else ChooseBase(base, us[1..])
  }

  /** The choice fails exactly when no draw in the stream lands on an
      eligible base structure. */
  lemma {:induction false} ChooseBaseFailsIffNoEligibleDraw(base: seq<BaseStructure>, us: seq<Variate>)
    requires |base| > 0
    ensures ChooseBase(base, us).Err? <==> forall k :: 0 <= k < |us| ==> !DrawIsEligible(base, us[k])
    decreases |us|
  {
    if |us| > 0 && !DrawIsEligible(base, us[0]) {
      ChooseBaseFailsIffNoEligibleDraw(base, us[1..]);
      assert forall k :: 1 <= k < |us| ==> us[k] == us[1..][k - 1];
    }
  }

  /** The kept base is the one selected by the first eligible draw: the draw
      at position k of the stream, where k + 1 variates have been consumed,
      and every earlier draw was rejected. */
  lemma {:induction false} ChooseBaseKeepsFirstEligibleDraw(base: seq<BaseStructure>, us: seq<Variate>, b: nat, rest: seq<Variate>)
    requires |base| > 0
    requires ChooseBase(base, us) == Ok((b, rest))
    ensures |rest| < |us|
    ensures b == Pick(us[|us| - |rest| - 1], |base|)
    ensures forall j :: 0 <= j < |us| - |rest| - 1 ==> !DrawIsEligible(base, us[j])
    decreases |us|
  {
    if !DrawIsEligible(base, us[0]) {
      var tail := us[1..];
      ChooseBaseKeepsFirstEligibleDraw(base, tail, b, rest);
      assert us[|us| - |rest| - 1] == tail[|tail| - |rest| - 1];
      forall j | 0 <= j < |us| - |rest| - 1
        ensures !DrawIsEligible(base, us[j])
      {
        if j > 0 { assert us[j] == tail[j - 1]; }
      }
    }
  }

  /** A base set with no eligible structure makes `while isM` run forever:
      whatever stream is supplied, it is used up without success. */
  lemma NoEligibleBaseExhaustsEveryStream(base: seq<BaseStructure>, us: seq<Variate>)
    requires |base| > 0
    requires forall b :: 0 <= b < |base| ==> !Eligible(base[b])
    ensures ChooseBase(base, us) == Err(OutOfDraws)
  {
    ChooseBaseFailsIffNoEligibleDraw(base, us);
  }

  /** The index drawn for one slot of category `tag`: 0 without a draw when
      the category has a single production, otherwise a uniform draw. */
  function ChooseIndex(grammar: Table, tag: string, us: seq<Variate>): (r: Result<(nat, seq<Variate>)>)
    ensures r.Ok? ==> tag in grammar && r.value.0 < |grammar[tag]|
    ensures r.Ok? && |grammar[tag]| == 1 ==> r.value == (0, us)
    ensures r.Ok? && |grammar[tag]| != 1 ==> |us| > 0 && r.value.1 == us[1..]
    ensures r.Err? <==> tag !in grammar || |grammar[tag]| == 0 || (|grammar[tag]| > 1 && |us| == 0)
    ensures r.Err? ==> r.error == (if tag !in grammar then KeyError
                                   else if |grammar[tag]| == 0 then ValueError
                                   else OutOfDraws)
  {
    if tag !in grammar then Err(KeyError)
    else
      var maxIndex := |grammar[tag]|;
      if maxIndex == 1 then Ok((0, us))
      else if maxIndex == 0 then Err(ValueError)
      else if |us| == 0 then Err(OutOfDraws)
      else Ok((Pick(us[0], maxIndex), us[1..]))
  }

  /** The slots chosen for the tags, in order, one per tag. */
  function ChooseSlots(grammar: Table, tags: seq<string>, us: seq<Variate>): (r: Result<(seq<Slot>, seq<Variate>)>)
    ensures r.Ok? ==> |r.value.0| == |tags|
    ensures r.Ok? ==> forall i :: 0 <= i < |tags| ==> r.value.0[i].0 == tags[i]
    decreases |tags|
  {
    if |tags| == 0 then Ok(([], us))
    else match ChooseIndex(grammar, tags[0], us)
      case Err(e) => Err(e)
      case Ok((index, rest)) =>
        match ChooseSlots(grammar, tags[1..], rest)
        case Err(e) => Err(e)
        case Ok((slots, rest')) => Ok(([(tags[0], index)] + slots, rest'))
  }

  /** The slots `done` in front of what `r` yields. */
  function PrependSlots(done: seq<Slot>, r: Result<(seq<Slot>, seq<Variate>)>): Result<(seq<Slot>, seq<Variate>)>
  {
    match r
    case Err(e) => Err(e)
    case Ok((slots, rest)) => Ok((done + slots, rest))
  }

  /** Proof helper for the slot loop: no slots chosen yet. */
  lemma PrependNoSlots(r: Result<(seq<Slot>, seq<Variate>)>)
    ensures PrependSlots([], r) == r
  {
    if r.Ok? {
      assert [] + r.value.0 == r.value.0;
    }
  }

  /** Proof helper for the slot loop: every tag has been handled. */
  lemma NoTagsLeft(grammar: Table, done: seq<Slot>, us: seq<Variate>)
    ensures PrependSlots(done, ChooseSlots(grammar, [], us)) == Ok((done, us))
  {
    assert done + [] == done;
  }

  /** Choosing the slot at position p moves it from the pending tags onto
      the slots chosen so far. */
  lemma ChooseSlotsAdvance(grammar: Table, tags: seq<string>, p: nat, done: seq<Slot>,
                           us: seq<Variate>, index: nat, rest: seq<Variate>)
    requires p < |tags|
    requires ChooseIndex(grammar, tags[p], us) == Ok((index, rest))
    ensures PrependSlots(done, ChooseSlots(grammar, tags[p..], us))
            == PrependSlots(done + [(tags[p], index)], ChooseSlots(grammar, tags[p + 1..], rest))
  {
    assert tags[p..][0] == tags[p];
    assert tags[p..][1..] == tags[p + 1..];
    var r := ChooseSlots(grammar, tags[p + 1..], rest);
    if r.Ok? {
      assert done + ([(tags[p], index)] + r.value.0) == (done + [(tags[p], index)]) + r.value.0;
    }
  }

  /** Choosing the slot at position p fails with the error of its index. */
  lemma ChooseSlotsStops(grammar: Table, tags: seq<string>, p: nat, us: seq<Variate>)
    requires p < |tags|
    requires ChooseIndex(grammar, tags[p], us).Err?
    ensures ChooseSlots(grammar, tags[p..], us) == Err(ChooseIndex(grammar, tags[p], us).error)
  {
    assert tags[p..][0] == tags[p];
  }

  /** Every index the walk picks is in range for its category, and is 0 for a
      category with one production. */
  predicate SlotInRange(grammar: Table, s: Slot)
  {
    s.0 in grammar && s.1 < |grammar[s.0]| && (|grammar[s.0]| == 1 ==> s.1 == 0)
  }

  lemma {:induction false} ChooseSlotsInRange(grammar: Table, tags: seq<string>, us: seq<Variate>)
    ensures ChooseSlots(grammar, tags, us).Ok? ==>
              forall i :: 0 <= i < |tags| ==> SlotInRange(grammar, ChooseSlots(grammar, tags, us).value.0[i])
    decreases |tags|
  {
    if |tags| > 0 {
      var c := ChooseIndex(grammar, tags[0], us);
      if c.Ok? {
        ChooseSlotsInRange(grammar, tags[1..], c.value.1);
      }
    }
  }

  /** A grammar in which every category named by an eligible base structure
      exists and has at least one production. */
  ghost predicate CoversEligibleBases(grammar: Table, base: seq<BaseStructure>)
  {
    forall b, i :: 0 <= b < |base| && Eligible(base[b]) && 0 <= i < |base[b].replacements| ==>
      base[b].replacements[i] in grammar && |grammar[base[b].replacements[i]]| > 0
  }

  lemma {:induction false} ChooseSlotsFailsOnlyOnDraws(grammar: Table, tags: seq<string>, us: seq<Variate>)
    requires forall i :: 0 <= i < |tags| ==> tags[i] in grammar && |grammar[tags[i]]| > 0
    ensures ChooseSlots(grammar, tags, us).Err? ==> ChooseSlots(grammar, tags, us).error == OutOfDraws
    decreases |tags|
  {
    if |tags| > 0 {
      var c := ChooseIndex(grammar, tags[0], us);
      if c.Ok? {
        ChooseSlotsFailsOnlyOnDraws(grammar, tags[1..], c.value.1);
      }
    }
  }

  /** The whole walk: choose an eligible base, then a slot per replacement,
      then ask `findProb` (the superclass's `_find_prob`) for the probability. */
  function Walk(grammar: Table, base: seq<BaseStructure>, findProb: (seq<Slot>, real) -> real,
                us: seq<Variate>): (r: Result<(PtItem, seq<Variate>)>)
    ensures |base| == 0 ==> r == Err(IndexError)
    ensures r.Ok? ==> r.value.0.prob == findProb(r.value.0.pt, r.value.0.baseProb)
  {
    if |base| == 0 then Err(IndexError)
    else match ChooseBase(base, us)
      case Err(e) => Err(e)
      case Ok((b, rest)) =>
        match ChooseSlots(grammar, base[b].replacements, rest)
        case Err(e) => Err(e)
        case Ok((pt, rest')) => Ok((PtItem(base[b].prob, pt, findProb(pt, base[b].prob)), rest'))
  }

  /** The parse tree `item` is a walk of base structure `b`: same prior, one
      slot per replacement in the same order with the same tag, every index in
      range for its category (0 for a single-production category). */
  ghost predicate IsWalkOf(grammar: Table, b: BaseStructure, item: PtItem)
  {
    && item.baseProb == b.prob
    && |item.pt| == |b.replacements|
    && forall i :: 0 <= i < |item.pt| ==> item.pt[i].0 == b.replacements[i] && SlotInRange(grammar, item.pt[i])
  }

  /** What a successful walk guarantees: the base kept is eligible (never has
      "M" among its replacements) and the parse tree follows it exactly. */
  lemma WalkShape(grammar: Table, base: seq<BaseStructure>, findProb: (seq<Slot>, real) -> real, us: seq<Variate>)
    requires Walk(grammar, base, findProb, us).Ok?
    ensures var item := Walk(grammar, base, findProb, us).value.0;
            && item.prob == findProb(item.pt, item.baseProb)
            && exists b :: 0 <= b < |base| && Eligible(base[b]) && IsWalkOf(grammar, base[b], item)
  {
    var c := ChooseBase(base, us);
    var b := c.value.0;
    ChooseSlotsInRange(grammar, base[b].replacements, c.value.1);
    assert IsWalkOf(grammar, base[b], Walk(grammar, base, findProb, us).value.0);
  }

  /** On a grammar covering every eligible base, the walk fails only when
      the base set is empty or the stream of variates runs out. */
  lemma WalkFailsOnlyOnDraws(grammar: Table, base: seq<BaseStructure>, findProb: (seq<Slot>, real) -> real, us: seq<Variate>)
    requires CoversEligibleBases(grammar, base)
    ensures Walk(grammar, base, findProb, us).Err? ==>
              Walk(grammar, base, findProb, us).error == (if |base| == 0 then IndexError else OutOfDraws)
  {
    if |base| > 0 {
      var c := ChooseBase(base, us);
      if c.Ok? {
        var b := c.value.0;
        ChooseSlotsFailsOnlyOnDraws(grammar, base[b].replacements, c.value.1);
      }
    }
  }

  /** `samples_num` successive walks, each on the stream the previous one
      left: the list of their probabilities and the remaining stream. */
  function Draws(grammar: Table, base: seq<BaseStructure>, findProb: (seq<Slot>, real) -> real,
                 n: nat, us: seq<Variate>): (r: Result<(seq<real>, seq<Variate>)>)
    ensures r.Ok? ==> |r.value.0| == n
  {
    if n == 0 then Ok(([], us))
    else match Draws(grammar, base, findProb, n - 1, us)
      case Err(e) => Err(e)
      case Ok((probs, rest)) =>
        match Walk(grammar, base, findProb, rest)
        case Err(e) => Err(e)
        case Ok((item, rest')) => Ok((probs + [item.prob], rest'))
  }

  /** One more walk after n of them: its probability is appended, or its
      error ends the run. */
  lemma DrawsStep(grammar: Table, base: seq<BaseStructure>, findProb: (seq<Slot>, real) -> real,
                  n: nat, us: seq<Variate>, probs: seq<real>, rest: seq<Variate>)
    requires Draws(grammar, base, findProb, n, us) == Ok((probs, rest))
    ensures var w := Walk(grammar, base, findProb, rest);
            Draws(grammar, base, findProb, n + 1, us)
            == if w.Err? then Err(w.error) else Ok((probs + [w.value.0.prob], w.value.1))
  {
  }

  /** Once a walk has failed, every longer run of walks fails the same way. */
  lemma {:induction false} DrawsErrorPersists(grammar: Table, base: seq<BaseStructure>, findProb: (seq<Slot>, real) -> real,
                                              i: nat, n: nat, us: seq<Variate>)
    requires i <= n
    requires Draws(grammar, base, findProb, i, us).Err?
    ensures Draws(grammar, base, findProb, n, us) == Draws(grammar, base, findProb, i, us)
    decreases n - i
  {
    if i < n {
      DrawsErrorPersists(grammar, base, findProb, i, n - 1, us);
    }
  }

  /** The parse-tree slot names an existing production. */
  predicate Resolvable(grammar: Table, s: Slot)
  {
    s.0 in grammar && s.1 < |grammar[s.0]|
  }

  /** The product of the probabilities of the productions a parse tree selects. */
  function PtProb(grammar: Table, pt: seq<Slot>): real
    requires forall i :: 0 <= i < |pt| ==> Resolvable(grammar, pt[i])
  {
    if |pt| == 0 then 1.0
    else
      assert Resolvable(grammar, pt[0]);
      grammar[pt[0].0][pt[0].1].prob * PtProb(grammar, pt[1..])
  }

  /** The product over a parse tree is its first production's probability
      times the product over the rest; over an empty tree it is 1. */
  lemma {:induction false} PtProbCons(grammar: Table, pt: seq<Slot>)
    requires |pt| > 0
    requires forall i :: 0 <= i < |pt| ==> Resolvable(grammar, pt[i])
    ensures PtProb(grammar, pt) == grammar[pt[0].0][pt[0].1].prob * PtProb(grammar, pt[1..])
    ensures |pt| == 1 ==> PtProb(grammar, pt[1..]) == 1.0
  {
  }

  /** Every production probability lies in (0, 1]. */
  ghost predicate ProbabilitiesInUnit(grammar: Table)
  {
    forall tag, i :: tag in grammar && 0 <= i < |grammar[tag]| ==> 0.0 < grammar[tag][i].prob <= 1.0
  }

  /** A prior in (0, 1] times the probabilities of the selected productions
      stays in (0, 1]: the joint probability of a parse tree is a probability. */
  lemma {:induction false} JointProbInUnit(grammar: Table, pt: seq<Slot>, prior: real)
    requires ProbabilitiesInUnit(grammar)
    requires forall i :: 0 <= i < |pt| ==> Resolvable(grammar, pt[i])
    requires 0.0 < prior <= 1.0
    ensures 0.0 < prior * PtProb(grammar, pt) <= 1.0
    decreases |pt|
  {
    if |pt| > 0 {
      var p := grammar[pt[0].0][pt[0].1].prob;
      assert 0.0 < p <= 1.0;
      JointProbInUnit(grammar, pt[1..], prior * p);
      assert 0.0 < prior * p <= 1.0 by {
        assert prior * p <= prior * 1.0;
      }
      assert prior * PtProb(grammar, pt) == (prior * p) * PtProb(grammar, pt[1..]);
    }
  }
}
