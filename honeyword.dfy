/** Reconstruction of a guess string from a parse tree
    (`_honeyword_recursive_guess`): straight replacements append a chosen
    value, a capitalization category rewrites the tail of the guess with a
    mask, an "M" category ends the walk with 0, and the probability is the
    running product of the selected productions' probabilities. */
module Honeyword {
  import opened Outcomes
  import opened Variates
  import opened GrammarWalk

  /** `str.upper` on one ASCII character. */
  function Upper(c: char): char
  {
    if 'a' <= c <= 'z' then (c as int - 32) as char else c
  }

  /** The character a mask character produces: 'L' keeps it, anything else
      upper-cases it. */
  function Masked(m: char, c: char): char
  {
    if m == 'L' then c else Upper(c)
  }

  /** Python's `s[:-k]` for k >= 0 (note `s[:-0]` is empty). */
  function DropLast(s: string, k: nat): string
  {
    if k == 0 || k >= |s| then [] else s[..|s| - k]
  }

  /** Python's `s[-k:]` for k >= 0 (note `s[-0:]` is all of `s`). */
  function TakeLast(s: string, k: nat): string
  {
    if k == 0 || k >= |s| then s else s[|s| - k..]
  }

  /** The loop `for item in mask: ... end_word[idx] ...`: one output
      character per mask character; it fails when the mask is longer than
      the word it is applied to. */
  function ApplyMask(word: string, mask: string): (r: Result<string>)
    ensures r.Ok? <==> |mask| <= |word|
    ensures r.Err? ==> r.error == IndexError
    ensures r.Ok? ==> |r.value| == |mask|
    ensures r.Ok? ==> forall i :: 0 <= i < |mask| ==> r.value[i] == Masked(mask[i], word[i])
    decreases |mask|
  {
    if |mask| == 0 then Ok([])
    else if |word| == 0 then Err(IndexError)
    else match ApplyMask(word[1..], mask[1..])
      case Err(e) => Err(e)
      case Ok(tail) => Ok([Masked(mask[0], word[0])] + tail)
  }

  /** The capitalization step for a production with mask list `values`:
      the mask length is that of the first mask, the mask applied is drawn
      uniformly from the list. */
  function Capitalize(curGuess: string, values: seq<string>, us: seq<Variate>): (r: Result<(string, seq<Variate>)>)
    ensures |values| == 0 ==> r == Err(IndexError)
    ensures |values| > 0 && |us| == 0 ==> r == Err(OutOfDraws)
    ensures |values| > 0 && |us| > 0 ==>
              (r.Err? <==> |values[Pick(us[0], |values|)]| > |TakeLast(curGuess, |values[0]|)|)
    ensures r.Err? ==> r.error == IndexError || r.error == OutOfDraws
    ensures r.Ok? ==> |us| > 0 && r.value.1 == us[1..] && |r.value.0| <= |curGuess|
  {
    if |values| == 0 then Err(IndexError)
    else
      var maskLen := |values[0]|;
      var startWord := DropLast(curGuess, maskLen);
      var endWord := TakeLast(curGuess, maskLen);
      if |us| == 0 then Err(OutOfDraws)
      else
        var mask := values[Pick(us[0], |values|)];
        match ApplyMask(endWord, mask)
        case Err(e) => Err(e)
        case Ok(newEnd) => Ok((startWord + newEnd, us[1..]))
  }

  /** A straight replacement: append a value drawn uniformly from `values`. */
  function AppendValue(curGuess: string, values: seq<string>, us: seq<Variate>): Result<(string, seq<Variate>)>
  {
    if |values| == 0 then Err(IndexError)
    else if |us| == 0 then Err(OutOfDraws)
    else
      var item := values[Pick(us[0], |values|)];
      Ok((curGuess + item, us[1..]))
  }

  /** A straight replacement fails exactly when the production has no values
      (IndexError) or no draw is left; otherwise it consumes one draw and
      leaves the guess as a prefix followed by one of the values. */
  lemma AppendValueSpec(curGuess: string, values: seq<string>, us: seq<Variate>)
    ensures var r := AppendValue(curGuess, values, us);
            && (r.Ok? <==> |values| > 0 && |us| > 0)
            && (r.Err? ==> r.error == (if |values| == 0 then IndexError else OutOfDraws))
            && (r.Ok? ==> r.value.1 == us[1..])
            && (r.Ok? ==> |curGuess| <= |r.value.0| && r.value.0[..|curGuess|] == curGuess
                          && r.value.0[|curGuess|..] in values)
  {
    if |values| > 0 && |us| > 0 {
      var item := values[Pick(us[0], |values|)];
      assert (curGuess + item)[..|curGuess|] == curGuess && (curGuess + item)[|curGuess|..] == item;
    }
  }

  /** The outcome of a guess: the integer 0 for a Markov category, or the
      guess and its cumulative probability. */
  datatype GuessOutcome = MarkovZero | Guess(guess: string, prob: real)

  /** One non-Markov step: look the slot's production up and apply it to the
      guess, capitalization for a 'C' category, a straight append otherwise. */
  function GuessStep(grammar: Table, curGuess: string, s: Slot, us: seq<Variate>): (r: Result<(string, seq<Variate>)>)
    requires |s.0| > 0
    ensures r.Ok? ==> Resolvable(grammar, s)
  {
    if s.0 !in grammar then Err(KeyError)
    else if s.1 >= |grammar[s.0]| then Err(IndexError)
    else
      var entry := grammar[s.0][s.1];
      if s.0[0] == 'C' then Capitalize(curGuess, entry.values, us)
      else AppendValue(curGuess, entry.values, us)
  }

  /** `_honeyword_recursive_guess(cur_guess, pt, cur_prob)`. */
  function HoneywordGuess(grammar: Table, curGuess: string, pt: seq<Slot>, us: seq<Variate>, curProb: real): (r: Result<GuessOutcome>)
    ensures |pt| == 0 ==> r == Err(IndexError)
    decreases |pt|
  {
    if |pt| == 0 || |pt[0].0| == 0 then Err(IndexError)
    else if pt[0].0[0] == 'M' then Ok(MarkovZero)
    else match GuessStep(grammar, curGuess, pt[0], us)
      case Err(e) => Err(e)
      case Ok((newGuess, rest)) =>
        var newProb := curProb * grammar[pt[0].0][pt[0].1].prob;
        if |pt| == 1 then Ok(Guess(newGuess, newProb))
        else HoneywordGuess(grammar, newGuess, pt[1..], rest, newProb)
  }

  /** An "M" category at the head of the parse tree returns 0 at once, with
      no lookup in the grammar. */
  lemma MarkovAtHeadReturnsZero(grammar: Table, curGuess: string, pt: seq<Slot>, us: seq<Variate>, curProb: real)
    requires |pt| > 0 && |pt[0].0| > 0 && pt[0].0[0] == 'M'
    ensures HoneywordGuess(grammar, curGuess, pt, us, curProb) == Ok(MarkovZero)
  {
  }

  /** Capitalization with a mask no longer than the guess and all masks of the
      production of that length: the guess keeps its length, everything
      before the last `maskLen` characters is unchanged, and in the tail an
      'L' keeps the character while any other mask character upper-cases it. */
  lemma CapitalizeTail(curGuess: string, values: seq<string>, us: seq<Variate>)
    requires |values| > 0 && |us| > 0
    requires 1 <= |values[0]| <= |curGuess|
    requires forall k :: 0 <= k < |values| ==> |values[k]| == |values[0]|
    ensures var r := Capitalize(curGuess, values, us);
            var n := |curGuess| - |values[0]|;
            var mask := values[Pick(us[0], |values|)];
            && r == Ok((r.value.0, us[1..]))
            && |r.value.0| == |curGuess|
            && r.value.0[..n] == curGuess[..n]
            && forall i :: n <= i < |curGuess| ==> r.value.0[i] == Masked(mask[i - n], curGuess[i])
  {
    var n := |curGuess| - |values[0]|;
    var mask := values[Pick(us[0], |values|)];
    var endWord := TakeLast(curGuess, |values[0]|);
    assert endWord == curGuess[n..];
    assert DropLast(curGuess, |values[0]|) == curGuess[..n];
    var newEnd := ApplyMask(endWord, mask).value;
    var g := Capitalize(curGuess, values, us).value.0;
    assert g == curGuess[..n] + newEnd;
    forall i | n <= i < |curGuess|
      ensures g[i] == Masked(mask[i - n], curGuess[i])
    {
      assert g[i] == newEnd[i - n];
      assert endWord[i - n] == curGuess[i];
    }
  }

  /** As written, an empty mask (mask length 0) does not leave the guess
      alone: `cur_guess[:-0]` is empty and the mask yields no characters, so
      the whole guess is erased. */
  lemma EmptyMaskErasesGuess(curGuess: string, values: seq<string>, us: seq<Variate>)
    requires |values| > 0 && |us| > 0
    requires forall k :: 0 <= k < |values| ==> values[k] == []
    ensures Capitalize(curGuess, values, us) == Ok(([], us[1..]))
  {
    assert |values[0]| == 0;
    var mask := values[Pick(us[0], |values|)];
    assert mask == [];
    var endWord := TakeLast(curGuess, 0);
    var masked := ApplyMask(endWord, mask);
    assert masked.Ok? && |masked.value| == 0;
    assert masked == Ok([]);
    assert DropLast(curGuess, 0) + [] == [];
  }

  /** A straight-replacement slot that resolves to a production with values. */
  predicate PlainSlot(grammar: Table, s: Slot)
  {
    && |s.0| > 0 && s.0[0] != 'C' && s.0[0] != 'M'
    && Resolvable(grammar, s)
    && |grammar[s.0][s.1].values| > 0
  }

  /** The value drawn for one straight-replacement slot from variate `u`. */
  function ChosenValue(grammar: Table, s: Slot, u: Variate): string
    requires PlainSlot(grammar, s)
  {
    var values := grammar[s.0][s.1].values;
    values[Pick(u, |values|)]
  }

  /** The values the straight replacements select, slot k using variate k. */
  function ChosenValues(grammar: Table, pt: seq<Slot>, us: seq<Variate>): (vs: seq<string>)
    requires forall k :: 0 <= k < |pt| ==> PlainSlot(grammar, pt[k])
    requires |us| >= |pt|
    ensures |vs| == |pt|
  {
    if |pt| == 0 then []
    else [ChosenValue(grammar, pt[0], us[0])] + ChosenValues(grammar, pt[1..], us[1..])
  }

  function Concat(ss: seq<string>): string
  {
    if |ss| == 0 then [] else ss[0] + Concat(ss[1..])
  }

  /** With no capitalization and no Markov slot, the guess is the starting
      guess followed by the chosen values in order, and its probability is
      the starting probability times the product of the selected
      productions' probabilities. */
  lemma PlainGuessIsConcatenation(grammar: Table, curGuess: string, pt: seq<Slot>, us: seq<Variate>, curProb: real)
    requires |pt| > 0
    requires forall k :: 0 <= k < |pt| ==> PlainSlot(grammar, pt[k])
    requires |us| >= |pt|
    ensures HoneywordGuess(grammar, curGuess, pt, us, curProb)
            == Ok(Guess(curGuess + Concat(ChosenValues(grammar, pt, us)), curProb * PtProb(grammar, pt)))
  {
    PlainGuessText(grammar, curGuess, pt, us, curProb);
    GuessProbIsProduct(grammar, curGuess, pt, us, curProb);
  }

  lemma {:induction false} PlainGuessText(grammar: Table, curGuess: string, pt: seq<Slot>, us: seq<Variate>, curProb: real)
    requires |pt| > 0
    requires forall k :: 0 <= k < |pt| ==> PlainSlot(grammar, pt[k])
    requires |us| >= |pt|
    ensures HoneywordGuess(grammar, curGuess, pt, us, curProb).Ok?
    ensures HoneywordGuess(grammar, curGuess, pt, us, curProb).value.Guess?
    ensures HoneywordGuess(grammar, curGuess, pt, us, curProb).value.guess == curGuess + Concat(ChosenValues(grammar, pt, us))
    decreases |pt|
  {
    assert PlainSlot(grammar, pt[0]);
    var v := ChosenValue(grammar, pt[0], us[0]);
    var p := curProb * grammar[pt[0].0][pt[0].1].prob;
    PlainHead(grammar, curGuess, pt, us, curProb);
    var restValues := Concat(ChosenValues(grammar, pt[1..], us[1..]));
    assert Concat(ChosenValues(grammar, pt, us)) == v + restValues;
    if |pt| > 1 {
      PlainGuessText(grammar, curGuess + v, pt[1..], us[1..], p);
      assert curGuess + (v + restValues) == (curGuess + v) + restValues;
    } else {
      assert restValues == [];
    }
  }

  /** One straight-replacement step of the recursion. */
  lemma PlainHead(grammar: Table, curGuess: string, pt: seq<Slot>, us: seq<Variate>, curProb: real)
    requires |pt| > 0 && PlainSlot(grammar, pt[0]) && |us| > 0
    ensures var v := ChosenValue(grammar, pt[0], us[0]);
            var p := curProb * grammar[pt[0].0][pt[0].1].prob;
            HoneywordGuess(grammar, curGuess, pt, us, curProb)
            == if |pt| == 1 then Ok(Guess(curGuess + v, p))
               else HoneywordGuess(grammar, curGuess + v, pt[1..], us[1..], p)
  {
    assert GuessStep(grammar, curGuess, pt[0], us) == Ok((curGuess + ChosenValue(grammar, pt[0], us[0]), us[1..]));
  }

  /** One non-Markov step of the recursion, whatever the category: the head
      slot resolves, and the rest of the recursion continues from some guess
      and stream with the probability multiplied by the head's. */
  lemma {:induction false} GuessUnfold(grammar: Table, curGuess: string, pt: seq<Slot>, us: seq<Variate>, curProb: real)
    returns (nextGuess: string, rest: seq<Variate>)
    requires HoneywordGuess(grammar, curGuess, pt, us, curProb).Ok?
    requires HoneywordGuess(grammar, curGuess, pt, us, curProb).value.Guess?
    ensures |pt| > 0 && |pt[0].0| > 0 && Resolvable(grammar, pt[0])
    ensures var newProb := curProb * grammar[pt[0].0][pt[0].1].prob;
            HoneywordGuess(grammar, curGuess, pt, us, curProb)
            == if |pt| == 1 then Ok(Guess(nextGuess, newProb))
               else HoneywordGuess(grammar, nextGuess, pt[1..], rest, newProb)
  {
    assert |pt| > 0 && |pt[0].0| > 0 && pt[0].0[0] != 'M';
    var step := GuessStep(grammar, curGuess, pt[0], us);
    assert step.Ok?;
    nextGuess, rest := step.value.0, step.value.1;
  }

  /** The running product the recursion keeps: `acc` times each selected
      production's probability, in slot order. */
  ghost function ScaledProb(grammar: Table, acc: real, pt: seq<Slot>): real
    requires forall i :: 0 <= i < |pt| ==> Resolvable(grammar, pt[i])
    decreases |pt|
  {
    if |pt| == 0 then acc
    else
      assert Resolvable(grammar, pt[0]);
      ScaledProb(grammar, acc * grammar[pt[0].0][pt[0].1].prob, pt[1..])
  }

  /** Proof helper: one step of the running product. */
  lemma {:induction false} ScaledProbCons(grammar: Table, acc: real, pt: seq<Slot>)
    requires |pt| > 0
    requires forall i :: 0 <= i < |pt| ==> Resolvable(grammar, pt[i])
    ensures ScaledProb(grammar, acc, pt) == ScaledProb(grammar, acc * grammar[pt[0].0][pt[0].1].prob, pt[1..])
  {
  }

  /** The running product is the starting value times the product over the
      parse tree. */
  lemma {:induction false} ScaledProbIsProduct(grammar: Table, acc: real, pt: seq<Slot>)
    requires forall i :: 0 <= i < |pt| ==> Resolvable(grammar, pt[i])
    ensures ScaledProb(grammar, acc, pt) == acc * PtProb(grammar, pt)
    decreases |pt|
  {
    if |pt| > 0 {
      ScaledProbCons(grammar, acc, pt);
      ScaledProbIsProduct(grammar, acc * grammar[pt[0].0][pt[0].1].prob, pt[1..]);
      PtProbCons(grammar, pt);
      MulAssoc(acc, grammar[pt[0].0][pt[0].1].prob, PtProb(grammar, pt[1..]), PtProb(grammar, pt));
    } else {
      assert PtProb(grammar, pt) == 1.0;
    }
  }

  /** Proof helper: reassociating a product of three reals. */
  lemma MulAssoc(a: real, b: real, c: real, bc: real)
    requires bc == b * c
    ensures a * b * c == a * bc
  {
  }

  /** The recursion carries exactly the running product of its slots. */
  lemma {:induction false} GuessProbIsScaled(grammar: Table, curGuess: string, pt: seq<Slot>, us: seq<Variate>, curProb: real)
    requires HoneywordGuess(grammar, curGuess, pt, us, curProb).Ok?
    requires HoneywordGuess(grammar, curGuess, pt, us, curProb).value.Guess?
    ensures forall k :: 0 <= k < |pt| ==> Resolvable(grammar, pt[k])
    ensures HoneywordGuess(grammar, curGuess, pt, us, curProb).value.prob == ScaledProb(grammar, curProb, pt)
    decreases |pt|
  {
    var nextGuess, rest := GuessUnfold(grammar, curGuess, pt, us, curProb);
    if |pt| > 1 {
      GuessProbIsScaled(grammar, nextGuess, pt[1..], rest, curProb * grammar[pt[0].0][pt[0].1].prob);
      assert forall k :: 1 <= k < |pt| ==> pt[k] == pt[1..][k - 1];
    }
    ScaledProbCons(grammar, curProb, pt);
  }

  /** Whatever the categories, a guess that is returned carries the starting
      probability times the product over every slot of the parse tree. */
  lemma GuessProbIsProduct(grammar: Table, curGuess: string, pt: seq<Slot>, us: seq<Variate>, curProb: real)
    requires HoneywordGuess(grammar, curGuess, pt, us, curProb).Ok?
    requires HoneywordGuess(grammar, curGuess, pt, us, curProb).value.Guess?
    ensures forall k :: 0 <= k < |pt| ==> Resolvable(grammar, pt[k])
    ensures HoneywordGuess(grammar, curGuess, pt, us, curProb).value.prob == curProb * PtProb(grammar, pt)
  {
    GuessProbIsScaled(grammar, curGuess, pt, us, curProb);
    ScaledProbIsProduct(grammar, curProb, pt);
  }
}
