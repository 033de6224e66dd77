/**
 * The chapter-one dialogue: a step counter over four dialogue steps, and the
 * stat effects of the choices made so far, handed to the caller when the
 * last step is passed.
 */
module VisualNovel {
  import opened Options

  /** The five stats 道, 德, 仁, 义, 礼. */
  datatype Stat = Dao | De | Ren | Yi | Li

  /** A partial stat record: only the stats present have a value. */
  type Effects = map<Stat, int>

  datatype Choice = Choice(text: string, effect: Effects)

  datatype DialogStep = DialogStep(text: string, choices: Option<seq<Choice>>)

  /** `CHAPTER_ONE_DIALOG`: four steps, choices only at the third. */
  const ChapterOneDialog: seq<DialogStep> := [
    DialogStep("一个宁静的午后，你漫步在竹林小径上。微风拂过竹叶，发出沙沙的响声。突然，你看到一位老者正在路边休息。", None),
    DialogStep("老者看起来有些疲惫，手中拄着一根竹杖。他注意到了你的到来，抬头微笑。", None),
    DialogStep("\"年轻人，能否帮我一个小忙？\"老者和蔼地问道。", Some([
      Choice("立即上前帮助老者", map[Ren := 2, Li := 1]),
      Choice("询问老者需要什么帮助", map[Dao := 1, De := 1]),
      Choice("抱歉，我还有要事在身", map[Yi := -1, Li := -1])])),
    DialogStep("老者露出欣慰的笑容：\"不错，年轻人。修身养性，首重仁义。今日一面，老夫就教你一些为人处世的道理。\"", None)
  ]

  const LastStep: nat := |ChapterOneDialog| - 1

  /** `newEffects[key] || 0`. */
  function ValueOr0(m: Effects, k: Stat): int {
    if k in m then m[k] else 0
  }

  /** The effects after a choice: each stat of the choice gets its old value
      (0 when absent) plus the choice's value; the other stats are kept. */
  function Accumulate(acc: Effects, effect: Effects): (r: Effects) {
    map k | k in acc.Keys + effect.Keys :: if k in effect then ValueOr0(acc, k) + effect[k] else acc[k]
  }

  /** Two choices add up to the same effects in either order. */
  lemma AccumulateCommutes(acc: Effects, e1: Effects, e2: Effects)
    ensures Accumulate(Accumulate(acc, e1), e2) == Accumulate(Accumulate(acc, e2), e1)
  {
    var a, b := Accumulate(Accumulate(acc, e1), e2), Accumulate(Accumulate(acc, e2), e1);
    assert a.Keys == b.Keys;
    forall k | k in a.Keys
      ensures a[k] == b[k]
    {
      assert ValueOr0(a, k) == ValueOr0(acc, k) + ValueOr0(e1, k) + ValueOr0(e2, k);
      assert ValueOr0(b, k) == ValueOr0(acc, k) + ValueOr0(e1, k) + ValueOr0(e2, k);
    }
  }

  /** The choice's effects are added to what was accumulated, stat by stat. */
  lemma AccumulateAdds(acc: Effects, effect: Effects, k: Stat)
    ensures ValueOr0(Accumulate(acc, effect), k) == ValueOr0(acc, k) + ValueOr0(effect, k)
  {
  }

  /** The effects after the choices `choices`, made in order from `acc`. */
  function AccumulateAll(acc: Effects, choices: seq<Effects>): Effects
    decreases |choices|
  {
    if choices == [] then acc else AccumulateAll(Accumulate(acc, choices[0]), choices[1..])
  }

  /** The sum of the values a run of choices gives stat `k` (0 where absent). */
  function SumOf(choices: seq<Effects>, k: Stat): int
    decreases |choices|
  {
    if choices == [] then 0 else ValueOr0(choices[0], k) + SumOf(choices[1..], k)
  }

  /** Some choice of the run names stat `k`. */
  predicate Mentioned(choices: seq<Effects>, k: Stat)
    decreases |choices|
  {
    choices != [] && (k in choices[0] || Mentioned(choices[1..], k))
  }

  /** After a run of choices each stat holds its starting value (0 when
      absent) plus the sum of what the choices gave it, and a stat is present
      exactly when it was at the start or some choice named it. */
  lemma {:induction false} ChoicesAddUp(acc: Effects, choices: seq<Effects>, k: Stat)
    ensures ValueOr0(AccumulateAll(acc, choices), k) == ValueOr0(acc, k) + SumOf(choices, k)
    ensures k in AccumulateAll(acc, choices) <==> k in acc || Mentioned(choices, k)
    decreases |choices|
  {
    if choices != [] {
      var next := Accumulate(acc, choices[0]);
      ChoicesAddUp(next, choices[1..], k);
      AccumulateAdds(acc, choices[0], k);
      assert k in next <==> k in acc || k in choices[0];
    }
  }

  /** The `forEach` over the choice's entries that updates a copy of the
      accumulated effects. */
  method AddChoiceEffects(acc: Effects, effect: Effects) returns (newEffects: Effects)
    ensures newEffects == Accumulate(acc, effect)
  {
    newEffects := acc;
    var todo := effect.Keys;
    while todo != {}
      invariant todo <= effect.Keys
      invariant newEffects.Keys == acc.Keys + (effect.Keys - todo)
      invariant forall k :: k in newEffects ==>
        newEffects[k] == if k in effect && k !in todo then ValueOr0(acc, k) + effect[k] else acc[k]
      decreases todo
    {
      var key :| key in todo;
      var currentValue := ValueOr0(newEffects, key);
      newEffects := newEffects[key := currentValue + effect[key]];
      todo := todo - {key};
    }
  }

  /** Only steps before the last one offer choices, so a choice always moves
      on to a further step. */
  lemma ChoicesBeforeLastStep()
    ensures |ChapterOneDialog| == 4
    ensures forall i :: 0 <= i < |ChapterOneDialog| && ChapterOneDialog[i].choices.Some? ==> i < LastStep
  {
  }

  class Novel {
    var currentStep: nat
    var accumulatedEffects: Effects

    ghost predicate Valid()
      reads this
    {
      currentStep <= LastStep
    }

    constructor ()
      ensures Valid()
      ensures currentStep == 0 && accumulatedEffects == map[]
    {
      currentStep := 0;
      accumulatedEffects := map[];
    }

    /** `handleNext`: move to the next step; past the last step hand the
        accumulated effects to `onComplete` (`completed`) and start over. */
    method HandleNext() returns (completed: Option<Effects>)
      requires Valid()
      modifies this
      ensures Valid()
      ensures old(currentStep) < LastStep ==>
        currentStep == old(currentStep) + 1 && accumulatedEffects == old(accumulatedEffects) && completed == None
      ensures old(currentStep) == LastStep ==>
        completed == Some(old(accumulatedEffects)) && currentStep == 0 && accumulatedEffects == map[]
    {
      if currentStep < LastStep {
        currentStep := currentStep + 1;
        completed := None;
      } else {
        completed := Some(accumulatedEffects);
        currentStep := 0;
        accumulatedEffects := map[];
      }
    }

    /** `handleChoice(choice)`: add the choice's effects, then advance exactly
        as `handleNext` does. */
    method HandleChoice(choice: Choice) returns (completed: Option<Effects>)
      requires Valid()
      modifies this
      ensures Valid()
      ensures old(currentStep) < LastStep ==>
        && currentStep == old(currentStep) + 1
        && accumulatedEffects == Accumulate(old(accumulatedEffects), choice.effect)
        && completed == None
      ensures old(currentStep) == LastStep ==>
        completed == Some(Accumulate(old(accumulatedEffects), choice.effect)) && currentStep == 0 && accumulatedEffects == map[]
    {
      var newEffects := AddChoiceEffects(accumulatedEffects, choice.effect);
      accumulatedEffects := newEffects;
      completed := HandleNext();
    }
  }
}
