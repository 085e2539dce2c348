/** Nesting of interrupt-disable sections, and of raised task priorities. */
module IrqState {

  /** The interrupt flag and the TPR of one CPU. */
  class Cpu {
    var interruptFlag: bool
    var tpr: nat
  }

  // ---- task priority ----

  /** The highest level from 1 to `n - 1` that is still required, else 0. */
  ghost function Highest(counts: seq<int>, n: nat): nat
    requires n <= |counts|
  {
    if n <= 1 then 0 else if counts[n - 1] != 0 then n - 1 else Highest(counts, n - 1)
  }

  ghost predicate IsHighest(counts: seq<int>, level: nat)
  {
    && level < |counts|
    && (level == 0 || counts[level] != 0)
    && forall k :: level < k < |counts| ==> counts[k] == 0
  }

  lemma {:induction false} HighestIsHighest(counts: seq<int>, n: nat)
    requires 1 <= n <= |counts| && forall k :: n <= k < |counts| ==> counts[k] == 0
    ensures IsHighest(counts, Highest(counts, n))
    decreases n
  {
    if n > 1 && counts[n - 1] == 0 {
      HighestIsHighest(counts, n - 1);
    }
  }

  /** The nesting counts and the TPR they have led to. */
  datatype Levels = Levels(counts: seq<int>, tpr: nat)

  datatype LevelStep = Raise(level: nat) | Lower(level: nat)

  /** What the source requires: raise to at least the current priority, lower what was raised. */
  ghost predicate LevelAllowed(s: Levels, step: LevelStep)
  {
    match step
    case Raise(v) => 0 < v < |s.counts| && s.tpr <= v
    case Lower(v) => 0 < v < |s.counts| && s.counts[v] > 0
  }

  ghost function LevelAfter(s: Levels, step: LevelStep): Levels
    requires LevelAllowed(s, step)
  {
    match step
    case Raise(v) => Levels(s.counts[v := s.counts[v] + 1], v)
    case Lower(v) =>
      var counts := s.counts[v := s.counts[v] - 1];
      Levels(counts, if s.counts[v] == 1 && v >= s.tpr then Highest(counts, v) else s.tpr)
  }

  ghost predicate LevelsInv(s: Levels)
  {
    && |s.counts| == 16
    && (forall k :: 0 < k < 16 ==> s.counts[k] >= 0)
    && IsHighest(s.counts, s.tpr)
  }

  /** A level that is being lowered is never above the current priority. */
  lemma LoweredIsReached(s: Levels, v: nat)
    requires LevelsInv(s) && LevelAllowed(s, Lower(v))
    ensures v <= s.tpr
  {
  }

  lemma LevelStepKeepsInv(s: Levels, step: LevelStep)
    requires LevelsInv(s) && LevelAllowed(s, step)
    ensures LevelsInv(LevelAfter(s, step))
  {
    if step.Lower? && s.counts[step.level] == 1 && step.level >= s.tpr {
      HighestIsHighest(LevelAfter(s, step).counts, step.level);
    }
  }

  ghost predicate LevelRun(s: Levels, steps: seq<LevelStep>, s': Levels)
    decreases |steps|
  {
    if steps == [] then s' == s
    else LevelAllowed(s, steps[0]) && LevelRun(LevelAfter(s, steps[0]), steps[1..], s')
  }

  /** After any raises and lowers, in any order, the priority is the highest one still required. */
  lemma {:induction false} PriorityIsHighest(s: Levels, steps: seq<LevelStep>, s': Levels)
    requires LevelsInv(s) && LevelRun(s, steps, s')
    ensures LevelsInv(s')
    decreases |steps|
  {
    if steps != [] {
      LevelStepKeepsInv(s, steps[0]);
      PriorityIsHighest(LevelAfter(s, steps[0]), steps[1..], s');
    }
  }

  // ---- interrupt nesting ----

  /** Nesting depth, the flag to restore, and the interrupt flag itself. */
  datatype Nesting = Nesting(depth: nat, restore: bool, flag: bool)

  datatype NestingStep = Disable | Enable

  ghost function Disabled(n: Nesting): Nesting
  {
    Nesting(n.depth + 1, if n.depth == 0 then n.flag else n.restore, false)
  }

  ghost function Enabled(n: Nesting): Nesting
    requires n.depth > 0
  {
    Nesting(n.depth - 1, n.restore, n.flag || (n.depth == 1 && n.restore))
  }

  ghost predicate NestingRun(n: Nesting, steps: seq<NestingStep>, n': Nesting)
    decreases |steps|
  {
    if steps == [] then n' == n
    else if steps[0].Disable? then NestingRun(Disabled(n), steps[1..], n')
    else n.depth > 0 && NestingRun(Enabled(n), steps[1..], n')
  }

  /** Inside, interrupts are off and `original` is remembered; outside, the flag is `original`. */
  ghost predicate Nested(n: Nesting, original: bool)
  {
    if n.depth == 0 then n.flag == original else !n.flag && n.restore == original
  }

  /** Any nesting of disable and enable keeps interrupts off inside and restores them outside. */
  lemma {:induction false} NestingRestores(n: Nesting, steps: seq<NestingStep>, n': Nesting, original: bool)
    requires Nested(n, original) && NestingRun(n, steps, n')
    ensures Nested(n', original)
    decreases |steps|
  {
    if steps != [] {
      NestingRestores(if steps[0].Disable? then Disabled(n) else Enabled(n), steps[1..], n', original);
    }
  }

  class IrqState {
    const cpu: Cpu
    const counts: array<int>
    var state: bool

    ghost predicate Valid()
      reads this, counts, cpu
    {
      counts.Length == 16 && counts[0] >= 0 && LevelsInv(PriorityLevels())
    }

    ghost function PriorityLevels(): Levels
      reads this, counts, cpu
    {
      Levels(counts[..], cpu.tpr)
    }

    ghost function Nest(): Nesting
      reads this, counts, cpu
      requires counts.Length == 16 && counts[0] >= 0
    {
      Nesting(counts[0], state, cpu.interruptFlag)
    }

    constructor (cpu: Cpu)
      requires cpu.tpr == 0
      ensures Valid() && this.cpu == cpu && fresh(counts)
      ensures Nest() == Nesting(0, false, cpu.interruptFlag)
    {
      this.cpu := cpu;
      state := false;
      counts := new int[16](_ => 0);
    }

    method PushNesting(wasEnabled: bool)
      requires Valid() && !cpu.interruptFlag
      modifies this, counts
      ensures Valid() && counts[1..] == old(counts[1..])
      ensures Nest() == Nesting(old(Nest().depth) + 1,
                                if old(Nest().depth) == 0 then wasEnabled else old(state), false)
    {
      var val := counts[0];
      counts[0] := val + 1;
      if val == 0 {
        state := wasEnabled;
      }
      LevelsUnaffected(old(counts[..]), counts[..], cpu.tpr);
    }

    method Disable()
      requires Valid()
      modifies this, counts, cpu`interruptFlag
      ensures Valid() && counts[1..] == old(counts[1..]) && Nest() == Disabled(old(Nest()))
    {
      var enabled := cpu.interruptFlag;
      cpu.interruptFlag := false;
      PushNesting(enabled);
    }

    method PopNesting() returns (depth: int)
      requires Valid() && !cpu.interruptFlag && counts[0] > 0
      modifies counts
      ensures Valid() && counts[1..] == old(counts[1..]) && depth == counts[0] == old(counts[0]) - 1
    {
      var val := counts[0];
      counts[0] := val - 1;
      LevelsUnaffected(old(counts[..]), counts[..], cpu.tpr);
      depth := val - 1;
    }

    method Enable()
      requires Valid() && !cpu.interruptFlag && counts[0] > 0
      modifies counts, cpu`interruptFlag
      ensures Valid() && counts[1..] == old(counts[1..]) && Nest() == Enabled(old(Nest()))
    {
      var depth := PopNesting();
      if depth == 0 {
        if state {
          cpu.interruptFlag := true;
        }
      }
    }

    /** The caller may not ask for less than the current priority. */
    method RaiseTpr(tprValue: nat)
      requires Valid() && LevelAllowed(PriorityLevels(), Raise(tprValue))
      modifies counts, cpu`tpr
      ensures Valid() && PriorityLevels() == LevelAfter(old(PriorityLevels()), Raise(tprValue))
      ensures counts[0] == old(counts[0])
    {
      LevelStepKeepsInv(PriorityLevels(), Raise(tprValue));
      cpu.tpr := tprValue;
      counts[tprValue] := counts[tprValue] + 1;
    }

    /** Lowering the last raise to the current priority falls back to the next one still required. */
    method LowerTpr(tprValue: nat)
      requires Valid() && LevelAllowed(PriorityLevels(), Lower(tprValue))
      modifies counts, cpu`tpr
      ensures Valid() && PriorityLevels() == LevelAfter(old(PriorityLevels()), Lower(tprValue))
      ensures counts[0] == old(counts[0])
    {
      ghost var before := PriorityLevels();
      LevelStepKeepsInv(before, Lower(tprValue));
      var current := cpu.tpr;
      var count := counts[tprValue];
      counts[tprValue] := count - 1;
      ghost var after := counts[..];
      assert after == before.counts[tprValue := count - 1];
      if count == 1 && tprValue >= current {
        var newTpr := tprValue;
        while newTpr > 0
          invariant newTpr <= tprValue && counts[..] == after && cpu.tpr == current
          invariant Highest(after, newTpr) == Highest(after, tprValue)
        {
          newTpr := newTpr - 1;
          if counts[newTpr] != 0 {
            cpu.tpr := newTpr;
            return;
          }
        }
        cpu.tpr := 0;
      }
    }
  }

  lemma LevelsUnaffected(before: seq<int>, after: seq<int>, tpr: nat)
    requires |before| == |after| == 16 && after[1..] == before[1..] && LevelsInv(Levels(before, tpr))
    ensures LevelsInv(Levels(after, tpr))
  {
    assert forall k :: 0 < k < 16 ==> after[k] == after[1..][k - 1] == before[1..][k - 1] == before[k];
  }
}
