/** The local APIC emulation over its bit registers, and the VMSA it injects through. */
module Apic {
  import opened Bits
  import opened Collections
  import opened VectorRegister
  import opened GuestIpi
  import M = ApicModel

  /** The guest CPU state that interrupts are injected through. */
  class Vmsa {
    var eventInj: M.Event
    var vIrq: bool
    var vIntrVector: nat
    var vTpr: nat
    var interruptFlag: bool
    var intShadow: bool

    ghost function State(): M.Guest
      reads this
    {
      M.Guest(eventInj, vIrq, vIntrVector, vTpr, interruptFlag, intShadow)
    }

    /** The VMSA holds the upper four bits of TPR. */
    method GetTpr() returns (tpr: nat)
      ensures tpr == 16 * State().tpr
    {
      tpr := 16 * vTpr;
    }

    method SetTpr(tpr: nat)
      modifies this
      ensures State() == old(State()).(tpr := tpr / 16)
    {
      vTpr := tpr / 16;
    }

    method RequestNmi()
      modifies this
      ensures State() == old(State()).(event := M.Nmi)
    {
      eventInj := M.Nmi;
    }

    method QueueInterrupt(irq: nat)
      modifies this
      ensures State() == old(State()).(virq := true, virqVector := irq)
    {
      vIntrVector := irq;
      vIrq := true;
    }

    method TryDeliverInterruptImmediately(irq: nat) returns (r: bool)
      modifies this
      ensures r <==> old(State().event) == M.NoEvent
      ensures State() == if r then old(State()).(event := M.Interrupt(irq)) else old(State())
    {
      if eventInj != M.NoEvent {
        return false;
      }
      eventInj := M.Interrupt(irq);
      return true;
    }

    /** Returns 0 or the vector still waiting to be taken, which it withdraws. */
    method CheckAndClearPendingInterruptEvent() returns (irq: nat)
      modifies this
      ensures match old(State().event)
        case Interrupt(v) => irq == v && State() == old(State()).(event := M.NoEvent)
        case _ => irq == 0 && State() == old(State())
    {
      match eventInj {
        case Interrupt(v) =>
          eventInj := M.NoEvent;
          irq := v;
        case _ => irq := 0;
      }
    }

    method CheckAndClearPendingVirtualInterrupt() returns (irq: nat)
      modifies this
      ensures irq == if old(State().virq) then old(State().virqVector) else 0
      ensures State() == old(State()).(virq := false)
    {
      irq := 0;
      if vIrq {
        vIrq := false;
        irq := vIntrVector;
      }
    }

    method CheckAndClearPendingNmi() returns (r: bool)
      modifies this
      ensures r <==> old(State().event) == M.Nmi
      ensures State() == if r then old(State()).(event := M.NoEvent) else old(State())
    {
      r := eventInj == M.Nmi;
      if r {
        eventInj := M.NoEvent;
      }
    }
  }

  /** One pass over the doorbell page, as the host left it. */
  datatype Doorbell = Doorbell(
    level: Option<nat>,
    multiple: bool,
    vector31: bool,
    words: seq<nat>,
    pending: nat)
  {
    ghost predicate Valid()
    {
      && (level.Some? ==> level.value < 256)
      && IsRegister([0] + words)
      && pending < 256
    }
  }

  /** The vectors of the request words below `group`. */
  ghost function GroupsBelow(words: seq<nat>, group: nat): set<nat>
  {
    set v | v in VectorsOf(words) && v / 32 < group
  }

  /** The edge-triggered vectors a pass presents: one, or those of the request words. */
  ghost function HostEventsOf(doorbell: Doorbell): M.HostEvents
  {
    M.HostEvents(doorbell.level,
      if doorbell.multiple then
        (if doorbell.vector31 then {31} else {}) + VectorsOf([0] + doorbell.words)
      else if doorbell.pending != 0 then
        {doorbell.pending}
      else
        {})
  }

  ghost function RequestsOf(shared: PerCpuShared): Option<M.Requests>
    reads shared, shared.ipiIrr
  {
    if shared.ipiPending then Some(M.Requests(shared.Requested(), shared.nmiPending)) else None
  }

  lemma GroupsBelowStart(words: seq<nat>, allowed: set<nat>)
    requires IsRegister(words) && words[0] == 0
    ensures GroupsBelow(words, 1) * allowed == {}
  {
    forall v | v in GroupsBelow(words, 1) ensures false {
      VectorsAt(words, v);
      BitOfZero(v % 32);
    }
  }

  lemma GroupsBelowStep(words: seq<nat>, allowed: seq<nat>, i: nat)
    requires IsRegister(words) && IsRegister(allowed) && i < 8
    ensures And(words[i], allowed[i]) < 0x1_0000_0000
    ensures GroupsBelow(words, i + 1) * VectorsOf(allowed) ==
      GroupsBelow(words, i) * VectorsOf(allowed) + GroupVectors(i, And(words[i], allowed[i]))
  {
    AndLe(words[i], allowed[i]);
    forall v: nat
      ensures v in GroupVectors(i, And(words[i], allowed[i])) <==>
        v / 32 == i && v in VectorsOf(words) && v in VectorsOf(allowed)
    {
      GroupAt(i, And(words[i], allowed[i]), v);
      VectorsAt(words, v);
      VectorsAt(allowed, v);
      BitAnd(words[i], allowed[i], v % 32);
    }
  }

  lemma GroupsBelowEnd(words: seq<nat>)
    ensures GroupsBelow(words, 8) == VectorsOf(words)
  {
  }

  /** Clearing the top bit takes the highest vector out of the group. */
  lemma TopBitOut(group: nat, bits: nat)
    requires 0 < bits < 0x1_0000_0000
    ensures var index := HighestBit(bits);
      && AndNot(bits, Pow2(index)) < bits
      && index < 32
      && GroupVectors(group, bits) == GroupVectors(group, AndNot(bits, Pow2(index))) + {32 * group + index}
  {
    WordHighest(bits);
    BitOut(group, bits, HighestBit(bits));
  }

  lemma BitOut(group: nat, bits: nat, index: nat)
    requires index < 32 && Bit(bits, index)
    ensures AndNot(bits, Pow2(index)) < bits
    ensures GroupVectors(group, bits) == GroupVectors(group, AndNot(bits, Pow2(index))) + {32 * group + index}
  {
    TopBitLess(bits, index);
    forall v: nat
      ensures v in GroupVectors(group, bits) <==>
        v in GroupVectors(group, AndNot(bits, Pow2(index))) || v == 32 * group + index
    {
      GroupAt(group, bits, v);
      GroupAt(group, AndNot(bits, Pow2(index)), v);
      if 32 * group <= v < 32 * group + 32 {
        ClearBitAt(bits, index, v - 32 * group);
      }
    }
  }

  lemma TopBitLess(bits: nat, index: nat)
    requires Bit(bits, index)
    ensures AndNot(bits, Pow2(index)) < bits
  {
    AndNotBound(bits, Pow2(index));
    ClearBitAt(bits, index, index);
  }

  lemma GroupEmpty(group: nat)
    ensures GroupVectors(group, 0) == {}
  {
    forall v: nat ensures v !in GroupVectors(group, 0) {
      GroupAt(group, 0, v);
      if 32 * group <= v {
        BitOfZero(v - 32 * group);
      }
    }
  }

  lemma GroupNonEmpty(group: nat, bits: nat)
    requires 0 < bits < 0x1_0000_0000
    ensures GroupVectors(group, bits) != {}
  {
    TopBitOut(group, bits);
  }

  /** Swapping word `i` out of `from` and merging it into `to` moves its vectors. */
  lemma MoveWord(to: seq<nat>, from: seq<nat>, i: nat)
    requires IsRegister(to) && IsRegister(from) && i < 8
    ensures var to', from' := to[i := Or(to[i], from[i])], from[i := 0];
      IsRegister(to') && IsRegister(from') &&
      VectorsOf(to') + VectorsOf(from') == VectorsOf(to) + VectorsOf(from)
  {
    var to', from' := to[i := Or(to[i], from[i])], from[i := 0];
    WordOr(to[i], from[i]);
    forall v: nat
      ensures v in VectorsOf(to') || v in VectorsOf(from') <==> v in VectorsOf(to) || v in VectorsOf(from)
    {
      VectorsAt(to, v);
      VectorsAt(to', v);
      VectorsAt(from, v);
      VectorsAt(from', v);
      BitOr(to[i], from[i], v % 32);
      BitOfZero(v % 32);
    }
  }

  ghost function InGroup(vectors: set<nat>, group: nat): set<nat>
  {
    set v | v in vectors && v / 32 == group
  }

  /** What the words of the in-service, trigger-mode and request registers read as. */
  ghost predicate Shows(a: M.Apic, register: nat, word: nat)
    requires 0x810 <= register <= 0x827
  {
    var group := register % 8;
    var vectors :=
      if register < 0x818 then Members(M.InService(a))
      else if register < 0x820 then a.tmr
      else a.irr;
    GroupVectors(group, word) == InGroup(vectors, group)
  }

  lemma MembersStep(s: seq<nat>, i: nat)
    requires i < |s|
    ensures Members(s[..i + 1]) == Members(s[..i]) + {s[i]}
  {
    assert s[..i + 1] == s[..i] + [s[i]];
  }

  lemma GroupInsert(group: nat, bits: nat, v: nat)
    requires bits < 0x1_0000_0000 && v / 32 == group
    ensures Or(bits, Pow2(v % 32)) < 0x1_0000_0000
    ensures GroupVectors(group, Or(bits, Pow2(v % 32))) == GroupVectors(group, bits) + {v}
  {
    WordBit(v % 32);
    WordOr(bits, Pow2(v % 32));
    forall u: nat
      ensures u in GroupVectors(group, Or(bits, Pow2(v % 32))) <==> u in GroupVectors(group, bits) || u == v
    {
      GroupAt(group, bits, u);
      GroupAt(group, Or(bits, Pow2(v % 32)), u);
      if 32 * group <= u < 32 * group + 32 {
        SetBitAt(bits, v % 32, u - 32 * group);
      }
    }
  }

  lemma MergeWord(to: seq<nat>, from: seq<nat>, i: nat)
    requires IsRegister(to) && IsRegister(from) && i < 8
    ensures var to' := to[i := Or(to[i], from[i])];
      IsRegister(to') && VectorsOf(to') == VectorsOf(to) + InGroup(VectorsOf(from), i)
  {
    var to' := to[i := Or(to[i], from[i])];
    WordOr(to[i], from[i]);
    forall v: nat
      ensures v in VectorsOf(to') <==> v in VectorsOf(to) || (v in VectorsOf(from) && v / 32 == i)
    {
      VectorsAt(to, v);
      VectorsAt(to', v);
      VectorsAt(from, v);
      BitOr(to[i], from[i], v % 32);
    }
  }

  /** The part of the doorbell page that takes over requested and in-service vectors. */
  class HostDescriptor {
    const irr: array<nat>
    const isr: array<nat>

    ghost predicate Valid()
      reads this, irr, isr
    {
      irr != isr && irr.Length == 7 && IsRegister([0] + irr[..]) && IsRegister(isr[..])
    }

    ghost function Requested(): set<nat>
      reads this, irr
    {
      VectorsOf([0] + irr[..])
    }

    ghost function InService(): set<nat>
      reads this, isr
    {
      VectorsOf(isr[..])
    }
  }

  /** An injected or queued vector that was not taken is the newest in service, and not 0. */
  lemma UndeliveredIsTop(a: M.Apic, g: M.Guest)
    requires M.Inv(a, g)
    ensures g.event.Interrupt? ==>
      0 < a.depth <= 15 < |a.slots| && a.slots[a.depth - 1] == g.event.vector && 0 < g.event.vector < 256
    ensures g.virq ==>
      0 < a.depth <= 15 < |a.slots| && a.slots[a.depth - 1] == g.virqVector && 0 < g.virqVector < 256
  {
    M.Unseal(a, g);
    if g.event.Interrupt? || g.virq {
      assert M.InService(a)[a.depth - 1] == M.Top(a);
    }
  }

  /** What an ICR value means for the CPU that writes it. */
  datatype IcrEffect = Rejected | OthersOnly | SelfVector(vector: nat) | SelfNmi

  /** The step of the run that a register write takes; a write that is refused still checks deliveries. */
  ghost function WriteStep(register: nat, value: nat, area: Option<M.Area>, icr: IcrEffect): M.Step
  {
    if register == 0x80B then M.WriteEoi(area)
    else if register == 0x808 && value < 256 then M.WriteTpr(area, value)
    else if register == 0x83F && value < 256 then M.PostSelf(area, value)
    else if register == 0x830 && icr.SelfVector? then M.PostSelf(area, icr.vector)
    else if register == 0x830 && icr.SelfNmi? then M.PostSelfNmi(area)
    else M.Read(area)
  }

  /** What a register write does once deliveries have been checked. */
  ghost function Written(step: M.Step, a: M.Apic, g: M.Guest): (M.Apic, M.Guest)
  {
    match step
    case WriteTpr(_, tpr) => (a, g.(tpr := tpr / 16))
    case WriteEoi(_) => (M.Eoi(a), g)
    case PostSelf(_, vector) => (M.Posted(a, vector, false), g)
    case PostSelfNmi(_) => (M.NmiPosted(a), g)
    case _ => (a, g)
  }

  lemma WriteAfterCheck(step: M.Step, a: M.Apic, g: M.Guest, area: Option<M.Area>)
    requires M.Inv(a, g) && M.Enabled(step, a, g)
    requires step.Read? || step.WriteTpr? || step.WriteEoi? || step.PostSelf? || step.PostSelfNmi?
    requires step.area == area
    ensures M.After(step, a, g) == Written(step, M.Checked(a, g, area).0, M.Checked(a, g, area).1)
  {
  }

  class LocalApic {
    const irr: array<nat>
    const allowedIrr: array<nat>
    const tmr: array<nat>
    const hostTmr: array<nat>
    const isrStack: array<nat>
    var isrStackIndex: nat
    var updateRequired: bool
    var interruptDelivered: bool
    var interruptQueued: bool
    var lazyEoiPending: bool
    var nmiPending: bool
    /** The vectors passed to the host's specific EOI call so far. */
    var hostEois: seq<nat>
    /** The vector that the guest was last told needs no EOI. */
    ghost var lazyVector: nat

    ghost function Repr(): set<object>
      reads this
    {
      {this, irr, allowedIrr, tmr, hostTmr, isrStack}
    }

    ghost predicate Valid()
      reads this, Repr()
    {
      && irr != allowedIrr && irr != tmr && irr != hostTmr && irr != isrStack
      && allowedIrr != tmr && allowedIrr != hostTmr && allowedIrr != isrStack
      && tmr != hostTmr && tmr != isrStack && hostTmr != isrStack
      && IsRegister(irr[..]) && IsRegister(allowedIrr[..])
      && IsRegister(tmr[..]) && IsRegister(hostTmr[..])
      && isrStack.Length == 16
    }

    /** The registers as sets of vectors. */
    ghost function State(): M.Apic
      reads this, Repr()
    {
      M.Apic(VectorsOf(irr[..]), VectorsOf(allowedIrr[..]), VectorsOf(tmr[..]), VectorsOf(hostTmr[..]),
             isrStack[..], isrStackIndex,
             updateRequired, interruptDelivered, interruptQueued, lazyEoiPending, nmiPending, hostEois, lazyVector)
    }

    constructor ()
      ensures Valid() && fresh(Repr())
      ensures State() == M.Apic({}, {}, {}, {}, seq(16, _ => 0), 0, false, false, false, false, false, [], 0)
    {
      irr := new nat[8](_ => 0);
      allowedIrr := new nat[8](_ => 0);
      tmr := new nat[8](_ => 0);
      hostTmr := new nat[8](_ => 0);
      isrStack := new nat[16](_ => 0);
      isrStackIndex := 0;
      updateRequired, interruptDelivered, interruptQueued := false, false, false;
      lazyEoiPending, nmiPending := false, false;
      hostEois, lazyVector := [], 0;
      new;
      NoVectors(irr[..]);
      NoVectors(allowedIrr[..]);
      NoVectors(tmr[..]);
      NoVectors(hostTmr[..]);
      assert isrStack[..] == seq(16, _ => 0);
    }

    /** The highest requested vector, or 0. */
    method ScanIrr() returns (vector: nat)
      requires Valid()
      ensures vector == M.Highest(State().irr)
    {
      var i := 8;
      while i > 0
        invariant i <= 8 && ZeroFrom(irr[..], i)
      {
        i := i - 1;
        if irr[i] != 0 {
          LastBitIsHighest(irr[..], i);
          vector := i * 32 + HighestBit(irr[i]);
          M.HighestUnique(vector, State().irr);
          return;
        }
      }
      vector := 0;
      NoVectors(irr[..]);
      M.HighestUnique(0, State().irr);
    }

    method RewindPendingInterrupt(irq: nat)
      requires Valid() && irq < 256
      requires 0 < isrStackIndex <= 16 && isrStack[isrStackIndex - 1] == irq
      modifies this, irr
      ensures Valid() && State() == M.Rewound(old(State()), irq)
    {
      var newIndex := isrStackIndex - 1;
      assert isrStack[newIndex] == irq;
      InsertVectorRegister(irr, irq);
      isrStackIndex := newIndex;
      updateRequired := true;
    }

    method PerformEoi()
      requires Valid() && M.Shape(State())
      modifies this, tmr, hostTmr
      ensures Valid() && State() == M.Eoi(old(State()))
    {
      if isrStackIndex == 0 {
        return;
      }
      isrStackIndex := isrStackIndex - 1;
      var vector := isrStack[isrStackIndex];
      var level := TestVectorRegister(tmr, vector);
      if level {
        var host := TestVectorRegister(hostTmr, vector);
        if host {
          hostEois := hostEois + [vector];
          RemoveVectorRegister(hostTmr, vector);
        }
        RemoveVectorRegister(tmr, vector);
      }
      updateRequired := true;
      lazyEoiPending := false;
    }

    method CheckDelivered(cpu: Vmsa)
      requires Valid() && M.Inv(State(), cpu.State()) && cpu !in Repr()
      modifies this, irr, cpu
      ensures Valid() && (State(), cpu.State()) == M.DeliveredChecked(old(State()), old(cpu.State()))
    {
      UndeliveredIsTop(State(), cpu.State());
      if interruptDelivered {
        var irq := cpu.CheckAndClearPendingInterruptEvent();
        if irq != 0 {
          RewindPendingInterrupt(irq);
          lazyEoiPending := false;
        }
        interruptDelivered := false;
      }
    }

    method CheckQueued(cpu: Vmsa)
      requires Valid() && M.Inv(State(), cpu.State()) && cpu !in Repr()
      modifies this, irr, cpu
      ensures Valid() && (State(), cpu.State()) == M.QueuedChecked(old(State()), old(cpu.State()))
    {
      UndeliveredIsTop(State(), cpu.State());
      if interruptQueued {
        var irq := cpu.CheckAndClearPendingVirtualInterrupt();
        if irq != 0 {
          RewindPendingInterrupt(irq);
          lazyEoiPending := false;
        }
        interruptQueued := false;
      }
    }

    method CheckLazyEoi(area: Option<M.Area>)
      requires Valid() && M.Shape(State()) && M.Lazy(State())
      modifies this, tmr, hostTmr
      ensures Valid() && State() == M.LazyChecked(old(State()), area)
    {
      if lazyEoiPending {
        if area.Some? && area.value.readable {
          if area.value.noEoiRequired == 0 {
            assert isrStackIndex != 0;
            PerformEoi();
          }
        }
      }
    }

    /** What was delivered or queued and not taken is rewound; a lazy EOI is honoured. */
    method CheckDeliveredInterrupts(cpu: Vmsa, area: Option<M.Area>)
      requires Valid() && M.Inv(State(), cpu.State()) && cpu !in Repr()
      modifies this, irr, tmr, hostTmr, cpu
      ensures Valid() && (State(), cpu.State()) == M.Checked(old(State()), old(cpu.State()), area)
    {
      M.DeliveredKeepsInv(State(), cpu.State());
      M.RewindsKeepInv(State(), cpu.State());
      CheckDelivered(cpu);
      CheckQueued(cpu);
      M.Unseal(State(), cpu.State());
      CheckLazyEoi(area);
    }

    method GetPprWithTpr(tpr: nat) returns (ppr: nat)
      requires Valid() && isrStackIndex <= 15
      ensures ppr == M.Ppr(State(), tpr)
    {
      ppr := if isrStackIndex != 0 then isrStack[isrStackIndex] else 0;
      if ppr / 16 <= tpr / 16 {
        ppr := tpr;
      }
    }

    method DeliverInterruptImmediately(irq: nat, cpu: Vmsa) returns (r: bool)
      requires Valid() && isrStackIndex <= 15 && cpu !in Repr()
      modifies cpu
      ensures r <==> M.CanInject(State(), old(cpu.State()), irq)
      ensures cpu.State() == if r then old(cpu.State()).(event := M.Interrupt(irq)) else old(cpu.State())
    {
      if !cpu.interruptFlag || cpu.intShadow {
        return false;
      }
      var tpr := cpu.GetTpr();
      var ppr := GetPprWithTpr(tpr);
      if irq / 16 <= ppr / 16 {
        return false;
      }
      r := cpu.TryDeliverInterruptImmediately(irq);
    }

    method PostInterrupt(irq: nat, levelSensitive: bool)
      requires Valid() && irq < 256
      modifies this`updateRequired, irr, tmr
      ensures Valid() && State() == M.Posted(old(State()), irq, levelSensitive)
    {
      InsertVectorRegister(irr, irq);
      if levelSensitive {
        InsertVectorRegister(tmr, irq);
      }
      updateRequired := true;
    }

    method ConfigureVector(vector: nat, allowed: bool)
      requires Valid() && vector < 256
      modifies allowedIrr
      ensures Valid()
      ensures State() == old(State()).(allowed :=
        if allowed then old(State()).allowed + {vector} else old(State()).allowed - {vector})
    {
      if allowed {
        InsertVectorRegister(allowedIrr, vector);
      } else {
        RemoveVectorRegister(allowedIrr, vector);
      }
    }

    method SignalOneHostInterrupt(vector: nat, levelSensitive: bool) returns (r: bool)
      requires Valid() && vector < 256
      modifies this`updateRequired, irr, tmr
      ensures Valid() && (r <==> vector in old(State()).allowed)
      ensures State() == if r then M.Posted(old(State()), vector, levelSensitive) else old(State())
    {
      r := TestVectorRegister(allowedIrr, vector);
      if r {
        PostInterrupt(vector, levelSensitive);
      }
    }

    method SignalSeveralInterrupts(group: nat, bits: nat)
      requires Valid() && group < 8 && bits < 0x1_0000_0000
      modifies this`updateRequired, irr, tmr
      ensures Valid() && State() == M.EdgesPosted(old(State()), GroupVectors(group, bits))
    {
      var left := bits;
      ghost var before := State();
      while left != 0
        invariant left < 0x1_0000_0000 && Valid()
        invariant State() == before.(irr := State().irr, updateRequired := updateRequired)
        invariant State().irr + GroupVectors(group, left) == before.irr + GroupVectors(group, bits)
        invariant updateRequired == (before.updateRequired || left != bits)
        decreases left
      {
        var index := HighestBit(left);
        TopBitOut(group, left);
        left := AndNot(left, Pow2(index));
        PostInterrupt(32 * group + index, false);
      }
      GroupEmpty(group);
      if bits != 0 {
        GroupNonEmpty(group, bits);
      }
    }

    method ConsumeHostInterrupts(doorbell: Doorbell)
      requires Valid() && doorbell.Valid()
      modifies this`updateRequired, irr, tmr, hostTmr
      ensures Valid() && State() == M.HostConsumed(old(State()), HostEventsOf(doorbell))
    {
      if doorbell.level.Some? {
        var signalled := SignalOneHostInterrupt(doorbell.level.value, true);
        if signalled {
          InsertVectorRegister(hostTmr, doorbell.level.value);
        }
      }
      if doorbell.multiple {
        SignalMultiple(doorbell);
      } else if doorbell.pending != 0 {
        M.EdgesOne(State(), doorbell.pending);
        var _ := SignalOneHostInterrupt(doorbell.pending, false);
      }
    }

    method SignalMultiple(doorbell: Doorbell)
      requires Valid() && doorbell.Valid() && doorbell.multiple
      modifies this`updateRequired, irr, tmr
      ensures Valid()
      ensures State() == M.EdgesPosted(old(State()), HostEventsOf(doorbell).edges * old(State()).allowed)
    {
      ghost var before := State();
      ghost var words := [0] + doorbell.words;
      ghost var vector31 := if doorbell.vector31 then {31} else {};
      ghost var edges := vector31 * before.allowed;
      if doorbell.vector31 {
        M.EdgesOne(before, 31);
        var _ := SignalOneHostInterrupt(31, false);
      }
      GroupsBelowStart(words, before.allowed);
      for i := 1 to 8
        invariant Valid() && State() == M.EdgesPosted(before, edges)
        invariant edges == vector31 * before.allowed + GroupsBelow(words, i) * before.allowed
      {
        GroupsBelowStep(words, allowedIrr[..], i);
        ghost var group := GroupVectors(i, And(words[i], allowedIrr[i]));
        SignalSeveralInterrupts(i, And(doorbell.words[i - 1], allowedIrr[i]));
        M.EdgesTwice(before, edges, group);
        edges := edges + group;
      }
      GroupsBelowEnd(words);
      assert edges == (vector31 + VectorsOf(words)) * before.allowed;
    }

    /** Every requested vector moves over, word by word. */
    method TakeRequestWords(shared: PerCpuShared)
      requires Valid() && shared.Valid() && {shared, shared.ipiIrr} !! Repr()
      modifies irr, shared.ipiIrr
      ensures Valid() && shared.Valid() && shared.Requested() == {}
      ensures VectorsOf(irr[..]) == old(VectorsOf(irr[..])) + old(shared.Requested())
    {
      for i := 0 to 8
        invariant IsRegister(irr[..]) && shared.Valid()
        invariant VectorsOf(irr[..]) + shared.Requested() == old(VectorsOf(irr[..])) + old(shared.Requested())
        invariant forall w :: 0 <= w < i ==> shared.ipiIrr[w] == 0
      {
        MoveWord(irr[..], shared.ipiIrr[..], i);
        var word := shared.SwapWord(i);
        irr[i] := Or(irr[i], word);
      }
      NoVectors(shared.ipiIrr[..]);
    }

    method ConsumePendingIpis(shared: PerCpuShared)
      requires Valid() && shared.Valid() && {shared, shared.ipiIrr} !! Repr()
      modifies this`updateRequired, this`nmiPending, irr, shared`nmiPending, shared.ipiIrr
      ensures Valid() && shared.Valid() && shared.Requested() == {} && !shared.nmiPending
      ensures State() ==
        M.RequestsConsumed(old(State()), Some(M.Requests(old(shared.Requested()), old(shared.nmiPending))))
    {
      TakeRequestWords(shared);
      var nmi := shared.SwapNmi();
      if nmi {
        nmiPending := true;
      }
      updateRequired := true;
    }

    /** Injects `irq` or queues it; says whether a lazy EOI can be attempted. */
    method Inject(irq: nat, cpu: Vmsa) returns (tryLazyEoi: bool)
      requires Valid() && isrStackIndex <= 15 && cpu !in Repr()
      modifies this, cpu
      ensures Valid()
      ensures var inject := M.CanInject(old(State()), old(cpu.State()), irq);
        && tryLazyEoi == (inject || isrStackIndex == 0)
        && State() == old(State()).(delivered := old(interruptDelivered) || inject,
                                    queued := old(interruptQueued) || !inject)
        && cpu.State() == if inject then old(cpu.State()).(event := M.Interrupt(irq))
                          else old(cpu.State()).(virq := true, virqVector := irq)
    {
      tryLazyEoi := DeliverInterruptImmediately(irq, cpu);
      if tryLazyEoi {
        interruptDelivered := true;
      } else {
        cpu.QueueInterrupt(irq);
        interruptQueued := true;
        tryLazyEoi := isrStackIndex == 0;
      }
    }

    method EnterService(irq: nat)
      requires Valid() && irq < 256 && isrStackIndex < 16
      modifies this`isrStackIndex, irr, isrStack
      ensures Valid()
      ensures State() == old(State()).(irr := old(State()).irr - {irq},
                                       slots := old(State()).slots[old(isrStackIndex) := irq],
                                       depth := old(isrStackIndex) + 1)
    {
      RemoveVectorRegister(irr, irq);
      isrStack[isrStackIndex] := irq;
      isrStackIndex := isrStackIndex + 1;
    }

    /** Puts `irq` in service and injects or queues it. */
    method Accept(irq: nat, cpu: Vmsa, area: Option<M.Area>) returns (area': Option<M.Area>)
      requires Valid() && isrStackIndex <= 15 && cpu !in Repr()
      requires irq == M.Highest(State().irr) && irq < 256 && !lazyEoiPending
      modifies this, irr, isrStack, cpu
      ensures Valid() && (State(), cpu.State()) == M.Accepted(old(State()), old(cpu.State()), M.Usable(area))
      ensures area' == if lazyEoiPending then Some(area.value.(noEoiRequired := 1)) else area
    {
      var tryLazyEoi := Inject(irq, cpu);
      EnterService(irq);
      area' := SetUpLazyEoi(irq, tryLazyEoi, area);
    }

    /** A lazy EOI is set up for an edge-triggered vector when nothing else waits for its EOI. */
    method SetUpLazyEoi(irq: nat, tryLazyEoi: bool, area: Option<M.Area>) returns (area': Option<M.Area>)
      requires Valid() && irq < 256 && !lazyEoiPending
      modifies this`lazyEoiPending, this`lazyVector
      ensures lazyEoiPending <==>
        && tryLazyEoi && irq !in State().tmr && M.Highest(State().irr) == 0
        && M.Usable(area)
      ensures lazyVector == if lazyEoiPending then irq else old(lazyVector)
      ensures area' == if lazyEoiPending then Some(area.value.(noEoiRequired := 1)) else area
    {
      area' := area;
      var level := TestVectorRegister(tmr, irq);
      if tryLazyEoi && !level {
        var next := ScanIrr();
        if next == 0 {
          if M.Usable(area) {
            area' := Some(area.value.(noEoiRequired := 1));
            lazyEoiPending := true;
            lazyVector := irq;
          }
        }
      }
    }

    method PresentNmi(cpu: Vmsa)
      requires Valid() && cpu !in Repr()
      modifies this`nmiPending, cpu
      ensures Valid() && (State(), cpu.State()) == M.WithNmi(old(State()), old(cpu.State()))
    {
      if nmiPending {
        cpu.RequestNmi();
        nmiPending := false;
      }
    }

    /** Accepts the highest requested vector if it outranks the one in service. */
    method ChooseVector(cpu: Vmsa, area: Option<M.Area>) returns (area': Option<M.Area>)
      requires Valid() && isrStackIndex <= 15 && cpu !in Repr()
      modifies this, irr, isrStack, cpu
      ensures Valid()
      ensures var a := old(State()).(lazyEoi := false);
        (State(), cpu.State()) ==
          if M.Accepts(a) then M.Accepted(a, old(cpu.State()), M.Usable(area)) else (a, old(cpu.State()))
      ensures area' == M.AreaPresented(old(State()).(updateRequired := true), State(), area)
    {
      var irq := ScanIrr();
      var currentPriority := if isrStackIndex != 0 then isrStack[isrStackIndex - 1] else 0;
      lazyEoiPending := false;
      ghost var a := State();
      assert a == old(State()).(lazyEoi := false) && currentPriority == M.Top(a);
      area' := ClearGuestEoiPending(area);
      if irq / 16 <= currentPriority / 16 {
        assert !M.Accepts(a);
        return;
      }
      assert M.Accepts(a);
      area' := Accept(irq, cpu, area');
    }

    /** The part of `PresentInterrupts` that follows the checks. */
    method Choose(cpu: Vmsa, area: Option<M.Area>) returns (area': Option<M.Area>)
      requires Valid() && isrStackIndex <= 15 && cpu !in Repr()
      requires updateRequired
      modifies this, irr, isrStack, cpu
      ensures Valid() && (State(), cpu.State()) == M.Chosen(old(State()), old(cpu.State()), area)
      ensures area' == M.AreaPresented(old(State()), State(), area)
    {
      updateRequired := false;
      PresentNmi(cpu);
      area' := ChooseVector(cpu, area);
    }

    /** Takes over what the host and other CPUs have requested. */
    method ConsumeRequests(doorbell: Doorbell, shared: PerCpuShared)
      requires Valid() && doorbell.Valid() && shared.Valid() && {shared, shared.ipiIrr} !! Repr()
      modifies this`updateRequired, this`nmiPending, irr, tmr, hostTmr, shared, shared.ipiIrr
      ensures Valid() && shared.Valid() && !shared.ipiPending
      ensures State() == M.Consumed(old(State()), HostEventsOf(doorbell), old(RequestsOf(shared)))
    {
      ConsumeHostInterrupts(doorbell);
      var pending := shared.SwapPending();
      if pending {
        ConsumePendingIpis(shared);
      }
    }

    /** Presents what is due, once the requests have been taken over. */
    method Deliver(cpu: Vmsa, area: Option<M.Area>) returns (area': Option<M.Area>)
      requires Valid() && M.Inv(State(), cpu.State()) && cpu !in Repr()
      modifies this, irr, tmr, hostTmr, isrStack, cpu
      ensures Valid() && (State(), cpu.State()) == M.Presented(old(State()), old(cpu.State()), area)
      ensures area' == M.AreaPresented(old(State()), State(), area)
    {
      area' := area;
      if updateRequired {
        M.CheckedKeepsInv(State(), cpu.State(), area);
        CheckDeliveredInterrupts(cpu, area);
        M.Unseal(State(), cpu.State());
        area' := Choose(cpu, area);
      }
    }

    /** Delivers what is due: afterwards no pass is due and nothing deliverable waits. */
    method PresentInterrupts(doorbell: Doorbell, shared: PerCpuShared, cpu: Vmsa, area: Option<M.Area>)
        returns (area': Option<M.Area>)
      requires Valid() && doorbell.Valid() && shared.Valid() && M.Inv(State(), cpu.State())
      requires cpu !in Repr() && {shared, shared.ipiIrr} !! Repr()
      modifies this, irr, tmr, hostTmr, isrStack, cpu, shared, shared.ipiIrr
      ensures Valid() && shared.Valid() && !shared.ipiPending
      ensures var step := M.Present(HostEventsOf(doorbell), old(RequestsOf(shared)), area);
        && M.Enabled(step, old(State()), old(cpu.State()))
        && (State(), cpu.State()) == M.After(step, old(State()), old(cpu.State()))
        && area' == M.AreaPresented(M.Consumed(old(State()), step.host, step.requests), State(), area)
      ensures !updateRequired && M.Inv(State(), cpu.State())
    {
      M.ConsumedKeepsInv(State(), cpu.State(), HostEventsOf(doorbell), RequestsOf(shared), area);
      ConsumeRequests(doorbell, shared);
      M.PresentedKeepsInv(State(), cpu.State(), area);
      area' := Deliver(cpu, area);
    }

    /** Word `index` of the in-service register. */
    method GetIsr(index: nat) returns (value: nat)
      requires Valid() && M.Shape(State())
      ensures value < 0x1_0000_0000
      ensures GroupVectors(index, value) == InGroup(Members(M.InService(State())), index)
    {
      value := 0;
      GroupEmpty(index);
      for i := 0 to isrStackIndex
        invariant value < 0x1_0000_0000
        invariant GroupVectors(index, value) == InGroup(Members(isrStack[..i]), index)
      {
        MembersStep(isrStack[..], i);
        if isrStack[i] / 32 == index {
          GroupInsert(index, value, isrStack[i]);
          value := Or(value, Pow2(isrStack[i] % 32));
        }
      }
    }

    method ReadVectorRegister(register: nat) returns (word: nat)
      requires Valid() && M.Shape(State()) && 0x810 <= register <= 0x827
      ensures Shows(State(), register, word)
    {
      if register >= 0x820 {
        WordHolds(irr[..], register - 0x820);
        word := irr[register - 0x820];
      } else if register >= 0x818 {
        WordHolds(tmr[..], register - 0x818);
        word := tmr[register - 0x818];
      } else {
        word := GetIsr(register - 0x810);
      }
    }

    /**
     Undelivered vectors are rewound first, so the registers show them as requested. `None` stands
     for the emulation error; `icr` and `apicId` are held outside the interrupt state.
     */
    method ReadRegister(cpu: Vmsa, area: Option<M.Area>, register: nat, icr: nat, apicId: nat) returns (r: Option<nat>)
      requires Valid() && M.Inv(State(), cpu.State()) && cpu !in Repr()
      modifies this, irr, tmr, hostTmr, cpu
      ensures Valid() && (State(), cpu.State()) == M.After(M.Read(area), old(State()), old(cpu.State()))
      ensures r.Some? <==>
        0x810 <= register <= 0x827 || register in {0x802, 0x808, 0x80A, 0x830}
      ensures 0x810 <= register <= 0x827 ==> Shows(State(), register, r.value)
      ensures register == 0x802 ==> r.value == apicId
      ensures register == 0x808 ==> r.value == 16 * cpu.State().tpr
      ensures register == 0x830 ==> r.value == icr
      ensures register == 0x80A ==>
        M.Shape(State()) && r.value == M.Ppr(State(), 16 * cpu.State().tpr)
    {
      M.CheckedKeepsInv(State(), cpu.State(), area);
      CheckDeliveredInterrupts(cpu, area);
      M.Unseal(State(), cpu.State());
      if register == 0x830 {
        r := Some(icr);
      } else if register == 0x802 {
        r := Some(apicId);
      } else if 0x810 <= register <= 0x827 {
        var word := ReadVectorRegister(register);
        r := Some(word);
      } else if register == 0x808 {
        var tpr := cpu.GetTpr();
        r := Some(tpr);
      } else if register == 0x80A {
        var tpr := cpu.GetTpr();
        var ppr := GetPprWithTpr(tpr);
        r := Some(ppr);
      } else {
        r := None;
      }
    }

    /**
     `false` stands for the emulation error. `icr` is what the routing of an ICR value decides for
     this CPU.
     */
    method WriteRegister(cpu: Vmsa, area: Option<M.Area>, register: nat, value: nat, icr: IcrEffect) returns (ok: bool)
      requires Valid() && M.Inv(State(), cpu.State()) && cpu !in Repr()
      requires icr.SelfVector? ==> icr.vector < 256
      modifies this, irr, tmr, hostTmr, cpu
      ensures Valid() && M.Inv(State(), cpu.State())
      ensures ok <==> || register == 0x80B
                      || (register in {0x808, 0x83F} && value < 256)
                      || (register == 0x830 && !icr.Rejected?)
      ensures M.Enabled(WriteStep(register, value, area, icr), old(State()), old(cpu.State()))
      ensures (State(), cpu.State()) == M.After(WriteStep(register, value, area, icr), old(State()), old(cpu.State()))
    {
      M.StepKeepsInv(WriteStep(register, value, area, icr), State(), cpu.State());
      M.CheckedKeepsInv(State(), cpu.State(), area);
      WriteAfterCheck(WriteStep(register, value, area, icr), State(), cpu.State(), area);
      CheckDeliveredInterrupts(cpu, area);
      assert M.Shape(State()) by { M.Unseal(State(), cpu.State()); }
      ok := ApplyWrite(cpu, register, value, icr, area);
    }

    /** The part of a register write that follows the check. */
    method ApplyWrite(cpu: Vmsa, register: nat, value: nat, icr: IcrEffect, ghost area: Option<M.Area>) returns (ok: bool)
      requires Valid() && M.Shape(State()) && cpu !in Repr()
      requires icr.SelfVector? ==> icr.vector < 256
      modifies this, irr, tmr, hostTmr, cpu
      ensures Valid()
      ensures ok <==> || register == 0x80B
                      || (register in {0x808, 0x83F} && value < 256)
                      || (register == 0x830 && !icr.Rejected?)
      ensures (State(), cpu.State()) == Written(WriteStep(register, value, area, icr), old(State()), old(cpu.State()))
    {
      ok := true;
      if register == 0x808 {
        if value >= 256 {
          return false;
        }
        cpu.SetTpr(value);
      } else if register == 0x80B {
        PerformEoi();
      } else if register == 0x830 {
        ok := WriteIcr(icr);
      } else if register == 0x83F {
        if value >= 256 {
          return false;
        }
        PostInterrupt(value, false);
      } else {
        ok := false;
      }
    }

    /** What a write to the ICR does on this CPU. */
    method WriteIcr(icr: IcrEffect) returns (ok: bool)
      requires Valid() && (icr.SelfVector? ==> icr.vector < 256)
      modifies this`updateRequired, this`nmiPending, irr, tmr
      ensures Valid() && ok == !icr.Rejected?
      ensures State() == match icr
        case SelfVector(v) => M.Posted(old(State()), v, false)
        case SelfNmi => M.NmiPosted(old(State()))
        case _ => old(State())
    {
      match icr {
        case Rejected => return false;
        case OthersOnly =>
        case SelfVector(v) => PostInterrupt(v, false);
        case SelfNmi =>
          nmiPending := true;
          updateRequired := true;
      }
      ok := true;
    }

    method HandoffIrr(host: HostDescriptor)
      requires Valid() && host.Valid() && {host.irr, host.isr} !! Repr()
      modifies host.irr
      ensures host.Valid()
      ensures host.Requested() == old(host.Requested()) + (set v | v in State().irr && 32 <= v)
    {
      ghost var requested := State().irr;
      for i := 1 to 8
        invariant host.Valid()
        invariant host.Requested() == old(host.Requested()) + (set v | v in requested && 32 <= v < 32 * i)
      {
        ghost var before := [0] + host.irr[..];
        MergeWord(before, irr[..], i);
        host.irr[i - 1] := Or(host.irr[i - 1], irr[i]);
        assert [0] + host.irr[..] == before[i := Or(before[i], irr[i])];
      }
    }

    method HandoffIsr(host: HostDescriptor)
      requires Valid() && M.Shape(State()) && host.Valid() && {host.irr, host.isr} !! Repr()
      modifies host.isr
      ensures host.Valid()
      ensures host.InService() == Members(M.InService(State()))
    {
      var newIsr := new nat[8](_ => 0);
      NoVectors(newIsr[..]);
      for i := 0 to isrStackIndex
        invariant fresh(newIsr) && host.Valid()
        invariant IsRegister(newIsr[..]) && VectorsOf(newIsr[..]) == Members(isrStack[..i])
      {
        MembersStep(isrStack[..], i);
        InsertVectorRegister(newIsr, isrStack[i]);
      }
      ghost var collected := newIsr[..];
      for i := 0 to 8
        invariant newIsr[..] == collected && host.isr[..i] == collected[..i]
      {
        host.isr[i] := newIsr[i];
      }
      assert host.isr[..] == collected;
    }

    /** Hands the vectors in service, and those requested in words 1 to 7, over to the host. */
    method HandoffToHost(host: HostDescriptor)
      requires Valid() && M.Shape(State()) && host.Valid() && {host.irr, host.isr} !! Repr()
      modifies host.irr, host.isr
      ensures host.InService() == Members(M.InService(State()))
      ensures host.Requested() == old(host.Requested()) + (set v | v in State().irr && 32 <= v)
    {
      HandoffIrr(host);
      HandoffIsr(host);
    }
  }

  method ClearGuestEoiPending(area: Option<M.Area>) returns (area': Option<M.Area>)
    ensures area' == if M.Usable(area)
      then Some(area.value.(noEoiRequired := 0)) else area
  {
    area' := area;
    if M.Usable(area) {
      area' := Some(area.value.(noEoiRequired := 0));
    }
  }
}
