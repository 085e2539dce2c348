/**
 The emulated local APIC on values: request registers as sets of vectors, the
 in-service stack, and the guest CPU state through which interrupts are injected.
 The invariant proved here holds in every state any run can reach.
 */
module ApicModel {
  import opened Collections

  /** What the VMSA's event injection field holds. */
  datatype Event = NoEvent | Nmi | Interrupt(vector: nat)

  /** The guest CPU state the APIC works on. */
  datatype Guest = Guest(
    event: Event,
    virq: bool,
    virqVector: nat,
    tpr: nat,
    interruptsEnabled: bool,
    inShadow: bool)

  /** The guest's calling area; an access can fail. */
  datatype Area = Area(noEoiRequired: nat, readable: bool, writable: bool)

  datatype Apic = Apic(
    irr: set<nat>,
    allowed: set<nat>,
    tmr: set<nat>,
    hostTmr: set<nat>,
    slots: seq<nat>,
    depth: nat,
    updateRequired: bool,
    delivered: bool,
    queued: bool,
    lazyEoi: bool,
    nmi: bool,
    // history: the vectors acknowledged to the host, and the vector that the guest was last
    // told needs no EOI
    hostEois: seq<nat>,
    lazyVector: nat)

  /** One pass over the host's doorbell page. */
  datatype HostEvents = HostEvents(level: Option<nat>, edges: set<nat>)

  /** Requests other CPUs have left for this one. */
  datatype Requests = Requests(vectors: set<nat>, nmi: bool)

  function PriorityClass(vector: nat): nat
  {
    vector / 16
  }

  /** The vectors in service. */
  ghost function InService(a: Apic): seq<nat>
  {
    if a.depth <= |a.slots| then a.slots[..a.depth] else []
  }

  ghost function Vectors(a: Apic): set<nat>
  {
    a.irr + Members(InService(a))
  }

  ghost function Top(a: Apic): nat
  {
    if 0 < a.depth <= |a.slots| then a.slots[a.depth - 1] else 0
  }

  ghost predicate IsHighest(v: nat, s: set<nat>)
  {
    (v in s || v == 0) && forall w :: w in s ==> w <= v
  }

  /** `scan_irr`: the highest member, or 0. */
  ghost function Highest(s: set<nat>): (v: nat)
    ensures IsHighest(v, s)
  {
    HighestExists(s);
    var v :| IsHighest(v, s);
    v
  }

  lemma {:induction false} HighestExists(s: set<nat>)
    ensures exists v :: IsHighest(v, s)
    decreases |s|
  {
    if s == {} {
      assert IsHighest(0, s);
    } else {
      var x :| x in s;
      HighestExists(s - {x});
      var v :| IsHighest(v, s - {x});
      assert s == (s - {x}) + {x};
      assert IsHighest(if v < x then x else v, s);
    }
  }

  lemma HighestUnique(v: nat, s: set<nat>)
    requires IsHighest(v, s)
    ensures v == Highest(s)
  {
  }

  // ---- operations ----

  ghost function Posted(a: Apic, vector: nat, level: bool): Apic
  {
    a.(irr := a.irr + {vector},
       tmr := if level then a.tmr + {vector} else a.tmr,
       updateRequired := true)
  }

  ghost function EdgesPosted(a: Apic, vectors: set<nat>): Apic
  {
    if vectors == {} then a else a.(irr := a.irr + vectors, updateRequired := true)
  }

  lemma EdgesTwice(a: Apic, one: set<nat>, two: set<nat>)
    ensures EdgesPosted(EdgesPosted(a, one), two) == EdgesPosted(a, one + two)
  {
    assert a.irr + one + two == a.irr + (one + two);
    assert one == {} ==> one + two == two;
    assert two == {} ==> one + two == one;
  }

  lemma EdgesOne(a: Apic, vector: nat)
    ensures EdgesPosted(a, {vector} * a.allowed) ==
      if vector in a.allowed then Posted(a, vector, false) else a
  {
    assert {vector} * a.allowed == if vector in a.allowed then {vector} else {};
  }

  ghost function NmiPosted(a: Apic): Apic
  {
    a.(nmi := true, updateRequired := true)
  }

  /** The source's own assertion, that `vector` is the newest in service, is the precondition. */
  ghost function Rewound(a: Apic, vector: nat): Apic
    requires 0 < a.depth <= |a.slots| && a.slots[a.depth - 1] == vector
  {
    a.(irr := a.irr + {vector}, depth := a.depth - 1, updateRequired := true)
  }

  ghost function Eoi(a: Apic): Apic
  {
    if a.depth == 0 then
      a
    else
      var v := Top(a);
      a.(depth := a.depth - 1,
         tmr := a.tmr - {v},
         hostTmr := if v in a.tmr then a.hostTmr - {v} else a.hostTmr,
         hostEois := if v in a.tmr && v in a.hostTmr then a.hostEois + [v] else a.hostEois,
         updateRequired := true,
         lazyEoi := false)
  }

  ghost function HostConsumed(a: Apic, events: HostEvents): Apic
  {
    var afterLevel :=
      if events.level.Some? && events.level.value in a.allowed then
        Posted(a, events.level.value, true).(hostTmr := a.hostTmr + {events.level.value})
      else
        a;
    EdgesPosted(afterLevel, events.edges * a.allowed)
  }

  ghost function RequestsConsumed(a: Apic, requests: Option<Requests>): Apic
  {
    match requests
    case None => a
    case Some(r) => a.(irr := a.irr + r.vectors, nmi := a.nmi || r.nmi, updateRequired := true)
  }

  // ---- the guest CPU state ----

  /** What running the guest can do: an injected event is taken or still there, the rest is free. */
  ghost predicate GuestMay(g: Guest, g': Guest)
  {
    && (g'.event == g.event || g'.event == NoEvent)
    && (g'.virq ==> g.virq && g'.virqVector == g.virqVector)
    && g'.tpr < 16
  }

  // ---- delivery ----

  ghost function DeliveredChecked(a: Apic, g: Guest): (Apic, Guest)
    requires Inv(a, g)
  {
    Unseal(a, g);
    if a.delivered && g.event.Interrupt? then
      (Rewound(a, g.event.vector).(lazyEoi := false, delivered := false), g.(event := NoEvent))
    else
      (a.(delivered := false), g)
  }

  ghost function QueuedChecked(a: Apic, g: Guest): (Apic, Guest)
    requires Inv(a, g)
  {
    Unseal(a, g);
    if a.queued && g.virq then
      (Rewound(a, g.virqVector).(lazyEoi := false, queued := false), g.(virq := false))
    else
      (a.(queued := false), g)
  }

  predicate Usable(area: Option<Area>)
  {
    area.Some? && area.value.readable && area.value.writable
  }

  ghost predicate EoiRequested(area: Option<Area>)
  {
    area.Some? && area.value.readable && area.value.noEoiRequired == 0
  }

  ghost function LazyChecked(a: Apic, area: Option<Area>): Apic
    requires Shape(a)
  {
    if a.lazyEoi && EoiRequested(area) then Eoi(a) else a
  }

  ghost function Rewinds(a: Apic, g: Guest): (Apic, Guest)
    requires Inv(a, g)
  {
    DeliveredKeepsInv(a, g);
    var (a1, g1) := DeliveredChecked(a, g);
    QueuedChecked(a1, g1)
  }

  /** `check_delivered_interrupts` */
  ghost function Checked(a: Apic, g: Guest, area: Option<Area>): (Apic, Guest)
    requires Inv(a, g)
  {
    RewindsKeepInv(a, g);
    var (a1, g1) := Rewinds(a, g);
    Unseal(a1, g1);
    (LazyChecked(a1, area), g1)
  }

  /** The source reads the slot above the newest vector in service. */
  ghost function Ppr(a: Apic, tpr: nat): nat
    requires |a.slots| == 16 && a.depth <= 15
  {
    var ppr := if a.depth != 0 then a.slots[a.depth] else 0;
    if PriorityClass(ppr) > PriorityClass(tpr) then ppr else tpr
  }

  ghost predicate CanInject(a: Apic, g: Guest, vector: nat)
    requires |a.slots| == 16 && a.depth <= 15
  {
    && g.interruptsEnabled
    && !g.inShadow
    && PriorityClass(vector) > PriorityClass(Ppr(a, 16 * g.tpr))
    && g.event.NoEvent?
  }

  ghost function WithNmi(a: Apic, g: Guest): (Apic, Guest)
  {
    if a.nmi then (a.(nmi := false), g.(event := Nmi)) else (a, g)
  }

  /** The highest requested vector goes into service and is injected or queued. */
  ghost function Accepted(a: Apic, g: Guest, areaUsable: bool): (Apic, Guest)
    requires |a.slots| == 16 && a.depth <= 15
  {
    var vector := Highest(a.irr);
    var inject := CanInject(a, g, vector);
    var irr := a.irr - {vector};
    var lazy := && (inject || a.depth == 0)
                && vector !in a.tmr
                && Highest(irr) == 0
                && areaUsable;
    (a.(irr := irr,
        slots := a.slots[a.depth := vector],
        depth := a.depth + 1,
        delivered := a.delivered || inject,
        queued := a.queued || !inject,
        lazyEoi := lazy,
        lazyVector := if lazy then vector else a.lazyVector),
     if inject then g.(event := Interrupt(vector))
     else g.(virq := true, virqVector := vector))
  }

  ghost predicate Accepts(a: Apic)
  {
    PriorityClass(Highest(a.irr)) > PriorityClass(Top(a))
  }

  /** The part of `present_interrupts` that follows the checks. */
  ghost function Chosen(a: Apic, g: Guest, area: Option<Area>): (Apic, Guest)
    requires |a.slots| == 16 && a.depth <= 15
  {
    var (a1, g1) := WithNmi(a.(updateRequired := false), g);
    var a2 := a1.(lazyEoi := false);
    if Accepts(a2) then Accepted(a2, g1, Usable(area)) else (a2, g1)
  }

  /** `present_interrupts` once the requests have been consumed. */
  ghost function Presented(a: Apic, g: Guest, area: Option<Area>): (Apic, Guest)
    requires Inv(a, g)
  {
    if !a.updateRequired then
      (a, g)
    else
      CheckedKeepsInv(a, g, area);
      var (a1, g1) := Checked(a, g, area);
      Unseal(a1, g1);
      Chosen(a1, g1, area)
  }

  /** The guest's flag after a pass: set exactly when a lazy EOI was set up. */
  ghost function AreaPresented(a: Apic, a': Apic, area: Option<Area>): Option<Area>
  {
    if a.updateRequired && Usable(area) then
      Some(area.value.(noEoiRequired := if a'.lazyEoi then 1 else 0))
    else
      area
  }

  // ---- the invariant ----

  ghost predicate Rising(s: seq<nat>)
  {
    && (forall i :: 0 <= i < |s| ==> 0 < PriorityClass(s[i]))
    && (forall i, j :: 0 <= i < j < |s| ==> PriorityClass(s[i]) < PriorityClass(s[j]))
  }

  /** The in-service stack: 16 slots, those in use strictly rising in priority class. */
  ghost predicate Shape(a: Apic)
  {
    && |a.slots| == 16
    && a.depth <= 15
    && (forall i :: 0 <= i < 16 ==> a.slots[i] < 256)
    && (forall v :: v in a.irr ==> v < 256)
    && Rising(InService(a))
  }

  /** An undelivered injection is the newest vector in service, by the one way its flag says. */
  ghost predicate Injected(a: Apic, g: Guest)
  {
    && !(a.delivered && a.queued)
    && (g.event.Interrupt? ==> a.delivered && 0 < a.depth && g.event.vector == Top(a))
    && (g.virq ==> a.queued && 0 < a.depth && g.virqVector == Top(a))
  }

  /** Level-triggered vectors are still requested or in service. */
  ghost predicate Levels(a: Apic)
  {
    a.hostTmr <= a.tmr <= Vectors(a)
  }

  /** Nothing waits that should have been presented. */
  ghost predicate NotStranded(a: Apic)
  {
    !a.updateRequired ==>
      && !a.nmi
      && forall v :: v in a.irr ==> PriorityClass(v) <= PriorityClass(Top(a))
  }

  /**
   A lazy EOI stands only for the newest vector in service, the one it was set up for; if it may still be undelivered it is the
   only one, so the guest's EOI cannot be meant for another. Nothing else waits for it.
   */
  ghost predicate Lazy(a: Apic)
  {
    a.lazyEoi ==>
      && 0 < a.depth && Top(a) == a.lazyVector
      && (a.queued ==> a.depth == 1)
      && (!a.updateRequired ==> a.irr <= {0} && Top(a) !in a.tmr)
  }

  ghost predicate Consistent(a: Apic, g: Guest, seal: Seal)
  {
    && Shape(a)
    && Injected(a, g)
    && Levels(a)
    && NotStranded(a)
    && Lazy(a)
    && g.tpr < 16
  }

  ghost predicate Inv(a: Apic, g: Guest)
  {
    forall seal: Seal :: Consistent(a, g, seal)
  }

  lemma Unseal(a: Apic, g: Guest)
    requires Inv(a, g)
    ensures Consistent(a, g, Seal)
  {
  }

  // ---- every operation keeps the invariant ----

  lemma {:induction false} RisingClass(s: seq<nat>, i: nat)
    requires Rising(s) && i < |s|
    ensures i < PriorityClass(s[i])
  {
    if i > 0 {
      RisingClass(s, i - 1);
    }
  }

  /** Sixteen priority classes, the lowest never in service: no stack is deeper than 15. */
  lemma DepthBound(s: seq<nat>)
    requires Rising(s) && forall i :: 0 <= i < |s| ==> s[i] < 256
    ensures |s| <= 15
  {
    if |s| > 0 {
      RisingClass(s, |s| - 1);
    }
  }

  lemma Pop(a: Apic, a': Apic)
    requires Shape(a) && 0 < a.depth && a'.slots == a.slots && a'.depth == a.depth - 1
    ensures Rising(InService(a'))
    ensures Top(a) !in InService(a') && Members(InService(a)) == Members(InService(a')) + {Top(a)}
  {
    var s, s' := InService(a), InService(a');
    assert s == s' + [Top(a)];
    assert forall i :: 0 <= i < |s'| ==> s'[i] == s[i];
  }

  lemma RewoundKeeps(a: Apic, vector: nat)
    requires Shape(a) && 0 < a.depth && vector == Top(a)
    ensures Shape(Rewound(a, vector)) && Vectors(Rewound(a, vector)) == Vectors(a)
  {
    Pop(a, Rewound(a, vector));
    assert vector in a.slots;
  }

  lemma DeliveredKeepsInv(a: Apic, g: Guest)
    requires Inv(a, g)
    ensures var (a', g') := DeliveredChecked(a, g);
      Inv(a', g') && !a'.delivered && Vectors(a') == Vectors(a)
  {
    Unseal(a, g);
    if a.delivered && g.event.Interrupt? {
      RewoundKeeps(a, g.event.vector);
    }
  }

  lemma QueuedKeepsInv(a: Apic, g: Guest)
    requires Inv(a, g) && !a.delivered
    ensures var (a', g') := QueuedChecked(a, g);
      Inv(a', g') && !a'.delivered && !a'.queued && Vectors(a') == Vectors(a)
  {
    Unseal(a, g);
    if a.queued && g.virq {
      RewoundKeeps(a, g.virqVector);
    }
  }

  /** Rewinding moves vectors between the two registers and loses none. */
  lemma RewindsKeepInv(a: Apic, g: Guest)
    requires Inv(a, g)
    ensures var (a', g') := Rewinds(a, g);
      Inv(a', g') && !a'.delivered && !a'.queued && Vectors(a') == Vectors(a)
  {
    DeliveredKeepsInv(a, g);
    var (a1, g1) := DeliveredChecked(a, g);
    QueuedKeepsInv(a1, g1);
  }

  /** An EOI takes exactly the newest vector out of service. */
  lemma EoiKeepsInv(a: Apic, g: Guest)
    requires Inv(a, g) && !a.delivered && !a.queued
    ensures Inv(Eoi(a), g)
    ensures Eoi(a).irr == a.irr
    ensures Members(InService(Eoi(a))) == Members(InService(a)) - (if a.depth == 0 then {} else {Top(a)})
  {
    Unseal(a, g);
    if a.depth > 0 {
      Pop(a, Eoi(a));
    }
  }

  /** The lazy EOI, checked after any rewind, is taken. */
  ghost predicate LazyEoiTaken(a: Apic, g: Guest, area: Option<Area>)
    requires Inv(a, g)
  {
    Rewinds(a, g).0.lazyEoi && EoiRequested(area)
  }

  /** A rewind drops the lazy EOI, so one that is taken is for the vector the guest was told of. */
  lemma LazyEoiIsForTop(a: Apic, g: Guest, area: Option<Area>)
    requires Inv(a, g) && LazyEoiTaken(a, g, area)
    ensures a.lazyEoi && 0 < a.depth && Top(a) == a.lazyVector
    ensures Top(Rewinds(a, g).0) == a.lazyVector
    ensures Rewinds(a, g).0.irr == a.irr && InService(Rewinds(a, g).0) == InService(a)
  {
    Unseal(a, g);
  }

  /** Checking loses nothing unless a lazy EOI is taken, which removes exactly the newest vector. */
  lemma CheckedKeepsInv(a: Apic, g: Guest, area: Option<Area>)
    requires Inv(a, g)
    ensures var (a', g') := Checked(a, g, area);
      && Inv(a', g') && !a'.delivered && !a'.queued
      && (!LazyEoiTaken(a, g, area) ==> Vectors(a') == Vectors(a))
      && (LazyEoiTaken(a, g, area) ==>
          && a'.irr == a.irr
          && Members(InService(a')) == Members(InService(a)) - {a.lazyVector})
  {
    RewindsKeepInv(a, g);
    var (a1, g1) := Rewinds(a, g);
    if LazyEoiTaken(a, g, area) {
      LazyEoiIsForTop(a, g, area);
      EoiKeepsInv(a1, g1);
    }
  }

  lemma Push(a: Apic, a': Apic, vector: nat)
    requires Shape(a) && PriorityClass(vector) > PriorityClass(Top(a)) && vector < 256
    requires a'.slots == a.slots[a.depth := vector] && a'.depth == a.depth + 1
    ensures a'.depth <= 15 && Rising(InService(a'))
    ensures Members(InService(a')) == Members(InService(a)) + {vector}
  {
    var s, s' := InService(a), InService(a');
    assert s' == s + [vector];
    forall i | 0 <= i < |s| ensures PriorityClass(s[i]) < PriorityClass(vector) {
      assert i == |s| - 1 || PriorityClass(s[i]) < PriorityClass(s[|s| - 1]);
    }
    DepthBound(s');
  }

  lemma AcceptedKeepsInv(a: Apic, g: Guest, areaUsable: bool)
    requires Shape(a) && Injected(a, g) && Levels(a) && g.tpr < 16
    requires !a.delivered && !a.queued && !a.updateRequired && !a.nmi && Accepts(a)
    ensures var (a', g') := Accepted(a, g, areaUsable);
      Inv(a', g') && Vectors(a') == Vectors(a)
  {
    var (a', g') := Accepted(a, g, areaUsable);
    Push(a, a', Highest(a.irr));
    assert Shape(a') && Injected(a', g');
    assert Vectors(a') == Vectors(a);
    assert Levels(a') && NotStranded(a') && Lazy(a');
  }

  /** Presenting moves at most one vector, the highest, into service and strands none. */
  lemma ChosenKeepsInv(a: Apic, g: Guest, area: Option<Area>)
    requires Inv(a, g) && Shape(a) && !a.delivered && !a.queued
    ensures var (a', g') := Chosen(a, g, area);
      Inv(a', g') && !a'.updateRequired && Vectors(a') == Vectors(a)
  {
    Unseal(a, g);
    var (a1, g1) := WithNmi(a.(updateRequired := false), g);
    var a2 := a1.(lazyEoi := false);
    if Accepts(a2) {
      AcceptedKeepsInv(a2, g1, Usable(area));
    }
  }

  lemma PresentedKeepsInv(a: Apic, g: Guest, area: Option<Area>)
    requires Inv(a, g)
    ensures var (a', g') := Presented(a, g, area);
      && Inv(a', g') && !a'.updateRequired
      && (!(a.updateRequired && LazyEoiTaken(a, g, area)) ==> Vectors(a') == Vectors(a))
      && (a.updateRequired && LazyEoiTaken(a, g, area) ==>
          Vectors(a') == a.irr + (Members(InService(a)) - {a.lazyVector}))
  {
    if a.updateRequired {
      CheckedKeepsInv(a, g, area);
      var (a1, g1) := Checked(a, g, area);
      Unseal(a1, g1);
      ChosenKeepsInv(a1, g1, area);
    }
  }

  /** `a'` has requests added to those of `a` and is due for another pass. */
  ghost predicate MoreRequested(a: Apic, a': Apic)
  {
    && a'.slots == a.slots && a'.depth == a.depth
    && a'.delivered == a.delivered && a'.queued == a.queued
    && a'.lazyEoi == a.lazyEoi && a'.lazyVector == a.lazyVector
    && a'.updateRequired
    && a.irr <= a'.irr && (forall v :: v in a'.irr ==> v in a.irr || v < 256)
    && a.tmr <= a'.tmr <= a.tmr + a'.irr
    && a'.hostTmr <= a.hostTmr + a'.tmr
  }

  lemma RequestsKeepInv(a: Apic, a': Apic, g: Guest)
    requires Inv(a, g) && MoreRequested(a, a')
    ensures Inv(a', g)
  {
    Unseal(a, g);
    assert Vectors(a) <= Vectors(a');
  }

  lemma TprKeepsInv(a: Apic, g: Guest, tpr: nat)
    requires Inv(a, g) && tpr < 16
    ensures Inv(a, g.(tpr := tpr))
  {
    Unseal(a, g);
  }

  lemma GuestKeepsInv(a: Apic, g: Guest, g': Guest)
    requires Inv(a, g) && GuestMay(g, g')
    ensures Inv(a, g')
  {
    Unseal(a, g);
  }

  lemma ConfigureKeepsInv(a: Apic, g: Guest, allowed: set<nat>)
    requires Inv(a, g)
    ensures Inv(a.(allowed := allowed), g)
  {
    Unseal(a, g);
  }

  // ---- runs ----

  datatype Step =
    | Present(host: HostEvents, requests: Option<Requests>, area: Option<Area>)
    | Read(area: Option<Area>)
    | WriteTpr(area: Option<Area>, tpr: nat)
    | WriteEoi(area: Option<Area>)
    | PostSelf(area: Option<Area>, vector: nat)
    | PostSelfNmi(area: Option<Area>)
    | Configure(vector: nat, allow: bool)
    | GuestRuns(guest: Guest)

  ghost predicate Enabled(step: Step, a: Apic, g: Guest)
  {
    match step
    case Present(host, requests, _) =>
      && (host.level.Some? ==> host.level.value < 256)
      && (forall v :: v in host.edges ==> v < 256)
      && (requests.Some? ==> forall v :: v in requests.value.vectors ==> v < 256)
    case WriteTpr(_, tpr) => tpr < 256
    case PostSelf(_, vector) => vector < 256
    case GuestRuns(guest) => GuestMay(g, guest)
    case _ => true
  }

  ghost function Consumed(a: Apic, host: HostEvents, requests: Option<Requests>): Apic
  {
    RequestsConsumed(HostConsumed(a, host), requests)
  }

  lemma ConsumedKeepsInv(a: Apic, g: Guest, host: HostEvents, requests: Option<Requests>, area: Option<Area>)
    requires Inv(a, g) && Enabled(Present(host, requests, area), a, g)
    ensures Inv(Consumed(a, host, requests), g)
  {
    var a1 := HostConsumed(a, host);
    if a1 != a {
      RequestsKeepInv(a, a1, g);
    }
    if requests.Some? {
      RequestsKeepInv(a1, Consumed(a, host, requests), g);
    }
  }

  ghost function After(step: Step, a: Apic, g: Guest): (Apic, Guest)
    requires Inv(a, g) && Enabled(step, a, g)
  {
    match step
    case Present(host, requests, area) =>
      ConsumedKeepsInv(a, g, host, requests, area);
      Presented(Consumed(a, host, requests), g, area)
    case Read(area) => Checked(a, g, area)
    case WriteTpr(area, tpr) =>
      var (a1, g1) := Checked(a, g, area);
      (a1, g1.(tpr := tpr / 16))
    case WriteEoi(area) =>
      CheckedKeepsInv(a, g, area);
      var (a1, g1) := Checked(a, g, area);
      (Eoi(a1), g1)
    case PostSelf(area, vector) =>
      var (a1, g1) := Checked(a, g, area);
      (Posted(a1, vector, false), g1)
    case PostSelfNmi(area) =>
      var (a1, g1) := Checked(a, g, area);
      (NmiPosted(a1), g1)
    case Configure(vector, allow) =>
      (a.(allowed := if allow then a.allowed + {vector} else a.allowed - {vector}), g)
    case GuestRuns(guest) => (a, guest)
  }

  lemma StepKeepsInv(step: Step, a: Apic, g: Guest)
    requires Inv(a, g) && Enabled(step, a, g)
    ensures var (a', g') := After(step, a, g); Inv(a', g')
  {
    match step
    case Present(host, requests, area) =>
      ConsumedKeepsInv(a, g, host, requests, area);
      PresentedKeepsInv(Consumed(a, host, requests), g, area);
    case Configure(vector, allow) => ConfigureKeepsInv(a, g, After(step, a, g).0.allowed);
    case GuestRuns(guest) => GuestKeepsInv(a, g, guest);
    case Read(area) => CheckedKeepsInv(a, g, area);
    case WriteTpr(area, tpr) =>
      CheckedKeepsInv(a, g, area);
      var (a1, g1) := Checked(a, g, area);
      TprKeepsInv(a1, g1, tpr / 16);
    case WriteEoi(area) =>
      CheckedKeepsInv(a, g, area);
      var (a1, g1) := Checked(a, g, area);
      EoiKeepsInv(a1, g1);
    case PostSelf(area, vector) =>
      CheckedKeepsInv(a, g, area);
      var (a1, g1) := Checked(a, g, area);
      RequestsKeepInv(a1, Posted(a1, vector, false), g1);
    case PostSelfNmi(area) =>
      CheckedKeepsInv(a, g, area);
      var (a1, g1) := Checked(a, g, area);
      RequestsKeepInv(a1, NmiPosted(a1), g1);
  }

  /** A freshly created APIC, with nothing injected into the guest. */
  ghost predicate Initial(a: Apic, g: Guest)
  {
    && a == Apic({}, {}, {}, {}, seq(16, _ => 0), 0, false, false, false, false, false, [], 0)
    && !g.event.Interrupt? && !g.virq && g.tpr < 16
  }

  lemma InitialInv(a: Apic, g: Guest)
    requires Initial(a, g)
    ensures Inv(a, g)
  {
  }

  /** Every step of the run is one the guest, the host or another CPU can cause. */
  ghost predicate Legal(steps: seq<Step>, a: Apic, g: Guest)
    requires Inv(a, g)
  {
    steps == [] ||
    (&& Enabled(steps[0], a, g)
     && (StepKeepsInv(steps[0], a, g);
         var (a1, g1) := After(steps[0], a, g);
         Legal(steps[1..], a1, g1)))
  }

  ghost function End(steps: seq<Step>, a: Apic, g: Guest): (r: (Apic, Guest))
    requires Inv(a, g) && Legal(steps, a, g)
    ensures Inv(r.0, r.1)
  {
    if steps == [] then
      (a, g)
    else
      StepKeepsInv(steps[0], a, g);
      var (a1, g1) := After(steps[0], a, g);
      End(steps[1..], a1, g1)
  }

  /**
   On every run from a fresh APIC the stack of vectors in service rises strictly in priority
   class, so every access to it is in bounds; at most one delivery is outstanding; no
   deliverable vector or NMI waits while no pass is due; and a vector that owes the host an
   EOI is level-triggered and still requested or in service.
   */
  lemma EveryRunIsSafe(steps: seq<Step>, a: Apic, g: Guest)
    requires Initial(a, g)
    requires (InitialInv(a, g); Legal(steps, a, g))
    ensures Inv(a, g)
    ensures var (a', g') := End(steps, a, g);
      && a'.depth <= 15 < |a'.slots|
      && (forall i, j :: 0 <= i < j < a'.depth ==> PriorityClass(a'.slots[i]) < PriorityClass(a'.slots[j]))
      && !(a'.delivered && a'.queued)
      && (a'.lazyEoi ==> 0 < a'.depth)
      && a'.hostTmr <= a'.tmr && a'.hostTmr <= Vectors(a')
      && (!a'.updateRequired ==>
          !a'.nmi && forall v :: v in a'.irr ==> PriorityClass(v) <= PriorityClass(Top(a')))
  {
    var (a', g') := End(steps, a, g);
    Unseal(a', g');
    forall i, j | 0 <= i < j < a'.depth
      ensures PriorityClass(a'.slots[i]) < PriorityClass(a'.slots[j])
    {
      assert a'.slots[i] == InService(a')[i] && a'.slots[j] == InService(a')[j];
    }
  }

  // ---- conservation ----

  /** The vectors a step adds. */
  ghost function Added(step: Step, a: Apic): set<nat>
  {
    match step
    case Present(host, requests, _) =>
      (if host.level.Some? then {host.level.value} else {}) * a.allowed
      + host.edges * a.allowed
      + (if requests.Some? then requests.value.vectors else {})
    case PostSelf(_, vector) => {vector}
    case _ => {}
  }

  ghost function LazilyAcknowledged(a: Apic, g: Guest, area: Option<Area>): set<nat>
    requires Inv(a, g)
  {
    if LazyEoiTaken(a, g, area) then {a.lazyVector} else {}
  }

  /** The vectors a step takes out of service for good, by a write to EOI or lazily. */
  ghost function Acknowledged(step: Step, a: Apic, g: Guest): set<nat>
    requires Inv(a, g) && Enabled(step, a, g)
  {
    match step
    case Present(host, requests, area) =>
      ConsumedKeepsInv(a, g, host, requests, area);
      var a1 := Consumed(a, host, requests);
      if a1.updateRequired then LazilyAcknowledged(a1, g, area) else {}
    case WriteEoi(area) =>
      CheckedKeepsInv(a, g, area);
      var a1 := Checked(a, g, area).0;
      LazilyAcknowledged(a, g, area) + (if a1.depth == 0 then {} else {Top(a1)})
    case Configure(_, _) => {}
    case GuestRuns(_) => {}
    case Read(area) => LazilyAcknowledged(a, g, area)
    case WriteTpr(area, _) => LazilyAcknowledged(a, g, area)
    case PostSelf(area, _) => LazilyAcknowledged(a, g, area)
    case PostSelfNmi(area) => LazilyAcknowledged(a, g, area)
  }

  lemma ConsumedAdds(a: Apic, host: HostEvents, requests: Option<Requests>, area: Option<Area>)
    ensures var a' := Consumed(a, host, requests);
      a'.depth == a.depth && a'.slots == a.slots &&
      Vectors(a') == Vectors(a) + Added(Present(host, requests, area), a)
  {
    var a1, a2 := HostConsumed(a, host), Consumed(a, host, requests);
    HostConsumedAdds(a, host);
    if requests.Some? {
      MoreVectors(a1, a2, requests.value.vectors);
    }
  }

  lemma MoreVectors(a: Apic, a': Apic, more: set<nat>)
    requires a'.depth == a.depth && a'.slots == a.slots && a'.irr == a.irr + more
    ensures Vectors(a') == Vectors(a) + more
  {
  }

  lemma HostConsumedAdds(a: Apic, host: HostEvents)
    ensures var a' := HostConsumed(a, host);
      && a'.depth == a.depth && a'.slots == a.slots
      && Vectors(a') == Vectors(a) + ((if host.level.Some? then {host.level.value} else {}) * a.allowed
                                      + host.edges * a.allowed)
  {
    var level := (if host.level.Some? then {host.level.value} else {}) * a.allowed;
    assert HostConsumed(a, host).irr == a.irr + (level + host.edges * a.allowed);
    MoreVectors(a, HostConsumed(a, host), level + host.edges * a.allowed);
  }

  /** Nothing appears but what was requested, and nothing goes but what was acknowledged. */
  ghost predicate Conserves(before: set<nat>, added: set<nat>, gone: set<nat>, after: set<nat>)
  {
    (before + added) - gone <= after <= before + added
  }

  lemma CheckedConserves(a: Apic, g: Guest, area: Option<Area>)
    requires Inv(a, g)
    ensures var (a', g') := Checked(a, g, area);
      Inv(a', g') && Conserves(Vectors(a), {}, LazilyAcknowledged(a, g, area), Vectors(a'))
  {
    CheckedKeepsInv(a, g, area);
  }

  lemma PresentedConserves(a: Apic, g: Guest, area: Option<Area>)
    requires Inv(a, g)
    ensures var (a', g') := Presented(a, g, area);
      Inv(a', g') &&
      Conserves(Vectors(a), {}, if a.updateRequired then LazilyAcknowledged(a, g, area) else {}, Vectors(a'))
  {
    PresentedKeepsInv(a, g, area);
  }

  lemma PresentConserves(a: Apic, g: Guest, host: HostEvents, requests: Option<Requests>, area: Option<Area>)
    requires var step := Present(host, requests, area); Inv(a, g) && Enabled(step, a, g)
    ensures var step := Present(host, requests, area);
      var (a', g') := After(step, a, g);
      Inv(a', g') && Conserves(Vectors(a), Added(step, a), Acknowledged(step, a, g), Vectors(a'))
  {
    ConsumedKeepsInv(a, g, host, requests, area);
    ConsumedAdds(a, host, requests, area);
    PresentedConserves(Consumed(a, host, requests), g, area);
  }

  lemma EoiConserves(a: Apic, g: Guest, area: Option<Area>)
    requires Inv(a, g)
    ensures var (a', g') := After(WriteEoi(area), a, g);
      Inv(a', g') && Conserves(Vectors(a), {}, Acknowledged(WriteEoi(area), a, g), Vectors(a'))
  {
    CheckedConserves(a, g, area);
    CheckedKeepsInv(a, g, area);
    var (a1, g1) := Checked(a, g, area);
    EoiKeepsInv(a1, g1);
  }

  lemma StepConserves(step: Step, a: Apic, g: Guest)
    requires Inv(a, g) && Enabled(step, a, g)
    ensures var (a', g') := After(step, a, g);
      Inv(a', g') && Conserves(Vectors(a), Added(step, a), Acknowledged(step, a, g), Vectors(a'))
  {
    StepKeepsInv(step, a, g);
    match step
    case Present(host, requests, area) =>
      ConsumedKeepsInv(a, g, host, requests, area);
      PresentConserves(a, g, host, requests, area);
    case Configure(vector, allow) =>
    case GuestRuns(guest) =>
    case Read(area) => CheckedConserves(a, g, area);
    case WriteTpr(area, _) => CheckedConserves(a, g, area);
    case WriteEoi(area) => EoiConserves(a, g, area);
    case PostSelf(area, vector) => CheckedConserves(a, g, area);
    case PostSelfNmi(area) => CheckedConserves(a, g, area);
  }

  /** `vector` is acknowledged at some step of the run. */
  ghost predicate AcknowledgedDuring(vector: nat, steps: seq<Step>, a: Apic, g: Guest)
    requires Inv(a, g) && Legal(steps, a, g)
  {
    steps != [] &&
    (|| vector in Acknowledged(steps[0], a, g)
     || (StepKeepsInv(steps[0], a, g);
         var (a1, g1) := After(steps[0], a, g);
         AcknowledgedDuring(vector, steps[1..], a1, g1)))
  }

  /** On every run, a vector requested or in service stays so until it is acknowledged. */
  lemma {:induction false} NoVectorIsLost(vector: nat, steps: seq<Step>, a: Apic, g: Guest)
    requires Inv(a, g) && Legal(steps, a, g)
    requires vector in Vectors(a) && !AcknowledgedDuring(vector, steps, a, g)
    ensures vector in Vectors(End(steps, a, g).0)
    decreases |steps|
  {
    if steps != [] {
      StepConserves(steps[0], a, g);
      var (a1, g1) := After(steps[0], a, g);
      NoVectorIsLost(vector, steps[1..], a1, g1);
    }
  }

  // ---- NMIs ----

  /** An NMI waits in the APIC or is injected and not taken. */
  ghost predicate NmiOwed(a: Apic, g: Guest) { a.nmi || g.event == Nmi }

  ghost predicate PostsNmi(step: Step)
  {
    || step.PostSelfNmi?
    || (step.Present? && step.requests.Some? && step.requests.value.nmi)
  }

  ghost predicate TakesNmi(step: Step, g: Guest)
  {
    step.GuestRuns? && g.event == Nmi && step.guest.event != Nmi
  }

  lemma CheckedKeepsNmi(a: Apic, g: Guest, area: Option<Area>)
    requires Inv(a, g)
    ensures var (a', g') := Checked(a, g, area);
      && a'.nmi == a.nmi && (g'.event == Nmi <==> g.event == Nmi) && !g'.event.Interrupt?
  {
    Unseal(a, g);
    DeliveredKeepsInv(a, g);
    RewindsKeepInv(a, g);
  }

  lemma ChosenKeepsNmi(a: Apic, g: Guest, area: Option<Area>)
    requires Shape(a) && !g.event.Interrupt?
    ensures var (a', g') := Chosen(a, g, area); !a'.nmi && (g'.event == Nmi <==> NmiOwed(a, g))
  {
  }

  /** A pass that is due injects a waiting NMI and overwrites nothing else with it. */
  lemma PresentedKeepsNmi(a: Apic, g: Guest, area: Option<Area>)
    requires Inv(a, g)
    ensures var (a', g') := Presented(a, g, area);
      && (NmiOwed(a', g') <==> NmiOwed(a, g))
      && (a.updateRequired ==> !a'.nmi && (g'.event == Nmi <==> NmiOwed(a, g)))
  {
    if a.updateRequired {
      CheckedKeepsInv(a, g, area);
      CheckedKeepsNmi(a, g, area);
      var (a1, g1) := Checked(a, g, area);
      Unseal(a1, g1);
      ChosenKeepsNmi(a1, g1, area);
    }
  }

  /** After a step an NMI is owed just when one was posted, or was owed and the guest did not take it. */
  lemma StepKeepsNmi(step: Step, a: Apic, g: Guest)
    requires Inv(a, g) && Enabled(step, a, g)
    ensures var (a', g') := After(step, a, g);
      NmiOwed(a', g') <==> PostsNmi(step) || (NmiOwed(a, g) && (TakesNmi(step, g) ==> a.nmi))
  {
    match step
    case Present(host, requests, area) =>
      ConsumedKeepsInv(a, g, host, requests, area);
      PresentedKeepsNmi(Consumed(a, host, requests), g, area);
    case Configure(_, _) =>
    case GuestRuns(_) =>
    case Read(area) => CheckedKeepsNmi(a, g, area);
    case WriteTpr(area, _) => CheckedKeepsNmi(a, g, area);
    case WriteEoi(area) => CheckedKeepsNmi(a, g, area);
    case PostSelf(area, _) => CheckedKeepsNmi(a, g, area);
    case PostSelfNmi(area) => CheckedKeepsNmi(a, g, area);
  }

  /** The guest takes an injected NMI at some step of the run. */
  ghost predicate NmiTakenDuring(steps: seq<Step>, a: Apic, g: Guest)
    requires Inv(a, g) && Legal(steps, a, g)
  {
    steps != [] &&
    (|| TakesNmi(steps[0], g)
     || (StepKeepsInv(steps[0], a, g);
         var (a1, g1) := After(steps[0], a, g);
         NmiTakenDuring(steps[1..], a1, g1)))
  }

  /** On every run an NMI that is owed stays owed until the guest takes one. */
  lemma {:induction false} NoNmiIsLost(steps: seq<Step>, a: Apic, g: Guest)
    requires Inv(a, g) && Legal(steps, a, g)
    requires NmiOwed(a, g) && !NmiTakenDuring(steps, a, g)
    ensures NmiOwed(End(steps, a, g).0, End(steps, a, g).1)
    decreases |steps|
  {
    if steps != [] {
      StepKeepsInv(steps[0], a, g);
      StepKeepsNmi(steps[0], a, g);
      var (a1, g1) := After(steps[0], a, g);
      NoNmiIsLost(steps[1..], a1, g1);
    }
  }

  // ---- EOIs owed to the host ----

  /** Of the vectors `owed`, those acknowledged since `before` were so once each; the others are still owed. */
  ghost predicate Settled(owed: set<nat>, before: seq<nat>, a: Apic)
  {
    && before <= a.hostEois
    && Distinct(a.hostEois[|before|..])
    && a.hostTmr !! Members(a.hostEois[|before|..])
    && a.hostTmr + Members(a.hostEois[|before|..]) == owed
  }

  lemma EoiSettles(owed: set<nat>, before: seq<nat>, a: Apic)
    requires Settled(owed, before, a) && a.hostTmr <= a.tmr
    ensures Settled(owed, before, Eoi(a))
  {
    var v, a' := Top(a), Eoi(a);
    var n := |before|;
    if a.depth > 0 && v in a.hostTmr {
      assert a'.hostEois[n..] == a.hostEois[n..] + [v];
      assert Members(a'.hostEois[n..]) == Members(a.hostEois[n..]) + {v};
    }
  }

  lemma NothingSettled(a: Apic)
    ensures Settled(a.hostTmr, a.hostEois, a)
  {
    assert a.hostEois[|a.hostEois|..] == [];
  }

  lemma CheckedSettles(a: Apic, g: Guest, area: Option<Area>)
    requires Inv(a, g)
    ensures Settled(a.hostTmr, a.hostEois, Checked(a, g, area).0)
  {
    RewindsKeepInv(a, g);
    var (a1, g1) := Rewinds(a, g);
    Unseal(a1, g1);
    NothingSettled(a);
    assert a1.hostTmr == a.hostTmr && a1.hostEois == a.hostEois;
    EoiSettles(a.hostTmr, a.hostEois, a1);
  }

  /** The vectors whose EOI the host is owed once the step has taken in what it presents. */
  ghost function HostOwed(step: Step, a: Apic): set<nat>
  {
    if step.Present? && step.host.level.Some? && step.host.level.value in a.allowed
    then a.hostTmr + {step.host.level.value}
    else a.hostTmr
  }

  lemma PresentedSettles(a: Apic, g: Guest, area: Option<Area>)
    requires Inv(a, g)
    ensures Settled(a.hostTmr, a.hostEois, Presented(a, g, area).0)
  {
    if a.updateRequired {
      CheckedKeepsInv(a, g, area);
      CheckedSettles(a, g, area);
      var (a1, g1) := Checked(a, g, area);
      Unseal(a1, g1);
      var (a2, _) := Chosen(a1, g1, area);
      assert a2.hostTmr == a1.hostTmr && a2.hostEois == a1.hostEois;
    } else {
      NothingSettled(a);
    }
  }

  lemma PresentSettles(a: Apic, g: Guest, host: HostEvents, requests: Option<Requests>, area: Option<Area>)
    requires var step := Present(host, requests, area); Inv(a, g) && Enabled(step, a, g)
    ensures var step := Present(host, requests, area);
      Settled(HostOwed(step, a), a.hostEois, After(step, a, g).0)
  {
    ConsumedKeepsInv(a, g, host, requests, area);
    ConsumedOwes(a, host, requests, area);
    PresentedSettles(Consumed(a, host, requests), g, area);
  }

  lemma ConsumedOwes(a: Apic, host: HostEvents, requests: Option<Requests>, area: Option<Area>)
    ensures var a' := Consumed(a, host, requests);
      a'.hostTmr == HostOwed(Present(host, requests, area), a) && a'.hostEois == a.hostEois
  {
  }

  lemma WriteEoiSettles(a: Apic, g: Guest, area: Option<Area>)
    requires Inv(a, g)
    ensures Settled(a.hostTmr, a.hostEois, After(WriteEoi(area), a, g).0)
  {
    CheckedSettles(a, g, area);
    CheckedKeepsInv(a, g, area);
    var (a1, g1) := Checked(a, g, area);
    Unseal(a1, g1);
    EoiSettles(a.hostTmr, a.hostEois, a1);
  }

  /** In every step, each vector that leaves `host_tmr` is acknowledged to the host exactly once, and no other is. */
  lemma StepSettles(step: Step, a: Apic, g: Guest)
    requires Inv(a, g) && Enabled(step, a, g)
    ensures Settled(HostOwed(step, a), a.hostEois, After(step, a, g).0)
  {
    match step
    case Present(host, requests, area) => PresentSettles(a, g, host, requests, area);
    case Configure(_, _) => NothingSettled(a);
    case GuestRuns(_) => NothingSettled(a);
    case Read(area) => CheckedSettles(a, g, area);
    case WriteTpr(area, _) => CheckedSettles(a, g, area);
    case WriteEoi(area) => WriteEoiSettles(a, g, area);
    case PostSelf(area, _) => CheckedSettles(a, g, area);
    case PostSelfNmi(area) => CheckedSettles(a, g, area);
  }

  /** On every run, a vector whose EOI the host is owed stays owed until it is acknowledged to the host. */
  lemma {:induction false} NoHostEoiIsLost(vector: nat, steps: seq<Step>, a: Apic, g: Guest)
    requires Inv(a, g) && Legal(steps, a, g) && vector in a.hostTmr
    ensures var a' := End(steps, a, g).0;
      a.hostEois <= a'.hostEois && (vector in a'.hostTmr || vector in a'.hostEois[|a.hostEois|..])
    decreases |steps|
  {
    if steps != [] {
      StepKeepsInv(steps[0], a, g);
      StepSettles(steps[0], a, g);
      var (a1, g1) := After(steps[0], a, g);
      EoisGrow(steps[1..], a1, g1);
      if vector in a1.hostTmr {
        NoHostEoiIsLost(vector, steps[1..], a1, g1);
      }
    }
  }

  lemma {:induction false} EoisGrow(steps: seq<Step>, a: Apic, g: Guest)
    requires Inv(a, g) && Legal(steps, a, g)
    ensures a.hostEois <= End(steps, a, g).0.hostEois
    decreases |steps|
  {
    if steps != [] {
      StepKeepsInv(steps[0], a, g);
      StepSettles(steps[0], a, g);
      var (a1, g1) := After(steps[0], a, g);
      EoisGrow(steps[1..], a1, g1);
    }
  }

  // ---- the processor priority ----

  /**
   The priority read back is that of the highest of TPR and the newest vector in service
   only when the slot above it happens to hold a vector of the same class, or TPR covers both.
   */
  lemma PprExact(a: Apic, tpr: nat)
    requires Shape(a)
    ensures var top, tprClass := PriorityClass(Top(a)), PriorityClass(tpr);
      PriorityClass(Ppr(a, tpr)) == (if top > tprClass then top else tprClass)
      <==> || a.depth == 0
           || PriorityClass(a.slots[a.depth]) == top
           || (top <= tprClass && PriorityClass(a.slots[a.depth]) <= tprClass)
  {
  }

  /** After one vector has been accepted by a fresh APIC, it does not show in the priority. */
  lemma PprMissesTop(a: Apic, g: Guest)
    requires Initial(a, g)
    ensures Inv(a, g)
    ensures var post, present := PostSelf(None, 0x30), Present(HostEvents(None, {}), None, None);
      var (a1, g1) := After(post, a, g);
      Inv(a1, g1) &&
      var (a2, _) := After(present, a1, g1);
      Shape(a2) && Top(a2) == 0x30 && Ppr(a2, 0) == 0
  {
    var post, present := PostSelf(None, 0x30), Present(HostEvents(None, {}), None, None);
    StepKeepsInv(post, a, g);
    var (a1, g1) := After(post, a, g);
    assert a1 == a.(irr := {0x30}, updateRequired := true);
    StepKeepsInv(present, a1, g1);
    assert Consumed(a1, present.host, None) == a1;
    assert Checked(a1, g1, None) == (a1, g1);
    HighestUnique(0x30, {0x30});
  }
}
