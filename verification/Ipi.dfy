/**
 Cross-CPU messages over IPI bulletin boards: every CPU is a sender with its own
 board and a receiver with its own request set. The steps are the atomic accesses
 of the sender and of the interrupt handler; a run is any interleaving of them.
 */
module Ipi {
  import opened Collections

  datatype Target = Single(cpu: nat) | Multiple(cpus: set<nat>) | AllButSelf | All

  /** Whether the handler may change the message in place. */
  datatype Request = IpiShared | IpiMut

  datatype Board = Board(request: Request, message: int)

  /** Where a sender is in `send_ipi`. */
  datatype Sender = Idle | Filling | Posting | Interrupting | SelfRunning | Waiting

  /** Where a receiver is in `handle_ipi_interrupt`; `word` is the iterator's `mask_index`. */
  datatype Handler =
    | Off
    | Scan(word: nat)
    | Loaded(word: nat, sender: nat)
    | Taken(word: nat, sender: nat)
    | Invoking(word: nat, sender: nat, message: int)
    | Ran(word: nat, sender: nat)
  {
    /** The receiver has taken the request of `s` and not acknowledged it. */
    predicate Holds(s: nat) { (Taken? || Invoking? || Ran?) && sender == s }

    /** The receiver will still look at the request word `w` in this interrupt. */
    predicate Reaches(w: nat) { !Off? && word <= w }
  }

  datatype Cpu = Cpu(
    // the board
    pending: int,
    board: Option<Board>,
    // the sender
    pc: Sender,
    target: Target,
    request: Request,
    message: int,
    todo: set<nat>,
    counted: Option<nat>,
    irqTodo: set<nat>,
    // the receiver
    requests: set<nat>,
    irq: bool,
    handler: Handler,
    online: bool,
    // history of the current send: who else was online when the board was filled, who was
    // flagged, who acknowledged, how many acknowledged before the count was stored, and what
    // each CPU was invoked with
    wasOnline: set<nat>,
    sent: set<nat>,
    acked: set<nat>,
    early: nat,
    seen: map<nat, seq<int>>)

  const WORDS := 16

  /** `invoke` is what the message's own handler does to a mutable message. */
  datatype Config = Config(cpus: nat, invoke: int -> int)

  type State = seq<Cpu>

  predicate Broadcast(t: Target) { t.AllButSelf? || t.All? }

  /** Whether the sender handles the message itself. */
  predicate IncludesSelf(t: Target, s: nat)
  {
    match t
    case Single(c) => c == s
    case Multiple(cs) => s in cs
    case AllButSelf => false
    case All => true
  }

  /** The other CPUs a send addresses: for a broadcast, those found online are flagged. */
  ghost function Others(c: Config, t: Target, s: nat): set<nat>
  {
    match t
    case Single(d) => {d} - {s}
    case Multiple(ds) => ds - {s}
    case AllButSelf => UpTo(c.cpus) - {s}
    case All => UpTo(c.cpus) - {s}
  }

  function Seen(seen: map<nat, seq<int>>, t: nat): seq<int> { if t in seen then seen[t] else [] }

  datatype Step =
    | StartSend(s: nat, target: Target, request: Request, message: int)
    | FillBoard(s: nat)
    | CountTarget(s: nat, t: nat)
    | FlagCounted(s: nat)
    | FlagOnline(s: nat, t: nat)
    | SkipOffline(s: nat, t: nat)
    | EndPosting(s: nat)
    | PostInterrupt(s: nat, t: nat)
    | EndInterrupts(s: nat)
    | RunSelf(s: nat)
    | Return(s: nat)
    | ComeOnline(t: nat)
    | EnterHandler(t: nat)
    | LoadHit(t: nat, i: nat)
    | LoadMiss(t: nat)
    | Take(t: nat)
    | Begin(t: nat)
    | Finish(t: nat)
    | Acknowledge(t: nat)
    | LeaveHandler(t: nat)

  /** Request bits of one 64-bit word of a request set. */
  ghost predicate InWord(i: nat, w: nat) { i / 64 == w }

  /** `trailing_zeros` of a non-zero word: its lowest request. */
  ghost predicate LowestRequest(requests: set<nat>, w: nat, i: nat)
  {
    i in requests && InWord(i, w) && forall j :: j in requests && InWord(j, w) ==> i <= j
  }

  ghost predicate NoRequest(requests: set<nat>, w: nat)
  {
    forall j :: j in requests ==> !InWord(j, w)
  }

  /** `send_unicast_ipi` is the only sender of mutable messages, and takes one CPU. */
  ghost predicate LegalSend(c: Config, target: Target, request: Request)
  {
    && (target.Single? ==> target.cpu < c.cpus)
    && (target.Multiple? ==> target.cpus <= UpTo(c.cpus))
    && (request.IpiMut? ==> target.Single?)
  }

  ghost predicate Enabled(c: Config, st: State, step: Step)
    requires |st| == c.cpus
  {
    match step
    case StartSend(s, target, request, _) => s < |st| && st[s].pc == Idle && LegalSend(c, target, request)
    case FillBoard(s) => s < |st| && st[s].pc == Filling
    case CountTarget(s, t) =>
      s < |st| && st[s].pc == Posting && !Broadcast(st[s].target) && st[s].counted == None && t in st[s].todo
    case FlagCounted(s) => s < |st| && st[s].pc == Posting && st[s].counted.Some? && st[s].counted.value < |st|
    case FlagOnline(s, t) =>
      s < |st| && t < |st| && st[s].pc == Posting && Broadcast(st[s].target) && t in st[s].todo && st[t].online
    case SkipOffline(s, t) =>
      s < |st| && t < |st| && st[s].pc == Posting && Broadcast(st[s].target) && t in st[s].todo && !st[t].online
    case EndPosting(s) => s < |st| && st[s].pc == Posting && st[s].todo == {} && st[s].counted == None
    case PostInterrupt(s, t) => s < |st| && t < |st| && st[s].pc == Interrupting && t in st[s].irqTodo
    case EndInterrupts(s) => s < |st| && st[s].pc == Interrupting && st[s].irqTodo == {}
    case RunSelf(s) => s < |st| && st[s].pc == SelfRunning && st[s].board.Some?
    case Return(s) => s < |st| && st[s].pc == Waiting && st[s].pending == 0
    case ComeOnline(t) => t < |st|
    case EnterHandler(t) => t < |st| && st[t].handler == Off && st[t].irq
    case LoadHit(t, i) =>
      t < |st| && st[t].handler.Scan? && st[t].handler.word < WORDS && LowestRequest(st[t].requests, st[t].handler.word, i)
    case LoadMiss(t) =>
      t < |st| && st[t].handler.Scan? && st[t].handler.word < WORDS && NoRequest(st[t].requests, st[t].handler.word)
    case Take(t) => t < |st| && st[t].handler.Loaded?
    case Begin(t) => t < |st| && st[t].handler.Taken? && st[t].handler.sender < |st| && st[st[t].handler.sender].board.Some?
    case Finish(t) => t < |st| && st[t].handler.Invoking? && st[t].handler.sender < |st| && st[st[t].handler.sender].board.Some?
    case Acknowledge(t) => t < |st| && st[t].handler.Ran? && st[t].handler.sender < |st|
    case LeaveHandler(t) => t < |st| && st[t].handler.Scan? && st[t].handler.word >= WORDS
  }

  ghost function OnlineOthers(st: State, s: nat): set<nat>
  {
    set t | t in UpTo(|st|) && t < |st| && t != s && st[t].online
  }

  /** The state after an enabled step. */
  ghost function Next(c: Config, st: State, step: Step): (r: State)
    requires |st| == c.cpus && Enabled(c, st, step)
    ensures |r| == |st|
  {
    match step
    case StartSend(s, target, request, message) =>
      st[s := st[s].(pc := Filling, target := target, request := request, message := message)]
    case FillBoard(s) =>
      st[s := st[s].(pc := Posting, board := Some(Board(st[s].request, st[s].message)),
                     todo := Others(c, st[s].target, s), counted := None,
                     wasOnline := OnlineOthers(st, s), sent := {}, acked := {}, early := 0, seen := map[])]
    case CountTarget(s, t) =>
      // `Single` stores 1, `Multiple` adds 1.
      st[s := st[s].(todo := st[s].todo - {t}, counted := Some(t),
                     pending := if st[s].target.Single? then 1 else st[s].pending + 1)]
    case FlagCounted(s) =>
      var t := st[s].counted.value;
      var st1 := st[s := st[s].(counted := None, sent := st[s].sent + {t})];
      st1[t := st1[t].(requests := st1[t].requests + {s})]
    case FlagOnline(s, t) =>
      var st1 := st[s := st[s].(todo := st[s].todo - {t}, sent := st[s].sent + {t})];
      st1[t := st1[t].(requests := st1[t].requests + {s})]
    case SkipOffline(s, t) =>
      st[s := st[s].(todo := st[s].todo - {t})]
    case EndPosting(s) =>
      var irqs := if st[s].sent == {} then {} else Others(c, st[s].target, s);
      if Broadcast(st[s].target)
      then st[s := st[s].(pc := Interrupting, irqTodo := irqs, pending := |st[s].sent|, early := |st[s].acked|)]
      else st[s := st[s].(pc := Interrupting, irqTodo := irqs)]
    case PostInterrupt(s, t) =>
      var st1 := st[s := st[s].(irqTodo := st[s].irqTodo - {t})];
      st1[t := st1[t].(irq := true)]
    case EndInterrupts(s) =>
      st[s := st[s].(pc := if IncludesSelf(st[s].target, s) then SelfRunning else Waiting)]
    case RunSelf(s) =>
      st[s := st[s].(pc := Waiting, board := Some(Invoked(c, st[s].board.value)),
                     seen := st[s].seen[s := Seen(st[s].seen, s) + [st[s].board.value.message]])]
    case Return(s) =>
      st[s := st[s].(pc := Idle)]
    case ComeOnline(t) =>
      st[t := st[t].(online := true)]
    case EnterHandler(t) =>
      st[t := st[t].(irq := false, handler := Scan(0))]
    case LoadHit(t, i) =>
      st[t := st[t].(handler := Loaded(st[t].handler.word, i))]
    case LoadMiss(t) =>
      st[t := st[t].(handler := Scan(st[t].handler.word + 1))]
    case Take(t) =>
      st[t := st[t].(requests := st[t].requests - {st[t].handler.sender},
                     handler := Taken(st[t].handler.word, st[t].handler.sender))]
    case Begin(t) =>
      var h := st[t].handler;
      st[t := st[t].(handler := Invoking(h.word, h.sender, st[h.sender].board.value.message))]
    case Finish(t) =>
      var h := st[t].handler;
      var st1 := st[t := st[t].(handler := Ran(h.word, h.sender))];
      st1[h.sender := st1[h.sender].(
        board := Some(Invoked(c, st1[h.sender].board.value)),
        seen := st1[h.sender].seen[t := Seen(st1[h.sender].seen, t) + [h.message]])]
    case Acknowledge(t) =>
      var h := st[t].handler;
      var st1 := st[t := st[t].(handler := Scan(h.word))];
      st1[h.sender := st1[h.sender].(pending := st1[h.sender].pending - 1, acked := st1[h.sender].acked + {t})]
    case LeaveHandler(t) =>
      st[t := st[t].(handler := Off)]
  }

  /** The board after the message's handler ran on it. */
  function Invoked(c: Config, b: Board): Board
  {
    match b.request
    case IpiShared => b
    case IpiMut => b.(message := c.invoke(b.message))
  }

  // ---- runs ----

  ghost predicate Initial(c: Config, st: State)
  {
    |st| == c.cpus <= 64 * WORDS
    && forall s :: 0 <= s < |st| ==>
         && st[s].pending == 0 && st[s].pc == Idle && st[s].requests == {} && !st[s].irq && st[s].handler == Off
         && st[s].sent == {} && st[s].acked == {}
  }

  /** `trace` is a run: it starts in an initial state and every next state is one step on. */
  ghost predicate Run(c: Config, trace: seq<State>)
    decreases |trace|
  {
    && |trace| > 0
    && if |trace| == 1 then Initial(c, trace[0])
       else Run(c, trace[..|trace| - 1]) && Follows(c, trace[|trace| - 2], trace[|trace| - 1])
  }

  ghost function Last(trace: seq<State>): State
    requires |trace| > 0
  {
    trace[|trace| - 1]
  }

  ghost predicate Follows(c: Config, st: State, st': State)
  {
    exists step :: Leads(c, st, step, st')
  }

  /** `step` leads from `st` to `st'`; sealed, so that only proofs about one step unfold it. */
  ghost predicate Leads(c: Config, st: State, step: Step, st': State)
  {
    forall seal: Seal :: LeadsTo(c, st, step, st', seal)
  }

  ghost predicate LeadsTo(c: Config, st: State, step: Step, st': State, seal: Seal)
  {
    |st| == c.cpus && Enabled(c, st, step) && st' == Next(c, st, step)
  }

  // ---- the invariant ----

  /** A request is flagged or held just while it is sent and not acknowledged, and never both. */
  ghost predicate Tracked(s: nat, p: Cpu, t: nat, q: Cpu)
  {
    && (s in q.requests || q.handler.Holds(s) <==> t in p.sent - p.acked)
    && !(s in q.requests && q.handler.Holds(s))
  }

  /**
   A flagged request will be looked at: an interrupt is pending at the receiver, its
   handler will still come to that word, or the sender has yet to post the interrupt.
   */
  ghost predicate Attended(s: nat, p: Cpu, t: nat, q: Cpu)
  {
    s in q.requests ==>
      || q.irq
      || q.handler.Reaches(s / 64)
      || p.pc == Posting
      || (p.pc == Interrupting && t in p.irqTodo)
  }

  /** The message a receiver works on is the sender's. */
  ghost predicate Reads(s: nat, p: Cpu, q: Cpu)
  {
    q.handler.Invoking? && q.handler.sender == s ==> q.handler.message == p.message
  }

  /** Each receiver is invoked once, and with the sender's message. */
  ghost predicate RunsOnce(s: nat, p: Cpu, t: nat, q: Cpu)
  {
    p.pc in {Posting, Interrupting, SelfRunning, Waiting} ==>
      Seen(p.seen, t) == if HasRun(s, p, t, q) then [p.message] else []
  }

  ghost predicate HasRun(s: nat, p: Cpu, t: nat, q: Cpu)
  {
    if t == s then p.pc == Waiting && IncludesSelf(p.target, s)
    else t in p.acked || (q.handler.Ran? && q.handler.sender == s)
  }

  /** The sender's own part: its board, its counter and what it still has to do. */
  ghost predicate SenderOk(c: Config, s: nat, p: Cpu)
  {
    && p.acked <= p.sent && s !in p.sent
    && (p.pc != Idle ==> LegalSend(c, p.target, p.request))
    && (p.pc != Idle && p.pc != Filling ==> p.sent <= Others(c, p.target, s))
    && match p.pc
       case Idle => p.pending == 0 && p.sent == p.acked
       case Filling => p.pending == 0 && p.sent == p.acked
       case Posting => BoardShows(c, p) && PostingOk(c, s, p)
       case _ =>
         && BoardShows(c, p)
         && p.pending == |p.sent - p.acked| + p.early
         && (p.pc == Interrupting ==> p.irqTodo <= Others(c, p.target, s))
         && (p.pc == SelfRunning ==> IncludesSelf(p.target, s))
         && (!Broadcast(p.target) ==> p.early == 0 && p.sent == Others(c, p.target, s))
  }

  ghost predicate PostingOk(c: Config, s: nat, p: Cpu)
  {
    && p.sent !! p.todo && p.todo <= Others(c, p.target, s) && p.early == 0
    && if Broadcast(p.target)
       then p.counted == None && p.pending == -|p.acked|
       else
         && p.pending == |p.sent - p.acked| + (if p.counted.Some? then 1 else 0)
         && (p.counted.Some? ==> p.counted.value !in p.sent && p.counted.value !in p.todo)
         && Others(c, p.target, s) == p.sent + p.todo + (if p.counted.Some? then {p.counted.value} else {})
  }

  /** The board holds the message; a mutable one that was handled holds the handler's result. */
  ghost predicate BoardShows(c: Config, p: Cpu)
  {
    p.board == Some(Board(p.request,
      if p.request.IpiMut? && p.target.Single? && Seen(p.seen, p.target.cpu) != [] then c.invoke(p.message) else p.message))
  }

  ghost predicate ReceiverOk(c: Config, q: Cpu)
  {
    && q.requests <= UpTo(c.cpus)
    && match q.handler
       case Loaded(w, i) => i < c.cpus && InWord(i, w) && i in q.requests
       case Taken(w, i) => i < c.cpus && InWord(i, w)
       case Invoking(w, i, _) => i < c.cpus && InWord(i, w)
       case Ran(w, i) => i < c.cpus && InWord(i, w)
       case _ => true
  }

  ghost predicate PairOk(s: nat, p: Cpu, t: nat, q: Cpu)
  {
    Tracked(s, p, t, q) && Attended(s, p, t, q) && Reads(s, p, q) && RunsOnce(s, p, t, q)
  }

  ghost predicate Inv(c: Config, st: State)
  {
    && |st| == c.cpus <= 1024
    && (forall t :: 0 <= t < |st| ==> ReceiverOk(c, st[t]))
    && (forall s :: 0 <= s < |st| ==> SenderOk(c, s, st[s]))
    && (forall s, t :: 0 <= s < |st| && 0 <= t < |st| ==> PairOk(s, st[s], t, st[t]))
  }

  // ---- every step keeps the invariant ----

  lemma ReceiverKeptBySender(c: Config, st: State, step: Step, t: nat)
    requires |st| == c.cpus && Enabled(c, st, step) && SenderStep(step) && t < |st| && ReceiverOk(c, st[t])
    ensures ReceiverOk(c, Next(c, st, step)[t])
  {
  }

  lemma ReceiverKept(c: Config, st: State, step: Step, t: nat)
    requires |st| == c.cpus && Enabled(c, st, step) && t < |st| && ReceiverOk(c, st[t])
    ensures ReceiverOk(c, Next(c, st, step)[t])
  {
    if SenderStep(step) {
      ReceiverKeptBySender(c, st, step, t);
    }
  }

  predicate SenderStep(step: Step)
  {
    step.StartSend? || step.FillBoard? || step.CountTarget? || step.FlagCounted? || step.FlagOnline? || step.SkipOffline?
    || step.EndPosting? || step.PostInterrupt? || step.EndInterrupts? || step.RunSelf? || step.Return?
  }

  /** The step sets a request bit. */
  ghost predicate Flags(step: Step)
  {
    step.FlagCounted? || step.FlagOnline?
  }

  lemma TrackedKeptBySenderFlagging(c: Config, st: State, step: Step, s: nat, t: nat)
    requires |st| == c.cpus && Enabled(c, st, step) && Flags(step) && s < |st| && t < |st|
    requires st[s].acked <= st[s].sent
    requires st[s].pc == Posting ==>
      st[s].sent !! st[s].todo && (st[s].counted.Some? ==> st[s].counted.value !in st[s].sent)
    requires Tracked(s, st[s], t, st[t])
    ensures Tracked(s, Next(c, st, step)[s], t, Next(c, st, step)[t])
  {
  }

  /** A step of a sender that sets no request bit leaves every receiver as it is, but for pending interrupts. */
  lemma QuietLeavesReceiver(c: Config, st: State, step: Step, t: nat)
    requires |st| == c.cpus && Enabled(c, st, step) && SenderStep(step) && !Flags(step) && t < |st|
    ensures var q, q' := st[t], Next(c, st, step)[t];
      q'.requests == q.requests && q'.handler == q.handler && (q.irq ==> q'.irq)
  {
  }

  lemma QuietLeavesHistory(c: Config, st: State, step: Step, s: nat)
    requires |st| == c.cpus && Enabled(c, st, step) && SenderStep(step) && !Flags(step) && s < |st|
    requires st[s].pc == Filling ==> st[s].sent == st[s].acked
    ensures Next(c, st, step)[s].sent - Next(c, st, step)[s].acked == st[s].sent - st[s].acked
  {
  }

  lemma TrackedKeptBySenderQuiet(c: Config, st: State, step: Step, s: nat, t: nat)
    requires |st| == c.cpus <= 1024 && Enabled(c, st, step) && SenderStep(step) && !Flags(step) && s < |st| && t < |st|
    requires ReceiverOk(c, st[t]) && SenderOk(c, s, st[s]) && Tracked(s, st[s], t, st[t])
    ensures Tracked(s, Next(c, st, step)[s], t, Next(c, st, step)[t])
  {
    QuietLeavesReceiver(c, st, step, t);
    QuietLeavesHistory(c, st, step, s);
  }

  lemma TrackedKeptBySender(c: Config, st: State, step: Step, s: nat, t: nat)
    requires |st| == c.cpus <= 1024 && Enabled(c, st, step) && SenderStep(step) && s < |st| && t < |st|
    requires ReceiverOk(c, st[t]) && SenderOk(c, s, st[s]) && Tracked(s, st[s], t, st[t])
    ensures Tracked(s, Next(c, st, step)[s], t, Next(c, st, step)[t])
  {
    if Flags(step) {
      TrackedKeptBySenderFlagging(c, st, step, s, t);
    } else {
      TrackedKeptBySenderQuiet(c, st, step, s, t);
    }
  }

  lemma TrackedKeptHere(c: Config, st: State, step: Step, s: nat, t: nat)
    requires |st| == c.cpus && Enabled(c, st, step) && !SenderStep(step) && step.t == t && s < |st| && t < |st|
    requires st[t].handler.Loaded? ==> st[t].handler.sender in st[t].requests
    requires st[s].acked <= st[s].sent && Tracked(s, st[s], t, st[t])
    ensures Tracked(s, Next(c, st, step)[s], t, Next(c, st, step)[t])
  {
  }

  lemma TrackedKeptElsewhere(c: Config, st: State, step: Step, s: nat, t: nat)
    requires |st| == c.cpus && Enabled(c, st, step) && !SenderStep(step) && step.t != t && s < |st| && t < |st|
    requires Tracked(s, st[s], t, st[t])
    ensures Tracked(s, Next(c, st, step)[s], t, Next(c, st, step)[t])
  {
  }

  lemma TrackedKeptByReceiver(c: Config, st: State, step: Step, s: nat, t: nat)
    requires |st| == c.cpus <= 1024 && Enabled(c, st, step) && !SenderStep(step) && s < |st| && t < |st|
    requires ReceiverOk(c, st[t]) && SenderOk(c, s, st[s]) && Tracked(s, st[s], t, st[t])
    ensures Tracked(s, Next(c, st, step)[s], t, Next(c, st, step)[t])
  {
    if step.t == t {
      TrackedKeptHere(c, st, step, s, t);
    } else {
      TrackedKeptElsewhere(c, st, step, s, t);
    }
  }

  lemma AttendedKeptBySenderFlagging(c: Config, st: State, step: Step, s: nat, t: nat)
    requires |st| == c.cpus <= 1024 && Enabled(c, st, step) && SenderStep(step) && Flags(step) && s < |st| && t < |st|
    requires ReceiverOk(c, st[t]) && SenderOk(c, s, st[s]) && Tracked(s, st[s], t, st[t]) && Attended(s, st[s], t, st[t])
    ensures Attended(s, Next(c, st, step)[s], t, Next(c, st, step)[t])
  {
  }

  lemma AttendedKeptByOwnStep(c: Config, st: State, step: Step, s: nat, t: nat)
    requires |st| == c.cpus && Enabled(c, st, step) && SenderStep(step) && !Flags(step) && step.s == s && s < |st| && t < |st|
    requires t in st[s].sent - st[s].acked ==> st[s].sent != {} && t in Others(c, st[s].target, s)
    requires st[s].pc == Idle || st[s].pc == Filling ==> st[s].sent == st[s].acked
    requires Tracked(s, st[s], t, st[t]) && Attended(s, st[s], t, st[t])
    ensures Attended(s, Next(c, st, step)[s], t, Next(c, st, step)[t])
  {
    QuietLeavesReceiver(c, st, step, t);
  }

  lemma AttendedKeptBySenderQuiet(c: Config, st: State, step: Step, s: nat, t: nat)
    requires |st| == c.cpus <= 1024 && Enabled(c, st, step) && SenderStep(step) && !Flags(step) && s < |st| && t < |st|
    requires ReceiverOk(c, st[t]) && SenderOk(c, s, st[s]) && Tracked(s, st[s], t, st[t]) && Attended(s, st[s], t, st[t])
    ensures Attended(s, Next(c, st, step)[s], t, Next(c, st, step)[t])
  {
    if step.s == s {
      AttendedKeptByOwnStep(c, st, step, s, t);
    } else {
      QuietLeavesReceiver(c, st, step, t);
      OthersUntouched(c, st, step, s);
    }
  }

  lemma AttendedKeptBySender(c: Config, st: State, step: Step, s: nat, t: nat)
    requires |st| == c.cpus <= 1024 && Enabled(c, st, step) && SenderStep(step) && s < |st| && t < |st|
    requires ReceiverOk(c, st[t]) && SenderOk(c, s, st[s]) && Tracked(s, st[s], t, st[t]) && Attended(s, st[s], t, st[t])
    ensures Attended(s, Next(c, st, step)[s], t, Next(c, st, step)[t])
  {
    if Flags(step) {
      AttendedKeptBySenderFlagging(c, st, step, s, t);
    } else {
      AttendedKeptBySenderQuiet(c, st, step, s, t);
    }
  }

  lemma AttendedKeptByReceiver(c: Config, st: State, step: Step, s: nat, t: nat)
    requires |st| == c.cpus <= 1024 && Enabled(c, st, step) && !SenderStep(step) && s < |st| && t < |st|
    requires ReceiverOk(c, st[t]) && SenderOk(c, s, st[s]) && Tracked(s, st[s], t, st[t]) && Attended(s, st[s], t, st[t])
    ensures Attended(s, Next(c, st, step)[s], t, Next(c, st, step)[t])
  {
  }

  lemma ReadsKeptBySender(c: Config, st: State, step: Step, s: nat, t: nat)
    requires |st| == c.cpus && Enabled(c, st, step) && SenderStep(step) && s < |st| && t < |st|
    requires SenderOk(c, s, st[s]) && Tracked(s, st[s], t, st[t]) && Reads(s, st[s], st[t])
    ensures Reads(s, Next(c, st, step)[s], Next(c, st, step)[t])
  {
  }

  lemma ReadsKeptByReceiver(c: Config, st: State, step: Step, s: nat, t: nat)
    requires |st| == c.cpus && Enabled(c, st, step) && !SenderStep(step) && s < |st| && t < |st|
    requires SenderOk(c, s, st[s]) && Tracked(s, st[s], t, st[t]) && Reads(s, st[s], st[t])
    requires RunsOnce(s, st[s], t, st[t])
    ensures Reads(s, Next(c, st, step)[s], Next(c, st, step)[t])
  {
  }

  lemma RunsOnceKeptByOwnStep(c: Config, st: State, step: Step, s: nat, t: nat)
    requires |st| == c.cpus && Enabled(c, st, step) && SenderStep(step) && step.s == s && s < |st| && t < |st|
    requires st[s].pc == Filling ==> st[s].sent == st[s].acked
    requires st[s].pc == SelfRunning ==> IncludesSelf(st[s].target, s) && BoardShows(c, st[s])
    requires Tracked(s, st[s], t, st[t]) && RunsOnce(s, st[s], t, st[t])
    ensures RunsOnce(s, Next(c, st, step)[s], t, Next(c, st, step)[t])
  {
  }

  /** A step of a sender leaves every receiver's handler alone. */
  lemma SenderLeavesHandler(c: Config, st: State, step: Step, t: nat)
    requires |st| == c.cpus && Enabled(c, st, step) && SenderStep(step) && t < |st|
    ensures Next(c, st, step)[t].handler == st[t].handler
  {
  }

  lemma RunsOnceKeptBySender(c: Config, st: State, step: Step, s: nat, t: nat)
    requires |st| == c.cpus && Enabled(c, st, step) && SenderStep(step) && s < |st| && t < |st|
    requires st[s].pc == Filling ==> st[s].sent == st[s].acked
    requires st[s].pc == SelfRunning ==> IncludesSelf(st[s].target, s) && BoardShows(c, st[s])
    requires Tracked(s, st[s], t, st[t]) && RunsOnce(s, st[s], t, st[t])
    ensures RunsOnce(s, Next(c, st, step)[s], t, Next(c, st, step)[t])
  {
    if step.s == s {
      RunsOnceKeptByOwnStep(c, st, step, s, t);
    } else {
      OthersUntouched(c, st, step, s);
      SenderLeavesHandler(c, st, step, t);
    }
  }

  lemma RunsOnceKeptByReceiver(c: Config, st: State, step: Step, s: nat, t: nat)
    requires |st| == c.cpus && Enabled(c, st, step) && !SenderStep(step) && s < |st| && t < |st|
    requires s !in st[s].sent && Tracked(s, st[s], t, st[t])
    requires Reads(s, st[s], st[t]) && RunsOnce(s, st[s], t, st[t])
    ensures RunsOnce(s, Next(c, st, step)[s], t, Next(c, st, step)[t])
  {
    if step.Finish? || step.Acknowledge? {
      RunsOnceKeptByAnswer(c, st, step, s, t);
    } else {
      RunsOnceKeptByScan(c, st, step, s, t);
    }
  }

  lemma RunsOnceKeptByAnswer(c: Config, st: State, step: Step, s: nat, t: nat)
    requires |st| == c.cpus && Enabled(c, st, step) && (step.Finish? || step.Acknowledge?) && s < |st| && t < |st|
    requires s !in st[s].sent && Tracked(s, st[s], t, st[t])
    requires Reads(s, st[s], st[t]) && RunsOnce(s, st[s], t, st[t])
    ensures RunsOnce(s, Next(c, st, step)[s], t, Next(c, st, step)[t])
  {
  }

  lemma RunsOnceKeptByScan(c: Config, st: State, step: Step, s: nat, t: nat)
    requires |st| == c.cpus && Enabled(c, st, step) && !SenderStep(step) && !step.Finish? && !step.Acknowledge?
    requires s < |st| && t < |st| && Tracked(s, st[s], t, st[t]) && RunsOnce(s, st[s], t, st[t])
    ensures RunsOnce(s, Next(c, st, step)[s], t, Next(c, st, step)[t])
  {
  }

  // A sender's own part, step by step.

  lemma CountOk(c: Config, s: nat, p: Cpu, t: nat)
    requires SenderOk(c, s, p) && p.pc == Posting && !Broadcast(p.target) && p.counted == None && t in p.todo
    ensures SenderOk(c, s, p.(todo := p.todo - {t}, counted := Some(t), pending := if p.target.Single? then 1 else p.pending + 1))
  {
    var o := Others(c, p.target, s);
    assert p.sent + (p.todo - {t}) + {t} == p.sent + p.todo;
    if p.target.Single? {
      // One other target at most, so nothing was sent before it.
      assert o <= {p.target.cpu} && t in o;
      assert p.sent - p.acked == {};
    }
  }

  lemma FlagOk(c: Config, s: nat, p: Cpu)
    requires SenderOk(c, s, p) && p.pc == Posting && p.counted.Some?
    ensures SenderOk(c, s, p.(counted := None, sent := p.sent + {p.counted.value}))
  {
    var t := p.counted.value;
    assert (p.sent + {t}) - p.acked == (p.sent - p.acked) + {t};
    assert p.sent + {t} + p.todo == p.sent + p.todo + {t};
  }

  lemma FlagOnlineOk(c: Config, s: nat, p: Cpu, t: nat)
    requires SenderOk(c, s, p) && p.pc == Posting && Broadcast(p.target) && t in p.todo
    ensures SenderOk(c, s, p.(todo := p.todo - {t}, sent := p.sent + {t}))
    ensures SenderOk(c, s, p.(todo := p.todo - {t}))
  {
  }

  lemma EndPostingOk(c: Config, s: nat, p: Cpu)
    requires SenderOk(c, s, p) && p.pc == Posting && p.todo == {} && p.counted == None
    ensures var irqs := if p.sent == {} then {} else Others(c, p.target, s);
      SenderOk(c, s, if Broadcast(p.target)
                     then p.(pc := Interrupting, irqTodo := irqs, pending := |p.sent|, early := |p.acked|)
                     else p.(pc := Interrupting, irqTodo := irqs))
  {
    assert p.sent == (p.sent - p.acked) + p.acked;
    assert |p.sent| == |p.sent - p.acked| + |p.acked|;
  }

  lemma RunSelfOk(c: Config, s: nat, p: Cpu)
    requires SenderOk(c, s, p) && p.pc == SelfRunning && p.board.Some?
    requires RunsOnce(s, p, s, p)
    ensures SenderOk(c, s, p.(pc := Waiting, board := Some(Invoked(c, p.board.value)),
                              seen := p.seen[s := Seen(p.seen, s) + [p.board.value.message]]))
  {
  }

  /** A receiver that finishes the handler of `s`. */
  lemma FinishOk(c: Config, s: nat, p: Cpu, t: nat, q: Cpu, m: int)
    requires SenderOk(c, s, p) && Tracked(s, p, t, q) && RunsOnce(s, p, t, q) && q.handler.Invoking? && q.handler.sender == s && p.board.Some?
    ensures SenderOk(c, s, p.(board := Some(Invoked(c, p.board.value)), seen := p.seen[t := Seen(p.seen, t) + [m]]))
  {
    assert t in p.sent - p.acked;
    assert t in Others(c, p.target, s);
    assert Seen(p.seen, t) == [];
  }

  lemma AcknowledgeOk(c: Config, s: nat, p: Cpu, t: nat, q: Cpu)
    requires SenderOk(c, s, p) && Tracked(s, p, t, q) && q.handler.Ran? && q.handler.sender == s
    ensures SenderOk(c, s, p.(pending := p.pending - 1, acked := p.acked + {t}))
  {
    assert t in p.sent && t !in p.acked;
    assert p.sent - (p.acked + {t}) == (p.sent - p.acked) - {t};
    assert |p.acked + {t}| == |p.acked| + 1 && |(p.sent - p.acked) - {t}| == |p.sent - p.acked| - 1;
  }

  // What a step of another CPU, or as a receiver, leaves alone.
  ghost predicate SameSender(p: Cpu, p': Cpu)
  {
    p' == p.(requests := p'.requests, irq := p'.irq, handler := p'.handler, online := p'.online)
  }

  lemma SameSenderOk(c: Config, s: nat, p: Cpu, p': Cpu)
    requires SenderOk(c, s, p) && SameSender(p, p')
    ensures SenderOk(c, s, p')
  {
  }

  lemma OthersUntouched(c: Config, st: State, step: Step, s: nat)
    requires |st| == c.cpus && Enabled(c, st, step) && s < |st|
    requires SenderStep(step) ==> step.s != s
    requires step.Finish? || step.Acknowledge? ==> st[step.t].handler.sender != s
    ensures SameSender(st[s], Next(c, st, step)[s])
  {
  }

  lemma StartOk(c: Config, s: nat, p: Cpu, target: Target, request: Request, message: int)
    requires SenderOk(c, s, p) && p.pc == Idle && LegalSend(c, target, request)
    ensures SenderOk(c, s, p.(pc := Filling, target := target, request := request, message := message))
  {
  }

  lemma FillOk(c: Config, s: nat, p: Cpu, online: set<nat>)
    requires SenderOk(c, s, p) && p.pc == Filling
    ensures SenderOk(c, s, p.(pc := Posting, board := Some(Board(p.request, p.message)),
                              todo := Others(c, p.target, s), counted := None,
                              wasOnline := online, sent := {}, acked := {}, early := 0, seen := map[]))
  {
  }

  lemma InterruptsOk(c: Config, s: nat, p: Cpu, t: nat)
    requires SenderOk(c, s, p) && p.pc == Interrupting
    ensures SenderOk(c, s, p.(irqTodo := p.irqTodo - {t}))
    ensures SenderOk(c, s, p.(pc := if IncludesSelf(p.target, s) then SelfRunning else Waiting))
  {
  }

  /** When the wait ends, every flagged CPU has acknowledged, and none did so before the count was stored. */
  lemma ReturnOk(c: Config, s: nat, p: Cpu)
    requires SenderOk(c, s, p) && p.pc == Waiting && p.pending == 0
    ensures p.sent == p.acked && p.early == 0
    ensures SenderOk(c, s, p.(pc := Idle))
  {
    assert p.sent - p.acked == {};
  }

  lemma SenderKeptCounting(c: Config, st: State, step: Step)
    requires |st| == c.cpus && Enabled(c, st, step) && (step.CountTarget? || step.FlagCounted?)
    requires SenderOk(c, step.s, st[step.s])
    ensures SenderOk(c, step.s, Next(c, st, step)[step.s])
  {
    var s := step.s;
    var p, p' := st[s], Next(c, st, step)[s];
    if step.CountTarget? {
      CountOk(c, s, p, step.t);
    } else {
      var p1 := p.(counted := None, sent := p.sent + {p.counted.value});
      assert SenderOk(c, s, p1) by { FlagOk(c, s, p); }
      SameSenderOk(c, s, p1, p');
    }
  }

  lemma SenderKeptBroadcast(c: Config, st: State, step: Step)
    requires |st| == c.cpus && Enabled(c, st, step) && (step.FlagOnline? || step.SkipOffline?)
    requires SenderOk(c, step.s, st[step.s])
    ensures SenderOk(c, step.s, Next(c, st, step)[step.s])
  {
    var s := step.s;
    var p, p' := st[s], Next(c, st, step)[s];
    FlagOnlineOk(c, s, p, step.t);
    if step.FlagOnline? {
      SameSenderOk(c, s, p.(todo := p.todo - {step.t}, sent := p.sent + {step.t}), p');
    }
  }

  lemma SenderKeptStarting(c: Config, st: State, step: Step)
    requires |st| == c.cpus && Enabled(c, st, step) && (step.StartSend? || step.FillBoard?)
    requires SenderOk(c, step.s, st[step.s])
    ensures SenderOk(c, step.s, Next(c, st, step)[step.s])
  {
    match step {
      case StartSend(s, target, request, message) => StartOk(c, s, st[s], target, request, message);
      case FillBoard(s) => FillOk(c, s, st[s], OnlineOthers(st, s));
    }
  }

  lemma SenderKeptInterrupting(c: Config, st: State, step: Step)
    requires |st| == c.cpus && Enabled(c, st, step) && (step.EndPosting? || step.PostInterrupt? || step.EndInterrupts?)
    requires SenderOk(c, step.s, st[step.s])
    ensures SenderOk(c, step.s, Next(c, st, step)[step.s])
  {
    match step {
      case EndPosting(s) => EndPostingOk(c, s, st[s]);
      case PostInterrupt(s, t) =>
        InterruptsOk(c, s, st[s], t);
        SameSenderOk(c, s, st[s].(irqTodo := st[s].irqTodo - {t}), Next(c, st, step)[s]);
      case EndInterrupts(s) => InterruptsOk(c, s, st[s], s);
    }
  }

  lemma SenderKeptEnding(c: Config, st: State, step: Step)
    requires |st| == c.cpus && Enabled(c, st, step) && (step.RunSelf? || step.Return?)
    requires SenderOk(c, step.s, st[step.s]) && RunsOnce(step.s, st[step.s], step.s, st[step.s])
    ensures SenderOk(c, step.s, Next(c, st, step)[step.s])
  {
    match step {
      case RunSelf(s) => RunSelfOk(c, s, st[s]);
      case Return(s) => ReturnOk(c, s, st[s]);
    }
  }

  lemma SenderKeptByItself(c: Config, st: State, step: Step)
    requires |st| == c.cpus && Enabled(c, st, step) && SenderStep(step)
    requires SenderOk(c, step.s, st[step.s]) && RunsOnce(step.s, st[step.s], step.s, st[step.s])
    ensures SenderOk(c, step.s, Next(c, st, step)[step.s])
  {
    if step.CountTarget? || step.FlagCounted? {
      SenderKeptCounting(c, st, step);
    } else if step.FlagOnline? || step.SkipOffline? {
      SenderKeptBroadcast(c, st, step);
    } else if step.StartSend? || step.FillBoard? {
      SenderKeptStarting(c, st, step);
    } else if step.RunSelf? || step.Return? {
      SenderKeptEnding(c, st, step);
    } else {
      SenderKeptInterrupting(c, st, step);
    }
  }

  lemma SenderKeptByFinish(c: Config, st: State, t: nat, s: nat)
    requires |st| == c.cpus && Enabled(c, st, Finish(t)) && s < |st| && st[t].handler.sender == s
    requires SenderOk(c, s, st[s]) && Tracked(s, st[s], t, st[t]) && RunsOnce(s, st[s], t, st[t])
    ensures SenderOk(c, s, Next(c, st, Finish(t))[s])
  {
    var p, q := st[s], st[t];
    var p1 := p.(board := Some(Invoked(c, p.board.value)), seen := p.seen[t := Seen(p.seen, t) + [q.handler.message]]);
    assert SenderOk(c, s, p1) by { FinishOk(c, s, p, t, q, q.handler.message); }
    SameSenderOk(c, s, p1, Next(c, st, Finish(t))[s]);
  }

  lemma SenderKeptByAcknowledge(c: Config, st: State, t: nat, s: nat)
    requires |st| == c.cpus && Enabled(c, st, Acknowledge(t)) && s < |st| && st[t].handler.sender == s
    requires SenderOk(c, s, st[s]) && Tracked(s, st[s], t, st[t])
    ensures SenderOk(c, s, Next(c, st, Acknowledge(t))[s])
  {
    var p := st[s];
    var p1 := p.(pending := p.pending - 1, acked := p.acked + {t});
    assert SenderOk(c, s, p1) by { AcknowledgeOk(c, s, p, t, st[t]); }
    SameSenderOk(c, s, p1, Next(c, st, Acknowledge(t))[s]);
  }

  lemma SenderKept(c: Config, st: State, step: Step, s: nat)
    requires |st| == c.cpus && Enabled(c, st, step) && s < |st|
    requires SenderOk(c, s, st[s]) && RunsOnce(s, st[s], s, st[s])
    requires step.Finish? || step.Acknowledge? ==> PairOk(s, st[s], step.t, st[step.t])
    ensures SenderOk(c, s, Next(c, st, step)[s])
  {
    if SenderStep(step) && step.s == s {
      SenderKeptByItself(c, st, step);
    } else if step.Finish? && st[step.t].handler.sender == s {
      SenderKeptByFinish(c, st, step.t, s);
    } else if step.Acknowledge? && st[step.t].handler.sender == s {
      SenderKeptByAcknowledge(c, st, step.t, s);
    } else {
      OthersUntouched(c, st, step, s);
      SameSenderOk(c, s, st[s], Next(c, st, step)[s]);
    }
  }

  lemma PairKept(c: Config, st: State, step: Step, s: nat, t: nat)
    requires |st| == c.cpus <= 1024 && Enabled(c, st, step) && s < |st| && t < |st|
    requires ReceiverOk(c, st[t]) && SenderOk(c, s, st[s]) && PairOk(s, st[s], t, st[t])
    ensures PairOk(s, Next(c, st, step)[s], t, Next(c, st, step)[t])
  {
    if SenderStep(step) {
      TrackedKeptBySender(c, st, step, s, t);
      AttendedKeptBySender(c, st, step, s, t);
      ReadsKeptBySender(c, st, step, s, t);
      RunsOnceKeptBySender(c, st, step, s, t);
    } else {
      TrackedKeptByReceiver(c, st, step, s, t);
      AttendedKeptByReceiver(c, st, step, s, t);
      ReadsKeptByReceiver(c, st, step, s, t);
      RunsOnceKeptByReceiver(c, st, step, s, t);
    }
  }

  lemma StepKeepsInv(c: Config, st: State, step: Step)
    requires Inv(c, st) && Enabled(c, st, step)
    ensures Inv(c, Next(c, st, step))
  {
    var st' := Next(c, st, step);
    forall t | 0 <= t < |st'| ensures ReceiverOk(c, st'[t]) {
      ReceiverKept(c, st, step, t);
    }
    forall s | 0 <= s < |st'| ensures SenderOk(c, s, st'[s]) {
      assert PairOk(s, st[s], s, st[s]);
      assert step.Finish? || step.Acknowledge? ==> PairOk(s, st[s], step.t, st[step.t]);
      SenderKept(c, st, step, s);
    }
    forall s, t | 0 <= s < |st'| && 0 <= t < |st'| ensures PairOk(s, st'[s], t, st'[t]) {
      assert PairOk(s, st[s], t, st[t]);
      PairKept(c, st, step, s, t);
    }
  }

  /** Every run ends in a state with the invariant, and so does every part of it. */
  lemma {:induction false} InvAlways(c: Config, trace: seq<State>)
    requires Run(c, trace)
    ensures Inv(c, Last(trace))
    decreases |trace|
  {
    if |trace| == 1 {
      InitialInv(c, trace[0]);
    } else {
      var st := trace[|trace| - 2];
      InvAlways(c, trace[..|trace| - 1]);
      assert Follows(c, st, Last(trace));
      var step :| Leads(c, st, step, Last(trace));
      assert LeadsTo(c, st, step, Last(trace), Seal);
      StepKeepsInv(c, st, step);
    }
  }

  lemma InitialInv(c: Config, st: State)
    requires Initial(c, st)
    ensures Inv(c, st)
  {
    forall s, t | 0 <= s < |st| && 0 <= t < |st| ensures PairOk(s, st[s], t, st[t]) {
    }
  }

  lemma SenderAlways(c: Config, trace: seq<State>, s: nat)
    requires Run(c, trace) && s < c.cpus
    ensures |Last(trace)| == c.cpus && SenderOk(c, s, Last(trace)[s])
  {
    InvAlways(c, trace);
  }

  // ---- who a broadcast reaches ----

  /** The sender's board is filled and the send has not returned. */
  ghost predicate Sending(p: Cpu) { p.pc in {Posting, Interrupting, SelfRunning, Waiting} }

  /** The board of the send that is under way at the end was filled in the step to state `i`. */
  ghost predicate FilledAt(trace: seq<State>, s: nat, i: nat)
  {
    && 0 < i < |trace| && s < |trace[i - 1]| && trace[i - 1][s].pc == Filling
    && (forall j :: i <= j < |trace| ==> s < |trace[j]| && Sending(trace[j][s]))
  }

  /**
   A broadcast flags every other CPU that was online when the board was filled, or has yet to
   come to it, and flags only CPUs that are online.
   */
  ghost predicate Reached(s: nat, p: Cpu, t: nat, q: Cpu)
  {
    Sending(p) && Broadcast(p.target) ==>
      && (t in p.wasOnline ==> q.online && (t in p.sent || (p.pc == Posting && t in p.todo)))
      && (t in p.sent ==> q.online)
  }

  ghost predicate AllReached(c: Config, st: State)
  {
    |st| == c.cpus && forall s, t :: 0 <= s < |st| && 0 <= t < |st| ==> Reached(s, st[s], t, st[t])
  }

  lemma OnlineRises(c: Config, st: State, step: Step, t: nat)
    requires |st| == c.cpus && Enabled(c, st, step) && t < |st|
    ensures st[t].online ==> Next(c, st, step)[t].online
  {
  }

  lemma ReachedKeptByOwnStep(c: Config, st: State, step: Step, s: nat, t: nat)
    requires |st| == c.cpus && Enabled(c, st, step) && SenderStep(step) && step.s == s && s < |st| && t < |st|
    requires st[s].pc == Posting && Broadcast(st[s].target) ==> st[s].counted == None
    requires Reached(s, st[s], t, st[t])
    ensures Reached(s, Next(c, st, step)[s], t, Next(c, st, step)[t])
  {
  }

  /** No other step changes where a sender is, whom it addresses or whom it has flagged. */
  lemma SendingUntouched(c: Config, st: State, step: Step, s: nat)
    requires |st| == c.cpus && Enabled(c, st, step) && s < |st| && (SenderStep(step) ==> step.s != s)
    ensures var p, p' := st[s], Next(c, st, step)[s];
      && p'.pc == p.pc && p'.target == p.target && p'.wasOnline == p.wasOnline
      && p'.sent == p.sent && p'.todo == p.todo && p'.early == p.early
  {
  }

  lemma ReachedKept(c: Config, st: State, step: Step, s: nat, t: nat)
    requires |st| == c.cpus && Enabled(c, st, step) && s < |st| && t < |st|
    requires st[s].pc == Posting && Broadcast(st[s].target) ==> st[s].counted == None
    requires Reached(s, st[s], t, st[t])
    ensures Reached(s, Next(c, st, step)[s], t, Next(c, st, step)[t])
  {
    if SenderStep(step) && step.s == s {
      ReachedKeptByOwnStep(c, st, step, s, t);
    } else {
      SendingUntouched(c, st, step, s);
      OnlineRises(c, st, step, t);
    }
  }

  lemma {:induction false} ReachedAlways(c: Config, trace: seq<State>)
    requires Run(c, trace)
    ensures AllReached(c, Last(trace))
    decreases |trace|
  {
    if |trace| > 1 {
      var before := trace[..|trace| - 1];
      var st := Last(before);
      ReachedAlways(c, before);
      assert Follows(c, st, Last(trace));
      var step :| Leads(c, st, step, Last(trace));
      assert LeadsTo(c, st, step, Last(trace), Seal);
      forall s, t | 0 <= s < |st| && 0 <= t < |st| ensures Reached(s, Last(trace)[s], t, Last(trace)[t]) {
        SenderAlways(c, before, s);
        ReachedKept(c, st, step, s, t);
      }
    }
  }

  // ---- what it means, for the state at the end of any run ----

  /** The CPUs whose request set has the bit of `s`. */
  ghost function FlaggedBy(st: State, s: nat): set<nat>
  {
    set t | t in UpTo(|st|) && t < |st| && s in st[t].requests
  }

  /** The CPUs that took the request of `s` and have not acknowledged it. */
  ghost function HeldFrom(st: State, s: nat): set<nat>
  {
    set t | t in UpTo(|st|) && t < |st| && st[t].handler.Holds(s)
  }

  lemma Outstanding(c: Config, st: State, s: nat)
    requires Inv(c, st) && s < |st|
    ensures FlaggedBy(st, s) !! HeldFrom(st, s)
    ensures st[s].pc != Idle && st[s].pc != Filling ==> st[s].sent - st[s].acked == FlaggedBy(st, s) + HeldFrom(st, s)
    ensures st[s].pc == Idle || st[s].pc == Filling ==> FlaggedBy(st, s) == HeldFrom(st, s) == {}
  {
    assert SenderOk(c, s, st[s]);
    forall t | 0 <= t < |st|
      ensures t in FlaggedBy(st, s) || t in HeldFrom(st, s) <==> t in st[s].sent - st[s].acked
      ensures !(t in FlaggedBy(st, s) && t in HeldFrom(st, s))
    {
      assert PairOk(s, st[s], t, st[t]);
    }
  }

  /**
   For `Single` and `Multiple` the counter is exact at every point of every run:
   flagged and not taken, taken and not acknowledged, and the increment in flight.
   */
  lemma CounterExact(c: Config, trace: seq<State>, s: nat)
    requires Run(c, trace) && s < c.cpus
    ensures |Last(trace)| == c.cpus
    ensures var st := Last(trace); var p := st[s]; p.pc == Idle || p.pc == Filling || !Broadcast(p.target) ==>
      p.pending == |FlaggedBy(st, s)| + |HeldFrom(st, s)| + (if p.pc == Posting && p.counted.Some? then 1 else 0)
  {
    InvAlways(c, trace);
    Outstanding(c, Last(trace), s);
    assert SenderOk(c, s, Last(trace)[s]);
  }

  /** `t` has the request of `s`, or will find it. */
  ghost predicate CanRead(st: State, t: nat, s: nat)
    requires t < |st|
  {
    s in st[t].requests || st[t].handler.Holds(s)
  }

  /**
   A board is written only while no CPU can read it, and the assertion that nothing
   is pending holds when a send starts. A CPU that can read a board finds the message there.
   */
  lemma BoardIsExclusive(c: Config, trace: seq<State>, s: nat)
    requires Run(c, trace) && s < c.cpus
    ensures |Last(trace)| == c.cpus
    ensures var st := Last(trace);
      && (st[s].pc == Idle || st[s].pc == Filling ==>
            st[s].pending == 0 && forall t :: 0 <= t < c.cpus ==> !CanRead(st, t, s))
      && (forall t :: 0 <= t < c.cpus && CanRead(st, t, s) ==> BoardShows(c, st[s]))
  {
    InvAlways(c, trace);
    var st := Last(trace);
    assert SenderOk(c, s, st[s]);
    forall t | 0 <= t < c.cpus && CanRead(st, t, s)
      ensures st[s].pc != Idle && st[s].pc != Filling && BoardShows(c, st[s])
    {
      assert PairOk(s, st[s], t, st[t]);
    }
  }

  /**
   When `send_ipi` returns, each CPU it addressed was invoked exactly once, with the
   message of this send, and no other CPU was; a mutable message holds the result. A
   broadcast addresses every other CPU that was online when its board was filled, and
   none that is not online.
   */
  lemma SendDelivers(c: Config, trace: seq<State>, s: nat)
    requires Run(c, trace) && s < c.cpus
    requires |Last(trace)| == c.cpus && Last(trace)[s].pc == Waiting && Last(trace)[s].pending == 0
    ensures var p := Last(trace)[s];
      && (forall t :: 0 <= t < c.cpus ==>
            Seen(p.seen, t) == if t in p.sent || (t == s && IncludesSelf(p.target, s)) then [p.message] else [])
      && (!Broadcast(p.target) ==> p.sent == Others(c, p.target, s))
      && (Broadcast(p.target) ==>
            && p.sent <= OnlineOthers(Last(trace), s)
            && exists i: nat :: FilledAt(trace, s, i) && OnlineOthers(trace[i], s) <= p.sent)
      && p.board == Some(Board(p.request, if p.request.IpiMut? then c.invoke(p.message) else p.message))
  {
    var st := Last(trace);
    var p := st[s];
    InvAlways(c, trace);
    assert SenderOk(c, s, p);
    ReturnOk(c, s, p);
    forall t | 0 <= t < c.cpus
      ensures Seen(p.seen, t) == if t in p.sent || (t == s && IncludesSelf(p.target, s)) then [p.message] else []
    {
      assert PairOk(s, p, t, st[t]);
    }
    if p.request.IpiMut? {
      assert p.target.cpu == s || p.target.cpu in p.sent;
    }
    if Broadcast(p.target) {
      BroadcastReaches(c, trace, s);
    }
  }

  /**
   A broadcast whose count is stored has flagged every other CPU that was online when its board
   was filled, and no CPU that is not online now.
   */
  lemma BroadcastReaches(c: Config, trace: seq<State>, s: nat)
    requires Run(c, trace) && s < c.cpus && |Last(trace)| == c.cpus
    requires Sending(Last(trace)[s]) && Last(trace)[s].pc != Posting && Broadcast(Last(trace)[s].target)
    ensures exists i: nat :: FilledAt(trace, s, i) && OnlineOthers(trace[i], s) <= Last(trace)[s].sent
    ensures Last(trace)[s].sent <= OnlineOthers(Last(trace), s)
  {
    ReachedAlways(c, trace);
    SenderAlways(c, trace, s);
    var i := SnapshotAlways(c, trace, s);
    ReachedMeans(c, Last(trace), s);
  }

  lemma ReachedMeans(c: Config, st: State, s: nat)
    requires AllReached(c, st) && s < |st| && st[s].sent <= Others(c, st[s].target, s)
    requires Sending(st[s]) && st[s].pc != Posting && Broadcast(st[s].target) && st[s].wasOnline <= UpTo(|st|)
    ensures st[s].wasOnline <= st[s].sent <= OnlineOthers(st, s)
  {
    forall t | t in st[s].wasOnline ensures t in st[s].sent {
      assert Reached(s, st[s], t, st[t]);
    }
    forall t | t in st[s].sent ensures t in OnlineOthers(st, s) {
      assert Reached(s, st[s], t, st[t]);
    }
  }

  /** A send that is under way after a step was so before, with the same snapshot, or has just filled its board. */
  ghost predicate SnapshotKept(st: State, st': State, s: nat)
    requires s < |st| && s < |st'|
  {
    if Sending(st[s]) then st'[s].wasOnline == st[s].wasOnline
    else st[s].pc == Filling && st'[s].wasOnline == OnlineOthers(st', s)
  }

  lemma SnapshotStep(c: Config, st: State, step: Step, s: nat)
    requires |st| == c.cpus && Enabled(c, st, step) && s < |st| && Sending(Next(c, st, step)[s])
    ensures SnapshotKept(st, Next(c, st, step), s)
  {
    if step.FillBoard? && step.s == s {
      assert OnlineOthers(Next(c, st, step), s) == OnlineOthers(st, s);
    }
  }

  lemma SnapshotFollows(c: Config, st: State, st': State, s: nat)
    requires Follows(c, st, st') && |st| == |st'| == c.cpus && s < c.cpus && Sending(st'[s])
    ensures SnapshotKept(st, st', s)
  {
    var step :| Leads(c, st, step, st');
    assert LeadsTo(c, st, step, st', Seal);
    SnapshotStep(c, st, step, s);
  }

  lemma FilledStill(trace: seq<State>, s: nat, i: nat)
    requires |trace| > 0 && FilledAt(trace[..|trace| - 1], s, i)
    requires s < |Last(trace)| && Sending(Last(trace)[s])
    ensures FilledAt(trace, s, i) && trace[i] == trace[..|trace| - 1][i]
  {
    var before := trace[..|trace| - 1];
    assert before[i - 1] == trace[i - 1];
    forall j | i <= j < |trace| ensures s < |trace[j]| && Sending(trace[j][s]) {
      assert j < |before| ==> trace[j] == before[j];
    }
  }

  /** Where the board of the send under way was filled; the snapshot is from there. */
  lemma {:induction false} SnapshotAlways(c: Config, trace: seq<State>, s: nat) returns (i: nat)
    requires Run(c, trace) && s < c.cpus && |Last(trace)| == c.cpus && Sending(Last(trace)[s])
    ensures FilledAt(trace, s, i) && OnlineOthers(trace[i], s) == Last(trace)[s].wasOnline <= UpTo(c.cpus)
    decreases |trace|
  {
    var before := trace[..|trace| - 1];
    var st := Last(before);
    assert |st| == c.cpus by { SenderAlways(c, before, s); }
    SnapshotFollows(c, st, Last(trace), s);
    if Sending(st[s]) {
      i := SnapshotAlways(c, before, s);
      FilledStill(trace, s, i);
    } else {
      i := |trace| - 1;
    }
  }

  /** No request is stranded once its sender has posted the interrupts. */
  lemma NoStrandedRequest(c: Config, trace: seq<State>, s: nat, t: nat)
    requires Run(c, trace) && s < c.cpus && t < c.cpus
    requires |Last(trace)| == c.cpus && s in Last(trace)[t].requests
    requires Last(trace)[s].pc == SelfRunning || Last(trace)[s].pc == Waiting
    ensures Last(trace)[t].irq || Last(trace)[t].handler.Reaches(s / 64)
  {
    InvAlways(c, trace);
    assert PairOk(s, Last(trace)[s], t, Last(trace)[t]);
  }

  // ---- the broadcasts, which store the count after the targets are flagged ----

  /**
   Exactly when the wait of any send ends: all that were flagged have acknowledged,
   and none of them acknowledged before the count was stored.
   */
  lemma WaitEndsExactly(c: Config, trace: seq<State>, s: nat)
    requires Run(c, trace) && s < c.cpus
    requires |Last(trace)| == c.cpus && Last(trace)[s].pc == Waiting
    ensures var p := Last(trace)[s];
      && (p.pending == 0 <==> p.sent == p.acked && p.early == 0)
      && p.pending == |FlaggedBy(Last(trace), s)| + |HeldFrom(Last(trace), s)| + p.early
  {
    var p := Last(trace)[s];
    assert SenderOk(c, s, p) by { SenderAlways(c, trace, s); }
    CountStored(c, trace, s);
    if p.pending == 0 { ReturnOk(c, s, p); }
    assert p.sent == p.acked ==> p.sent - p.acked == {};
  }

  /** The count has been stored and some target had acknowledged before. */
  ghost predicate CountedLate(p: Cpu)
  {
    (p.pc == Interrupting || p.pc == SelfRunning || p.pc == Waiting) && p.early > 0
  }

  /** A broadcast that an early acknowledgement overtook never returns, however the run goes on. */
  lemma {:induction false} OvertakenNeverReturns(c: Config, trace: seq<State>, more: seq<State>, s: nat)
    requires Run(c, trace) && Run(c, trace + more) && s < c.cpus
    requires |Last(trace)| == c.cpus && CountedLate(Last(trace)[s])
    ensures |Last(trace + more)| == c.cpus && CountedLate(Last(trace + more)[s])
    ensures Last(trace + more)[s].pending > 0
    decreases |more|
  {
    var whole := trace + more;
    SenderAlways(c, whole, s);
    if |more| > 0 {
      var before := more[..|more| - 1];
      assert whole[..|whole| - 1] == trace + before;
      OvertakenNeverReturns(c, trace, before, s);
      SenderAlways(c, trace + before, s);
      assert Last(trace + before) == whole[|whole| - 2];
      LateStep(c, whole, s);
    } else {
      assert whole == trace;
    }
  }

  lemma LateStep(c: Config, trace: seq<State>, s: nat)
    requires |trace| > 1 && Follows(c, trace[|trace| - 2], Last(trace)) && s < c.cpus
    requires |trace[|trace| - 2]| == c.cpus
    requires CountedLate(trace[|trace| - 2][s]) && SenderOk(c, s, trace[|trace| - 2][s])
    ensures |Last(trace)| == c.cpus && CountedLate(Last(trace)[s])
  {
    var st := trace[|trace| - 2];
    var step :| Leads(c, st, step, Last(trace));
    assert LeadsTo(c, st, step, Last(trace), Seal);
    CountedLateStays(c, st, step, s);
  }

  lemma CountedLateStays(c: Config, st: State, step: Step, s: nat)
    requires |st| == c.cpus && Enabled(c, st, step) && s < |st|
    requires CountedLate(st[s]) && SenderOk(c, s, st[s])
    ensures CountedLate(Next(c, st, step)[s])
  {
    if SenderStep(step) && step.s == s {
      if step.Return? {
        ReturnOk(c, s, st[s]);
      }
    } else {
      SendingUntouched(c, st, step, s);
    }
  }

  /** At no point of the run has a CPU taken the request of a broadcast that `s` is still posting. */
  ghost predicate QuietWhilePosting(trace: seq<State>, s: nat)
  {
    forall i :: 0 <= i < |trace| ==> NotTakenEarly(trace[i], s)
  }

  ghost predicate NotTakenEarly(st: State, s: nat)
  {
    s < |st| && st[s].pc == Posting && Broadcast(st[s].target) ==> forall t :: 0 <= t < |st| ==> !st[t].handler.Holds(s)
  }

  ghost predicate NoEarlyAck(p: Cpu)
  {
    && (p.pc == Posting && Broadcast(p.target) ==> p.acked == {})
    && (p.pc == Interrupting || p.pc == SelfRunning || p.pc == Waiting ==> p.early == 0)
  }

  /** In such a run the counter of a broadcast is exact too, from the store on. */
  lemma QuietBroadcastExact(c: Config, trace: seq<State>, s: nat)
    requires Run(c, trace) && s < c.cpus && QuietWhilePosting(trace, s)
    ensures |Last(trace)| == c.cpus
    ensures var st := Last(trace);
      st[s].pc in {Interrupting, SelfRunning, Waiting} ==> st[s].pending == |FlaggedBy(st, s)| + |HeldFrom(st, s)|
  {
    var st := Last(trace);
    NeverEarly(c, trace, s);
    if st[s].pc in {Interrupting, SelfRunning, Waiting} {
      CountStored(c, trace, s);
    }
  }

  /** Once the count is stored, it is off by exactly the acknowledgements that came before. */
  lemma CountStored(c: Config, trace: seq<State>, s: nat)
    requires Run(c, trace) && s < c.cpus && |Last(trace)| == c.cpus
    requires Last(trace)[s].pc in {Interrupting, SelfRunning, Waiting}
    ensures var st := Last(trace); st[s].pending == |FlaggedBy(st, s)| + |HeldFrom(st, s)| + st[s].early
  {
    var st := Last(trace);
    InvAlways(c, trace);
    Outstanding(c, st, s);
    assert SenderOk(c, s, st[s]);
    assert |FlaggedBy(st, s) + HeldFrom(st, s)| == |FlaggedBy(st, s)| + |HeldFrom(st, s)|;
  }

  lemma {:induction false} NeverEarly(c: Config, trace: seq<State>, s: nat)
    requires Run(c, trace) && s < c.cpus && QuietWhilePosting(trace, s)
    ensures |Last(trace)| == c.cpus && NoEarlyAck(Last(trace)[s])
    decreases |trace|
  {
    SenderAlways(c, trace, s);
    if |trace| > 1 {
      var before := trace[..|trace| - 1];
      NeverEarly(c, before, s);
      SenderAlways(c, before, s);
      assert NotTakenEarly(trace[|trace| - 2], s);
      QuietStep(c, trace, s);
    }
  }

  lemma QuietStep(c: Config, trace: seq<State>, s: nat)
    requires |trace| > 1 && Follows(c, trace[|trace| - 2], Last(trace)) && s < c.cpus
    requires |trace[|trace| - 2]| == |Last(trace)| == c.cpus && NotTakenEarly(trace[|trace| - 2], s)
    requires NoEarlyAck(trace[|trace| - 2][s]) && SenderOk(c, s, trace[|trace| - 2][s])
    ensures NoEarlyAck(Last(trace)[s])
  {
    var st := trace[|trace| - 2];
    var step :| Leads(c, st, step, Last(trace));
    assert LeadsTo(c, st, step, Last(trace), Seal);
    NoEarlyAckStep(c, st, step, s);
  }

  lemma NoEarlyAckOwnStep(c: Config, st: State, step: Step, s: nat)
    requires |st| == c.cpus && Enabled(c, st, step) && SenderStep(step) && step.s == s && s < |st|
    requires NoEarlyAck(st[s]) && (st[s].pc == Posting ==> st[s].early == 0)
    ensures NoEarlyAck(Next(c, st, step)[s])
  {
  }

  lemma NoEarlyAckStep(c: Config, st: State, step: Step, s: nat)
    requires |st| == c.cpus && Enabled(c, st, step) && s < |st| && NotTakenEarly(st, s)
    requires NoEarlyAck(st[s]) && (st[s].pc == Posting ==> st[s].early == 0)
    ensures NoEarlyAck(Next(c, st, step)[s])
  {
    if SenderStep(step) && step.s == s {
      NoEarlyAckOwnStep(c, st, step, s);
    } else if step.Acknowledge? {
      assert st[step.t].handler.Holds(st[step.t].handler.sender);
    } else {
      SendingUntouched(c, st, step, s);
    }
  }

  // ---- a run in which it happens ----

  lemma Extend(c: Config, trace: seq<State>, step: Step) returns (trace': seq<State>)
    requires Run(c, trace) && |Last(trace)| == c.cpus && Enabled(c, Last(trace), step)
    ensures Run(c, trace') && Last(trace') == Next(c, Last(trace), step)
  {
    trace' := trace + [Next(c, Last(trace), step)];
    assert trace'[..|trace'| - 1] == trace;
    assert LeadsTo(c, Last(trace), step, Last(trace'), Seal);
    assert Leads(c, Last(trace), step, Last(trace'));
  }

  ghost const TWO_CPUS := Config(2, m => m)

  ghost predicate Quiet(q: Cpu) { q.online && q.requests == {} && q.handler == Scan(0) }

  ghost predicate Flagged(q: Cpu) { q.online && q.requests == {0} && q.handler == Scan(0) }

  /** CPU 1, its handler at the first word, takes the request of CPU 0 and reads the message. */
  lemma TakesRequest(trace: seq<State>) returns (trace': seq<State>)
    requires Run(TWO_CPUS, trace) && |Last(trace)| == 2
    requires Flagged(Last(trace)[1]) && Last(trace)[0].board.Some?
    ensures Run(TWO_CPUS, trace') && |Last(trace')| == 2
    ensures Last(trace')[0] == Last(trace)[0]
    ensures var q := Last(trace')[1];
      q.online && q.requests == {} && q.handler == Invoking(0, 0, Last(trace)[0].board.value.message)
  {
    var c := TWO_CPUS;
    assert InWord(0, 0);
    trace' := Extend(c, trace, LoadHit(1, 0));
    trace' := Extend(c, trace', Take(1));
    trace' := Extend(c, trace', Begin(1));
  }

  /** It then runs the message and acknowledges it. */
  lemma Receives(trace: seq<State>) returns (trace': seq<State>)
    requires Run(TWO_CPUS, trace) && |Last(trace)| == 2
    requires Flagged(Last(trace)[1]) && Last(trace)[0].board.Some?
    ensures Run(TWO_CPUS, trace') && |Last(trace')| == 2 && Quiet(Last(trace')[1])
    ensures var p, p' := Last(trace)[0], Last(trace')[0];
      p' == p.(pending := p.pending - 1, acked := p.acked + {1}, board := p'.board, seen := p'.seen) && p'.board.Some?
  {
    trace' := TakesRequest(trace);
    trace' := Extend(TWO_CPUS, trace', Finish(1));
    trace' := Extend(TWO_CPUS, trace', Acknowledge(1));
  }

  /** CPU 0 fills its board with a message for CPU 1 alone. */
  lemma FillsForOne(st: State) returns (trace: seq<State>)
    requires Initial(TWO_CPUS, st) && st[1].online
    ensures Run(TWO_CPUS, trace) && |Last(trace)| == 2 && Last(trace)[1] == st[1]
    ensures var p := Last(trace)[0];
      p.pc == Posting && p.target == Single(1) && p.board.Some?
      && p.counted == None && p.todo == {1} && p.sent == {} && p.acked == {}
  {
    assert Others(TWO_CPUS, Single(1), 0) == {1};
    trace := Extend(TWO_CPUS, [st], StartSend(0, Single(1), IpiShared, 4));
    trace := Extend(TWO_CPUS, trace, FillBoard(0));
  }

  /** It posts the message. */
  lemma PostsToOne(st: State) returns (trace: seq<State>)
    requires Initial(TWO_CPUS, st) && st[1].online
    ensures Run(TWO_CPUS, trace) && |Last(trace)| == 2
    ensures var p := Last(trace)[0];
      p.pc == Posting && p.target == Single(1) && p.pending == 1 && p.board.Some?
      && p.counted == None && p.todo == {} && p.sent == {1} && p.acked == {}
    ensures var q := Last(trace)[1]; q.online && q.requests == {0} && q.handler == Off
  {
    trace := FillsForOne(st);
    trace := Extend(TWO_CPUS, trace, CountTarget(0, 1));
    trace := Extend(TWO_CPUS, trace, FlagCounted(0));
  }

  lemma SendsToOne(st: State) returns (trace: seq<State>)
    requires Initial(TWO_CPUS, st) && st[1].online
    ensures Run(TWO_CPUS, trace) && |Last(trace)| == 2 && Flagged(Last(trace)[1])
    ensures var p := Last(trace)[0]; p.pc == Waiting && p.pending == 1 && p.board.Some? && p.sent == {1} && p.acked == {}
  {
    var c := TWO_CPUS;
    assert Others(c, Single(1), 0) == {1};
    trace := PostsToOne(st);
    trace := Extend(c, trace, EndPosting(0));
    trace := Extend(c, trace, PostInterrupt(0, 1));
    trace := Extend(c, trace, EndInterrupts(0));
    trace := Extend(c, trace, EnterHandler(1));
  }

  lemma StartsBroadcast(trace: seq<State>) returns (trace': seq<State>)
    requires Run(TWO_CPUS, trace) && |Last(trace)| == 2 && Quiet(Last(trace)[1])
    requires Last(trace)[0].pc == Waiting && Last(trace)[0].pending == 0
    ensures Run(TWO_CPUS, trace') && |Last(trace')| == 2 && Flagged(Last(trace')[1])
    ensures var p := Last(trace')[0];
      p.pc == Posting && p.target == AllButSelf && p.todo == {} && p.counted == None && p.board.Some? && p.sent == {1} && p.acked == {}
  {
    var c := TWO_CPUS;
    assert Others(c, AllButSelf, 0) == {1};
    trace' := Extend(c, trace, Return(0));
    trace' := Extend(c, trace', StartSend(0, AllButSelf, IpiShared, 4));
    trace' := Extend(c, trace', FillBoard(0));
    trace' := Extend(c, trace', FlagOnline(0, 1));
  }

  /**
   Two CPUs suffice: CPU 1 is still in its handler for an earlier message when CPU 0
   flags it for a broadcast, so it acknowledges before the count is stored.
   */
  lemma OvertakenHappens(st: State) returns (trace: seq<State>)
    requires Initial(TWO_CPUS, st) && st[1].online
    ensures Run(TWO_CPUS, trace) && |Last(trace)| == 2
    ensures Last(trace)[0].pc == Waiting && CountedLate(Last(trace)[0])
  {
    var c := TWO_CPUS;
    trace := SendsToOne(st);
    trace := Receives(trace);
    trace := StartsBroadcast(trace);
    trace := Receives(trace);
    assert Others(c, AllButSelf, 0) == {1};
    trace := Extend(c, trace, EndPosting(0));
    trace := Extend(c, trace, PostInterrupt(0, 1));
    assert Last(trace)[0].irqTodo == {};
    trace := Extend(c, trace, EndInterrupts(0));
  }
}
