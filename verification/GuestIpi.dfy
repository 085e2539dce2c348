/**
 Interrupt requests one CPU leaves for another's guest. A requester writes its request and
 then raises `ipi_pending`; the consumer lowers `ipi_pending` and then swaps out the eight
 request words and the NMI flag one after the other. The state machine interleaves any
 number of requesters with the consumer, one atomic access per step.
 */
module GuestIpi {
  import opened Bits
  import opened Collections
  import opened VectorRegister

  // ---- the shared flags ----

  class PerCpuShared {
    const ipiIrr: array<nat>
    var ipiPending: bool
    var nmiPending: bool

    ghost predicate Valid()
      reads this, ipiIrr
    {
      IsRegister(ipiIrr[..])
    }

    ghost function Requested(): set<nat>
      reads this, ipiIrr
    {
      VectorsOf(ipiIrr[..])
    }

    constructor ()
      ensures Valid() && fresh(ipiIrr)
      ensures Requested() == {} && !ipiPending && !nmiPending
    {
      ipiIrr := new nat[8](_ => 0);
      ipiPending := false;
      nmiPending := false;
      new;
      NoVectors(ipiIrr[..]);
    }

    method RequestIpi(vector: nat)
      requires Valid() && vector < 256
      modifies this`ipiPending, ipiIrr
      ensures Valid() && Requested() == old(Requested()) + {vector} && ipiPending
    {
      ipiIrr[vector / 32] := Or(ipiIrr[vector / 32], Pow2(vector % 32));
      ipiPending := true;
      InsertAdds(old(ipiIrr[..]), vector, ipiIrr[..]);
    }

    method RequestNmi()
      modifies this`ipiPending, this`nmiPending
      ensures nmiPending && ipiPending
    {
      nmiPending := true;
      ipiPending := true;
    }

    method SwapPending() returns (r: bool)
      modifies this`ipiPending
      ensures r == old(ipiPending) && !ipiPending
    {
      r := ipiPending;
      ipiPending := false;
    }

    method SwapWord(index: nat) returns (r: nat)
      requires Valid() && index < 8
      modifies ipiIrr
      ensures Valid()
      ensures r == old(ipiIrr[index]) && ipiIrr[..] == old(ipiIrr[..])[index := 0]
    {
      r := ipiIrr[index];
      ipiIrr[index] := 0;
    }

    method SwapNmi() returns (r: bool)
      modifies this`nmiPending
      ensures r == old(nmiPending) && !nmiPending
    {
      r := nmiPending;
      nmiPending := false;
    }
  }

  // ---- requesters and consumer, interleaved ----

  datatype What = Vector(vector: nat) | Nmi

  /** One call of `request_ipi` or `request_nmi`. */
  datatype Request = Request(id: nat, what: What)

  datatype State = State(
    irr: set<nat>,            // ipi_irr
    nmi: bool,                // nmi_pending
    pending: bool,            // ipi_pending
    scanning: Option<nat>,    // the word the consumer swaps next, 8 for the NMI flag
    local: set<nat>,          // the consumer's own IRR
    localNmi: bool,           // and its own NMI flag
    half: set<Request>,       // written, but not yet signalled
    waiting: set<Request>,    // written, but not yet taken
    received: set<Request>,   // taken, but not yet served
    served: set<Request>,     // put in service with the rest of its vector
    due: set<Request>,        // waiting when the consumer last lowered `ipi_pending`
    issued: nat)

  datatype Step = Write(what: What) | Signal(request: Request) | Poll | TakeWord | TakeNmi | Serve(what: What)

  /** The place of a request in the consumer's scan. */
  function Place(what: What): nat
  {
    match what
    case Vector(v) => v / 32
    case Nmi => 8
  }

  ghost function AtPlace(requests: set<Request>, place: nat): set<Request>
  {
    set r | r in requests && Place(r.what) == place
  }

  ghost function Asking(requests: set<Request>, what: What): set<Request>
  {
    set r | r in requests && r.what == what
  }

  ghost function WordOf(irr: set<nat>, word: nat): set<nat>
  {
    set v | v in irr && v / 32 == word
  }

  ghost predicate Next(s: State, step: Step, s': State)
  {
    match step
    case Write(what) =>
      var r := Request(s.issued, what);
      && (what.Vector? ==> what.vector < 256)
      && s' == s.(irr := if what.Vector? then s.irr + {what.vector} else s.irr,
                  nmi := s.nmi || what.Nmi?,
                  half := s.half + {r},
                  waiting := s.waiting + {r},
                  issued := s.issued + 1)
    case Signal(r) =>
      && r in s.half
      && s' == s.(pending := true, half := s.half - {r})
    case Poll =>
      && s.scanning.None?
      && s' == if s.pending then s.(pending := false, scanning := Some(0), due := s.waiting) else s
    case TakeWord =>
      && s.scanning.Some? && s.scanning.value < 8
      && s' == s.(irr := s.irr - WordOf(s.irr, s.scanning.value),
                  local := s.local + WordOf(s.irr, s.scanning.value),
                  scanning := Some(s.scanning.value + 1),
                  waiting := s.waiting - AtPlace(s.waiting, s.scanning.value),
                  received := s.received + AtPlace(s.waiting, s.scanning.value))
    case TakeNmi =>
      && s.scanning == Some(8)
      && s' == s.(nmi := false,
                  localNmi := s.localNmi || s.nmi,
                  scanning := None,
                  waiting := s.waiting - AtPlace(s.waiting, 8),
                  received := s.received + AtPlace(s.waiting, 8))
    case Serve(what) =>
      && s.scanning.None?
      && (match what case Vector(v) => v in s.local case Nmi => s.localNmi)
      && s' == s.(local := if what.Vector? then s.local - {what.vector} else s.local,
                  localNmi := s.localNmi && what.Vector?,
                  received := s.received - Asking(s.received, what),
                  served := s.served + Asking(s.received, what))
  }

  ghost predicate Initial(s: State)
  {
    s == State({}, false, false, None, {}, false, {}, {}, {}, {}, {}, 0)
  }

  ghost predicate Run(s: State, steps: seq<Step>, s': State)
    decreases |steps|
  {
    if steps == [] then s' == s
    else exists m :: Next(s, steps[0], m) && Run(m, steps[1..], s')
  }

  /** The consumer's scan has yet to reach the request. */
  ghost predicate Ahead(s: State, what: What)
  {
    s.scanning.Some? && s.scanning.value <= Place(what)
  }

  ghost predicate Attended(s: State, r: Request)
  {
    s.pending || r in s.half || Ahead(s, r.what)
  }

  /** The vectors and the NMI flag are exactly what the requests ask for. */
  ghost predicate AsksFor(vectors: set<nat>, nmi: bool, requests: set<Request>)
  {
    && (forall r :: r in requests && r.what.Vector? ==> r.what.vector < 256 && r.what.vector in vectors)
    && (forall v :: v in vectors ==> exists r :: r in requests && r.what == Vector(v))
    && (nmi <==> exists r :: r in requests && r.what == Nmi)
  }

  /** The shared bits are those of the requests not yet taken, the local ones those not yet served. */
  ghost predicate BitsExact(s: State)
  {
    AsksFor(s.irr, s.nmi, s.waiting) && AsksFor(s.local, s.localNmi, s.received)
  }

  /** All requests that were taken. */
  ghost function Arrived(s: State): set<Request> { s.received + s.served }

  ghost predicate Known(requests: set<Request>, id: nat)
  {
    exists r :: r in requests && r.id == id
  }

  ghost predicate Accounted(s: State)
  {
    && s.waiting !! Arrived(s) && s.received !! s.served
    && (forall i: nat :: i < s.issued ==> Known(s.waiting + Arrived(s), i))
    && (forall r :: r in s.waiting + Arrived(s) ==> r.id < s.issued)
    && (forall r, q :: r in s.waiting + Arrived(s) && q in s.waiting + Arrived(s) && r.id == q.id ==> r == q)
  }

  ghost predicate Inv(s: State)
  {
    && BitsExact(s)
    && Accounted(s)
    && s.half <= s.waiting + Arrived(s)
    && (s.scanning.Some? ==> s.scanning.value <= 8)
    && (forall r :: r in s.waiting ==> Attended(s, r))
    && (forall r :: r in s.due ==> r in Arrived(s) || (r in s.waiting && Ahead(s, r.what)))
  }

  /** One more request sets its own bit. */
  lemma AsksMore(vectors: set<nat>, nmi: bool, requests: set<Request>, r: Request)
    requires AsksFor(vectors, nmi, requests) && (r.what.Vector? ==> r.what.vector < 256)
    ensures AsksFor(if r.what.Vector? then vectors + {r.what.vector} else vectors, nmi || r.what.Nmi?, requests + {r})
  {
    var all := requests + {r};
    assert r in all;
    forall v | v in vectors ensures exists q :: q in all && q.what == Vector(v) {
      var q :| q in requests && q.what == Vector(v);
      assert q in all;
    }
    if nmi {
      var q :| q in requests && q.what == Nmi;
      assert q in all;
    }
  }

  /** Taking out all requests of one place takes out exactly their bits. */
  lemma AsksRest(vectors: set<nat>, nmi: bool, requests: set<Request>, place: nat)
    requires AsksFor(vectors, nmi, requests) && place <= 8
    ensures AsksFor(vectors - WordOf(vectors, place), nmi && place != 8, requests - AtPlace(requests, place))
    ensures AsksFor(WordOf(vectors, place), nmi && place == 8, AtPlace(requests, place))
  {
    var gone := AtPlace(requests, place);
    forall v | v in vectors
      ensures exists q :: q in requests && q.what == Vector(v) && (q in gone <==> v / 32 == place)
    {
      var q :| q in requests && q.what == Vector(v);
      assert q in gone <==> v / 32 == place;
    }
    if nmi {
      var q :| q in requests && q.what == Nmi;
      assert q in gone <==> place == 8;
    }
  }

  lemma AsksBoth(vectors: set<nat>, nmi: bool, requests: set<Request>,
                  vectors': set<nat>, nmi': bool, requests': set<Request>)
    requires AsksFor(vectors, nmi, requests) && AsksFor(vectors', nmi', requests')
    ensures AsksFor(vectors + vectors', nmi || nmi', requests + requests')
  {
    forall v | v in vectors + vectors' ensures exists q :: q in requests + requests' && q.what == Vector(v) {
      var q :| q in requests + requests' && q.what == Vector(v);
    }
    if nmi || nmi' {
      var q :| q in requests + requests' && q.what == Nmi;
    }
  }

  /** Serving a vector serves all requests that asked for it. */
  lemma AsksUnserved(vectors: set<nat>, nmi: bool, requests: set<Request>, what: What)
    requires AsksFor(vectors, nmi, requests)
    ensures AsksFor(if what.Vector? then vectors - {what.vector} else vectors, nmi && what.Vector?,
                  requests - Asking(requests, what))
  {
    var rest := requests - Asking(requests, what);
    forall v | v in vectors && what != Vector(v) ensures exists q :: q in rest && q.what == Vector(v) {
      var q :| q in requests && q.what == Vector(v);
      assert q in rest;
    }
    if nmi && what.Vector? {
      var q :| q in requests && q.what == Nmi;
      assert q in rest;
    }
  }

  lemma StepKeepsBits(s: State, step: Step, s': State)
    requires BitsExact(s) && Next(s, step, s') && (s.scanning.Some? ==> s.scanning.value <= 8)
    ensures BitsExact(s')
  {
    match step
    case Write(what) => AsksMore(s.irr, s.nmi, s.waiting, Request(s.issued, what));
    case Serve(what) => AsksUnserved(s.local, s.localNmi, s.received, what);
    case Signal(_) =>
    case Poll =>
    case _ => TakeKeepsBits(s, step, s');
  }

  lemma TakeKeepsBits(s: State, step: Step, s': State)
    requires BitsExact(s) && Next(s, step, s') && (step.TakeWord? || step.TakeNmi?)
    ensures BitsExact(s')
  {
    var place := s.scanning.value;
    var word := WordOf(s.irr, place);
    AsksRest(s.irr, s.nmi, s.waiting, place);
    AsksBoth(s.local, s.localNmi, s.received, word, s.nmi && place == 8, AtPlace(s.waiting, place));
    if step.TakeNmi? {
      assert forall v :: v in s.irr ==> v < 256;
      assert word == {};
      assert s.irr - word == s.irr && s.local + word == s.local;
    }
  }

  lemma StepKeepsAccounts(s: State, step: Step, s': State)
    requires Accounted(s) && Next(s, step, s')
    ensures Accounted(s')
  {
    if step.Write? {
      var r := Request(s.issued, step.what);
      assert r in s'.waiting;
      assert s'.waiting + Arrived(s') == (s.waiting + Arrived(s)) + {r};
      forall i: nat | i < s'.issued ensures Known(s'.waiting + Arrived(s'), i) {
        if i < s.issued {
          assert Known(s.waiting + Arrived(s), i);
          var q :| q in s.waiting + Arrived(s) && q.id == i;
          assert q in s'.waiting + Arrived(s');
        } else {
          assert r in s'.waiting + Arrived(s');
        }
      }
    } else {
      assert s'.waiting + Arrived(s') == s.waiting + Arrived(s);
    }
  }

  lemma StepKeepsInv(s: State, step: Step, s': State)
    requires Inv(s) && Next(s, step, s')
    ensures Inv(s')
  {
    StepKeepsBits(s, step, s');
    StepKeepsAccounts(s, step, s');
  }

  lemma {:induction false} RunKeepsInv(s: State, steps: seq<Step>, s': State)
    requires Inv(s) && Run(s, steps, s')
    ensures Inv(s')
    decreases |steps|
  {
    if steps != [] {
      var m :| Next(s, steps[0], m) && Run(m, steps[1..], s');
      StepKeepsInv(s, steps[0], m);
      RunKeepsInv(m, steps[1..], s');
    }
  }

  lemma InitialInv(s: State)
    requires Initial(s)
    ensures Inv(s)
  {
  }

  /**
   In any interleaving, a set request bit means that `ipi_pending` is set, that its requester is
   between its two writes, or that the consumer has yet to swap that word; and the NMI flag likewise.
   */
  lemma NoStrandedBit(s: State, steps: seq<Step>, s': State, v: nat)
    requires Initial(s) && Run(s, steps, s')
    ensures v in s'.irr ==>
      || s'.pending
      || (exists r :: r in s'.half && r.what == Vector(v))
      || (s'.scanning.Some? && s'.scanning.value <= v / 32)
    ensures s'.nmi ==>
      || s'.pending
      || (exists r :: r in s'.half && r.what == Nmi)
      || s'.scanning.Some?
  {
    InitialInv(s);
    RunKeepsInv(s, steps, s');
    if v in s'.irr {
      var r :| r in s'.waiting && r.what == Vector(v);
      assert Attended(s', r);
    }
    if s'.nmi {
      var r :| r in s'.waiting && r.what == Nmi;
      assert Attended(s', r);
    }
  }

  /**
   Every request waits, has arrived in the consumer's own registers, or was served from there.
   The registers hold exactly what has arrived and not been served, so a request that has
   arrived has its vector in the local IRR, or the local NMI flag set, until the service that
   takes that vector. One that still waits and whose requester has returned is met by a raised
   `ipi_pending` or by the scan under way; and what waited when a scan began has arrived when
   it ends.
   */
  lemma NoRequestIsLost(s: State, steps: seq<Step>, s': State)
    requires Initial(s) && Run(s, steps, s')
    ensures forall i: nat :: i < s'.issued ==> Known(s'.waiting + s'.received + s'.served, i)
    ensures s'.waiting !! s'.received && s'.waiting !! s'.served && s'.received !! s'.served
    ensures forall r :: r in s'.received ==> if r.what.Vector? then r.what.vector in s'.local else s'.localNmi
    ensures forall v :: v in s'.local ==> exists r :: r in s'.received && r.what == Vector(v)
    ensures s'.localNmi ==> exists r :: r in s'.received && r.what == Nmi
    ensures forall r :: r in s'.waiting && r !in s'.half ==> s'.pending || Ahead(s', r.what)
    ensures s'.scanning.None? ==> s'.due <= s'.received + s'.served
  {
    InitialInv(s);
    RunKeepsInv(s, steps, s');
    assert s'.waiting + Arrived(s') == s'.waiting + s'.received + s'.served;
    forall r | r in s'.received && r.what.Nmi? ensures s'.localNmi {
      assert r.what == Nmi;
    }
  }

  /** A request leaves `received` only in a step that takes its vector, or the NMI, out of the local registers. */
  lemma ServedFromRegisters(s: State, step: Step, s': State, r: Request)
    requires Inv(s) && Next(s, step, s') && r in s.received && r !in s'.received
    ensures r in s'.served
    ensures if r.what.Vector? then r.what.vector in s.local && r.what.vector !in s'.local
            else s.localNmi && !s'.localNmi
  {
    assert step == Serve(r.what);
  }
}
