/**
 Sent packets: the transmit descriptors of board/brd_rxtx.c, from pool to switch and back,
 and the callbacks they carry.
 */
module TxPackets {
  const NULL := 0

  /** A descriptor with the switch: its packet (the cookie), and what the sender asked for. */
  datatype Flight = Flight(pkt: nat, cbk: nat, ticket: nat)

  /**
   tx_pkt_list, the descriptors with the switch, how many were ever allocated, the
   callback field of each packet (internal1), and how many sends were accepted.
   */
  datatype State = State(
    free: seq<nat>,
    hw: map<nat, Flight>,
    made: nat,
    internal1: map<nat, nat>,
    accepted: nat)

  datatype Call = Call(cbk: nat, pkt: nat, status: int, ticket: nat)

  // ---------- the operations ----------

  /** The descriptor a send uses: the first free one, or the next to be allocated. */
  function NextDescriptor(st: State): nat {
    if st.free == [] then st.made + 1 else st.free[0]
  }

  function Obtain(st: State): State {
    if st.free == [] then st.(made := st.made + 1) else st.(free := st.free[1..])
  }

  /** brdimpl_tx; ok is the switch's answer. */
  function Send(st: State, pkt: nat, cbk: nat, ok: bool): State {
    if pkt == NULL || cbk == NULL then st
    else
      var t, d := Obtain(st), NextDescriptor(st);
      var u := t.(internal1 := t.internal1[pkt := cbk]);
      if ok then u.(hw := u.hw[d := Flight(pkt, cbk, st.accepted)], accepted := st.accepted + 1)
      else u.(free := [d] + u.free)
  }

  /** brdimpl_tx_cbk */
  function Complete(st: State, d: nat): State
    requires d in st.hw
  {
    st.(free := [d] + st.free, hw := st.hw - {d})
  }

  /** The callback it invokes: the one found in the packet. */
  function CallOf(st: State, d: nat, status: int): Call
    requires d in st.hw && st.hw[d].pkt in st.internal1
  {
    Call(st.internal1[st.hw[d].pkt], st.hw[d].pkt, status, st.hw[d].ticket)
  }

  // ---------- runs ----------

  datatype Event = Sent(pkt: nat, cbk: nat, ok: bool) | Completed(d: nat, status: int)

  predicate Legal(st: State, e: Event) {
    e.Completed? ==> e.d in st.hw && st.hw[e.d].pkt in st.internal1
  }

  function Step(st: State, e: Event): State
    requires Legal(st, e)
  {
    match e
    case Sent(pkt, cbk, ok) => Send(st, pkt, cbk, ok)
    case Completed(d, _) => Complete(st, d)
  }

  const EMPTY := State([], map[], 0, map[], 0)

  ghost predicate IsRun(states: seq<State>, events: seq<Event>) {
    |states| == |events| + 1 && states[0] == EMPTY &&
    forall k :: 0 <= k < |events| ==> Legal(states[k], events[k]) && states[k + 1] == Step(states[k], events[k])
  }

  /** Every descriptor ever allocated is free or with the switch, once. */
  ghost predicate Split(st: State) {
    (forall j, k :: 0 <= j < k < |st.free| ==> st.free[j] != st.free[k]) &&
    (forall d :: d in st.free ==> 1 <= d <= st.made && d !in st.hw) &&
    (forall d :: d in st.hw ==> 1 <= d <= st.made) &&
    st.made == |st.free| + |st.hw|
  }

  /** Every flight has its own ticket, and its packet a callback. */
  ghost predicate Ticketed(st: State) {
    (forall d :: d in st.hw ==> st.hw[d].ticket < st.accepted && st.hw[d].pkt in st.internal1) &&
    forall c, d :: c in st.hw && d in st.hw && c != d ==> st.hw[c].ticket != st.hw[d].ticket
  }

  /** Descriptor d is neither free nor with the switch; all others are split between the two. */
  ghost predicate InHand(t: State, d: nat) {
    1 <= d <= t.made && d !in t.free && d !in t.hw &&
    (forall j, k :: 0 <= j < k < |t.free| ==> t.free[j] != t.free[k]) &&
    (forall c :: c in t.free ==> 1 <= c <= t.made && c !in t.hw) &&
    (forall c :: c in t.hw ==> 1 <= c <= t.made) &&
    t.made == |t.free| + |t.hw| + 1
  }

  lemma ObtainSplits(st: State)
    requires Split(st)
    ensures InHand(Obtain(st), NextDescriptor(st)) && Obtain(st).hw == st.hw
  {
    var t, d := Obtain(st), NextDescriptor(st);
    if st.free != [] {
      assert d in st.free;
      forall c | c in t.free ensures c in st.free && c != d {
        var k :| 0 <= k < |t.free| && t.free[k] == c;
        assert st.free[k + 1] == c;
      }
    }
  }

  lemma PutBackSplits(t: State, d: nat)
    requires InHand(t, d)
    ensures Split(t.(free := [d] + t.free))
  {
  }

  lemma LaunchSplits(t: State, d: nat, f: Flight)
    requires InHand(t, d)
    ensures Split(t.(hw := t.hw[d := f]))
  {
    assert t.hw[d := f].Keys == t.hw.Keys + {d};
    assert |t.hw[d := f]| == |t.hw[d := f].Keys| && |t.hw| == |t.hw.Keys|;
  }

  lemma SendKeepsSplit(st: State, pkt: nat, cbk: nat, ok: bool)
    requires Split(st)
    ensures Split(Send(st, pkt, cbk, ok))
  {
    ObtainSplits(st);
    var d := NextDescriptor(st);
    PutBackSplits(Obtain(st), d);
    LaunchSplits(Obtain(st), d, Flight(pkt, cbk, st.accepted));
  }

  lemma CompleteKeepsSplit(st: State, d: nat)
    requires Split(st) && d in st.hw
    ensures Split(Complete(st, d))
  {
    var t := st.(hw := st.hw - {d});
    assert t.hw.Keys == st.hw.Keys - {d};
    assert |t.hw| == |t.hw.Keys| && |st.hw| == |st.hw.Keys|;
    PutBackSplits(t, d);
  }

  lemma SendKeepsTickets(st: State, pkt: nat, cbk: nat, ok: bool)
    requires Split(st) && Ticketed(st)
    ensures Ticketed(Send(st, pkt, cbk, ok))
  {
    ObtainSplits(st);
  }

  lemma CompleteKeepsTickets(st: State, d: nat)
    requires Ticketed(st) && d in st.hw
    ensures Ticketed(Complete(st, d))
  {
  }

  lemma StepKeeps(st: State, e: Event)
    requires Split(st) && Ticketed(st) && Legal(st, e)
    ensures Split(Step(st, e)) && Ticketed(Step(st, e))
  {
    match e
    case Sent(pkt, cbk, ok) =>
      SendKeepsSplit(st, pkt, cbk, ok);
      SendKeepsTickets(st, pkt, cbk, ok);
    case Completed(d, _) =>
      CompleteKeepsSplit(st, d);
      CompleteKeepsTickets(st, d);
  }

  lemma {:induction false} EveryRunSplits(states: seq<State>, events: seq<Event>, k: nat)
    requires IsRun(states, events) && k < |states|
    ensures Split(states[k]) && Ticketed(states[k])
  {
    if k == 0 {
    } else {
      EveryRunSplits(states, events, k - 1);
      StepKeeps(states[k - 1], events[k - 1]);
    }
  }

  // ---------- as many descriptors as were ever used at once ----------

  /** Descriptors in use while event k is handled: a send uses one more, even if it then fails. */
  function InUse(states: seq<State>, events: seq<Event>, k: nat): nat
    requires k < |events| && |states| == |events| + 1
  {
    |states[k].hw| + if events[k].Sent? && events[k].pkt != NULL && events[k].cbk != NULL then 1 else 0
  }

  /** One event: a send needs at most the descriptors made afterwards, and making one means it needs them all. */
  lemma StepUse(states: seq<State>, events: seq<Event>, k: nat)
    requires IsRun(states, events) && k < |events|
    ensures InUse(states, events, k) <= states[k + 1].made && states[k].made <= states[k + 1].made
    ensures states[k].made < states[k + 1].made ==> InUse(states, events, k) == states[k + 1].made
  {
    EveryRunSplits(states, events, k);
  }

  lemma {:induction false} MadeOnlyGrows(states: seq<State>, events: seq<Event>, i: nat, k: nat)
    requires IsRun(states, events) && i <= k < |states|
    ensures states[i].made <= states[k].made
    decreases k
  {
    if i == k {
    } else {
      MadeOnlyGrows(states, events, i, k - 1);
      StepUse(states, events, k - 1);
    }
  }

  /** The descriptors allocated so far were all in use during some event i. */
  lemma {:induction false} MadeWasInUse(states: seq<State>, events: seq<Event>, k: nat) returns (i: nat)
    requires IsRun(states, events) && k < |states| && states[k].made > 0
    ensures i < k && InUse(states, events, i) == states[k].made
  {
    StepUse(states, events, k - 1);
    if states[k].made > states[k - 1].made {
      i := k - 1;
    } else {
      i := MadeWasInUse(states, events, k - 1);
    }
  }

  /** The descriptors ever allocated are the most that were ever in use at once, failed sends counted. */
  lemma MadeIsPeak(states: seq<State>, events: seq<Event>, k: nat)
    requires IsRun(states, events) && k < |states|
    ensures forall i :: 0 <= i < k ==> InUse(states, events, i) <= states[k].made
    ensures states[k].made > 0 ==> exists i :: 0 <= i < k && InUse(states, events, i) == states[k].made
  {
    forall i | 0 <= i < k ensures InUse(states, events, i) <= states[k].made {
      StepUse(states, events, i);
      MadeOnlyGrows(states, events, i + 1, k);
    }
    if states[k].made > 0 {
      var i := MadeWasInUse(states, events, k);
    }
  }

  // ---------- each accepted send is called back once ----------

  /** A descriptor with the switch carries this send. */
  predicate InFlight(st: State, ticket: nat) {
    exists d :: d in st.hw && st.hw[d].ticket == ticket
  }

  /** How many of the first k events called back this send. */
  function CallsFor(states: seq<State>, events: seq<Event>, k: nat, ticket: nat): nat
    requires k <= |events| && |states| == |events| + 1
    requires forall i :: 0 <= i < |events| ==> Legal(states[i], events[i])
  {
    if k == 0 then 0
    else
      var e := events[k - 1];
      CallsFor(states, events, k - 1, ticket) +
      if e.Completed? && CallOf(states[k - 1], e.d, e.status).ticket == ticket then 1 else 0
  }

  /** Over any run, an accepted send is either still in flight or was called back exactly once. */
  lemma {:induction false} CalledBackOnce(states: seq<State>, events: seq<Event>, k: nat, ticket: nat)
    requires IsRun(states, events) && k < |states|
    ensures CallsFor(states, events, k, ticket) + (if InFlight(states[k], ticket) then 1 else 0)
         == if ticket < states[k].accepted then 1 else 0
  {
    if k == 0 {
    } else {
      CalledBackOnce(states, events, k - 1, ticket);
      EveryRunSplits(states, events, k - 1);
      FlightChanges(states[k - 1], events[k - 1], ticket);
    }
  }

  lemma CompleteEndsFlight(st: State, d: nat, ticket: nat)
    requires Ticketed(st) && d in st.hw
    ensures InFlight(Complete(st, d), ticket) <==> InFlight(st, ticket) && ticket != st.hw[d].ticket
    ensures InFlight(st, st.hw[d].ticket)
  {
    var t := Complete(st, d);
    if InFlight(st, ticket) && ticket != st.hw[d].ticket {
      var c :| c in st.hw && st.hw[c].ticket == ticket;
      assert c in t.hw && t.hw[c] == st.hw[c];
    }
  }

  lemma SendStartsFlight(st: State, pkt: nat, cbk: nat, ok: bool, ticket: nat)
    requires Split(st) && Ticketed(st)
    ensures
      var t := Send(st, pkt, cbk, ok);
      InFlight(t, ticket) <==> InFlight(st, ticket) || (t.accepted > st.accepted && ticket == st.accepted)
    ensures InFlight(st, ticket) ==> ticket < st.accepted
  {
    var t, d := Send(st, pkt, cbk, ok), NextDescriptor(st);
    ObtainSplits(st);
    if InFlight(st, ticket) {
      var c :| c in st.hw && st.hw[c].ticket == ticket;
      assert c in t.hw && t.hw[c] == st.hw[c];
    }
    if t.accepted > st.accepted {
      assert d in t.hw && t.hw[d].ticket == st.accepted;
    }
  }

  lemma FlightChanges(st: State, e: Event, ticket: nat)
    requires Split(st) && Ticketed(st) && Legal(st, e)
    ensures
      var was, now := InFlight(st, ticket), InFlight(Step(st, e), ticket);
      if e.Completed? && CallOf(st, e.d, e.status).ticket == ticket then was && !now
      else if Step(st, e).accepted > st.accepted && ticket == st.accepted then !was && now
      else was == now
  {
    match e
    case Sent(pkt, cbk, ok) => SendStartsFlight(st, pkt, cbk, ok, ticket);
    case Completed(d, _) => CompleteEndsFlight(st, d, ticket);
  }

  // ---------- which callback ----------

  /** The callback that the latest of the first k sends of a packet gave, refused sends included. */
  function LastGiven(events: seq<Event>, k: nat, pkt: nat): (cbk: nat)
    requires k <= |events|
  {
    if k == 0 then NULL
    else
      var e := events[k - 1];
      if e.Sent? && e.pkt == pkt && pkt != NULL && e.cbk != NULL then e.cbk else LastGiven(events, k - 1, pkt)
  }

  /** In any run, a completion invokes the callback given with the latest send of its packet. */
  lemma {:induction false} CallbackIsLastGiven(states: seq<State>, events: seq<Event>, k: nat, d: nat, status: int)
    requires IsRun(states, events) && k < |states| && d in states[k].hw
    ensures states[k].hw[d].pkt in states[k].internal1
    ensures CallOf(states[k], d, status).cbk == LastGiven(events, k, states[k].hw[d].pkt)
  {
    EveryRunSplits(states, events, k);
    InternalIsLastGiven(states, events, k, states[k].hw[d].pkt);
  }

  lemma {:induction false} InternalIsLastGiven(states: seq<State>, events: seq<Event>, k: nat, pkt: nat)
    requires IsRun(states, events) && k < |states|
    ensures pkt in states[k].internal1 ==> states[k].internal1[pkt] == LastGiven(events, k, pkt)
  {
    if k == 0 {
    } else {
      InternalIsLastGiven(states, events, k - 1, pkt);
    }
  }

  /** No packet is sent again before its last send came back. */
  predicate Patient(st: State, e: Event) {
    e.Sent? ==> forall d :: d in st.hw ==> st.hw[d].pkt != e.pkt
  }

  ghost predicate PatientRun(states: seq<State>, events: seq<Event>, k: nat)
    requires k <= |events| && |states| == |events| + 1
  {
    forall i :: 0 <= i < k ==> Patient(states[i], events[i])
  }

  /** The packet in flight in d still names the callback given with that flight. */
  predicate NamesOwn(st: State, d: nat) {
    d in st.hw && st.hw[d].pkt in st.internal1 && st.internal1[st.hw[d].pkt] == st.hw[d].cbk
  }

  lemma StepNamesOwn(st: State, e: Event, d: nat)
    requires Split(st) && Ticketed(st) && Legal(st, e) && Patient(st, e) && d in Step(st, e).hw
    requires d in st.hw ==> NamesOwn(st, d)
    ensures NamesOwn(Step(st, e), d)
  {
  }

  lemma {:induction false} EveryFlightNamesOwn(states: seq<State>, events: seq<Event>, k: nat, d: nat)
    requires IsRun(states, events) && k <= |events| && PatientRun(states, events, k) && d in states[k].hw
    ensures NamesOwn(states[k], d)
  {
    if k == 0 {
    } else {
      EveryRunSplits(states, events, k - 1);
      if d in states[k - 1].hw {
        EveryFlightNamesOwn(states, events, k - 1, d);
      }
      assert Patient(states[k - 1], events[k - 1]);
      StepNamesOwn(states[k - 1], events[k - 1], d);
    }
  }

  /** Then every completion invokes the callback that was given with that very send. */
  lemma RightCallback(states: seq<State>, events: seq<Event>, k: nat, d: nat, status: int)
    requires IsRun(states, events) && k <= |events| && PatientRun(states, events, k) && d in states[k].hw
    ensures states[k].hw[d].pkt in states[k].internal1
    ensures CallOf(states[k], d, status).cbk == states[k].hw[d].cbk
  {
    EveryFlightNamesOwn(states, events, k, d);
  }

  /** An accepted send puts one new flight of its packet up; a refused or malformed one puts up none. */
  lemma SendMeans(st: State, pkt: nat, cbk: nat, ok: bool)
    requires Split(st) && Ticketed(st)
    ensures
      var (t, d, flies) := (Send(st, pkt, cbk, ok), NextDescriptor(st), pkt != NULL && cbk != NULL && ok);
      d !in st.hw && t.accepted == st.accepted + (if flies then 1 else 0) &&
      t.hw == if flies then st.hw[d := Flight(pkt, cbk, st.accepted)] else st.hw
  {
    ObtainSplits(st);
  }

  /** The descriptor that comes back last is used next, and a refused send uses the same one again. */
  lemma LastBackIsUsedNext(st: State, d: nat, pkt: nat, cbk: nat)
    ensures d in st.hw ==> NextDescriptor(Complete(st, d)) == d
    ensures NextDescriptor(Send(st, pkt, cbk, false)) == NextDescriptor(st)
    ensures pkt != NULL && cbk != NULL ==> Send(st, pkt, cbk, false).free == [NextDescriptor(st)] + Obtain(st).free
  {
  }

  /** Event i is the accepted send of this flight. */
  predicate IsSendOf(states: seq<State>, events: seq<Event>, i: nat, flight: Flight) {
    i < |events| && i < |states| && events[i] == Sent(flight.pkt, flight.cbk, true) && flight.pkt != NULL &&
    flight.cbk != NULL && states[i].accepted == flight.ticket
  }

  lemma StepFlights(st: State, e: Event, d: nat)
    requires Split(st) && Ticketed(st) && Legal(st, e) && d in Step(st, e).hw
    ensures (d in st.hw && Step(st, e).hw[d] == st.hw[d]) ||
            (e == Sent(Step(st, e).hw[d].pkt, Step(st, e).hw[d].cbk, true) && e.pkt != NULL && e.cbk != NULL &&
             Step(st, e).hw[d].ticket == st.accepted)
  {
    ObtainSplits(st);
  }

  /** Every flight goes back to an accepted send. */
  lemma {:induction false} FlightWasSent(states: seq<State>, events: seq<Event>, k: nat, d: nat) returns (i: nat)
    requires IsRun(states, events) && k < |states| && d in states[k].hw
    ensures i < k && IsSendOf(states, events, i, states[k].hw[d])
  {
    i := 0;
    if k == 0 {
    } else {
      EveryRunSplits(states, events, k - 1);
      StepFlights(states[k - 1], events[k - 1], d);
      if d in states[k - 1].hw && states[k].hw[d] == states[k - 1].hw[d] {
        i := FlightWasSent(states, events, k - 1, d);
      } else {
        i := k - 1;
      }
    }
  }

  /** A completion reports the packet of the send it completes, and the status the switch gave. */
  lemma CompletionReportsItsSend(states: seq<State>, events: seq<Event>, k: nat, d: nat, status: int) returns (i: nat)
    requires IsRun(states, events) && k < |states| && d in states[k].hw
    ensures states[k].hw[d].pkt in states[k].internal1
    ensures i < k && IsSendOf(states, events, i, states[k].hw[d])
    ensures
      var call := CallOf(states[k], d, status);
      call.pkt == events[i].pkt && call.ticket == states[i].accepted && call.status == status
  {
    EveryRunSplits(states, events, k);
    i := FlightWasSent(states, events, k, d);
  }

  /** Sending a packet again while it is in flight replaces the first send's callback, even if the switch refuses. */
  lemma ImpatientSendStealsCallback(st: State, d: nat, cbk: nat, ok: bool, status: int)
    requires Split(st) && Ticketed(st) && d in st.hw && st.hw[d].pkt != NULL && cbk != NULL
    ensures
      var t := Send(st, st.hw[d].pkt, cbk, ok);
      d in t.hw && t.hw[d] == st.hw[d] && t.hw[d].pkt in t.internal1 && CallOf(t, d, status).cbk == cbk
  {
    assert NextDescriptor(st) != d;
  }
}
