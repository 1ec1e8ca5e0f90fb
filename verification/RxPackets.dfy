/**
 Who owns a received packet: the descriptors that kernel/rx.c and board/brd_rxtx.c hand
 around between idle pool, board, callbacks and applications, as values.
 */
module RxPackets {
  import opened RxCallbacks

  datatype Status = SysOk | ErrParameter | ErrFull

  datatype RxResult = RxInvalid | RxNotHandled | RxHandled | RxOwned

  /**
   One thing a callback does: it frees a packet an application owned, or it polls the
   background tasks and another packet arrives; the replies say what callbacks do with that one.
   */
  datatype Act<P> = Give(wrapper: P) | Arrive(flags: RxFlags, replies: seq<Reply<P>>)

  /** What the callback of a slot does with a packet, and its answer. */
  datatype Reply<P> = Reply(acts: seq<Act<P>>, result: RxResult)

  /**
   Idle wrappers (rx_pkt_pool), wrappers posted to the board (rx_syspkt_list), those in
   handlers, at any depth, those in applications' hands and every one ever added; the board's
   driver descriptors that are free (rx_pkt_list), with the switch, and ever allocated.
   */
  datatype State<!P> = State(
    cbs: Callbacks,
    pool: seq<P>,
    posted: seq<P>,
    held: set<P>,
    app: set<P>,
    added: set<P>,
    free: nat,
    hw: nat,
    made: nat)

  // ---------- the operations ----------

  /** brdimpl_rx_fill_buffer: a free driver descriptor, or a new one, goes to the switch. */
  function FillBuffer<P>(st: State<P>, p: P): State<P> {
    st.(posted := [p] + st.posted,
        free := if st.free == 0 then 0 else st.free - 1,
        made := if st.free == 0 then st.made + 1 else st.made,
        hw := st.hw + 1)
  }

  /** sys_rx_refill */
  function Refill<P>(st: State<P>, p: P): State<P> {
    if st.cbs.order != [] then FillBuffer(st, p) else st.(pool := [p] + st.pool)
  }

  /** The loop of sys_rx_register that empties the idle pool. */
  function Drain<P>(st: State<P>): State<P>
    requires st.cbs.order != []
    decreases |st.pool|
  {
    if st.pool == [] then st else Drain(Refill(st.(pool := st.pool[1..]), st.pool[0]))
  }

  function RegisterStatus<P>(st: State<P>, cbk: nat): Status {
    if cbk == NO_CBK then ErrParameter
    else if FreeSlot(st.cbs.slots, 0) == |st.cbs.slots| then ErrFull
    else SysOk
  }

  /** sys_rx_register */
  function Register<P>(st: State<P>, s: Slot): State<P>
    requires Sized(st.cbs)
  {
    if RegisterStatus(st, s.cbk) != SysOk then st
    else
      var t := st.(cbs := Registered(st.cbs, FreeSlot(st.cbs.slots, 0), s));
      if |t.cbs.order| == 1 then Drain(t) else t
  }

  /** sys_rx_unregister */
  function Unregister<P>(st: State<P>, cbk: nat): (State<P>, Status)
    requires Sized(st.cbs)
  {
    var p := CbkPos(st.cbs, cbk, 0);
    if p == |st.cbs.order| then (st, ErrParameter) else (st.(cbs := Unregistered(st.cbs, p)), SysOk)
  }

  /** sys_rx_add_buffer, with its new wrapper. */
  function AddBuffer<P>(st: State<P>, p: P): State<P> {
    Refill(st.(added := st.added + {p}), p)
  }

  /** sys_rx_free_packet */
  function Free<P>(st: State<P>, p: P): State<P> {
    Refill(st.(app := st.app - {p}), p)
  }

  /** The start of brdimpl_rx_handler: the first posted wrapper, and the driver descriptor back to its pool. */
  function Take<P>(st: State<P>): State<P>
    requires st.posted != [] && st.hw > 0
  {
    st.(posted := st.posted[1..], held := st.held + {st.posted[0]}, hw := st.hw - 1, free := st.free + 1)
  }

  function Release<P>(st: State<P>, p: P): State<P> {
    Refill(st.(held := st.held - {p}), p)
  }

  function HandOver<P>(st: State<P>, p: P): State<P> {
    st.(held := st.held - {p}, app := st.app + {p})
  }

  predicate TakesPacket(r: RxResult) {
    r.RxHandled? || r.RxOwned?
  }

  /** What the answer of a callback means for the packet. */
  function Settled<P>(st: State<P>, p: P, result: RxResult): State<P> {
    match result
    case RxHandled => Release(st, p)
    case RxOwned => HandOver(st, p)
    case _ => st
  }

  /** At every depth there is a reply for each slot. */
  predicate Fits<P>(acts: seq<Act<P>>)
    decreases acts
  {
    forall k :: 0 <= k < |acts| && acts[k].Arrive? ==> AllFit(acts[k].replies)
  }

  predicate AllFit<P>(replies: seq<Reply<P>>)
    decreases replies
  {
    |replies| == MAX_RX_CBKS && forall i :: 0 <= i < |replies| ==> Fits(replies[i].acts)
  }

  /** A callback from its act k on. */
  function Work<P>(st: State<P>, acts: seq<Act<P>>, k: nat): (r: State<P>)
    requires Sized(st.cbs) && Fits(acts) && k <= |acts|
    ensures r.cbs == st.cbs
    decreases acts, |acts| - k
  {
    if k == |acts| then st
    else
      match acts[k]
      case Give(p) => Work(Free(st, p), acts, k + 1)
      case Arrive(f, replies) => Work(Receive(st, f, replies), acts, k + 1)
  }

  /** One callback called: what it does, then what its answer means for the packet. */
  function Served<P>(st: State<P>, p: P, reply: Reply<P>): (r: State<P>)
    requires Sized(st.cbs) && Fits(reply.acts)
    ensures r.cbs == st.cbs
    decreases reply
  {
    Settled(Work(st, reply.acts, 0), p, reply.result)
  }

  /** sys_rx_handler from list position k on, with the replies the callbacks would give. */
  function Deliver<P>(st: State<P>, p: P, f: RxFlags, replies: seq<Reply<P>>, k: nat): (r: State<P>)
    requires Sized(st.cbs) && AllFit(replies) && k <= |st.cbs.order|
    ensures r.cbs == st.cbs
    decreases replies, |st.cbs.order| - k
  {
    if k == |st.cbs.order| then Release(st, p)
    else if !Eligible(st.cbs.slots[st.cbs.order[k]], f) then Deliver(st, p, f, replies, k + 1)
    else
      var reply := replies[st.cbs.order[k]];
      var t := Served(st, p, reply);
      if TakesPacket(reply.result) then t else Deliver(t, p, f, replies, k + 1)
  }

  /**
   brdimpl_rx_handler: a packet comes in a driver descriptor, if the switch has one; without
   a posted wrapper it would be dropped (line 47 of brd_rxtx.c).
   */
  function Receive<P>(st: State<P>, f: RxFlags, replies: seq<Reply<P>>): (r: State<P>)
    requires Sized(st.cbs) && AllFit(replies)
    ensures r.cbs == st.cbs
    decreases replies, |st.cbs.order| + 1
  {
    if st.hw == 0 || st.posted == [] then st else Deliver(Take(st), st.posted[0], f, replies, 0)
  }

  // ---------- ownership ----------

  predicate Distinct<P(==)>(s: seq<P>) {
    forall j, k :: 0 <= j < k < |s| ==> s[j] != s[k]
  }

  function Elems<P>(s: seq<P>): set<P> {
    set p | p in s
  }

  lemma ElemsOfMore<P>(s: seq<P>, p: P)
    ensures Elems([p] + s) == Elems(s) + {p}
  {
  }

  lemma ElemsOfRest<P>(s: seq<P>)
    requires s != [] && Distinct(s)
    ensures Elems(s[1..]) == Elems(s) - {s[0]} && Distinct(s[1..]) && s[0] in s
  {
    assert s == [s[0]] + s[1..];
  }

  /** Every wrapper ever added, except the loose ones, is in exactly one place. */
  ghost predicate Split<P>(st: State<P>, loose: set<P>) {
    Distinct(st.pool) && Distinct(st.posted) &&
    (forall p :: p in st.added ==> p in st.pool || p in st.posted || p in st.held || p in st.app || p in loose) &&
    (forall p :: p in st.pool ==> p in st.added && p !in st.posted && p !in st.held && p !in st.app && p !in loose) &&
    (forall p :: p in st.posted ==> p in st.added && p !in st.held && p !in st.app && p !in loose) &&
    (forall p :: p in st.held ==> p in st.added && p !in st.app && p !in loose) &&
    (forall p :: p in st.app ==> p in st.added && p !in loose) &&
    (forall p :: p in loose ==> p in st.added)
  }

  /** The driver's descriptors: one with the switch for each posted wrapper, none ever lost. */
  predicate Counted<P>(st: State<P>) {
    |st.posted| == st.hw && st.made == st.free + st.hw
  }

  /** While a callback is registered no wrapper is idle. */
  predicate NoneIdle<P>(st: State<P>) {
    st.cbs.order != [] ==> st.pool == []
  }

  /** Between calls and at every callback; loose is what is on its way from one place to another. */
  ghost predicate Inv<P>(st: State<P>, loose: set<P>) {
    CallbacksInv(st.cbs) && Split(st, loose) && Counted(st) && NoneIdle(st)
  }

  // ---------- each part keeps the ownership ----------

  lemma LooseIsNowhere<P>(st: State<P>, p: P)
    requires Split(st, {p})
    ensures p in st.added && p !in st.pool && p !in st.posted && p !in st.held && p !in st.app
  {
    assert p !in Elems(st.pool) && p !in Elems(st.posted);
  }

  lemma FillKeepsSplit<P>(st: State<P>, p: P)
    requires Split(st, {p})
    ensures Split(FillBuffer(st, p), {})
  {
    ElemsOfMore(st.posted, p);
  }

  lemma ShelveKeepsSplit<P>(st: State<P>, p: P)
    requires Split(st, {p})
    ensures Split(st.(pool := [p] + st.pool), {})
  {
    ElemsOfMore(st.pool, p);
  }

  lemma UnshelveKeepsSplit<P>(st: State<P>)
    requires Split(st, {}) && st.pool != []
    ensures Split(st.(pool := st.pool[1..]), {st.pool[0]})
    ensures Split(Refill(st.(pool := st.pool[1..]), st.pool[0]), {})
  {
    ElemsOfRest(st.pool);
    var t := st.(pool := st.pool[1..]);
    forall p ensures p in t.pool <==> p in st.pool && p != st.pool[0] {
      assert p in t.pool <==> p in Elems(t.pool);
      assert p in st.pool <==> p in Elems(st.pool);
    }
    FillKeepsSplit(t, st.pool[0]);
    ShelveKeepsSplit(t, st.pool[0]);
  }

  lemma RefillKeepsInv<P>(st: State<P>, p: P)
    requires Inv(st, {p})
    ensures Inv(Refill(st, p), {})
  {
    FillKeepsSplit(st, p);
    ShelveKeepsSplit(st, p);
  }

  lemma FreeKeepsInv<P>(st: State<P>, p: P)
    requires Inv(st, {}) && p in st.app
    ensures Inv(Free(st, p), {})
  {
    RefillKeepsInv(st.(app := st.app - {p}), p);
  }

  lemma ReleaseKeepsInv<P>(st: State<P>, p: P)
    requires Inv(st, {}) && p in st.held
    ensures Inv(Release(st, p), {})
  {
    RefillKeepsInv(st.(held := st.held - {p}), p);
  }

  lemma HandOverKeepsInv<P>(st: State<P>, p: P)
    requires Inv(st, {}) && p in st.held
    ensures Inv(HandOver(st, p), {})
  {
  }

  lemma AddBufferKeepsInv<P>(st: State<P>, p: P)
    requires Inv(st, {}) && p !in st.added
    ensures Inv(AddBuffer(st, p), {})
  {
    RefillKeepsInv(st.(added := st.added + {p}), p);
  }

  lemma TakeKeepsInv<P>(st: State<P>)
    requires Inv(st, {}) && st.posted != []
    ensures st.hw > 0 && st.posted[0] !in st.held && Inv(Take(st), {})
  {
    ElemsOfRest(st.posted);
  }

  /** Draining posts every idle wrapper; until it ends the pool is not yet empty. */
  lemma {:induction false} DrainKeepsInv<P>(st: State<P>)
    requires CallbacksInv(st.cbs) && Split(st, {}) && Counted(st) && st.cbs.order != []
    ensures Inv(Drain(st), {}) && Drain(st).app == st.app && Drain(st).held == st.held
    decreases |st.pool|
  {
    if st.pool == [] {
    } else {
      ElemsOfRest(st.pool);
      ElemsOfMore(st.posted, st.pool[0]);
      DrainKeepsInv(Refill(st.(pool := st.pool[1..]), st.pool[0]));
    }
  }

  lemma RegisterKeepsInv<P>(st: State<P>, s: Slot)
    requires Inv(st, {})
    ensures Inv(Register(st, s), {}) && Register(st, s).app == st.app && Register(st, s).held == st.held
  {
    if RegisterStatus(st, s.cbk) == SysOk {
      var i := FreeSlot(st.cbs.slots, 0);
      RegisteredKeepsInv(st.cbs, i, s);
      var t := st.(cbs := Registered(st.cbs, i, s));
      if |t.cbs.order| == 1 {
        DrainKeepsInv(t);
      }
    }
  }

  lemma UnregisterKeepsInv<P>(st: State<P>, cbk: nat)
    requires Inv(st, {})
    ensures Inv(Unregister(st, cbk).0, {})
  {
    var p := CbkPos(st.cbs, cbk, 0);
    if p < |st.cbs.order| {
      UnregisteredKeepsInv(st.cbs, p);
    }
  }

  // ---------- what callbacks owe ----------

  /** From act k on, what a callback frees is what applications own at that moment; so at every depth. */
  predicate LegalActs<P>(st: State<P>, acts: seq<Act<P>>, k: nat)
    requires Sized(st.cbs) && Fits(acts) && k <= |acts|
    decreases acts, |acts| - k
  {
    if k == |acts| then true
    else
      match acts[k]
      case Give(p) => p in st.app && LegalActs(Free(st, p), acts, k + 1)
      case Arrive(f, replies) => LegalReceive(st, f, replies) && LegalActs(Receive(st, f, replies), acts, k + 1)
  }

  predicate LegalReceive<P>(st: State<P>, f: RxFlags, replies: seq<Reply<P>>)
    requires Sized(st.cbs) && AllFit(replies)
    decreases replies, |st.cbs.order| + 1
  {
    st.hw == 0 || st.posted == [] || LegalReplies(Take(st), f, replies, 0)
  }

  predicate LegalReplies<P>(st: State<P>, f: RxFlags, replies: seq<Reply<P>>, k: nat)
    requires Sized(st.cbs) && AllFit(replies) && k <= |st.cbs.order|
    decreases replies, |st.cbs.order| - k
  {
    if k == |st.cbs.order| then true
    else if !Eligible(st.cbs.slots[st.cbs.order[k]], f) then LegalReplies(st, f, replies, k + 1)
    else
      var reply := replies[st.cbs.order[k]];
      LegalActs(st, reply.acts, 0) &&
      (TakesPacket(reply.result) || LegalReplies(Work(st, reply.acts, 0), f, replies, k + 1))
  }

  function Takes<P>(replies: seq<Reply<P>>): seq<bool> {
    seq(|replies|, i requires 0 <= i < |replies| => TakesPacket(replies[i].result))
  }

  // ---------- runs ----------

  /**
   The moments at which descriptors change hands: calls from applications, at top level or
   from a callback, a packet that arrives, and what becomes of a packet in a handler.
   */
  datatype Op<P> =
    | OpRegister(slot: Slot)
    | OpUnregister(cbk: nat)
    | OpAddBuffer(wrapper: P)
    | OpFree(wrapper: P)
    | OpArrive
    | OpRelease(wrapper: P)
    | OpKeep(wrapper: P)

  /** What callers owe: new wrappers are new, freed ones are owned, packets come with a driver descriptor. */
  predicate Legal<P>(st: State<P>, op: Op<P>) {
    match op
    case OpAddBuffer(p) => p !in st.added
    case OpFree(p) => p in st.app
    case OpArrive => st.hw > 0
    case OpRelease(p) => p in st.held
    case OpKeep(p) => p in st.held
    case _ => true
  }

  function Step<P>(st: State<P>, op: Op<P>): State<P>
    requires Sized(st.cbs) && Legal(st, op)
  {
    match op
    case OpRegister(s) => Register(st, s)
    case OpUnregister(cbk) => Unregister(st, cbk).0
    case OpAddBuffer(p) => AddBuffer(st, p)
    case OpFree(p) => Free(st, p)
    case OpArrive => if st.posted == [] then st else Take(st)
    case OpRelease(p) => Release(st, p)
    case OpKeep(p) => HandOver(st, p)
  }

  /** sys_rx_init and brdimpl_rxtx_init */
  function InitState<P>(): State<P> {
    State(Callbacks(seq(MAX_RX_CBKS, _ => Slot(NO_CBK, 0, 0, 0)), [], seq(MAX_RX_CBKS, _ => 0), 1),
          [], [], {}, {}, {}, 0, 0, 0)
  }

  ghost predicate IsPath<P>(states: seq<State<P>>, ops: seq<Op<P>>) {
    |states| == |ops| + 1 &&
    forall k :: 0 <= k < |ops| ==>
      Sized(states[k].cbs) && Legal(states[k], ops[k]) && states[k + 1] == Step(states[k], ops[k])
  }

  ghost predicate IsRun<P>(states: seq<State<P>>, ops: seq<Op<P>>) {
    IsPath(states, ops) && states[0] == InitState()
  }

  lemma StepKeepsInv<P>(st: State<P>, op: Op<P>)
    requires Inv(st, {}) && Legal(st, op)
    ensures Inv(Step(st, op), {})
  {
    match op
    case OpRegister(s) => RegisterKeepsInv(st, s);
    case OpUnregister(cbk) => UnregisterKeepsInv(st, cbk);
    case OpAddBuffer(p) => AddBufferKeepsInv(st, p);
    case OpFree(p) => FreeKeepsInv(st, p);
    case OpArrive => if st.posted != [] { TakeKeepsInv(st); }
    case OpRelease(p) => ReleaseKeepsInv(st, p);
    case OpKeep(p) => HandOverKeepsInv(st, p);
  }

  /**
   In every state of every run: each wrapper ever added is idle, posted, in a handler or
   with an application and in one of these places only, none is idle while a callback is
   registered, and posted wrappers match the driver's outstanding descriptors.
   */
  lemma {:induction false} EveryRunKeepsInv<P>(states: seq<State<P>>, ops: seq<Op<P>>, k: nat)
    requires IsRun(states, ops) && k < |states|
    ensures Inv(states[k], {})
  {
    if k == 0 {
    } else {
      EveryRunKeepsInv(states, ops, k - 1);
      StepKeepsInv(states[k - 1], ops[k - 1]);
    }
  }

  /** A packet that the switch delivers always finds a wrapper. */
  lemma ReceiveFindsWrapper<P>(states: seq<State<P>>, ops: seq<Op<P>>, k: nat)
    requires IsRun(states, ops) && k < |ops| && ops[k].OpArrive?
    ensures states[k].posted != []
  {
    EveryRunKeepsInv(states, ops, k);
    assert Legal(states[k], ops[k]);
  }

  // ---------- what registrations and wrappers come to ----------

  /** Every slot is taken. */
  predicate TableFull(c: Callbacks) {
    forall i :: 0 <= i < |c.slots| ==> c.slots[i].cbk != NO_CBK
  }

  /** A registration is refused without a callback or without a free slot; else one more callback is served. */
  lemma RegisterMeans<P>(st: State<P>, s: Slot)
    requires Inv(st, {})
    ensures RegisterStatus(st, s.cbk) ==
            if s.cbk == NO_CBK then ErrParameter else if TableFull(st.cbs) then ErrFull else SysOk
    ensures RegisterStatus(st, s.cbk) != SysOk ==> Register(st, s) == st
    ensures RegisterStatus(st, s.cbk) == SysOk ==>
              var r := Register(st, s);
              r.cbs == Registered(st.cbs, FreeSlot(st.cbs.slots, 0), s) && r.pool == [] && r.added == st.added &&
              r.app == st.app && r.held == st.held
  {
    var i := FreeSlot(st.cbs.slots, 0);
    if RegisterStatus(st, s.cbk) == SysOk {
      RegisterKeepsInv(st, s);
      RegisteredAddsOne(st.cbs, i, s);
      var t := st.(cbs := Registered(st.cbs, i, s));
      DrainMeans(t);
    }
  }

  lemma {:induction false} DrainMeans<P>(st: State<P>)
    requires st.cbs.order != []
    ensures Drain(st).cbs == st.cbs && Drain(st).added == st.added && Drain(st).pool == []
    decreases |st.pool|
  {
    if st.pool == [] {
    } else {
      DrainMeans(Refill(st.(pool := st.pool[1..]), st.pool[0]));
    }
  }

  function Reverse<P>(s: seq<P>): (r: seq<P>)
    ensures |r| == |s| && forall i :: 0 <= i < |r| ==> r[i] == s[|s| - 1 - i]
  {
    seq(|s|, i requires 0 <= i < |s| => s[|s| - 1 - i])
  }

  /** The idle wrappers are posted one before the other, the first of them first. */
  lemma {:induction false} DrainReverses<P>(st: State<P>)
    requires st.cbs.order != []
    ensures Drain(st).posted == Reverse(st.pool) + st.posted
    decreases |st.pool|
  {
    if st.pool == [] {
    } else {
      var t := Refill(st.(pool := st.pool[1..]), st.pool[0]);
      DrainReverses(t);
      assert t.posted == [st.pool[0]] + st.posted;
      assert Reverse(st.pool) == Reverse(st.pool[1..]) + [st.pool[0]];
    }
  }

  /** A wrapper that comes back while a callback is registered takes the next packet. */
  lemma LastBackTakesNext<P>(st: State<P>, p: P)
    requires Inv(st, {p}) && st.cbs.order != []
    ensures
      var t := Refill(st, p);
      t.hw > 0 && t.posted != [] && t.posted[0] == p && Take(t).held == st.held + {p} && Take(t).posted == st.posted
  {
  }

  /** One that comes back while none is registered is posted by the next registration before all that were idle. */
  lemma LastIdleIsPostedFirst<P>(st: State<P>, p: P, s: Slot)
    requires Inv(st, {p}) && st.cbs.order == [] && RegisterStatus(st, s.cbk) == SysOk
    ensures
      var t := Refill(st, p);
      t.pool != [] && t.pool[0] == p && Register(t, s).posted == Reverse(st.pool) + [p] + st.posted
  {
    var t := Refill(st, p);
    RefillKeepsInv(st, p);
    RegisteredAddsOne(t.cbs, FreeSlot(t.cbs.slots, 0), s);
    DrainReverses(t.(cbs := Registered(t.cbs, FreeSlot(t.cbs.slots, 0), s)));
    assert Reverse(t.pool) == Reverse(st.pool) + [p];
  }

  /** The callback is nowhere in the list. */
  predicate Unknown(c: Callbacks, cbk: nat)
    requires Sized(c)
  {
    forall k :: 0 <= k < |c.order| ==> c.slots[c.order[k]].cbk != cbk
  }

  /** Unregistering takes the first place in the list with this callback; of an unknown one it is an error. */
  lemma UnregisterMeans<P>(st: State<P>, cbk: nat) returns (p: nat)
    requires Inv(st, {})
    ensures
      var (r, status) := Unregister(st, cbk);
      if Unknown(st.cbs, cbk) then status == ErrParameter && r == st
      else
        status == SysOk && p < |st.cbs.order| && st.cbs.slots[st.cbs.order[p]].cbk == cbk &&
        (forall k :: 0 <= k < p ==> st.cbs.slots[st.cbs.order[k]].cbk != cbk) &&
        r == st.(cbs := r.cbs) && r.cbs.order == st.cbs.order[..p] + st.cbs.order[p + 1..] &&
        r.cbs.slots[st.cbs.order[p]].cbk == NO_CBK
  {
    p := CbkPos(st.cbs, cbk, 0);
    if p < |st.cbs.order| {
      UnregisteredDropsOne(st.cbs, p);
    }
  }

  // ---------- no more driver descriptors than ever were needed at once ----------

  /** From s to t, descriptors were allocated only when none was free, and then none is. */
  predicate Frugal<P>(s: State<P>, t: State<P>) {
    s.made <= t.made && t.free <= s.free && (s.made < t.made ==> t.free == 0)
  }

  lemma {:induction false} DrainIsFrugal<P>(st: State<P>)
    requires st.cbs.order != []
    ensures Frugal(st, Drain(st))
    decreases |st.pool|
  {
    if st.pool == [] {
    } else {
      DrainIsFrugal(Refill(st.(pool := st.pool[1..]), st.pool[0]));
    }
  }

  lemma StepIsFrugal<P>(st: State<P>, op: Op<P>)
    requires Inv(st, {}) && Legal(st, op)
    ensures st.made <= Step(st, op).made && (st.made < Step(st, op).made ==> Step(st, op).free == 0)
  {
    match op
    case OpRegister(s) =>
      if RegisterStatus(st, s.cbk) == SysOk {
        var t := st.(cbs := Registered(st.cbs, FreeSlot(st.cbs.slots, 0), s));
        if |t.cbs.order| == 1 { DrainIsFrugal(t); }
      }
    case _ =>
  }

  lemma MadeGrowsOnce<P>(states: seq<State<P>>, ops: seq<Op<P>>, k: nat)
    requires IsRun(states, ops) && k < |ops|
    ensures states[k].made <= states[k + 1].made
    ensures states[k].made < states[k + 1].made ==> states[k + 1].hw == states[k + 1].made
  {
    EveryRunKeepsInv(states, ops, k);
    EveryRunKeepsInv(states, ops, k + 1);
    StepIsFrugal(states[k], ops[k]);
  }

  /** In a run, the descriptors allocated so far were all outstanding at some moment i. */
  lemma {:induction false} MadeWasOutstanding<P>(states: seq<State<P>>, ops: seq<Op<P>>, k: nat) returns (i: nat)
    requires IsRun(states, ops) && k < |states|
    ensures i <= k && states[i].hw == states[k].made
  {
    i := 0;
    if k == 0 {
    } else {
      MadeGrowsOnce(states, ops, k - 1);
      if states[k].made > states[k - 1].made {
        i := k;
      } else {
        i := MadeWasOutstanding(states, ops, k - 1);
      }
    }
  }

  lemma {:induction false} MadeOnlyGrows<P>(states: seq<State<P>>, ops: seq<Op<P>>, i: nat, k: nat)
    requires IsRun(states, ops) && i <= k < |states|
    ensures states[i].made <= states[k].made
    decreases k
  {
    if i == k {
    } else {
      MadeOnlyGrows(states, ops, i, k - 1);
      MadeGrowsOnce(states, ops, k - 1);
    }
  }

  /** The descriptors ever allocated are the most that were ever outstanding at once. */
  lemma MadeIsPeak<P>(states: seq<State<P>>, ops: seq<Op<P>>, k: nat)
    requires IsRun(states, ops) && k < |states|
    ensures forall i :: 0 <= i <= k ==> states[i].hw <= states[k].made
    ensures exists i :: 0 <= i <= k && states[i].hw == states[k].made
  {
    var peak := MadeWasOutstanding(states, ops, k);
    forall i | 0 <= i <= k ensures states[i].hw <= states[k].made {
      EveryRunKeepsInv(states, ops, i);
      MadeOnlyGrows(states, ops, i, k);
    }
  }

  // ---------- a packet delivered, with whatever its callbacks do, is a stretch of a run ----------

  /** The steps of a path lead from s to t. */
  ghost predicate Leads<P(!new)>(s: State<P>, t: State<P>) {
    exists states: seq<State<P>>, ops: seq<Op<P>> ::
      IsPath(states, ops) && states[0] == s && states[|ops|] == t
  }

  lemma LeadsNowhere<P(!new)>(s: State<P>)
    ensures Leads(s, s)
  {
    assert IsPath([s], []);
  }

  lemma LeadsOn<P(!new)>(s: State<P>, t: State<P>, op: Op<P>)
    requires Leads(s, t) && Sized(t.cbs) && Legal(t, op)
    ensures Leads(s, Step(t, op))
  {
    var states: seq<State<P>>, ops: seq<Op<P>> :|
      IsPath(states, ops) && states[0] == s && states[|ops|] == t;
    var more, done := states + [Step(t, op)], ops + [op];
    forall k | 0 <= k < |done|
      ensures Sized(more[k].cbs) && Legal(more[k], done[k]) && more[k + 1] == Step(more[k], done[k])
    {
      assert more[k] == states[k];
    }
    assert IsPath(more, done);
  }

  lemma GiveLeads<P(!new)>(s: State<P>, st: State<P>, p: P)
    requires Leads(s, st) && Inv(st, {}) && p in st.app
    ensures Leads(s, Free(st, p)) && Inv(Free(st, p), {}) && Free(st, p).held == st.held
  {
    FreeKeepsInv(st, p);
    LeadsOn(s, st, OpFree(p));
  }

  lemma {:induction false} WorkLeads<P(!new)>(s: State<P>, st: State<P>, acts: seq<Act<P>>, k: nat)
    requires Leads(s, st) && Inv(st, {}) && Fits(acts) && k <= |acts| && LegalActs(st, acts, k)
    ensures
      var r := Work(st, acts, k);
      Leads(s, r) && Inv(r, {}) && r.held == st.held
    decreases acts, |acts| - k
  {
    if k == |acts| {
    } else {
      match acts[k]
      case Give(p) =>
        GiveLeads(s, st, p);
        WorkLeads(s, Free(st, p), acts, k + 1);
      case Arrive(f, replies) =>
        ReceiveLeads(s, st, f, replies);
        WorkLeads(s, Receive(st, f, replies), acts, k + 1);
    }
  }

  /**
   However deep its callbacks poll, a packet delivered takes the path from one state to
   another by steps of the machine, and leaves in handlers what was there before.
   */
  lemma {:induction false} ReceiveLeads<P(!new)>(s: State<P>, st: State<P>, f: RxFlags, replies: seq<Reply<P>>)
    requires Leads(s, st) && Inv(st, {}) && AllFit(replies) && LegalReceive(st, f, replies)
    ensures
      var r := Receive(st, f, replies);
      Leads(s, r) && Inv(r, {}) && r.held == st.held
    decreases replies, |st.cbs.order| + 1
  {
    if st.hw == 0 || st.posted == [] {
    } else {
      TakeKeepsInv(st);
      LeadsOn(s, st, OpArrive);
      DeliverLeads(s, Take(st), st.posted[0], f, replies, 0);
    }
  }

  lemma SettledLeads<P(!new)>(s: State<P>, st: State<P>, p: P, result: RxResult)
    requires Leads(s, st) && Inv(st, {}) && p in st.held
    ensures
      var r := Settled(st, p, result);
      Leads(s, r) && Inv(r, {}) && r.held == if TakesPacket(result) then st.held - {p} else st.held
  {
    match result
    case RxHandled =>
      ReleaseKeepsInv(st, p);
      LeadsOn(s, st, OpRelease(p));
    case RxOwned =>
      HandOverKeepsInv(st, p);
      LeadsOn(s, st, OpKeep(p));
    case _ =>
  }

  lemma {:induction false} DeliverLeads<P(!new)>(
      s: State<P>, st: State<P>, p: P, f: RxFlags, replies: seq<Reply<P>>, k: nat)
    requires Leads(s, st) && Inv(st, {}) && p in st.held && AllFit(replies) && k <= |st.cbs.order|
    requires LegalReplies(st, f, replies, k)
    ensures
      var r := Deliver(st, p, f, replies, k);
      Leads(s, r) && Inv(r, {}) && r.held == st.held - {p}
    decreases replies, |st.cbs.order| - k
  {
    if k == |st.cbs.order| {
      SettledLeads(s, st, p, RxHandled);
    } else if !Eligible(st.cbs.slots[st.cbs.order[k]], f) {
      DeliverLeads(s, st, p, f, replies, k + 1);
    } else {
      var reply := replies[st.cbs.order[k]];
      WorkLeads(s, st, reply.acts, 0);
      SettledLeads(s, Work(st, reply.acts, 0), p, reply.result);
      if !TakesPacket(reply.result) {
        DeliverLeads(s, Served(st, p, reply), p, f, replies, k + 1);
      }
    }
  }

  lemma WorkKeepsInv<P(!new)>(st: State<P>, acts: seq<Act<P>>)
    requires Inv(st, {}) && Fits(acts) && LegalActs(st, acts, 0)
    ensures Inv(Work(st, acts, 0), {}) && Work(st, acts, 0).held == st.held
  {
    LeadsNowhere(st);
    WorkLeads(st, st, acts, 0);
  }

  /** At the end of a delivery the packet is in no handler, and every other packet that was in one still is. */
  lemma DeliverKeepsInv<P(!new)>(st: State<P>, p: P, f: RxFlags, replies: seq<Reply<P>>, k: nat)
    requires Inv(st, {}) && p in st.held && AllFit(replies) && k <= |st.cbs.order| && LegalReplies(st, f, replies, k)
    ensures Inv(Deliver(st, p, f, replies, k), {}) && Deliver(st, p, f, replies, k).held == st.held - {p}
  {
    LeadsNowhere(st);
    DeliverLeads(st, st, p, f, replies, k);
  }

  lemma ReceiveKeepsInv<P(!new)>(st: State<P>, f: RxFlags, replies: seq<Reply<P>>)
    requires Inv(st, {}) && AllFit(replies) && LegalReceive(st, f, replies)
    ensures Inv(Receive(st, f, replies), {}) && Receive(st, f, replies).held == st.held
  {
    LeadsNowhere(st);
    ReceiveLeads(st, st, f, replies);
  }

  /** So what is true of every run is true of packets received within callbacks of packets received. */
  lemma EveryReceiveIsInARun<P(!new)>(st: State<P>, f: RxFlags, replies: seq<Reply<P>>)
    requires Leads(InitState(), st) && Sized(st.cbs) && AllFit(replies) && LegalReceive(st, f, replies)
    ensures Leads(InitState(), Receive(st, f, replies)) && Receive(st, f, replies).held == st.held
  {
    var states: seq<State<P>>, ops: seq<Op<P>> :|
      IsPath(states, ops) && states[0] == InitState() && states[|ops|] == st;
    EveryRunKeepsInv(states, ops, |ops|);
    ReceiveLeads(InitState(), st, f, replies);
  }

  /** A callback that is passed over, or does not take the packet: the next one is asked. */
  lemma PassedOn<P(!new)>(st: State<P>, p: P, f: RxFlags, replies: seq<Reply<P>>, k: nat) returns (t: State<P>)
    requires Inv(st, {}) && p in st.held && AllFit(replies) && k < |st.cbs.order| && LegalReplies(st, f, replies, k)
    requires !Eligible(st.cbs.slots[st.cbs.order[k]], f) || !TakesPacket(replies[st.cbs.order[k]].result)
    ensures Inv(t, {}) && p in t.held && t.cbs == st.cbs && LegalReplies(t, f, replies, k + 1)
    ensures Deliver(st, p, f, replies, k) == Deliver(t, p, f, replies, k + 1)
  {
    t := st;
    if Eligible(st.cbs.slots[st.cbs.order[k]], f) {
      WorkKeepsInv(st, replies[st.cbs.order[k]].acts);
      t := Work(st, replies[st.cbs.order[k]].acts, 0);
    }
  }

  /** The packet ends with an application exactly if the last callback called kept it. */
  lemma {:induction false} LastCallerKeeps<P(!new)>(
      st: State<P>, p: P, f: RxFlags, replies: seq<Reply<P>>, k: nat)
    requires Inv(st, {}) && p in st.held && AllFit(replies) && k <= |st.cbs.order| && LegalReplies(st, f, replies, k)
    ensures
      var calls := Calls(st.cbs, f, Takes(replies), k);
      p in Deliver(st, p, f, replies, k).app <==>
      calls != [] && calls[|calls| - 1] < MAX_RX_CBKS && replies[calls[|calls| - 1]].result.RxOwned?
    decreases |st.cbs.order| - k
  {
    if k == |st.cbs.order| {
      ReleaseKeepsInv(st, p);
    } else {
      var reply := replies[st.cbs.order[k]];
      if Eligible(st.cbs.slots[st.cbs.order[k]], f) && TakesPacket(reply.result) {
        WorkKeepsInv(st, reply.acts);
        SettledKeeps(Work(st, reply.acts, 0), p, reply.result);
      } else {
        var t := PassedOn(st, p, f, replies, k);
        LastCallerKeeps(t, p, f, replies, k + 1);
      }
    }
  }

  lemma SettledKeeps<P>(st: State<P>, p: P, result: RxResult)
    requires Inv(st, {}) && p in st.held && TakesPacket(result)
    ensures p in Settled(st, p, result).app <==> result.RxOwned?
  {
  }
}
