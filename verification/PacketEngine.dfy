/**
 The receive path as kernel/rx.c and board/brd_rxtx.c run it: descriptors on intrusive
 free lists, and a fixed table of callbacks linked by slot number.
 */
module PacketEngine {
  import opened Sequences
  import opened SlotLists
  import opened RxCallbacks
  import opened RxPackets
  import Tx = TxPackets

  // ---------- lists of descriptors, linked through the descriptors ----------

  const NULL := 0

  /** Starting from head, the links visit these descriptors and end. */
  ghost predicate Chain(next: map<nat, nat>, head: nat, s: seq<nat>) {
    Distinct(s) && NULL !in s && head == HeadOf(s, NULL) &&
    forall k {:trigger s[k]} :: 0 <= k < |s| ==>
      s[k] in next && next[s[k]] == HeadOf(s[k + 1..], NULL)
  }

  lemma ChainPushed(next: map<nat, nat>, head: nat, s: seq<nat>, p: nat)
    requires Chain(next, head, s) && p !in s && p != NULL
    ensures Chain(next[p := head], p, [p] + s)
  {
    var t := [p] + s;
    forall k | 0 <= k < |t| ensures t[k] in next[p := head] && next[p := head][t[k]] == HeadOf(t[k + 1..], NULL) {
      if k == 0 {
        assert t[1..] == s;
      } else {
        assert t[k] == s[k - 1] && t[k + 1..] == s[k..] && s[k - 1] in s;
      }
    }
  }

  lemma ChainPopped(next: map<nat, nat>, head: nat, s: seq<nat>)
    requires Chain(next, head, s) && s != []
    ensures head == s[0] && head in next && Chain(next, next[head], s[1..])
  {
    var t := s[1..];
    forall k | 0 <= k < |t| ensures t[k] in next && next[t[k]] == HeadOf(t[k + 1..], NULL) {
      assert t[k] == s[k + 1] && t[k + 1..] == s[k + 2..];
    }
  }

  lemma ChainKept(next: map<nat, nat>, head: nat, s: seq<nat>, p: nat, v: nat)
    requires Chain(next, head, s) && p !in s
    ensures Chain(next[p := v], head, s)
  {
    forall k | 0 <= k < |s| ensures s[k] in next[p := v] && next[p := v][s[k]] == HeadOf(s[k + 1..], NULL) {
      assert s[k] in s;
    }
  }

  /** rx_cbks, rx_cbk_list and rx_cbk_count */
  class CallbackTable {
    const slots: array<Slot>
    const next: array<nat>
    var list: nat
    var count: nat
    ghost var order: seq<nat>
    ghost var stamps: seq<nat>
    ghost var clock: nat

    /** The links visit the listed slots. */
    ghost predicate Linked()
      reads this, slots, next
    {
      slots.Length == MAX_RX_CBKS && next.Length == MAX_RX_CBKS && Chained(next[..], list, order)
    }

    ghost predicate Valid()
      reads this, slots, next
    {
      Linked() && count == |order| && CallbacksInv(Abs())
    }

    ghost function Abs(): Callbacks
      reads this, slots
    {
      Callbacks(slots[..], order, stamps, clock)
    }

    /** The callback part of sys_rx_init. */
    constructor ()
      ensures Valid() && Abs() == InitState<int>().cbs && fresh(slots) && fresh(next)
    {
      slots := new Slot[MAX_RX_CBKS](_ => Slot(NO_CBK, 0, 0, 0));
      next := new nat[MAX_RX_CBKS](_ => MAX_RX_CBKS);
      list, count := MAX_RX_CBKS, 0;
      order, stamps, clock := [], seq(MAX_RX_CBKS, _ => 0), 1;
      new;
      assert slots[..] == seq(MAX_RX_CBKS, _ => Slot(NO_CBK, 0, 0, 0));
    }

    method FindFree() returns (i: nat)
      requires Valid()
      ensures i == FreeSlot(slots[..], 0)
    {
      i := 0;
      while i < MAX_RX_CBKS
        invariant i <= MAX_RX_CBKS && FreeSlot(slots[..], 0) == FreeSlot(slots[..], i)
      {
        if slots[i].cbk == NO_CBK {
          return;
        }
        i := i + 1;
      }
    }

    /** The walk of sys_rx_register to the first callback of no lower priority value. */
    method FindPlace(priority: nat) returns (cur: nat, prev: nat, ghost p: nat)
      requires Linked() && Sized(Abs())
      ensures p == InsertPos(Abs(), priority, 0)
      ensures
        var place := InsertPos(Abs(), priority, 0);
        cur == (if place < |order| then order[place] else MAX_RX_CBKS) &&
        prev == (if place > 0 then order[place - 1] else MAX_RX_CBKS)
    {
      cur, prev, p := list, MAX_RX_CBKS, 0;
      while cur != MAX_RX_CBKS
        invariant p <= |order| && InsertPos(Abs(), priority, 0) == InsertPos(Abs(), priority, p)
        invariant cur == if p < |order| then order[p] else MAX_RX_CBKS
        invariant prev == if p > 0 then order[p - 1] else MAX_RX_CBKS
        decreases |order| - p
      {
        if slots[cur].priority >= priority {
          return;
        }
        NextIs(p);
        prev, cur, p := cur, next[cur], p + 1;
      }
    }

    lemma NextIs(k: nat)
      requires Linked() && k < |order|
      ensures order[k] < MAX_RX_CBKS && next[order[k]] == if k + 1 < |order| then order[k + 1] else MAX_RX_CBKS
    {
      assert LinkAt(next[..], order, k);
    }

    /** The list part of sys_rx_register. */
    method Register(s: Slot) returns (full: bool)
      requires Valid() && s.cbk != NO_CBK
      modifies this, slots, next
      ensures Valid() && full == (FreeSlot(old(slots[..]), 0) == MAX_RX_CBKS)
      ensures Abs() == if full then old(Abs()) else Registered(old(Abs()), FreeSlot(old(slots[..]), 0), s)
    {
      var i := FindFree();
      if i == MAX_RX_CBKS {
        return true;
      }
      Enter(i, s);
      return false;
    }

    /** A free slot is filled and linked in by priority. */
    method Enter(i: nat, s: Slot)
      requires Valid() && s.cbk != NO_CBK && i < MAX_RX_CBKS && slots[i].cbk == NO_CBK
      modifies this, slots, next
      ensures Valid() && Abs() == Registered(old(Abs()), i, s)
    {
      ghost var after := Registered(Abs(), i, s);
      RegisteredKeepsInv(Abs(), i, s);
      assert i !in order by { assert Abs().slots[i].cbk == NO_CBK; }
      var cur, prev, p := FindPlace(s.priority);
      LinkIn(i, cur, prev, p);
      Fill(i, s);
      count := count + 1;
      assert Abs() == after;
    }

    /** The links part: slot i goes in front of cur and behind prev. */
    method LinkIn(i: nat, cur: nat, prev: nat, ghost p: nat)
      requires Linked() && i < MAX_RX_CBKS && i !in order && p <= |order|
      requires cur == if p < |order| then order[p] else MAX_RX_CBKS
      requires prev == if p > 0 then order[p - 1] else MAX_RX_CBKS
      modifies this`list, this`order, next
      ensures Linked() && order == InsertAt(old(order), p, i)
    {
      ghost var links := next[..];
      next[i] := cur;
      if prev == MAX_RX_CBKS {
        list := i;
      } else {
        next[prev] := i;
      }
      LinkedInIsChained(links, next[..], old(list), order, p, i);
      order := InsertAt(order, p, i);
    }

    method Fill(i: nat, s: Slot)
      requires i < slots.Length && i < |stamps|
      modifies this`stamps, this`clock, slots
      ensures slots[..] == old(slots[..])[i := s]
      ensures stamps == old(stamps)[i := old(clock)] && clock == old(clock) + 1
    {
      slots[i] := s;
      stamps, clock := stamps[i := clock], clock + 1;
    }

    /** sys_rx_unregister */
    method Unregister(cbk: nat) returns (status: Status)
      requires Valid()
      modifies this, slots, next
      ensures Valid()
      ensures
        var p := CbkPos(old(Abs()), cbk, 0);
        if p < |old(order)| then status == SysOk && Abs() == Unregistered(old(Abs()), p)
        else status == ErrParameter && Abs() == old(Abs())
    {
      var cur, prev := list, MAX_RX_CBKS;
      ghost var p := 0;
      while cur != MAX_RX_CBKS
        invariant Valid() && Abs() == old(Abs())
        invariant p <= |order| && CbkPos(Abs(), cbk, 0) == CbkPos(Abs(), cbk, p)
        invariant cur == if p < |order| then order[p] else MAX_RX_CBKS
        invariant prev == if p > 0 then order[p - 1] else MAX_RX_CBKS
        decreases |order| - p
      {
        if slots[cur].cbk == cbk {
          ghost var after := Unregistered(Abs(), p);
          UnregisteredKeepsInv(Abs(), p);
          LinkOut(cur, prev, p);
          Clear(cur);
          count := count - 1;
          assert Abs() == after;
          return SysOk;
        }
        NextIs(p);
        prev, cur, p := cur, next[cur], p + 1;
      }
      return ErrParameter;
    }

    /** The links part: the slot behind prev is bypassed. */
    method LinkOut(cur: nat, prev: nat, ghost p: nat)
      requires Linked() && p < |order| && cur == order[p]
      requires prev == if p > 0 then order[p - 1] else MAX_RX_CBKS
      modifies this`list, this`order, next
      ensures Linked() && order == RemoveAt(old(order), p)
    {
      ghost var links := next[..];
      if prev == MAX_RX_CBKS {
        list := next[cur];
      } else {
        next[prev] := next[cur];
      }
      BypassedIsChained(links, next[..], old(list), order, p);
      order := RemoveAt(order, p);
    }

    method Clear(i: nat)
      requires i < slots.Length
      modifies slots
      ensures slots[..] == old(slots[..])[i := old(slots[i]).(cbk := NO_CBK)]
    {
      slots[i] := slots[i].(cbk := NO_CBK);
    }
  }

  /**
   rx_pkt_pool, rx_syspkt_list and rx_pkt_list with the links of all descriptors; brk is
   where the next allocation goes.
   */
  class RxPath {
    const cbs: CallbackTable
    var next: map<nat, nat>
    var brk: nat
    var rxPktPool: nat
    var rxSyspktList: nat
    var rxPktList: nat
    ghost var pool: seq<nat>
    ghost var posted: seq<nat>
    ghost var free: seq<nat>
    ghost var held: set<nat>
    ghost var app: set<nat>
    ghost var added: set<nat>
    var hw: set<nat>
    ghost var made: nat

    ghost function Abs(): State<nat>
      reads this, cbs, cbs.slots
    {
      State(cbs.Abs(), pool, posted, held, app, added, |free|, |hw|, made)
    }

    ghost predicate Lists()
      reads this
    {
      Chain(next, rxPktPool, pool) && Chain(next, rxSyspktList, posted) && Chain(next, rxPktList, free)
    }

    /** An allocated address, with a link. */
    predicate Allocated(p: nat)
      reads this
    {
      p != NULL && p < brk && p in next
    }

    /** Driver descriptors are no wrappers, and free ones are not with the switch. */
    ghost predicate Apart()
      reads this
    {
      brk > NULL && (forall p :: p in added ==> Allocated(p)) &&
      (forall p :: p in hw ==> Allocated(p) && p !in added) &&
      (forall p :: p in free ==> Allocated(p) && p !in added && p !in hw)
    }

    ghost predicate Valid()
      reads this, cbs, cbs.slots, cbs.next
    {
      cbs.Valid() && Lists() && Apart() && Inv(Abs(), {})
    }

    /** sys_rx_init and the receive part of brdimpl_rxtx_init. */
    constructor ()
      ensures Valid() && Abs() == InitState()
    {
      cbs := new CallbackTable();
      next, brk, rxPktPool, rxSyspktList, rxPktList := map[], 1, NULL, NULL, NULL;
      pool, posted, free, held, app, added, hw, made := [], [], [], {}, {}, {}, {}, 0;
      new;
      assert Abs() == InitState();
    }

    /** A driver descriptor from the pool, or a new one. */
    method GetDriverDescriptor() returns (spkt: nat)
      requires Lists() && Apart() && (forall p :: p in pool || p in posted ==> p in added)
      modifies this`next, this`brk, this`rxPktList, this`free, this`made
      ensures Lists() && Apart() && Allocated(spkt) && spkt !in hw && spkt !in added && spkt !in free
      ensures free == (if old(free) == [] then [] else old(free)[1..])
      ensures made == if old(free) == [] then old(made) + 1 else old(made)
    {
      spkt := rxPktList;
      if spkt == NULL {
        spkt := brk;
        ChainKept(next, rxPktPool, pool, spkt, NULL);
        ChainKept(next, rxSyspktList, posted, spkt, NULL);
        brk, next, made := brk + 1, next[spkt := NULL], made + 1;
      } else {
        ChainPopped(next, rxPktList, free);
        ElemsOfRest(free);
        rxPktList := next[spkt];
        free := free[1..];
      }
    }

    /** A wrapper becomes the first of rx_syspkt_list. */
    method PostWrapper(p: nat)
      requires Lists() && Apart() && p in added && p !in pool && p !in posted
      modifies this`next, this`rxSyspktList, this`posted
      ensures Lists() && Apart() && posted == [p] + old(posted)
    {
      ChainPushed(next, rxSyspktList, posted, p);
      ChainKept(next, rxPktPool, pool, p, rxSyspktList);
      ChainKept(next, rxPktList, free, p, rxSyspktList);
      next := next[p := rxSyspktList];
      rxSyspktList := p;
      posted := [p] + posted;
    }

    method HandToSwitch(spkt: nat)
      requires Apart() && Allocated(spkt) && spkt !in hw && spkt !in added && spkt !in free
      modifies this`hw
      ensures Apart() && |hw| == |old(hw)| + 1
    {
      hw := hw + {spkt};
    }

    /** A driver descriptor, from the pool or new, goes to the switch. */
    method LaunchDriverDescriptor()
      requires Lists() && Apart() && (forall p :: p in pool || p in posted ==> p in added)
      modifies this`next, this`brk, this`rxPktList, this`free, this`hw, this`made
      ensures Lists() && Apart() && |hw| == |old(hw)| + 1
      ensures |free| == if old(free) == [] then 0 else |old(free)| - 1
      ensures made == if old(free) == [] then old(made) + 1 else old(made)
    {
      var spkt := GetDriverDescriptor();
      HandToSwitch(spkt);
    }

    /** brdimpl_rx_fill_buffer */
    method FillBuffer(p: nat)
      requires Lists() && Apart() && (forall n :: n in pool || n in posted ==> n in added)
      requires p in added && p !in pool && p !in posted
      modifies this`next, this`brk, this`rxSyspktList, this`rxPktList, this`posted, this`free, this`hw, this`made
      ensures Lists() && Apart() && posted == [p] + old(posted) && |hw| == |old(hw)| + 1
      ensures |free| == if old(free) == [] then 0 else |old(free)| - 1
      ensures made == if old(free) == [] then old(made) + 1 else old(made)
    {
      LaunchDriverDescriptor();
      PostWrapper(p);
    }

    /** A wrapper becomes the first of rx_pkt_pool. */
    method Shelve(p: nat)
      requires Lists() && Apart() && p in added && p !in pool && p !in posted
      modifies this`next, this`rxPktPool, this`pool
      ensures Lists() && Apart() && pool == [p] + old(pool)
    {
      ChainPushed(next, rxPktPool, pool, p);
      ChainKept(next, rxSyspktList, posted, p, rxPktPool);
      ChainKept(next, rxPktList, free, p, rxPktPool);
      next := next[p := rxPktPool];
      rxPktPool := p;
      pool := [p] + pool;
    }

    /** Wrappers in lists are known, and this one is in none. */
    ghost predicate Loose(p: nat)
      reads this
    {
      p in added && p !in pool && p !in posted && forall n :: n in pool || n in posted ==> n in added
    }

    /** sys_rx_refill */
    method Refill(p: nat)
      requires cbs.Valid() && Lists() && Apart() && Loose(p)
      modifies this`next, this`brk, this`rxPktPool, this`rxSyspktList, this`rxPktList
      modifies this`pool, this`posted, this`free, this`hw, this`made
      ensures cbs.Valid() && Lists() && Apart() && Abs() == RxPackets.Refill(old(Abs()), p)
    {
      if cbs.count > 0 {
        FillBuffer(p);
      } else {
        Shelve(p);
      }
    }

    /** sys_rx_free_packet */
    method FreePacket(p: nat)
      requires Valid() && (p == NULL || p in app)
      modifies this
      ensures Valid() && Abs() == if p == NULL then old(Abs()) else Free(old(Abs()), p)
    {
      if p == NULL {
        return;
      }
      FreeKeepsInv(Abs(), p);
      app := app - {p};
      LooseIsNowhere(Abs(), p);
      Refill(p);
    }

    /** sal_malloc of a wrapper. */
    method NewWrapper() returns (p: nat)
      requires Lists() && Apart() && (forall n :: n in pool || n in posted ==> n in added)
      modifies this`next, this`brk, this`added
      ensures Lists() && Apart() && p == old(brk) && p !in old(added) && added == old(added) + {p}
    {
      p := brk;
      ChainKept(next, rxPktPool, pool, p, NULL);
      ChainKept(next, rxSyspktList, posted, p, NULL);
      ChainKept(next, rxPktList, free, p, NULL);
      brk, next, added := brk + 1, next[p := NULL], added + {p};
    }

    /** sys_rx_add_buffer; the buffer is usable when it is not NULL and has a size. */
    method AddSysBuffer(usable: bool) returns (ghost p: nat)
      requires Valid()
      modifies this
      ensures Valid() && p !in old(added)
      ensures Abs() == if usable then AddBuffer(old(Abs()), p) else old(Abs())
    {
      p := brk;
      if !usable {
        return;
      }
      AddBufferKeepsInv(Abs(), p);
      var pkt := NewWrapper();
      LooseIsNowhere(Abs(), pkt);
      Refill(pkt);
    }

    /** The loop of sys_rx_register that posts the idle wrappers. */
    method DrainPool()
      requires cbs.Valid() && Lists() && Apart() && Split(Abs(), {}) && cbs.count > 0
      modifies this`next, this`brk, this`rxPktPool, this`rxSyspktList, this`rxPktList
      modifies this`pool, this`posted, this`free, this`hw, this`made
      ensures cbs.Valid() && Lists() && Apart() && Abs() == Drain(old(Abs()))
    {
      while rxPktPool != NULL
        invariant cbs.Valid() && Lists() && Apart() && Split(Abs(), {}) && cbs.order == old(cbs.order)
        invariant Drain(Abs()) == Drain(old(Abs()))
        decreases |pool|
      {
        UnshelveKeepsSplit(Abs());
        var pkt := Unshelve();
        LooseIsNowhere(Abs(), pkt);
        Refill(pkt);
      }
    }

    method Unshelve() returns (p: nat)
      requires Lists() && Apart() && rxPktPool != NULL
      modifies this`rxPktPool, this`pool
      ensures Lists() && Apart() && old(pool) == [p] + pool
    {
      ChainPopped(next, rxPktPool, pool);
      p := rxPktPool;
      rxPktPool := next[p];
      pool := pool[1..];
    }

    /** sys_rx_register */
    method Register(cbk: nat, priority: nat, cookie: int, flags: nat) returns (status: Status)
      requires Valid()
      modifies this, cbs, cbs.slots, cbs.next
      ensures Valid() && status == RegisterStatus(old(Abs()), cbk)
      ensures Abs() == RxPackets.Register(old(Abs()), Slot(cbk, priority, cookie, flags))
    {
      if cbk == NO_CBK {
        return ErrParameter;
      }
      RegisterKeepsInv(Abs(), Slot(cbk, priority, cookie, flags));
      var full := cbs.Register(Slot(cbk, priority, cookie, flags));
      if full {
        return ErrFull;
      }
      if cbs.count == 1 {
        DrainPool();
      }
      return SysOk;
    }

    /** sys_rx_unregister */
    method Unregister(cbk: nat) returns (status: Status)
      requires Valid()
      modifies cbs, cbs.slots, cbs.next
      ensures Valid() && (Abs(), status) == RxPackets.Unregister(old(Abs()), cbk)
    {
      UnregisterKeepsInv(Abs(), cbk);
      status := cbs.Unregister(cbk);
    }

    /** The start of brdimpl_rx_handler: the first posted wrapper takes the packet. */
    method TakeWrapper() returns (wrap: nat)
      requires Lists() && Apart() && posted != [] && posted[0] in added && posted[0] !in pool
      modifies this`next, this`rxSyspktList, this`posted, this`held
      ensures Lists() && Apart() && old(posted) == [wrap] + posted && held == old(held) + {wrap}
    {
      ChainPopped(next, rxSyspktList, posted);
      ElemsOfRest(posted);
      wrap := rxSyspktList;
      rxSyspktList := next[wrap];
      posted, held := posted[1..], held + {wrap};
      ChainKept(next, rxPktPool, pool, wrap, NULL);
      ChainKept(next, rxSyspktList, posted, wrap, NULL);
      ChainKept(next, rxPktList, free, wrap, NULL);
      next := next[wrap := NULL];
    }

    /** The driver descriptor goes back to its pool before the packet is handled. */
    method PutDriverDescriptor(spkt: nat)
      requires Lists() && Apart() && spkt in hw && (forall n :: n in pool || n in posted ==> n in added)
      modifies this`next, this`rxPktList, this`free, this`hw
      ensures Lists() && Apart() && free == [spkt] + old(free) && |hw| == |old(hw)| - 1
    {
      ChainPushed(next, rxPktList, free, spkt);
      ChainKept(next, rxPktPool, pool, spkt, rxPktList);
      ChainKept(next, rxSyspktList, posted, spkt, rxPktList);
      next := next[spkt := rxPktList];
      rxPktList := spkt;
      free, hw := [spkt] + free, hw - {spkt};
    }

    lemma NullIsNotOwned(p: nat)
      requires Valid() && p in app
      ensures p != NULL
    {
    }

    /** sys_rx_refill of the packet in the handler. */
    method Done(p: nat)
      requires Valid() && p in held
      modifies this
      ensures Valid() && Abs() == Release(old(Abs()), p)
    {
      ReleaseKeepsInv(Abs(), p);
      held := held - {p};
      LooseIsNowhere(Abs(), p);
      Refill(p);
    }

    ghost method Keep(p: nat)
      requires Valid() && p in held
      modifies this`held, this`app
      ensures Valid() && Abs() == HandOver(old(Abs()), p)
    {
      ghost var after := HandOver(Abs(), p);
      HandOverKeepsInv(Abs(), p);
      held, app := held - {p}, app + {p};
      assert Abs() == after;
    }

    /** What the callback's answer means for the packet. */
    method Settle(p: nat, result: RxResult)
      requires Valid() && p in held
      modifies this
      ensures Valid() && Abs() == Settled(old(Abs()), p, result)
    {
      match result {
        case RxHandled => Done(p);
        case RxOwned => Keep(p);
        case _ =>
      }
    }

    /** What a callback does, call by call; when it polls, the switch may deliver any filled descriptor. */
    method CarryOut(acts: seq<Act<nat>>)
      requires Valid() && Fits(acts) && LegalActs(Abs(), acts, 0)
      modifies this
      ensures Valid() && Abs() == Work(old(Abs()), acts, 0)
      decreases acts, 0
    {
      for i := 0 to |acts|
        invariant Valid() && LegalActs(Abs(), acts, i) && Work(Abs(), acts, i) == Work(old(Abs()), acts, 0)
      {
        match acts[i] {
          case Give(p) =>
            NullIsNotOwned(p);
            FreePacket(p);
          case Arrive(f, replies) =>
            if hw != {} {
              var spkt :| spkt in hw;
              var _ := Receive(spkt, f, replies);
            }
        }
      }
    }

    /** One callback called with the packet. */
    method Serve(p: nat, reply: Reply<nat>)
      requires Valid() && p in held && Fits(reply.acts) && LegalActs(Abs(), reply.acts, 0)
      modifies this
      ensures Valid() && Abs() == Served(old(Abs()), p, reply)
      decreases reply
    {
      WorkKeepsInv(Abs(), reply.acts);
      CarryOut(reply.acts);
      Settle(p, reply.result);
    }

    /** The callback of an eligible slot is called; taken says that the packet needs no other. */
    method CallIfEligible(p: nat, cur: nat, f: RxFlags, replies: seq<Reply<nat>>, ghost k: nat)
      returns (called: bool, taken: bool)
      requires Valid() && p in held && AllFit(replies) && k < |cbs.order| && cur == cbs.order[k]
      requires LegalReplies(Abs(), f, replies, k)
      modifies this
      ensures Valid() && cur < MAX_RX_CBKS && called == Eligible(cbs.slots[cur], f)
      ensures taken == (called && TakesPacket(replies[cur].result))
      ensures taken ==> Abs() == Deliver(old(Abs()), p, f, replies, k)
      ensures !taken ==> p in held && LegalReplies(Abs(), f, replies, k + 1)
      ensures !taken ==> Deliver(Abs(), p, f, replies, k + 1) == Deliver(old(Abs()), p, f, replies, k)
      decreases replies, 0
    {
      called, taken := Eligible(cbs.slots[cur], f), false;
      if called {
        WorkKeepsInv(Abs(), replies[cur].acts);
        Serve(p, replies[cur]);
        taken := TakesPacket(replies[cur].result);
      }
    }

    /** The loop of sys_rx_handler stands at list position k, and will end in this result with these calls. */
    ghost predicate Serving(p: nat, f: RxFlags, replies: seq<Reply<nat>>, calls: seq<nat>, cur: nat, k: nat,
        result: State<nat>)
      reads this, cbs, cbs.slots, cbs.next
    {
      Valid() && p in held && AllFit(replies) && k <= |cbs.order| &&
      cur == (if k < |cbs.order| then cbs.order[k] else MAX_RX_CBKS) &&
      LegalReplies(Abs(), f, replies, k) && Deliver(Abs(), p, f, replies, k) == result &&
      CalledSoFar(calls, cbs.Abs(), f, Takes(replies), k)
    }

    /** One round of the loop in sys_rx_handler; calls lists the slots whose callbacks ran. */
    method Round(p: nat, cur: nat, f: RxFlags, replies: seq<Reply<nat>>, calls: seq<nat>, ghost k: nat,
        ghost result: State<nat>)
      returns (calls': seq<nat>, following: nat, taken: bool)
      requires Serving(p, f, replies, calls, cur, k, result) && cur != MAX_RX_CBKS
      modifies this
      ensures taken ==> Valid() && Abs() == result && calls' == Calls(cbs.Abs(), f, Takes(replies), 0)
      ensures !taken ==> Serving(p, f, replies, calls', following, k + 1, result)
      decreases replies, 1
    {
      cbs.NextIs(k);
      CalledOneMore(calls, cbs.Abs(), f, Takes(replies), k);
      following := cbs.next[cur];
      var called;
      called, taken := CallIfEligible(p, cur, f, replies, k);
      calls' := if called then calls + [cur] else calls;
    }

    /** sys_rx_handler */
    method Handler(p: nat, f: RxFlags, replies: seq<Reply<nat>>) returns (calls: seq<nat>)
      requires Valid() && p in held && AllFit(replies) && LegalReplies(Abs(), f, replies, 0)
      modifies this
      ensures Valid() && Abs() == Deliver(old(Abs()), p, f, replies, 0)
      ensures calls == Calls(cbs.Abs(), f, Takes(replies), 0)
      decreases replies, 2
    {
      var cur, taken := cbs.list, false;
      calls := [];
      ghost var k, result := 0, Deliver(Abs(), p, f, replies, 0);
      while cur != MAX_RX_CBKS
        invariant Serving(p, f, replies, calls, cur, k, result)
        decreases |cbs.order| - k
      {
        calls, cur, taken := Round(p, cur, f, replies, calls, k, result);
        if taken {
          return;
        }
        k := k + 1;
      }
      CalledAll(calls, cbs.Abs(), f, Takes(replies));
      Done(p);
    }

    /** The packet's driver descriptor for a wrapper. */
    method Exchange(spkt: nat) returns (wrap: nat)
      requires Lists() && Apart() && spkt in hw && (forall n :: n in pool || n in posted ==> n in added)
      requires posted != [] && posted[0] !in pool
      modifies this`next, this`rxSyspktList, this`posted, this`held, this`rxPktList, this`free, this`hw
      ensures Lists() && Apart() && held == old(held) + {wrap} && old(posted) == [wrap] + posted
      ensures |free| == |old(free)| + 1 && |hw| == |old(hw)| - 1
    {
      wrap := TakeWrapper();
      PutDriverDescriptor(spkt);
    }

    /** What brdimpl_rx_handler does before it calls the kernel's handler. */
    method Accept(spkt: nat) returns (wrap: nat)
      requires Valid() && spkt in hw
      modifies this
      ensures Valid() && wrap in held && |old(posted)| > 0 && wrap == old(posted)[0] && Abs() == Take(old(Abs()))
    {
      ghost var after := Take(Abs());
      TakeKeepsInv(Abs());
      wrap := Exchange(spkt);
      assert Abs() == after;
    }

    /** brdimpl_rx_handler for a packet in driver descriptor spkt. */
    method Receive(spkt: nat, f: RxFlags, replies: seq<Reply<nat>>) returns (calls: seq<nat>)
      requires Valid() && spkt in hw && AllFit(replies) && LegalReceive(Abs(), f, replies)
      modifies this
      ensures Valid() && Abs() == RxPackets.Receive(old(Abs()), f, replies)
      ensures calls == Calls(cbs.Abs(), f, Takes(replies), 0)
      decreases replies, 3
    {
      var wrap := Accept(spkt);
      calls := Handler(wrap, f, replies);
    }
  }

  datatype TxStatus = TxOk | TxErrParameter | TxRefused

  /** tx_pkt_list with the links and cookies of all transmit descriptors, and each packet's internal1. */
  class TxPath {
    var next: map<nat, nat>
    var cookie: map<nat, nat>
    var internal1: map<nat, nat>
    var brk: nat
    var txPktList: nat
    ghost var free: seq<nat>
    ghost var hw: map<nat, Tx.Flight>
    ghost var accepted: nat

    ghost function Abs(): Tx.State
      requires brk >= 1
      reads this
    {
      Tx.State(free, hw, brk - 1, internal1, accepted)
    }

    ghost predicate Valid()
      reads this
    {
      brk >= 1 && Chain(next, txPktList, free) && Tx.Split(Abs()) && Tx.Ticketed(Abs()) &&
      forall d :: d in hw ==> d in cookie && cookie[d] == hw[d].pkt
    }

    /** The transmit part of brdimpl_rxtx_init. */
    constructor ()
      ensures Valid() && Abs() == Tx.EMPTY
    {
      next, cookie, internal1, brk, txPktList := map[], map[], map[], 1, NULL;
      free, hw, accepted := [], map[], 0;
    }

    method Obtain() returns (d: nat)
      requires brk >= 1 && Chain(next, txPktList, free)
      modifies this`next, this`brk, this`txPktList, this`free
      ensures brk >= 1 && Chain(next, txPktList, free)
      ensures d == Tx.NextDescriptor(old(Abs())) && Abs() == Tx.Obtain(old(Abs()))
    {
      d := txPktList;
      if d == NULL {
        d := brk;
        brk := brk + 1;
      } else {
        ChainPopped(next, txPktList, free);
        txPktList := next[d];
        free := free[1..];
      }
    }

    method PutBack(d: nat)
      requires brk >= 1 && Chain(next, txPktList, free) && d !in free && d != NULL
      modifies this`next, this`txPktList, this`free
      ensures Chain(next, txPktList, free) && free == [d] + old(free)
    {
      ChainPushed(next, txPktList, free, d);
      next := next[d := txPktList];
      txPktList := d;
      free := [d] + free;
    }

    /** brdimpl_tx; ok is the answer of the switch's transmit hook. */
    method Send(pkt: nat, cbk: nat, ok: bool) returns (r: TxStatus)
      requires Valid()
      modifies this
      ensures Valid() && Abs() == Tx.Send(old(Abs()), pkt, cbk, ok)
      ensures r == if pkt == Tx.NULL || cbk == Tx.NULL then TxErrParameter else if ok then TxOk else TxRefused
    {
      if pkt == Tx.NULL || cbk == Tx.NULL {
        return TxErrParameter;
      }
      Tx.StepKeeps(Abs(), Tx.Sent(pkt, cbk, ok));
      Transmit(pkt, cbk, ok);
      return if ok then TxOk else TxRefused;
    }

    /** A descriptor is filled and goes to the switch, or back to the pool when the switch refuses it. */
    method Transmit(pkt: nat, cbk: nat, ok: bool)
      requires Valid() && pkt != Tx.NULL && cbk != Tx.NULL
      modifies this
      ensures brk >= 1 && Chain(next, txPktList, free) && Abs() == Tx.Send(old(Abs()), pkt, cbk, ok)
      ensures forall c :: c in hw ==> c in cookie && cookie[c] == hw[c].pkt
    {
      var d := Fill(pkt, cbk);
      if ok {
        Launch(d, pkt, cbk);
      } else {
        PutBack(d);
      }
    }

    /** The switch has taken the descriptor. */
    ghost method Launch(d: nat, pkt: nat, cbk: nat)
      requires brk >= 1 && d !in hw && d in cookie && cookie[d] == pkt
      requires forall c :: c in hw ==> c in cookie && cookie[c] == hw[c].pkt
      modifies this`hw, this`accepted
      ensures hw == old(hw)[d := Tx.Flight(pkt, cbk, old(accepted))] && accepted == old(accepted) + 1
      ensures forall c :: c in hw ==> c in cookie && cookie[c] == hw[c].pkt
    {
      hw, accepted := hw[d := Tx.Flight(pkt, cbk, accepted)], accepted + 1;
    }

    /** A descriptor with the packet as its cookie, and the callback in the packet. */
    method Fill(pkt: nat, cbk: nat) returns (d: nat)
      requires Valid()
      modifies this`next, this`brk, this`txPktList, this`free, this`cookie, this`internal1
      ensures brk >= 1 && Chain(next, txPktList, free) && d == Tx.NextDescriptor(old(Abs()))
      ensures d != NULL && d !in free && d !in hw && d in cookie && cookie[d] == pkt
      ensures Abs() == Tx.Obtain(old(Abs())).(internal1 := old(internal1)[pkt := cbk])
      ensures forall c :: c in hw ==> c in cookie && cookie[c] == hw[c].pkt
    {
      Tx.ObtainSplits(Abs());
      d := Obtain();
      cookie, internal1 := cookie[d := pkt], internal1[pkt := cbk];
    }

    /** brdimpl_tx_cbk: the descriptor is back in the pool before the callback is invoked. */
    method Complete(d: nat, status: int) returns (cbk: nat, kpkt: nat, r: int)
      requires Valid() && d in hw
      modifies this
      ensures Valid() && Abs() == Tx.Complete(old(Abs()), d)
      ensures
        var call := Tx.CallOf(old(Abs()), d, status);
        call.cbk == cbk && call.pkt == kpkt && call.status == r
    {
      Tx.CompleteKeepsSplit(Abs(), d);
      Tx.CompleteKeepsTickets(Abs(), d);
      kpkt := cookie[d];
      cbk, r := internal1[kpkt], status;
      Reclaim(d);
    }

    /** The descriptor comes back to the pool. */
    method Reclaim(d: nat)
      requires Valid() && d in hw
      modifies this
      ensures brk >= 1 && Chain(next, txPktList, free) && Abs() == Tx.Complete(old(Abs()), d)
      ensures forall c :: c in hw ==> c in cookie && cookie[c] == hw[c].pkt
    {
      PutBack(d);
      Land(d);
    }

    /** The switch has given the descriptor back. */
    ghost method Land(d: nat)
      requires forall c :: c in hw ==> c in cookie && cookie[c] == hw[c].pkt
      modifies this`hw
      ensures hw == old(hw) - {d} && forall c :: c in hw ==> c in cookie && cookie[c] == hw[c].pkt
    {
      hw := hw - {d};
    }
  }
}
