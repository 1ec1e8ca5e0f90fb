/** The receive callback list of kernel/rx.c: a fixed table of slots, threaded by priority. */
module RxCallbacks {
  import opened Sequences
  import opened SlotLists

  const MAX_RX_CBKS := 16
  const NO_CBK := 0

  /** rx_cbk_t without its link; a free slot has no callback. */
  datatype Slot = Slot(cbk: nat, priority: nat, cookie: int, flags: nat)

  /** The error bits of a received packet that the handler looks at. */
  datatype RxFlags = RxFlags(truncated: bool, crcError: bool, otherError: bool)

  /** Slots, the order they are linked in, and when each was last taken. */
  datatype Callbacks = Callbacks(slots: seq<Slot>, order: seq<nat>, stamps: seq<nat>, clock: nat)

  /** SYS_RX_REGISTER_FLAG_ACCEPT_TRUNCATED_PKT, bit 1 of the registration flags. */
  predicate AcceptsTruncated(s: Slot) {
    s.flags / 2 % 2 == 1
  }

  /** The handler tests the same registration flag for truncated and for faulty packets. */
  predicate Eligible(s: Slot, f: RxFlags) {
    (f.truncated ==> AcceptsTruncated(s)) && (f.crcError || f.otherError ==> AcceptsTruncated(s))
  }

  /** Slot a is served before slot b: lower priority value, or the later one among equals. */
  predicate Before(c: Callbacks, a: nat, b: nat)
    requires |c.stamps| == |c.slots| && a < |c.slots| && b < |c.slots|
  {
    c.slots[a].priority < c.slots[b].priority ||
    (c.slots[a].priority == c.slots[b].priority && c.stamps[a] > c.stamps[b])
  }

  predicate InOrder(c: Callbacks, j: nat, k: nat)
    requires Sized(c) && j < |c.order| && k < |c.order|
  {
    Before(c, c.order[j], c.order[k])
  }

  predicate Sized(c: Callbacks) {
    |c.slots| == MAX_RX_CBKS && |c.stamps| == MAX_RX_CBKS &&
    forall k {:trigger c.order[k]} :: 0 <= k < |c.order| ==> c.order[k] < MAX_RX_CBKS
  }

  /** The list holds exactly the occupied slots, each once, in serving order. */
  ghost predicate CallbacksInv(c: Callbacks) {
    Sized(c) &&
    (forall i {:trigger c.slots[i]} :: 0 <= i < MAX_RX_CBKS ==> (i in c.order <==> c.slots[i].cbk != NO_CBK)) &&
    (forall j, k {:trigger InOrder(c, j, k)} :: 0 <= j < k < |c.order| ==> InOrder(c, j, k)) &&
    forall i {:trigger c.stamps[i]} :: 0 <= i < MAX_RX_CBKS ==> c.stamps[i] < c.clock
  }

  function FreeSlot(slots: seq<Slot>, i: nat): (k: nat)
    requires i <= |slots|
    ensures i <= k <= |slots|
    ensures k < |slots| ==> slots[k].cbk == NO_CBK
    ensures forall j :: i <= j < k ==> slots[j].cbk != NO_CBK
    decreases |slots| - i
  {
    if i == |slots| || slots[i].cbk == NO_CBK then i else FreeSlot(slots, i + 1)
  }

  /** The first position from k on whose priority value is not lower. */
  function InsertPos(c: Callbacks, priority: nat, k: nat): (p: nat)
    requires Sized(c) && k <= |c.order|
    ensures k <= p <= |c.order|
    ensures p < |c.order| ==> c.slots[c.order[p]].priority >= priority
    ensures forall j :: k <= j < p ==> c.slots[c.order[j]].priority < priority
    decreases |c.order| - k
  {
    if k == |c.order| || c.slots[c.order[k]].priority >= priority then k else InsertPos(c, priority, k + 1)
  }

  /** The first position from k on that holds this callback. */
  function CbkPos(c: Callbacks, cbk: nat, k: nat): (p: nat)
    requires Sized(c) && k <= |c.order|
    ensures k <= p <= |c.order|
    ensures p < |c.order| ==> c.slots[c.order[p]].cbk == cbk
    ensures forall j :: k <= j < p ==> c.slots[c.order[j]].cbk != cbk
    decreases |c.order| - k
  {
    if k == |c.order| || c.slots[c.order[k]].cbk == cbk then k else CbkPos(c, cbk, k + 1)
  }

  /** The list part of sys_rx_register, into free slot i. */
  function Registered(c: Callbacks, i: nat, s: Slot): Callbacks
    requires Sized(c) && i < MAX_RX_CBKS
  {
    Callbacks(c.slots[i := s], InsertAt(c.order, InsertPos(c, s.priority, 0), i), c.stamps[i := c.clock], c.clock + 1)
  }

  /** The list part of sys_rx_unregister, of list position p. */
  function Unregistered(c: Callbacks, p: nat): Callbacks
    requires Sized(c) && p < |c.order|
  {
    var i := c.order[p];
    c.(slots := c.slots[i := c.slots[i].(cbk := NO_CBK)], order := RemoveAt(c.order, p))
  }

  lemma SortedIsDistinct(c: Callbacks)
    requires CallbacksInv(c)
    ensures forall j, k :: 0 <= j < k < |c.order| ==> c.order[j] != c.order[k]
  {
    forall j, k | 0 <= j < k < |c.order| ensures c.order[j] != c.order[k] {
      assert InOrder(c, j, k);
    }
  }

  lemma ListedSlotsAreTaken(c: Callbacks, i: nat, k: nat)
    requires CallbacksInv(c) && i < MAX_RX_CBKS && c.slots[i].cbk == NO_CBK && k < |c.order|
    ensures c.order[k] != i
  {
    assert c.order[k] in c.order;
  }

  /** The new slot stands where the search stopped: behind lower priorities, before all others. */
  lemma NewSlotInOrder(c: Callbacks, i: nat, s: Slot, k: nat)
    requires CallbacksInv(c) && i < MAX_RX_CBKS && c.slots[i].cbk == NO_CBK && k < |c.order|
    ensures
      var d := Registered(c, i, s);
      if k < InsertPos(c, s.priority, 0) then Before(d, c.order[k], i) else Before(d, i, c.order[k])
  {
    ListedSlotsAreTaken(c, i, k);
    var p, d := InsertPos(c, s.priority, 0), Registered(c, i, s);
    var x := c.order[k];
    assert d.slots[i] == s && d.slots[x] == c.slots[x];
    assert d.stamps[i] == c.clock && d.stamps[x] == c.stamps[x] < c.clock;
    if p < k {
      assert InOrder(c, p, k);
    }
  }

  lemma RegisteredSized(c: Callbacks, i: nat, s: Slot)
    requires Sized(c) && i < MAX_RX_CBKS
    ensures Sized(Registered(c, i, s))
  {
    var p, d := InsertPos(c, s.priority, 0), Registered(c, i, s);
    forall h | 0 <= h <= |c.order| ensures d.order[h] < MAX_RX_CBKS {
      if h != p { InsertedIndex(c.order, p, i, if h < p then h else h - 1); }
    }
  }

  lemma OldSlotsInOrder(c: Callbacks, i: nat, s: Slot, j: nat, k: nat)
    requires CallbacksInv(c) && i < MAX_RX_CBKS && c.slots[i].cbk == NO_CBK && j < k < |c.order|
    ensures Before(Registered(c, i, s), c.order[j], c.order[k])
  {
    ListedSlotsAreTaken(c, i, j);
    ListedSlotsAreTaken(c, i, k);
    assert InOrder(c, j, k);
  }

  /** Element j of the list after a registration: the new slot, or an older one. */
  lemma RegisteredPlace(c: Callbacks, i: nat, s: Slot, j: nat) returns (was: nat)
    requires Sized(c) && i < MAX_RX_CBKS && j <= |c.order| && j != InsertPos(c, s.priority, 0)
    ensures was == (if j < InsertPos(c, s.priority, 0) then j else j - 1) && was < |c.order|
    ensures Registered(c, i, s).order[j] == c.order[was]
  {
    was := if j < InsertPos(c, s.priority, 0) then j else j - 1;
    InsertedIndex(c.order, InsertPos(c, s.priority, 0), i, was);
  }

  lemma RegisteredInOrder(c: Callbacks, i: nat, s: Slot, j: nat, k: nat)
    requires CallbacksInv(c) && i < MAX_RX_CBKS && c.slots[i].cbk == NO_CBK && j < k <= |c.order|
    requires Sized(Registered(c, i, s))
    ensures InOrder(Registered(c, i, s), j, k)
  {
    var p := InsertPos(c, s.priority, 0);
    if j == p {
      var y := RegisteredPlace(c, i, s, k);
      NewSlotInOrder(c, i, s, y);
    } else if k == p {
      var x := RegisteredPlace(c, i, s, j);
      NewSlotInOrder(c, i, s, x);
    } else {
      var x := RegisteredPlace(c, i, s, j);
      var y := RegisteredPlace(c, i, s, k);
      OldSlotsInOrder(c, i, s, x, y);
    }
  }

  lemma RegisteredKeepsInv(c: Callbacks, i: nat, s: Slot)
    requires CallbacksInv(c) && i < MAX_RX_CBKS && c.slots[i].cbk == NO_CBK && s.cbk != NO_CBK
    ensures CallbacksInv(Registered(c, i, s))
  {
    var d := Registered(c, i, s);
    RegisteredSized(c, i, s);
    forall j, k | 0 <= j < k < |d.order| ensures InOrder(d, j, k) {
      RegisteredInOrder(c, i, s, j, k);
    }
    forall x | 0 <= x < MAX_RX_CBKS ensures x in d.order <==> d.slots[x].cbk != NO_CBK {
      InsertedMembers(c.order, InsertPos(c, s.priority, 0), i, x);
    }
  }

  lemma UnregisteredKeepsInv(c: Callbacks, p: nat)
    requires CallbacksInv(c) && p < |c.order|
    ensures CallbacksInv(Unregistered(c, p))
  {
    var d := Unregistered(c, p);
    SortedIsDistinct(c);
    forall k | 0 <= k < |d.order| ensures d.order[k] < MAX_RX_CBKS {
      RemovedIndex(c.order, p, k);
    }
    forall j, k | 0 <= j < k < |d.order| ensures InOrder(d, j, k) {
      RemovedIndex(c.order, p, j);
      RemovedIndex(c.order, p, k);
      assert InOrder(c, if j < p then j else j + 1, if k < p then k else k + 1);
    }
    forall x | 0 <= x < MAX_RX_CBKS ensures x in d.order <==> d.slots[x].cbk != NO_CBK {
      RemovedMembers(c.order, p, x);
    }
  }

  // ---------- serving a packet ----------

  /** The slots called for a packet, from list position k on; takes says which would take it. */
  function Calls(c: Callbacks, f: RxFlags, takes: seq<bool>, k: nat): seq<nat>
    requires Sized(c) && |takes| == MAX_RX_CBKS && k <= |c.order|
    decreases |c.order| - k
  {
    if k == |c.order| then []
    else if !Eligible(c.slots[c.order[k]], f) then Calls(c, f, takes, k + 1)
    else [c.order[k]] + if takes[c.order[k]] then [] else Calls(c, f, takes, k + 1)
  }

  /** What was called before list position k, with what will be called from there on, is all. */
  predicate CalledSoFar(called: seq<nat>, c: Callbacks, f: RxFlags, takes: seq<bool>, k: nat)
    requires Sized(c) && |takes| == MAX_RX_CBKS && k <= |c.order|
  {
    called + Calls(c, f, takes, k) == Calls(c, f, takes, 0)
  }

  lemma CalledOneMore(called: seq<nat>, c: Callbacks, f: RxFlags, takes: seq<bool>, k: nat)
    requires Sized(c) && |takes| == MAX_RX_CBKS && k < |c.order| && CalledSoFar(called, c, f, takes, k)
    ensures
      var s := c.order[k];
      if !Eligible(c.slots[s], f) then CalledSoFar(called, c, f, takes, k + 1)
      else if takes[s] then called + [s] == Calls(c, f, takes, 0)
      else CalledSoFar(called + [s], c, f, takes, k + 1)
  {
    assert called + ([c.order[k]] + Calls(c, f, takes, k + 1)) == called + [c.order[k]] + Calls(c, f, takes, k + 1);
  }

  lemma CalledAll(called: seq<nat>, c: Callbacks, f: RxFlags, takes: seq<bool>)
    requires Sized(c) && |takes| == MAX_RX_CBKS && CalledSoFar(called, c, f, takes, |c.order|)
    ensures called == Calls(c, f, takes, 0)
  {
    assert called + [] == called;
  }

  function EligibleSlots(c: Callbacks, f: RxFlags, k: nat): seq<nat>
    requires Sized(c) && k <= |c.order|
    decreases |c.order| - k
  {
    if k == |c.order| then []
    else (if Eligible(c.slots[c.order[k]], f) then [c.order[k]] else []) + EligibleSlots(c, f, k + 1)
  }

  /** A packet goes to the eligible callbacks in list order, and to no other. */
  lemma {:induction false} CallsAreEligible(c: Callbacks, f: RxFlags, takes: seq<bool>, k: nat)
    requires Sized(c) && |takes| == MAX_RX_CBKS && k <= |c.order|
    ensures Calls(c, f, takes, k) <= EligibleSlots(c, f, k)
    decreases |c.order| - k
  {
    if k == |c.order| {
    } else {
      CallsAreEligible(c, f, takes, k + 1);
      PrefixBehind(c.order[k], Calls(c, f, takes, k + 1), EligibleSlots(c, f, k + 1));
    }
  }

  lemma PrefixBehind(x: nat, a: seq<nat>, b: seq<nat>)
    requires a <= b
    ensures [x] + a <= [x] + b && [x] <= [x] + b
  {
  }

  predicate StopsAtTaker(calls: seq<nat>, all: seq<nat>, takes: seq<bool>) {
    (forall i :: 0 <= i < |calls| ==> calls[i] < |takes|) &&
    (forall i :: 0 <= i < |calls| - 1 ==> !takes[calls[i]]) &&
    (|calls| == |all| || (calls != [] && takes[calls[|calls| - 1]]))
  }

  /** It stops at the first that takes it, and only there or at the end of the list. */
  lemma {:induction false} CallsStopAtTaker(c: Callbacks, f: RxFlags, takes: seq<bool>, k: nat)
    requires Sized(c) && |takes| == MAX_RX_CBKS && k <= |c.order|
    ensures StopsAtTaker(Calls(c, f, takes, k), EligibleSlots(c, f, k), takes)
    decreases |c.order| - k
  {
    if k == |c.order| {
    } else {
      CallsStopAtTaker(c, f, takes, k + 1);
      var s, rest := c.order[k], Calls(c, f, takes, k + 1);
      if Eligible(c.slots[s], f) && !takes[s] {
        var calls := Calls(c, f, takes, k);
        assert calls == [s] + rest;
        assert forall i :: 1 <= i < |calls| ==> calls[i] == rest[i - 1];
      }
    }
  }

  /** Served in this order, the eligible slots are ranked by priority value, latest first among equals. */
  lemma {:induction false} EligibleInOrder(c: Callbacks, f: RxFlags, k: nat)
    requires CallbacksInv(c) && k <= |c.order|
    ensures forall i :: 0 <= i < |EligibleSlots(c, f, k)| ==> EligibleSlots(c, f, k)[i] in c.order[k..]
    ensures forall x :: x in c.order[k..] && Eligible(c.slots[x], f) ==> x in EligibleSlots(c, f, k)
    ensures forall i, j :: 0 <= i < j < |EligibleSlots(c, f, k)| ==>
              Before(c, EligibleSlots(c, f, k)[i], EligibleSlots(c, f, k)[j])
    decreases |c.order| - k
  {
    if k == |c.order| {
    } else {
      EligibleInOrder(c, f, k + 1);
      var rest := EligibleSlots(c, f, k + 1);
      assert c.order[k..] == [c.order[k]] + c.order[k + 1..];
      forall j | 0 <= j < |rest| ensures Before(c, c.order[k], rest[j]) {
        assert rest[j] in c.order[k + 1..];
        var h :| k + 1 <= h < |c.order| && c.order[h] == rest[j];
        assert InOrder(c, k, h);
      }
    }
  }

  // ---------- which packets a registration gets ----------

  /** The packet was cut short or is faulty. */
  predicate Bad(f: RxFlags) {
    f.truncated || f.crcError || f.otherError
  }

  /** The slots from list position k on, of a bad packet only those whose flags have bit 1, worth 2. */
  function Listeners(c: Callbacks, bad: bool, k: nat): seq<nat>
    requires Sized(c) && k <= |c.order|
    decreases |c.order| - k
  {
    if k == |c.order| then []
    else (if bad && c.slots[c.order[k]].flags % 4 < 2 then [] else [c.order[k]]) + Listeners(c, bad, k + 1)
  }

  lemma {:induction false} EligibleAreListeners(c: Callbacks, f: RxFlags, k: nat)
    requires Sized(c) && k <= |c.order|
    ensures EligibleSlots(c, f, k) == Listeners(c, Bad(f), k)
    decreases |c.order| - k
  {
    if k == |c.order| {
    } else {
      EligibleAreListeners(c, f, k + 1);
      var flags := c.slots[c.order[k]].flags;
      assert flags / 2 % 2 == 1 <==> flags % 4 >= 2;
    }
  }

  /** A bad packet is offered to exactly the callbacks registered with that bit, in list order up to the first taker. */
  lemma CallsAreListeners(c: Callbacks, f: RxFlags, takes: seq<bool>)
    requires Sized(c) && |takes| == MAX_RX_CBKS
    ensures Calls(c, f, takes, 0) <= Listeners(c, Bad(f), 0)
    ensures StopsAtTaker(Calls(c, f, takes, 0), Listeners(c, Bad(f), 0), takes)
  {
    CallsAreEligible(c, f, takes, 0);
    CallsStopAtTaker(c, f, takes, 0);
    EligibleAreListeners(c, f, 0);
  }

  lemma {:induction false} EverybodyListens(c: Callbacks, k: nat)
    requires Sized(c) && k <= |c.order|
    ensures Listeners(c, false, k) == c.order[k..]
    decreases |c.order| - k
  {
    if k == |c.order| {
    } else {
      EverybodyListens(c, k + 1);
    }
  }

  /** A good packet is offered to the first callback of the list, whatever its flags, and on to the first taker. */
  lemma GoodPacketReachesAll(c: Callbacks, f: RxFlags, takes: seq<bool>)
    requires Sized(c) && |takes| == MAX_RX_CBKS && !Bad(f)
    ensures Calls(c, f, takes, 0) <= c.order && StopsAtTaker(Calls(c, f, takes, 0), c.order, takes)
    ensures c.order != [] ==> Calls(c, f, takes, 0) != [] && Calls(c, f, takes, 0)[0] == c.order[0]
  {
    CallsAreListeners(c, f, takes);
    EverybodyListens(c, 0);
    assert c.order[0..] == c.order;
  }

  // ---------- who is registered ----------

  /** A registration adds its slot to the list, with what was registered; the others stay, in the same order. */
  lemma RegisteredAddsOne(c: Callbacks, i: nat, s: Slot)
    requires CallbacksInv(c) && i < MAX_RX_CBKS && c.slots[i].cbk == NO_CBK != s.cbk
    ensures
      var d := Registered(c, i, s);
      d.slots[i] == s && (forall x :: x in d.order <==> x == i || x in c.order) && |d.order| == |c.order| + 1 &&
      forall x :: 0 <= x < MAX_RX_CBKS && x != i ==> d.slots[x] == c.slots[x]
  {
    forall x ensures x in Registered(c, i, s).order <==> x == i || x in c.order {
      InsertedMembers(c.order, InsertPos(c, s.priority, 0), i, x);
    }
  }

  /** Taking out list position p takes out that slot; the others stay, in the same order. */
  lemma UnregisteredDropsOne(c: Callbacks, p: nat)
    requires CallbacksInv(c) && p < |c.order|
    ensures
      var d := Unregistered(c, p);
      d.order == c.order[..p] + c.order[p + 1..] && d.slots[c.order[p]].cbk == NO_CBK &&
      forall x :: 0 <= x < MAX_RX_CBKS && x != c.order[p] ==> d.slots[x] == c.slots[x]
  {
  }
}
