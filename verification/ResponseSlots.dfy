// Requests to the server carry a tid; the client keeps the callback of up to
// fifteen of them and packs the slot number into the top byte of the tid.
module ResponseSlots {
  import opened Options
  import opened Sequences

  const MAX_MAIN_END_CB := 0x10
  const SLOT_UNIT := 0x100_0000

  // tid & 0xFFFFFF and (tid >> 24) & 0xFF on two's complement integers
  function Low(tid: int): int {
    tid % SLOT_UNIT
  }

  function SlotOf(tid: int): nat {
    (tid / SLOT_UNIT) % 0x100
  }

  function Pack(choice: nat, tid: int): int {
    choice * SLOT_UNIT + Low(tid)
  }

  lemma PackExact(choice: nat, tid: int)
    requires choice < MAX_MAIN_END_CB
    ensures SlotOf(Pack(choice, tid)) == choice && Low(Pack(choice, tid)) == Low(tid)
    ensures 0 <= Pack(choice, tid) < 0x8000_0000
  {
  }

  // A tid of 24 bits is sent with the slot above it, and comes back whole;
  // what lies above 24 bits is lost.
  lemma PackBits(choice: nat, tid: int, above: int)
    requires choice < MAX_MAIN_END_CB && 0 <= tid < 16777216
    ensures Pack(choice, tid) == choice * 16777216 + tid && Low(Pack(choice, tid)) == tid
    ensures Pack(choice, tid + above * 16777216) == Pack(choice, tid)
    ensures SlotOf(Pack(choice, tid)) == Pack(choice, tid) / 16777216
  {
    assert (tid + above * 16777216) % 16777216 == tid;
  }

  // A tracked request: its callback and the low bits of the caller's tid.
  datatype Request = Request(cb: nat, low: int)

  // slots: g_main_end_cb.  running: the slots whose callback is being run,
  // innermost last.  owed: the requests that wait for a reply, by slot.
  // issued: all tracked requests so far; run: the callbacks run so far.
  datatype State = State(slots: seq<Option<nat>>, running: seq<nat>,
                         owed: seq<Option<Request>>, issued: seq<Request>, run: seq<Request>)

  function Blank<T>(n: nat): seq<Option<T>> {
    seq(n, _ => None)
  }

  function Initial(): State {
    State(Blank(MAX_MAIN_END_CB), [], Blank(MAX_MAIN_END_CB), [], [])
  }

  // The first free slot from 1 on, or 0.
  function FreeSlot(slots: seq<Option<nat>>, i: nat): nat
    decreases |slots| - i
  {
    if i >= |slots| then 0 else if slots[i].None? then i else FreeSlot(slots, i + 1)
  }

  // set_response_callback
  function Track(s: State, cb: nat, tid: int): (State, int) {
    var choice := FreeSlot(s.slots, 1);
    if choice == 0 || choice >= |s.owed| || choice >= |s.slots| then (s, Pack(0, tid))
    else
      var r := Request(cb, Low(tid));
      (s.(slots := s.slots[choice := Some(cb)], owed := s.owed[choice := Some(r)], issued := s.issued + [r]),
       Pack(choice, tid))
  }

  // call_response_callback up to and including the call of the callback
  function Enter(s: State, tid: int): State {
    var c := SlotOf(tid);
    if c >= |s.slots| || c >= |s.owed| || s.slots[c].None? then s
    else s.(running := s.running + [c], owed := s.owed[c := None],
            run := s.run + [Request(s.slots[c].value, Low(tid))])
  }

  // ... and from its return on
  function Leave(s: State): State {
    if s.running == [] || s.running[|s.running| - 1] >= |s.slots| then s
    else s.(slots := s.slots[s.running[|s.running| - 1] := None], running := s.running[..|s.running| - 1])
  }

  // The requests that wait for a reply, as a bag.
  ghost function Bag(owed: seq<Option<Request>>): multiset<Request> {
    if owed == [] then multiset{} else Bag(owed[..|owed| - 1]) + One(owed[|owed| - 1])
  }

  ghost function One(o: Option<Request>): multiset<Request> {
    match o case None => multiset{} case Some(r) => multiset{r}
  }

  // Slots and waiting requests are in bijection, apart from the slots whose
  // callback is being run; nothing is lost and nothing runs twice.
  ghost predicate Inv(s: State) {
    && |s.slots| == |s.owed| == MAX_MAIN_END_CB
    && s.slots[0].None? && s.owed[0].None?
    && Distinct(s.running)
    && (forall c :: c in s.running ==> 0 < c < MAX_MAIN_END_CB && s.owed[c].None? && s.slots[c].Some?)
    && (forall c :: 0 <= c < MAX_MAIN_END_CB && c !in s.running ==>
          if s.owed[c].None? then s.slots[c].None? else s.slots[c] == Some(s.owed[c].value.cb))
    && multiset(s.issued) == multiset(s.run) + Bag(s.owed)
  }

  lemma {:induction false} BagUpdate(owed: seq<Option<Request>>, c: nat, v: Option<Request>)
    requires c < |owed|
    ensures Bag(owed[c := v]) + One(owed[c]) == Bag(owed) + One(v)
  {
    hide One;
    var last := |owed| - 1;
    if c == last {
      assert owed[c := v][..last] == owed[..last];
    } else {
      assert owed[c := v][..last] == owed[..last][c := v] && owed[c := v][last] == owed[last];
      BagUpdate(owed[..last], c, v);
      var a, b, x := Bag(owed[..last][c := v]), Bag(owed[..last]), One(owed[last]);
      assert (a + x) + One(owed[c]) == (a + One(owed[c])) + x;
      assert (b + One(v)) + x == (b + x) + One(v);
    }
  }

  lemma {:induction false} BagBlank(n: nat)
    ensures Bag(Blank<Request>(n)) == multiset{}
  {
    if n > 0 {
      assert Blank<Request>(n)[..n - 1] == Blank<Request>(n - 1);
      BagBlank(n - 1);
    }
  }

  lemma InitialInv()
    ensures Inv(Initial())
  {
    BagBlank(MAX_MAIN_END_CB);
  }

  lemma {:induction false} FreeSlotIs(slots: seq<Option<nat>>, i: nat)
    requires i > 0
    ensures var c := FreeSlot(slots, i);
            if c == 0 then forall j :: i <= j < |slots| ==> slots[j].Some?
            else i <= c < |slots| && slots[c].None? && forall j :: i <= j < c ==> slots[j].Some?
    decreases |slots| - i
  {
    if i < |slots| && slots[i].Some? {
      FreeSlotIs(slots, i + 1);
    }
  }

  // A new request never touches a waiting request nor a slot whose callback
  // is being run.
  lemma TrackKeeps(s: State, cb: nat, tid: int)
    requires Inv(s)
    ensures var (u, t) := Track(s, cb, tid);
            && Inv(u) && Low(t) == Low(tid) && u.running == s.running && u.run == s.run
            && (SlotOf(t) == 0 ==> u == s && forall c :: 0 < c < MAX_MAIN_END_CB ==> s.slots[c].Some?)
            && (SlotOf(t) != 0 ==> var c := SlotOf(t);
                  && c < MAX_MAIN_END_CB && s.slots[c].None? && c !in s.running
                  && (forall d :: 0 < d < c ==> s.slots[d].Some?) && u.slots == s.slots[c := Some(cb)]
                  && u.owed == s.owed[c := Some(Request(cb, Low(tid)))]
                  && u.issued == s.issued + [Request(cb, Low(tid))])
  {
    hide Bag, Low, SlotOf, Pack, FreeSlot;
    var choice := FreeSlot(s.slots, 1);
    FreeSlotIs(s.slots, 1);
    PackExact(choice, tid);
    if choice != 0 {
      var r := Request(cb, Low(tid));
      BagUpdate(s.owed, choice, Some(r));
      assert multiset(s.issued + [r]) == multiset(s.issued) + multiset{r};
      assert choice !in s.running && s.owed[choice].None?;
      assert Bag(s.owed[choice := Some(r)]) == Bag(s.owed) + multiset{r};
      assert multiset(s.run) + (Bag(s.owed) + multiset{r}) == (multiset(s.run) + Bag(s.owed)) + multiset{r};
    }
  }

  // A reply to a waiting request, or one that finds its slot empty: to a
  // request that found no slot, or a second one.
  predicate Due(s: State, tid: int) {
    var c := SlotOf(tid);
    && c < |s.slots| && c < |s.owed|
    && (s.slots[c].None? || (s.owed[c].Some? && s.owed[c].value.low == Low(tid)))
  }

  // A reply runs the callback of its own request, with the original low bits,
  // and a reply that finds its slot empty runs nothing.
  lemma EnterKeeps(s: State, tid: int)
    requires Inv(s) && Due(s, tid)
    ensures Inv(Enter(s, tid)) && Enter(s, tid).issued == s.issued
    ensures SlotOf(tid) == 0 ==> s.slots[0].None?
    ensures s.slots[SlotOf(tid)].None? ==> Enter(s, tid) == s
    ensures s.slots[SlotOf(tid)].Some? ==>
              && s.owed[SlotOf(tid)].Some?
              && Enter(s, tid).run == s.run + [s.owed[SlotOf(tid)].value]
              && Enter(s, tid).owed == s.owed[SlotOf(tid) := None]
              && Enter(s, tid).slots == s.slots && Enter(s, tid).running == s.running + [SlotOf(tid)]
  {
    hide Bag;
    var c := SlotOf(tid);
    if s.slots[c].Some? {
      assert c !in s.running;
      BagUpdate(s.owed, c, None);
      var u := Enter(s, tid);
      assert u.run == s.run + [s.owed[c].value];
      assert multiset(u.run) == multiset(s.run) + multiset{s.owed[c].value};
      assert Bag(u.owed) + multiset{s.owed[c].value} == Bag(s.owed);
    }
  }

  // When a callback returns, only its own slot is emptied: what it or anyone
  // else registered meanwhile stays.
  lemma LeaveKeeps(s: State)
    requires Inv(s) && s.running != []
    ensures Inv(Leave(s)) && Leave(s).owed == s.owed && Leave(s).issued == s.issued && Leave(s).run == s.run
    ensures Leave(s).running == s.running[..|s.running| - 1]
    ensures forall c :: 0 <= c < MAX_MAIN_END_CB ==>
              Leave(s).slots[c] == if c == s.running[|s.running| - 1] then None else s.slots[c]
    ensures forall c :: 0 <= c < MAX_MAIN_END_CB && s.owed[c].Some? ==> Leave(s).slots[c] == s.slots[c]
  {
    hide Bag;
    var rest := s.running[..|s.running| - 1];
    var c := s.running[|s.running| - 1];
    assert c in s.running;
    assert forall x :: x in s.running <==> x in rest || x == c by {
      assert s.running == rest + [c];
    }
  }

  // ----- runs ------------------------------------------------------------------------

  datatype Act = Ask(cb: nat, tid: int) | Reply(tid: int) | Return

  predicate Allowed(s: State, a: Act) {
    match a
    case Ask(_, _) => true
    case Reply(tid) => Due(s, tid)
    case Return => s.running != []
  }

  function Do(s: State, a: Act): State {
    match a
    case Ask(cb, tid) => Track(s, cb, tid).0
    case Reply(tid) => Enter(s, tid)
    case Return => Leave(s)
  }

  ghost predicate Run(states: seq<State>, acts: seq<Act>) {
    && |states| == |acts| + 1 && states[0] == Initial()
    && forall i :: 0 <= i < |acts| ==> Allowed(states[i], acts[i]) && states[i + 1] == Do(states[i], acts[i])
  }

  // Over every interleaving, nested callbacks included, each tracked request
  // is either still waiting or its callback was run, and that exactly once.
  lemma {:induction false} EveryRun(states: seq<State>, acts: seq<Act>, i: nat)
    requires Run(states, acts) && i < |states|
    ensures Inv(states[i])
    ensures multiset(states[i].issued) == multiset(states[i].run) + Bag(states[i].owed)
  {
    hide Inv, Bag;
    if i == 0 {
      InitialInv();
    } else {
      EveryRun(states, acts, i - 1);
      var s := states[i - 1];
      match acts[i - 1] {
        case Ask(cb, tid) => TrackKeeps(s, cb, tid);
        case Reply(tid) => EnterKeeps(s, tid);
        case Return => LeaveKeeps(s);
      }
    }
    assert multiset(states[i].issued) == multiset(states[i].run) + Bag(states[i].owed) by { InvBag(states[i]); }
  }

  lemma InvBag(s: State)
    requires Inv(s)
    ensures multiset(s.issued) == multiset(s.run) + Bag(s.owed)
  {
  }

  // ----- the table in place ---------------------------------------------------------

  class EndCallbacks {
    var slots: array<Option<nat>>
    ghost var state: State

    ghost predicate Valid()
      reads this, slots
    {
      state.slots == slots[..] && Inv(state)
    }

    constructor ()
      ensures Valid() && state == Initial() && fresh(slots)
    {
      slots := new Option<nat>[MAX_MAIN_END_CB](_ => None);
      state := Initial();
      new;
      InitialInv();
      assert slots[..] == Blank(MAX_MAIN_END_CB);
    }

    method SetResponseCallback(cb: nat, tid: int) returns (newTid: int)
      requires Valid()
      modifies this, slots
      ensures Valid() && slots == old(slots) && (state, newTid) == Track(old(state), cb, tid)
    {
      hide Inv, Bag, Pack;
      TrackKeeps(state, cb, tid);
      var choice, i := 0, 1;
      Size(state);
      while i < MAX_MAIN_END_CB
        invariant 0 < i <= MAX_MAIN_END_CB && choice == 0
        invariant FreeSlot(slots[..], 1) == FreeSlot(slots[..], i)
      {
        if slots[i].None? {
          choice := i;
          break;
        }
        i := i + 1;
      }
      if choice != 0 {
        slots[choice] := Some(cb);
      }
      newTid := Pack(choice, tid);
      state := Track(state, cb, tid).0;
      assert slots[..] == state.slots;
    }

    lemma Size(s: State)
      requires Inv(s)
      ensures |s.slots| == |s.owed| == MAX_MAIN_END_CB
    {
    }

    // the test and the call; ran: the callback with the tid it is given
    method CallBegins(tid: int) returns (ran: Option<Request>)
      requires Valid() && Due(state, tid)
      modifies this
      ensures Valid() && slots == old(slots) && state == Enter(old(state), tid)
      ensures ran == if old(state).slots[SlotOf(tid)].None? then None else old(state).owed[SlotOf(tid)]
    {
      hide Bag;
      EnterKeeps(state, tid);
      var choice := SlotOf(tid);
      ran := None;
      if slots[choice].Some? {
        ran := Some(Request(slots[choice].value, Low(tid)));
      }
      state := Enter(state, tid);
    }

    // the statement after the call
    method CallEnds(choice: nat)
      requires Valid() && state.running != [] && choice == state.running[|state.running| - 1]
      modifies this, slots
      ensures Valid() && slots == old(slots) && state == Leave(old(state))
    {
      hide Bag;
      LeaveKeeps(state);
      assert choice in state.running;
      slots[choice] := None;
      state := Leave(state);
    }
  }
}
