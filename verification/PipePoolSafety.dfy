/** What every interleaving of the transfer pool keeps, and the promises that follow. */
module PipePoolSafety {
  import opened PipePool

  // ---------------------------------------------------------------------------------------
  // The reference: an automaton over the log that knows nothing of the code's state.

  /** The life of a slot (its partner is the call that holds it) or of a call (its partner is
      the slot it holds).  Bad is a life no promise allows. */
  datatype Life =
    | Free
    | Filling(partner: int)
    | Queued(partner: int)
    | InFlight(partner: int, saw: bool)     // saw: a scan has read a raised cancel flag
    | Finished(partner: int, st: Status)    // the caller's status has been written
    | Ready(partner: int, st: Status)       // the done token has been given
    | Held(partner: int, st: Status)        // the token has been taken
    | Retired(st: Status)                   // a call's last state; a slot goes back to Free
    | Bad

  datatype View = BySlot(i: nat) | ByCall(r: CallId)

  predicate Concerns(e: Event, v: View) {
    match v case BySlot(i) => e.slot == i case ByCall(r) => e.call == r
  }

  function After(l: Life, e: Event, v: View): Life {
    var p := if v.BySlot? then e.call else e.slot;
    if e.what.Alloc? then (if l.Free? then Filling(p) else Bad)
    else if l.Free? || l.Retired? || l.Bad? || l.partner != p then Bad
    else match e.what {
      case Activate => if l.Filling? then Queued(p) else Bad
      case Touch => if l.Queued? || l.InFlight? then l else Bad
      case Polled(raised) => if l.InFlight? && !l.saw then InFlight(p, raised) else Bad
      case Submitted => if l.Queued? then InFlight(p, false) else Bad
      case Reported(st) =>
        if (l.Queued? && st != Success) || (l.InFlight? && (l.saw ==> st == Econnreset)) then Finished(p, st) else Bad
      case Signalled => if l.Finished? then Ready(p, l.st) else Bad
      case Taken => if l.Ready? then Held(p, l.st) else Bad
      case Released => if !l.Held? then Bad else if v.BySlot? then Free else Retired(l.st)
    }
  }

  function Replay(log: seq<Event>, v: View): Life {
    if log == [] then Free
    else
      var prev := Replay(log[..|log| - 1], v);
      var e := log[|log| - 1];
      if Concerns(e, v) then After(prev, e, v) else prev
  }

  lemma ReplayPush(log: seq<Event>, e: Event, v: View)
    ensures Replay(log + [e], v) == if Concerns(e, v) then After(Replay(log, v), e, v) else Replay(log, v)
  {
    assert (log + [e])[..|log|] == log;
  }

  // ---------------------------------------------------------------------------------------
  // The invariant

  ghost predicate WaitsAt(s: State, r: int, i: nat) {
    r in s.calls && s.calls[r].pc == Waiting(i)
  }

  /** The slot's pointers all lead into r's frame. */
  ghost predicate LentBy(s: State, p: Slot, r: int) {
    r in s.calls && p.io == r && p.report == r && p.flag == if s.calls[r].cancellable then r else NULL
  }

  ghost predicate SlotInv(s: State, i: nat, l: Life)
    requires i < |s.slots|
  {
    var p := s.slots[i];
    var busy := Engaged(s.pc) == i;
    match l
    case Free => !p.reserved && !p.active && !p.submitted && !p.done && !busy
    case Filling(r) =>
      && p.reserved && !p.active && !p.submitted && !p.done && !busy
      && r in s.calls && s.calls[r].pc.Allocated? && s.calls[r].pc.slot == i && s.calls[r].pc.stage <= 3
      && (s.calls[r].pc.stage >= 1 ==> p.io == r)
      && (s.calls[r].pc.stage >= 2 ==> p.report == r)
      && (s.calls[r].pc.stage >= 3 ==> LentBy(s, p, r))
    case Queued(r) =>
      && p.reserved && !p.submitted && !p.done && WaitsAt(s, r, i) && LentBy(s, p, r)
      && (p.active <==> !(busy && s.pc.Report?))
      && (busy ==>
            || s.pc.Prepare? || s.pc.Load? || s.pc.Handoff?
            || ((s.pc.ClearActive? || s.pc.Report?) && !s.pc.scanning && s.pc.st != Success))
    case InFlight(r, saw) =>
      && p.reserved && !p.done && WaitsAt(s, r, i) && LentBy(s, p, r)
      && (p.active <==> !(busy && (s.pc.ClearSubmitted? || s.pc.Report?)))
      && (p.submitted <==> !(busy && s.pc.Report?))
      && (!busy || s.pc.Poll? ==> !p.aborted && !saw)
      && (saw ==> p.aborted && CancelSet(s, p))
      && (busy ==>
            || s.pc.Poll? || s.pc.Clock? || s.pc.Flush? || s.pc.Decide? || s.pc.Finish? || s.pc.Override?
            || (((s.pc.ClearActive? && s.pc.scanning) || s.pc.ClearSubmitted? || (s.pc.Report? && s.pc.scanning))
                && (saw ==> s.pc.st == Econnreset)))
    case Finished(r, st) =>
      && p.reserved && !p.active && !p.submitted && !p.done && WaitsAt(s, r, i) && LentBy(s, p, r)
      && s.calls[r].status == st && busy && s.pc.Signal?
    case Ready(r, st) =>
      && p.reserved && !p.active && !p.submitted && p.done && WaitsAt(s, r, i)
      && s.calls[r].status == st && !busy
    case Held(r, st) =>
      && p.reserved && !p.active && !p.submitted && !p.done && !busy
      && r in s.calls && s.calls[r].pc == Collected(i) && s.calls[r].status == st
    case Retired(_) => false
    case Bad => false
  }

  function SlotOf(pc: CallPc): int {
    if pc.Allocated? || pc.Waiting? || pc.Collected? then pc.slot else NULL
  }

  predicate Holding(c: Call) {
    !c.pc.Entered? && !c.pc.Returned?
  }

  function PartnerOf(l: Life): int {
    if l.Free? || l.Retired? || l.Bad? then NULL else l.partner
  }

  function WithPartner(l: Life, p: int): Life {
    match l
    case Free => Free
    case Filling(_) => Filling(p)
    case Queued(_) => Queued(p)
    case InFlight(_, saw) => InFlight(p, saw)
    case Finished(_, st) => Finished(p, st)
    case Ready(_, st) => Ready(p, st)
    case Held(_, st) => Held(p, st)
    case Retired(st) => Retired(st)
    case Bad => Bad
  }

  ghost predicate CallInv(s: State, r: CallId)
    requires r in s.calls
  {
    var pc := s.calls[r].pc;
    var life := Replay(s.log, ByCall(r));
    && !pc.NoSlot?
    && (SlotOf(pc) != NULL ==>
          && SlotOf(pc) < |s.slots|
          && PartnerOf(Replay(s.log, BySlot(SlotOf(pc)))) == r
          && life == WithPartner(Replay(s.log, BySlot(SlotOf(pc))), SlotOf(pc)))
    && (pc.Entered? || pc.Permitted? || pc.Refused? ==> life == Free)
    && (pc.Unassigned? ==> life == Retired(s.calls[r].status))
    && (pc.Returned? ==> life == Retired(pc.result) || (life == Free && pc.result == Enodev))
  }

  ghost function Holders(calls: map<CallId, Call>): set<CallId> {
    set r | r in calls && Holding(calls[r])
  }

  ghost predicate Inv(s: State) {
    && Engaged(s.pc) < |s.slots|
    && (forall i | 0 <= i < |s.slots| :: SlotInv(s, i, Replay(s.log, BySlot(i))))
    && (forall i: nat | i >= |s.slots| :: Replay(s.log, BySlot(i)) == Free)
    && (forall r | r in s.calls :: CallInv(s, r))
    && (forall r: CallId | r !in s.calls :: Replay(s.log, ByCall(r)) == Free)
    && s.permits + |Holders(s.calls)| == |s.slots|
  }

  lemma InitInv(s: State)
    requires Init(s)
    ensures Inv(s)
  {}

  // ---------------------------------------------------------------------------------------
  // Preservation.  Every step is local: it changes at most one slot and one call, and logs at
  // most one event, about that slot and that call.

  lemma HoldersPut(calls: map<CallId, Call>, r: CallId, c: Call)
    ensures
      var was := r in calls && Holding(calls[r]);
      |Holders(calls[r := c])| == |Holders(calls)| + (if Holding(c) then 1 else 0) - (if was then 1 else 0)
  {
    var before, after := Holders(calls), Holders(calls[r := c]);
    assert after == if Holding(c) then before - {r} + {r} else before - {r};
    assert r in before <==> r in calls && Holding(calls[r]);
  }

  /** Slot k, its call and the backend's place in it are as they were. */
  lemma SlotFrame(s: State, t: State, k: nat, l: Life)
    requires k < |s.slots| == |t.slots| && SlotInv(s, k, l)
    requires t.slots[k] == s.slots[k].(completed := t.slots[k].completed)
    requires Engaged(s.pc) == k || Engaged(t.pc) == k ==> t.pc == s.pc
    requires PartnerOf(l) in s.calls ==> PartnerOf(l) in t.calls && t.calls[PartnerOf(l)] == s.calls[PartnerOf(l)]
    ensures SlotInv(t, k, l)
  {}

  /** A slot names its holder, and the holder's program counter names the slot. */
  lemma HolderPoints(s: State, k: nat)
    requires Inv(s) && k < |s.slots|
    ensures
      var l := Replay(s.log, BySlot(k));
      !l.Free? ==> PartnerOf(l) in s.calls && SlotOf(s.calls[PartnerOf(l)].pc) == k
  {
    assert SlotInv(s, k, Replay(s.log, BySlot(k)));
  }

  /** And a call's slot names the call. */
  lemma CallPoints(s: State, q: CallId)
    requires q in s.calls && CallInv(s, q) && SlotOf(s.calls[q].pc) != NULL
    ensures PartnerOf(Replay(s.log, BySlot(SlotOf(s.calls[q].pc)))) == q
  {
    hide Replay;
  }

  lemma LocalCall(s: State, t: State, r: CallId)
    requires Inv(s) && r in t.calls && t == s.(permits := t.permits, calls := s.calls[r := t.calls[r]])
    requires r in s.calls ==> SlotOf(s.calls[r].pc) == NULL
    requires CallInv(t, r) && t.permits + |Holders(t.calls)| == |t.slots|
    ensures Inv(t)
  {
    forall k | 0 <= k < |t.slots| ensures SlotInv(t, k, Replay(t.log, BySlot(k))) {
      HolderPoints(s, k);
      SlotFrame(s, t, k, Replay(s.log, BySlot(k)));
    }
    forall q | q in t.calls ensures CallInv(t, q) {
      if q != r { assert CallInv(s, q); }
    }
  }

  /** Call q, and the lives of it and of its slot, are as they were. */
  lemma CallFrame(s: State, t: State, q: CallId)
    requires q in s.calls && q in t.calls && CallInv(s, q) && |t.slots| == |s.slots|
    requires t.calls[q] == s.calls[q].(cancel := t.calls[q].cancel)
    requires Replay(t.log, ByCall(q)) == Replay(s.log, ByCall(q))
    requires var k := SlotOf(s.calls[q].pc); k != NULL ==> Replay(t.log, BySlot(k)) == Replay(s.log, BySlot(k))
    ensures CallInv(t, q)
  {
    hide Replay;
  }

  /** The local update: slot i, call r, at most one event about them, and the backend's place
      (which before and after is in slot i or in none, unless it did not move). */
  lemma LocalSlot(s: State, t: State, i: nat, r: CallId, e: seq<Event>)
    requires Inv(s) && i < |s.slots| && r in s.calls && r in t.calls
    requires t.slots == s.slots[i := if i < |t.slots| then t.slots[i] else IDLE]
    requires t.calls == s.calls[r := t.calls[r]]
    requires t.log == s.log + e && |e| <= 1 && (e != [] ==> e[0].slot == i && e[0].call == r)
    requires t.pc == s.pc || (Engaged(s.pc) in {i, NULL} && Engaged(t.pc) in {i, NULL})
    requires
      var l := Replay(s.log, BySlot(i));
      PartnerOf(l) == r || (l.Free? && SlotOf(s.calls[r].pc) == NULL)
    requires SlotInv(t, i, Replay(t.log, BySlot(i))) && CallInv(t, r)
    requires t.permits + |Holders(t.calls)| == |t.slots|
    ensures Inv(t)
  {
    hide SlotInv, CallInv, Replay, Holders, Engaged;
    if e == [] { assert t.log == s.log; } else { assert t.log == s.log + [e[0]]; }
    HolderPoints(s, i);
    forall k | 0 <= k < |t.slots| ensures SlotInv(t, k, Replay(t.log, BySlot(k))) {
      if k != i {
        HolderPoints(s, k);
        if e != [] { ReplayPush(s.log, e[0], BySlot(k)); }
        SlotFrame(s, t, k, Replay(s.log, BySlot(k)));
      }
    }
    forall q | q in t.calls ensures CallInv(t, q) {
      if q != r {
        assert CallInv(s, q);
        var k := SlotOf(s.calls[q].pc);
        if k != NULL { CallPoints(s, q); }
        if e != [] {
          ReplayPush(s.log, e[0], ByCall(q));
          if k != NULL { ReplayPush(s.log, e[0], BySlot(k)); }
        }
        CallFrame(s, t, q);
      }
    }
    forall k: nat | k >= |t.slots| ensures Replay(t.log, BySlot(k)) == Free {
      if e != [] { ReplayPush(s.log, e[0], BySlot(k)); }
    }
    forall q: CallId | q !in t.calls ensures Replay(t.log, ByCall(q)) == Free {
      if e != [] { ReplayPush(s.log, e[0], ByCall(q)); }
    }
  }

  lemma CallStep(s: State, step: Step)
    requires Inv(s) && Enabled(s, step)
    requires step.Enter? || step.TakePermit? || step.Refuse? || step.GivePermit?
    ensures Inv(Do(s, step))
  {
    var t, r := Do(s, step), step.r;
    HoldersPut(s.calls, r, t.calls[r]);
    if r in s.calls { assert CallInv(s, r); }
    LocalCall(s, t, r);
  }

  /** A cancel flag that goes up breaks nothing a slot relies on. */
  lemma SlotUnderCancel(s: State, r: CallId, k: nat, l: Life)
    requires k < |s.slots| && r in s.calls && SlotInv(s, k, l)
    ensures SlotInv(s.(calls := s.calls[r := s.calls[r].(cancel := true)]), k, l)
  {}

  lemma CancelStep(s: State, r: CallId)
    requires Inv(s) && r in s.calls
    ensures Inv(Do(s, SetCancel(r)))
  {
    hide SlotInv, CallInv, Replay, Holders;
    var t := Do(s, SetCancel(r));
    HoldersPut(s.calls, r, t.calls[r]);
    forall k | 0 <= k < |t.slots| ensures SlotInv(t, k, Replay(t.log, BySlot(k))) {
      SlotUnderCancel(s, r, k, Replay(s.log, BySlot(k)));
    }
    forall q | q in t.calls ensures CallInv(t, q) {
      assert CallInv(s, q);
      CallFrame(s, t, q);
    }
  }

  lemma ElapseStep(s: State, ticks: nat)
    requires Inv(s)
    ensures Inv(Do(s, Elapse(ticks)))
  {
    var t := Do(s, Elapse(ticks));
    forall k | 0 <= k < |t.slots| ensures SlotInv(t, k, Replay(t.log, BySlot(k))) {
      SlotFrame(s, t, k, Replay(s.log, BySlot(k)));
    }
    forall q | q in t.calls ensures CallInv(t, q) { assert CallInv(s, q); }
  }

  lemma CallbackStep(s: State, i: nat)
    requires Inv(s) && Enabled(s, Callback(i))
    ensures Inv(Do(s, Callback(i)))
  {
    var t := Do(s, Callback(i));
    forall k | 0 <= k < |t.slots| ensures SlotInv(t, k, Replay(t.log, BySlot(k))) {
      SlotFrame(s, t, k, Replay(s.log, BySlot(k)));
    }
    forall q | q in t.calls ensures CallInv(t, q) { assert CallInv(s, q); }
  }

  /** An event about slot i and its holder moves the slot's life and the call's life alike. */
  lemma Twins(s: State, i: nat, r: CallId, what: What)
    requires r in s.calls && CallInv(s, r) && SlotOf(s.calls[r].pc) == i
    ensures
      var e := Event(i, r, what);
      var l := Replay(s.log, BySlot(i));
      && Replay(s.log + [e], BySlot(i)) == After(l, e, BySlot(i))
      && Replay(s.log + [e], ByCall(r)) ==
           if what.Released? && l.Held? then Retired(l.st) else WithPartner(After(l, e, BySlot(i)), i)
  {
    ReplayPush(s.log, Event(i, r, what), BySlot(i));
    ReplayPush(s.log, Event(i, r, what), ByCall(r));
  }

  /** What one step does to the slot and the call it is about, given only what they were. */
  ghost predicate LocallyKept(s: State, t: State, i: nat, r: CallId)
    requires i < |s.slots|
  {
    && |t.slots| == |s.slots| && r in s.calls && r in t.calls
    && t.slots == s.slots[i := t.slots[i]] && t.calls == s.calls[r := t.calls[r]]
    && SlotInv(t, i, Replay(t.log, BySlot(i)))
    && CallInv(t, r)
  }

  lemma FillLocal(s: State, r: CallId, i: nat)
    requires Enabled(s, Fill(r)) && i == s.calls[r].pc.slot
    requires CallInv(s, r) && SlotInv(s, i, Replay(s.log, BySlot(i)))
    ensures LocallyKept(s, Do(s, Fill(r)), i, r)
  {}

  lemma StartLocal(s: State, r: CallId, i: nat)
    requires Enabled(s, Start(r)) && i == s.calls[r].pc.slot
    requires CallInv(s, r) && SlotInv(s, i, Replay(s.log, BySlot(i)))
    ensures LocallyKept(s, Do(s, Start(r)), i, r)
  {
    Twins(s, i, r, Activate);
  }

  lemma CollectLocal(s: State, r: CallId, i: nat)
    requires Enabled(s, Collect(r)) && i == s.calls[r].pc.slot
    requires CallInv(s, r) && SlotInv(s, i, Replay(s.log, BySlot(i)))
    ensures LocallyKept(s, Do(s, Collect(r)), i, r)
  {
    Twins(s, i, r, Taken);
  }

  lemma UnassignLocal(s: State, r: CallId, i: nat)
    requires Enabled(s, Unassign(r)) && i == s.calls[r].pc.slot
    requires CallInv(s, r) && SlotInv(s, i, Replay(s.log, BySlot(i)))
    ensures LocallyKept(s, Do(s, Unassign(r)), i, r)
  {
    Twins(s, i, r, Released);
  }

  /** The steps of a call that holds a slot. */
  lemma HolderStep(s: State, step: Step)
    requires Inv(s) && Enabled(s, step)
    requires step.Fill? || step.Start? || step.Collect? || step.Unassign?
    ensures Inv(Do(s, step))
  {
    hide Replay, Holders;
    var t, r := Do(s, step), step.r;
    var i := SlotOf(s.calls[r].pc);
    assert CallInv(s, r);
    assert SlotInv(s, i, Replay(s.log, BySlot(i)));
    match step {
      case Fill(_) => FillLocal(s, r, i);
      case Start(_) => StartLocal(s, r, i);
      case Collect(_) => CollectLocal(s, r, i);
      case Unassign(_) => UnassignLocal(s, r, i);
    }
    assert |Holders(t.calls)| == |Holders(s.calls)| by { HoldersPut(s.calls, r, t.calls[r]); }
    LocalSlot(s, t, i, r, t.log[|s.log|..]);
  }

  // ---------------------------------------------------------------------------------------
  // A permit is a promise of a slot.

  function ReservedCount(slots: seq<Slot>): (n: nat) {
    if slots == [] then 0
    else ReservedCount(slots[..|slots| - 1]) + if slots[|slots| - 1].reserved then 1 else 0
  }

  lemma {:induction false} AllReserved(slots: seq<Slot>)
    requires forall p | p in slots :: p.reserved
    ensures ReservedCount(slots) == |slots|
  {
    if slots != [] { AllReserved(slots[..|slots| - 1]); }
  }

  lemma ReservedIsHeld(s: State, k: nat) returns (r: CallId)
    requires Inv(s) && k < |s.slots| && s.slots[k].reserved
    ensures r in Holders(s.calls) && SlotOf(s.calls[r].pc) == k
  {
    assert SlotInv(s, k, Replay(s.log, BySlot(k)));
    r := PartnerOf(Replay(s.log, BySlot(k)));
  }

  /** The calls that hold one of the first n slots; distinct slots have distinct holders. */
  lemma {:induction false} SlotHolders(s: State, n: nat) returns (held: set<CallId>)
    requires Inv(s) && n <= |s.slots|
    ensures |held| == ReservedCount(s.slots[..n]) && held <= Holders(s.calls)
    ensures forall q | q in held :: 0 <= SlotOf(s.calls[q].pc) < n
  {
    held := {};
    if n > 0 {
      hide Inv, SlotOf;
      held := SlotHolders(s, n - 1);
      assert s.slots[..n][..n - 1] == s.slots[..n - 1];
      if s.slots[n - 1].reserved {
        var r := ReservedIsHeld(s, n - 1);
        held := held + {r};
      }
    }
  }

  /** Whoever holds a permit and no slot finds a slot free: the -EBUSY branch is dead. */
  lemma PermitFindsSlot(s: State, r: CallId)
    requires Inv(s) && r in s.calls && s.calls[r].pc.Permitted?
    ensures FirstUnassigned(s.slots, 0) < |s.slots|
  {
    hide SlotInv, CallInv, Replay, ReservedCount;
    if FirstUnassigned(s.slots, 0) == |s.slots| {
      AllReserved(s.slots);
      assert s.slots[..|s.slots|] == s.slots;
      var held := SlotHolders(s, |s.slots|);
      OneTooMany(s, r, held);
      assert false;
    }
  }

  lemma OneTooMany(s: State, r: CallId, held: set<CallId>)
    requires s.permits + |Holders(s.calls)| == |s.slots| && held <= Holders(s.calls)
    requires forall q | q in held :: SlotOf(s.calls[q].pc) != NULL
    requires r in s.calls && s.calls[r].pc.Permitted?
    ensures |held| < |s.slots|
  {
    assert r !in held && |held + {r}| == |held| + 1;
    SubsetSize(held + {r}, Holders(s.calls));
  }

  lemma {:induction false} SubsetSize<T>(a: set<T>, b: set<T>)
    requires a <= b
    ensures |a| <= |b|
  {
    if a != {} {
      var x :| x in a;
      SubsetSize(a - {x}, b - {x});
    }
  }

  lemma AllocateLocal(s: State, r: CallId, i: nat)
    requires Enabled(s, Allocate(r)) && i == FirstUnassigned(s.slots, 0) < |s.slots|
    requires CallInv(s, r) && SlotInv(s, i, Replay(s.log, BySlot(i)))
    ensures LocallyKept(s, Do(s, Allocate(r)), i, r) && Replay(s.log, BySlot(i)).Free?
    ensures var t := Do(s, Allocate(r));
      t == s.(slots := t.slots, calls := t.calls, log := s.log + [Event(i, r, Alloc)]) && t.calls[r].pc.Allocated?
  {
    hide Replay;
    ReplayPush(s.log, Event(i, r, Alloc), BySlot(i));
    ReplayPush(s.log, Event(i, r, Alloc), ByCall(r));
  }

  lemma AllocateStep(s: State, r: CallId)
    requires Inv(s) && Enabled(s, Allocate(r))
    ensures Inv(Do(s, Allocate(r)))
  {
    hide Do, Replay, SlotInv, CallInv, Holders, FirstUnassigned;
    PermitFindsSlot(s, r);
    var t := Do(s, Allocate(r));
    var i := FirstUnassigned(s.slots, 0);
    assert CallInv(s, r);
    AllocateLocal(s, r, i);
    HoldersPut(s.calls, r, t.calls[r]);
    LocalSlot(s, t, i, r, [Event(i, r, Alloc)]);
  }

  // ---------------------------------------------------------------------------------------
  // The backend task.

  /** The step that polls a cancel flag. */
  lemma PollIs(s: State, c: Choice, i: nat)
    requires s.pc == Poll(i) && i < |s.slots| && Possible(c)
    ensures Enabled(s, Advance(c))
    ensures var p := s.slots[i]; var raised := CancelSet(s, p);
      Do(s, Advance(c)) ==
        if p.aborted || p.flag == NULL then s.(pc := Clock(i))
        else s.(slots := s.slots[i := p.(aborted := raised)], pc := Clock(i),
                log := s.log + [Event(i, p.flag, Polled(raised))])
  {}

  /** The step that looks at the time. */
  lemma ClockIs(s: State, c: Choice, i: nat)
    requires s.pc == Clock(i) && i < |s.slots| && Possible(c)
    ensures Enabled(s, Advance(c))
    ensures var p := s.slots[i];
      Do(s, Advance(c)) ==
        s.(slots := s.slots[i := p.(aborted := p.aborted || Late(s.now, p.deadline))], pc := Flush(i))
  {}

  /** Between slots, only the program counter and the time read move, and it enters a slot only on its flags. */
  lemma Turning(s: State, c: Choice)
    requires Engaged(s.pc) == NULL
    ensures
      var t := Backend(s, c);
      && t == s.(pc := t.pc, now := t.now)
      && (Engaged(t.pc) != NULL ==>
            && t.pc.i < |s.slots|
            && ((t.pc.Prepare? && s.slots[t.pc.i].active && !s.slots[t.pc.i].submitted)
                || (t.pc.Poll? && s.slots[t.pc.i].submitted)))
  {}

  lemma BetweenSlots(s: State, c: Choice)
    requires Inv(s) && Enabled(s, Advance(c)) && Engaged(s.pc) == NULL
    ensures Inv(Backend(s, c))
  {
    hide Backend, CallInv, Replay, Holders;
    var t := Backend(s, c);
    Turning(s, c);
    forall k | 0 <= k < |t.slots| ensures SlotInv(t, k, Replay(t.log, BySlot(k))) {
      assert SlotInv(s, k, Replay(s.log, BySlot(k)));
    }
    forall q | q in t.calls ensures CallInv(t, q) {
      assert CallInv(s, q);
      CallFrame(s, t, q);
    }
  }

  /** The backend, serving slot i of call r, changes and logs nothing about any other. */
  ghost predicate Served(s: State, t: State, i: nat, r: CallId)
    requires i < |s.slots|
  {
    && LocallyKept(s, t, i, r)
    && t.permits == s.permits && t.calls[r].pc == s.calls[r].pc && Engaged(t.pc) in {i, NULL}
    && (t.log == s.log || exists what :: Appends(s, t, Event(i, r, what)))
  }

  ghost predicate Appends(s: State, t: State, e: Event) {
    t.log == s.log + [e]
  }

  ghost predicate Serves(s: State, c: Choice, i: nat, r: CallId) {
    && Possible(c) && Engaged(s.pc) == i < |s.slots|
    && r in s.calls && CallInv(s, r) && SlotOf(s.calls[r].pc) == i
    && SlotInv(s, i, Replay(s.log, BySlot(i)))
  }

  lemma ServeSubmission(s: State, c: Choice, i: nat, r: CallId)
    requires Serves(s, c, i, r) && (s.pc.Prepare? || s.pc.Load? || s.pc.Handoff?)
    ensures Served(s, Backend(s, c), i, r)
  {
    hide Replay;
    var t := Backend(s, c);
    var what := if s.pc.Handoff? then Submitted else Touch;
    Twins(s, i, r, what);
    assert t.log == s.log || Appends(s, t, Event(i, r, what));
  }

  lemma ServePoll(s: State, c: Choice, i: nat, r: CallId)
    requires Serves(s, c, i, r) && (s.pc.Poll? || s.pc.Clock? || s.pc.Flush? || s.pc.Decide?)
    ensures Served(s, Backend(s, c), i, r)
  {
    hide Replay;
    var t := Backend(s, c);
    var what := Polled(CancelSet(s, s.slots[i]));
    Twins(s, i, r, what);
    assert t.log == s.log || Appends(s, t, Event(i, r, what));
  }

  lemma ServeCompletion(s: State, c: Choice, i: nat, r: CallId)
    requires Serves(s, c, i, r)
    requires s.pc.Finish? || s.pc.Override? || s.pc.ClearActive? || s.pc.ClearSubmitted?
    ensures Served(s, Backend(s, c), i, r)
  {
    hide Replay;
    var t := Backend(s, c);
    Twins(s, i, r, Touch);
    assert t.log == s.log || Appends(s, t, Event(i, r, Touch));
  }

  lemma ServeReport(s: State, c: Choice, i: nat, r: CallId)
    requires Serves(s, c, i, r) && (s.pc.Report? || s.pc.Signal?)
    ensures Served(s, Backend(s, c), i, r)
  {
    hide Replay;
    var t := Backend(s, c);
    var what := if s.pc.Report? then Reported(s.pc.st) else Signalled;
    Twins(s, i, r, what);
    assert Appends(s, t, Event(i, r, what));
  }

  lemma EngagedIsHeld(s: State, i: nat)
    requires Inv(s) && Engaged(s.pc) == i
    ensures i < |s.slots| && !Replay(s.log, BySlot(i)).Free?
  {
    hide Replay;
    assert SlotInv(s, i, Replay(s.log, BySlot(i)));
  }

  /** Serving slot i of call r: what the step logs is allowed, and the rest is untouched. */
  lemma Serving(s: State, c: Choice, i: nat, r: CallId)
    requires Inv(s) && Enabled(s, Advance(c)) && Engaged(s.pc) == i
    requires r == PartnerOf(Replay(s.log, BySlot(i)))
    ensures Inv(Backend(s, c))
  {
    hide Backend, SlotInv, CallInv, Replay, Holders;
    var t := Backend(s, c);
    EngagedIsHeld(s, i);
    HolderPoints(s, i);
    assert CallInv(s, r);
    if s.pc.Prepare? || s.pc.Load? || s.pc.Handoff? {
      ServeSubmission(s, c, i, r);
    } else if s.pc.Report? || s.pc.Signal? {
      ServeReport(s, c, i, r);
    } else if s.pc.Poll? || s.pc.Clock? || s.pc.Flush? || s.pc.Decide? {
      ServePoll(s, c, i, r);
    } else {
      ServeCompletion(s, c, i, r);
    }
    assert |Holders(t.calls)| == |Holders(s.calls)| by { HoldersPut(s.calls, r, t.calls[r]); }
    LocalSlot(s, t, i, r, t.log[|s.log|..]);
  }

  lemma StepInv(s: State, step: Step)
    requires Inv(s) && Enabled(s, step)
    ensures Inv(Do(s, step))
  {
    match step
    case Enter(_, _) => CallStep(s, step);
    case TakePermit(_) => CallStep(s, step);
    case Refuse(_) => CallStep(s, step);
    case GivePermit(_) => CallStep(s, step);
    case Allocate(r) => AllocateStep(s, r);
    case Fill(_) => HolderStep(s, step);
    case Start(_) => HolderStep(s, step);
    case Collect(_) => HolderStep(s, step);
    case Unassign(_) => HolderStep(s, step);
    case SetCancel(r) => CancelStep(s, r);
    case Elapse(ticks) => ElapseStep(s, ticks);
    case Callback(i) => CallbackStep(s, i);
    case Advance(c) =>
      if Engaged(s.pc) == NULL {
        BetweenSlots(s, c);
      } else {
        HolderPoints(s, s.pc.i);
        assert SlotInv(s, s.pc.i, Replay(s.log, BySlot(s.pc.i)));
        Serving(s, c, s.pc.i, PartnerOf(Replay(s.log, BySlot(s.pc.i))));
      }
  }

  /** Every state of every run keeps the invariant. */
  lemma {:induction false} RunInv(run: seq<State>, steps: seq<Step>, n: nat)
    requires IsRun(run, steps) && n < |run|
    ensures Inv(run[n])
  {
    if n == 0 {
      InitInv(run[0]);
    } else {
      RunInv(run, steps, n - 1);
      StepInv(run[n - 1], steps[n - 1]);
    }
  }
}
