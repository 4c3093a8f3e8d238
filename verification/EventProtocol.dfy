/**
  The intended meaning of event objects: one atomic Boolean per handle.
  A call is invoked, takes effect at one instant (Commit), and returns.
  */
module EventSpec {
  import opened Winsock

  /** Application threads, and the monitor thread of each socket registration. */
  datatype Thread = Caller(id: nat) | Monitor(node: nat)

  type Handle = nat
  const NULL_HANDLE: Handle := 0

  datatype Op =
    | SetOp(h: Handle)
    | ResetOp(h: Handle)
    | WaitOp(handles: seq<Handle>, infinite: bool, waitAll: bool)

  predicate HandlesKnown(known: set<Handle>, op: Op) {
    match op
    case SetOp(h) => h == NULL_HANDLE || h in known
    case ResetOp(h) => h == NULL_HANDLE || h in known
    case WaitOp(hs, _, _) => forall h | h in hs :: h == NULL_HANDLE || h in known
  }

  datatype Phase = Ready | Pending(op: Op) | Done(op: Op, answer: Answer)

  datatype State = State(bits: map<Handle, bool>, threads: map<Thread, Phase>)

  datatype Action =
    | Create(h: Handle)
    | Invoke(t: Thread, op: Op)
    | Commit(t: Thread, answer: Answer, failed: bool)   // failed: select returned an error
    | Return(t: Thread)

  /** What an outside observer sees of a run: the calls, and where the system failed a select. */
  datatype Sight =
    | Created(h: Handle)
    | Invoked(t: Thread, op: Op)
    | SelectFailed(t: Thread)
    | Returned(t: Thread, op: Op, answer: Answer)

  /** What a wait sees: nothing for a NULL handle, otherwise whether the event is set. */
  type View = seq<Option<bool>>

  function ViewOf(bits: map<Handle, bool>, handles: seq<Handle>): View {
    seq(|handles|, i requires 0 <= i < |handles| =>
      if handles[i] == NULL_HANDLE then None else Some(handles[i] in bits && bits[handles[i]]))
  }

  /** The event at i is set and no earlier one is. */
  predicate FirstSet(view: View, i: nat) {
    i < |view| && view[i] == Some(true) && forall j: nat | j < i :: view[j] != Some(true)
  }

  predicate NoneSet(view: View) {
    forall i | 0 <= i < |view| :: view[i] != Some(true)
  }

  predicate WaitArgumentsOk(view: View) {
    1 <= |view| <= WSA_MAXIMUM_WAIT_EVENTS && None !in view
  }

  /** The answers a wait may give for events seen like this. */
  ghost predicate WaitMayAnswer(view: View, infinite: bool, failed: bool, answer: Answer) {
    if !(1 <= |view| <= WSA_MAXIMUM_WAIT_EVENTS) then answer == Answer(WSA_WAIT_FAILED, WSA_INVALID_PARAMETER)
    else if None in view then answer == Answer(WSA_WAIT_FAILED, WSA_INVALID_HANDLE)
    else if failed then answer == Answer(WSA_WAIT_FAILED, WSAENETDOWN)
    else
      || (exists i: nat :: FirstSet(view, i) && answer == Answer(WSA_WAIT_EVENT_0 + i, 0))
      || (!infinite && NoneSet(view) && answer == Answer(WSA_WAIT_TIMEOUT, 0))
  }

  /** Only a wait with good arguments gets as far as a select that can fail. */
  ghost predicate MayAnswer(bits: map<Handle, bool>, op: Op, failed: bool, answer: Answer) {
    match op
    case SetOp(h) => !failed && answer == if h == NULL_HANDLE then Answer(FALSE, WSA_INVALID_HANDLE) else Answer(TRUE, 0)
    case ResetOp(h) => !failed && answer == if h == NULL_HANDLE then Answer(FALSE, WSA_INVALID_HANDLE) else Answer(TRUE, 0)
    case WaitOp(hs, infinite, _) =>
      && (failed ==> WaitArgumentsOk(ViewOf(bits, hs)))
      && WaitMayAnswer(ViewOf(bits, hs), infinite, failed, answer)
  }

  predicate AllSet(handles: seq<Handle>, bits: map<Handle, bool>) {
    forall h | h in handles :: h in bits && bits[h]
  }

  /** A wait that asks for all events, answered by an index: every one of them is set. */
  ghost predicate SuccessMeansAll(handles: seq<Handle>, infinite: bool, bits: map<Handle, bool>) {
    forall failed, answer | MayAnswer(bits, WaitOp(handles, infinite, true), failed, answer) && 0 <= answer.value < |handles| ::
      answer.error == 0 ==> AllSet(handles, bits)
  }

  lemma ViewIsKnown(bits: map<Handle, bool>, handles: seq<Handle>)
    requires NULL_HANDLE !in handles
    ensures None !in ViewOf(bits, handles)
    ensures forall j | 0 <= j < |handles| :: ViewOf(bits, handles)[j] == Some(handles[j] in bits && bits[handles[j]])
  {
    assert forall j | 0 <= j < |handles| :: handles[j] in handles;
  }

  /** A wait for all events keeps its promise, whatever is set, exactly when it names a single event. */
  lemma WaitAllIff(handles: seq<Handle>, infinite: bool)
    requires 1 <= |handles| <= WSA_MAXIMUM_WAIT_EVENTS && NULL_HANDLE !in handles
    ensures (forall bits :: SuccessMeansAll(handles, infinite, bits)) <==> forall h | h in handles :: h == handles[0]
  {
    if forall h | h in handles :: h == handles[0] {
      forall bits
        ensures SuccessMeansAll(handles, infinite, bits)
      {
        ViewIsKnown(bits, handles);
        assert forall i | 0 <= i < |handles| :: handles[i] in handles;
      }
    } else {
      var bits, answer := map[handles[0] := true], Answer(WSA_WAIT_EVENT_0, 0);
      ViewIsKnown(bits, handles);
      assert FirstSet(ViewOf(bits, handles), 0);
      assert MayAnswer(bits, WaitOp(handles, infinite, true), false, answer);
      assert !SuccessMeansAll(handles, infinite, bits);
    }
  }

  function Effect(bits: map<Handle, bool>, op: Op): map<Handle, bool> {
    match op
    case SetOp(h) => if h == NULL_HANDLE then bits else bits[h := true]
    case ResetOp(h) => if h == NULL_HANDLE then bits else bits[h := false]
    case WaitOp(_, _, _) => bits
  }

  function PhaseOf(s: State, t: Thread): Phase {
    if t in s.threads then s.threads[t] else Ready
  }

  ghost predicate Enabled(s: State, a: Action) {
    match a
    case Create(h) => h != NULL_HANDLE && h !in s.bits
    case Invoke(t, op) => PhaseOf(s, t) == Ready && HandlesKnown(s.bits.Keys, op)
    case Commit(t, answer, failed) => PhaseOf(s, t).Pending? && MayAnswer(s.bits, PhaseOf(s, t).op, failed, answer)
    case Return(t) => PhaseOf(s, t).Done?
  }

  ghost function After(s: State, a: Action): State
  {
    match a
    case Create(h) => s.(bits := s.bits[h := false])
    case Invoke(t, op) => s.(threads := s.threads[t := Pending(op)])
    case Commit(t, answer, _) =>
      var phase := PhaseOf(s, t);
      if phase.Pending? then State(Effect(s.bits, phase.op), s.threads[t := Done(phase.op, answer)]) else s
    case Return(t) => s.(threads := s.threads[t := Ready])
  }

  ghost function Seen(s: State, a: Action): seq<Sight>
  {
    match a
    case Create(h) => [Created(h)]
    case Invoke(t, op) => [Invoked(t, op)]
    case Commit(t, _, failed) => if failed then [SelectFailed(t)] else []
    case Return(t) =>
      var phase := PhaseOf(s, t);
      if phase.Done? then [Returned(t, phase.op, phase.answer)] else []
  }

  ghost predicate Legal(s: State, actions: seq<Action>)
    decreases |actions|
  {
    actions == [] || (Enabled(s, actions[0]) && Legal(After(s, actions[0]), actions[1..]))
  }

  ghost function Exec(s: State, actions: seq<Action>): State
    decreases |actions|
  {
    if actions == [] then s else Exec(After(s, actions[0]), actions[1..])
  }

  ghost function History(s: State, actions: seq<Action>): seq<Sight>
    decreases |actions|
  {
    if actions == [] then [] else Seen(s, actions[0]) + History(After(s, actions[0]), actions[1..])
  }

  const Start := State(map[], map[])
}

/**
  The event code as it runs: every lock, flag access, eventfd read or write, select
  and unlock is one step, and steps of different threads interleave freely.
  The flag `signaled` and the eventfd counter are separate variables.
  */
module EventProtocol {
  import opened Winsock
  import opened EventSpec

  /** The largest value an eventfd counter can hold; a write that would exceed it fails. */
  const EVENTFD_MAX: nat := 0xFFFF_FFFF_FFFF_FFFE

  datatype Event = Event(counter: nat, signaled: bool, holder: Option<Thread>)

  /** Where a thread stands: the access it is about to make. */
  datatype PC =
    | Idle
    | SetEntry(h: Handle) | SetCheck(h: Handle) | SetWrite(h: Handle)
    | SetFlag(h: Handle) | SetUnlock(h: Handle) | SetError(h: Handle)
    | ResetEntry(h: Handle) | ResetCheck(h: Handle) | ResetDrain(h: Handle)
    | ResetFlag(h: Handle) | ResetUnlock(h: Handle)
    | WaitSelect(handles: seq<Handle>, infinite: bool, waitAll: bool)
    | Finished(op: Op, answer: Answer)

  datatype World = World(events: map<Handle, Event>, threads: map<Thread, PC>)

  datatype Move =
    | CreateEvent(h: Handle)
    | Call(t: Thread, op: Op)
    | Step(t: Thread, selectFails: bool)
    | Leave(t: Thread)

  function PcOf(w: World, t: Thread): PC {
    if t in w.threads then w.threads[t] else Idle
  }

  function EventAt(w: World, h: Handle): Event {
    if h in w.events then w.events[h] else Event(0, false, None)
  }

  function EntryOf(op: Op): PC {
    match op
    case SetOp(h) => SetEntry(h)
    case ResetOp(h) => ResetEntry(h)
    case WaitOp(hs, infinite, waitAll) => WaitSelect(hs, infinite, waitAll)
  }

  /** The handle a thread works on once its call is past the NULL test. */
  function Target(pc: PC): Option<Handle> {
    match pc
    case SetEntry(h) => if h == NULL_HANDLE then None else Some(h)
    case SetCheck(h) => Some(h)
    case SetWrite(h) => Some(h)
    case SetFlag(h) => Some(h)
    case SetUnlock(h) => Some(h)
    case SetError(h) => Some(h)
    case ResetEntry(h) => if h == NULL_HANDLE then None else Some(h)
    case ResetCheck(h) => Some(h)
    case ResetDrain(h) => Some(h)
    case ResetFlag(h) => Some(h)
    case ResetUnlock(h) => Some(h)
    case _ => None
  }

  predicate BeforeLock(pc: PC) { pc.SetEntry? || pc.ResetEntry? }

  /** The least index whose flag is true, or the length when there is none. */
  function LeastTrue(flags: seq<bool>): (i: nat)
    ensures i <= |flags|
    ensures i < |flags| ==> flags[i]
    ensures forall j: nat | j < i :: !flags[j]
  {
    if flags == [] || flags[0] then 0 else 1 + LeastTrue(flags[1..])
  }

  /** The readiness of each event, as select sees the counters at one instant. */
  function Snapshot(w: World, handles: seq<Handle>): seq<bool> {
    seq(|handles|, i requires 0 <= i < |handles| => EventAt(w, handles[i]).counter > 0)
  }

  predicate WaitArgumentsRejected(handles: seq<Handle>) {
    |handles| == 0 || |handles| > WSA_MAXIMUM_WAIT_EVENTS || NULL_HANDLE in handles
  }

  function WaitAnswer(w: World, handles: seq<Handle>, selectFails: bool): Answer {
    if |handles| == 0 || |handles| > WSA_MAXIMUM_WAIT_EVENTS then Answer(WSA_WAIT_FAILED, WSA_INVALID_PARAMETER)
    else if NULL_HANDLE in handles then Answer(WSA_WAIT_FAILED, WSA_INVALID_HANDLE)
    else if selectFails then Answer(WSA_WAIT_FAILED, WSAENETDOWN)
    else
      var i := LeastTrue(Snapshot(w, handles));
      if i < |handles| then Answer(WSA_WAIT_EVENT_0 + i, 0) else Answer(WSA_WAIT_TIMEOUT, 0)
  }

  predicate Enabled(w: World, m: Move) {
    match m
    case CreateEvent(h) => h != NULL_HANDLE && h !in w.events
    case Call(t, op) => PcOf(w, t) == Idle && HandlesKnown(w.events.Keys, op)
    case Leave(t) => PcOf(w, t).Finished?
    case Step(t, selectFails) =>
      var pc := PcOf(w, t);
      && !pc.Idle?
      && !pc.Finished?
      && (Target(pc).Some? ==> Target(pc).value in w.events)
      && (BeforeLock(pc) && Target(pc).Some? ==> w.events[Target(pc).value].holder == None)
      // select blocks while nothing is ready and no timeout was given
      && (pc.WaitSelect? && pc.infinite && !WaitArgumentsRejected(pc.handles) && !selectFails ==>
            LeastTrue(Snapshot(w, pc.handles)) < |pc.handles|)
  }

  function Put(w: World, t: Thread, pc: PC, h: Handle, e: Event): World {
    World(w.events[h := e], w.threads[t := pc])
  }

  function Goto(w: World, t: Thread, pc: PC): World {
    w.(threads := w.threads[t := pc])
  }

  /** One access of thread t to the shared state. */
  function Advance(w: World, t: Thread, selectFails: bool): World
  {
    match PcOf(w, t)
    case SetEntry(h) =>
      if h == NULL_HANDLE then Goto(w, t, Finished(SetOp(h), Answer(FALSE, WSA_INVALID_HANDLE)))
      else Put(w, t, SetCheck(h), h, EventAt(w, h).(holder := Some(t)))
    case SetCheck(h) => Goto(w, t, if EventAt(w, h).signaled then SetUnlock(h) else SetWrite(h))
    case SetWrite(h) =>
      if EventAt(w, h).counter + 1 > EVENTFD_MAX then Goto(w, t, SetError(h))
      else Put(w, t, SetFlag(h), h, EventAt(w, h).(counter := EventAt(w, h).counter + 1))
    case SetFlag(h) => Put(w, t, SetUnlock(h), h, EventAt(w, h).(signaled := true))
    case SetUnlock(h) => Put(w, t, Finished(SetOp(h), Answer(TRUE, 0)), h, EventAt(w, h).(holder := None))
    case SetError(h) => Put(w, t, Finished(SetOp(h), Answer(FALSE, WSAENETDOWN)), h, EventAt(w, h).(holder := None))
    case ResetEntry(h) =>
      if h == NULL_HANDLE then Goto(w, t, Finished(ResetOp(h), Answer(FALSE, WSA_INVALID_HANDLE)))
      else Put(w, t, ResetCheck(h), h, EventAt(w, h).(holder := Some(t)))
    case ResetCheck(h) => Goto(w, t, if EventAt(w, h).signaled then ResetDrain(h) else ResetUnlock(h))
    case ResetDrain(h) =>
      // one turn of the drain loop: a read takes the whole counter, or finds it empty
      if EventAt(w, h).counter > 0 then Put(w, t, ResetDrain(h), h, EventAt(w, h).(counter := 0))
      else Goto(w, t, ResetFlag(h))
    case ResetFlag(h) => Put(w, t, ResetUnlock(h), h, EventAt(w, h).(signaled := false))
    case ResetUnlock(h) => Put(w, t, Finished(ResetOp(h), Answer(TRUE, 0)), h, EventAt(w, h).(holder := None))
    case WaitSelect(hs, infinite, waitAll) =>
      // waitAll is carried along and never looked at
      Goto(w, t, Finished(WaitOp(hs, infinite, waitAll), WaitAnswer(w, hs, selectFails)))
    case _ => w
  }

  function After(w: World, m: Move): World
  {
    match m
    case CreateEvent(h) => w.(events := w.events[h := Event(0, false, None)])
    case Call(t, op) => Goto(w, t, EntryOf(op))
    case Step(t, selectFails) => Advance(w, t, selectFails)
    case Leave(t) => Goto(w, t, Idle)
  }

  function Seen(w: World, m: Move): seq<Sight>
  {
    match m
    case CreateEvent(h) => [Created(h)]
    case Call(t, op) => [Invoked(t, op)]
    case Step(t, selectFails) =>
      if PcOf(w, t).WaitSelect? && selectFails && !WaitArgumentsRejected(PcOf(w, t).handles) then [SelectFailed(t)] else []
    case Leave(t) =>
      var pc := PcOf(w, t);
      if pc.Finished? then [Returned(t, pc.op, pc.answer)] else []
  }

  predicate Legal(w: World, moves: seq<Move>)
    decreases |moves|
  {
    moves == [] || (Enabled(w, moves[0]) && Legal(After(w, moves[0]), moves[1..]))
  }

  function Exec(w: World, moves: seq<Move>): World
    decreases |moves|
  {
    if moves == [] then w else Exec(After(w, moves[0]), moves[1..])
  }

  function History(w: World, moves: seq<Move>): seq<Sight>
    decreases |moves|
  {
    if moves == [] then [] else Seen(w, moves[0]) + History(After(w, moves[0]), moves[1..])
  }

  const Start := World(map[], map[])

  // ---------------------------------------------------------------- invariant

  /** What the mutex holder knows about the two copies at each point. */
  predicate Local(pc: PC, e: Event) {
    match pc
    case SetCheck(_) => e.counter == (if e.signaled then 1 else 0)
    case SetWrite(_) => e.counter == 0 && !e.signaled
    case SetFlag(_) => e.counter == 1 && !e.signaled
    case SetUnlock(_) => e.counter == 1 && e.signaled
    case SetError(_) => false
    case ResetCheck(_) => e.counter == (if e.signaled then 1 else 0)
    case ResetDrain(_) => e.counter <= 1 && e.signaled
    case ResetFlag(_) => e.counter == 0 && e.signaled
    case ResetUnlock(_) => e.counter == 0 && !e.signaled
    case _ => true
  }

  predicate ThreadOk(w: World, t: Thread)
    requires t in w.threads
  {
    var pc := w.threads[t];
    match pc
    case WaitSelect(hs, _, _) => forall h | h in hs :: h == NULL_HANDLE || h in w.events
    case _ =>
      match Target(pc)
      case None => true
      case Some(h) => h in w.events && (!BeforeLock(pc) ==> w.events[h].holder == Some(t) && Local(pc, w.events[h]))
  }

  predicate EventOk(w: World, h: Handle)
    requires h in w.events
  {
    var e := w.events[h];
    match e.holder
    case None => e.counter == (if e.signaled then 1 else 0)
    case Some(t) => t in w.threads && !BeforeLock(w.threads[t]) && Target(w.threads[t]) == Some(h)
  }

  ghost predicate Inv(w: World) {
    && NULL_HANDLE !in w.events
    && (forall t | t in w.threads :: ThreadOk(w, t))
    && (forall h | h in w.events :: EventOk(w, h))
  }

  /** The event a thread holds the mutex of, as far as its position tells. */
  function Holding(pc: PC): Option<Handle> {
    if BeforeLock(pc) then None else Target(pc)
  }

  /** A thread moving on without touching an event keeps the invariant. */
  lemma GotoKeepsInv(w: World, t: Thread, pc: PC)
    requires Inv(w)
    requires Holding(pc) == Holding(PcOf(w, t))
    requires Holding(pc).Some? ==> Local(pc, w.events[Holding(pc).value])
    requires Holding(pc) == None ==> ThreadOk(Goto(w, t, pc), t)
    ensures Inv(Goto(w, t, pc))
  {
    var w' := Goto(w, t, pc);
    forall u | u in w'.threads
      ensures ThreadOk(w', u)
    {
      if u in w.threads { assert ThreadOk(w, u); }
    }
    forall h | h in w'.events
      ensures EventOk(w', h)
    {
      assert EventOk(w, h);
    }
  }

  /** A thread changing an event that is free or its own keeps the invariant. */
  lemma PutKeepsInv(w: World, t: Thread, pc: PC, h: Handle, e: Event)
    requires Inv(w) && h in w.events
    requires w.events[h].holder == None || w.events[h].holder == Some(t)
    requires Holding(PcOf(w, t)).Some? ==> Holding(PcOf(w, t)).value == h
    requires e.holder == None ==> Holding(pc) == None && e.counter == (if e.signaled then 1 else 0) && pc.Finished?
    requires e.holder.Some? ==> e.holder.value == t && Holding(pc) == Some(h) && Local(pc, e)
    ensures Inv(Put(w, t, pc, h, e))
  {
    var w' := Put(w, t, pc, h, e);
    assert EventOk(w, h);
    forall u | u in w'.threads
      ensures ThreadOk(w', u)
    {
      if u in w.threads { assert ThreadOk(w, u); }
    }
    forall g | g in w'.events
      ensures EventOk(w', g)
    {
      if g in w.events { assert EventOk(w, g); }
    }
  }

  lemma CreateKeepsInv(w: World, h: Handle)
    requires Inv(w) && Enabled(w, CreateEvent(h))
    ensures Inv(After(w, CreateEvent(h)))
  {
    var w' := After(w, CreateEvent(h));
    forall u | u in w'.threads
      ensures ThreadOk(w', u)
    {
      assert ThreadOk(w, u);
    }
    forall g | g in w'.events
      ensures EventOk(w', g)
    {
      if g in w.events { assert EventOk(w, g); }
    }
  }

  /** Steps inside a critical section keep the invariant. */
  lemma HeldStepKeepsInv(w: World, t: Thread, selectFails: bool, h: Handle)
    requires Inv(w) && Enabled(w, Step(t, selectFails)) && Holding(PcOf(w, t)) == Some(h)
    ensures Inv(Advance(w, t, selectFails))
  {
    assert ThreadOk(w, t);
    var w' := Advance(w, t, selectFails);
    if w' == Goto(w, t, w'.threads[t]) {
      GotoKeepsInv(w, t, w'.threads[t]);
    } else {
      PutKeepsInv(w, t, w'.threads[t], h, w'.events[h]);
    }
  }

  /** Steps outside a critical section keep the invariant. */
  lemma FreeStepKeepsInv(w: World, t: Thread, selectFails: bool)
    requires Inv(w) && Enabled(w, Step(t, selectFails)) && Holding(PcOf(w, t)) == None
    ensures Inv(Advance(w, t, selectFails))
  {
    var w' := Advance(w, t, selectFails);
    match Target(PcOf(w, t))
    case None => GotoKeepsInv(w, t, w'.threads[t]);
    case Some(h) =>
      assert EventOk(w, h);
      PutKeepsInv(w, t, w'.threads[t], h, w'.events[h]);
  }

  lemma StepKeepsInv(w: World, m: Move)
    requires Inv(w) && Enabled(w, m)
    ensures Inv(After(w, m))
  {
    match m
    case CreateEvent(h) => CreateKeepsInv(w, h);
    case Call(t, op) => GotoKeepsInv(w, t, EntryOf(op));
    case Leave(t) => GotoKeepsInv(w, t, Idle);
    case Step(t, selectFails) =>
      match Holding(PcOf(w, t)) {
        case None => FreeStepKeepsInv(w, t, selectFails);
        case Some(h) => HeldStepKeepsInv(w, t, selectFails, h);
      }
  }

  // --------------------------------------------------------------- refinement

  function Bits(w: World): map<Handle, bool> {
    map h | h in w.events :: w.events[h].counter > 0
  }

  /** The phase of the atomic call that a thread's position stands for. */
  function PhaseOfPc(w: World, pc: PC): Phase {
    match pc
    case Idle => Ready
    case SetEntry(h) => Pending(SetOp(h))
    case SetCheck(h) => Pending(SetOp(h))
    case SetWrite(h) => Pending(SetOp(h))
    case SetFlag(h) => Done(SetOp(h), Answer(TRUE, 0))
    case SetUnlock(h) => Done(SetOp(h), Answer(TRUE, 0))
    case SetError(h) => Done(SetOp(h), Answer(FALSE, WSAENETDOWN))
    case ResetEntry(h) => Pending(ResetOp(h))
    case ResetCheck(h) => Pending(ResetOp(h))
    case ResetDrain(h) =>
      // the first successful read is the instant of the reset
      if EventAt(w, h).counter > 0 then Pending(ResetOp(h)) else Done(ResetOp(h), Answer(TRUE, 0))
    case ResetFlag(h) => Done(ResetOp(h), Answer(TRUE, 0))
    case ResetUnlock(h) => Done(ResetOp(h), Answer(TRUE, 0))
    case WaitSelect(hs, infinite, waitAll) => Pending(WaitOp(hs, infinite, waitAll))
    case Finished(op, answer) => Done(op, answer)
  }

  function Abs(w: World): State {
    State(Bits(w), map t | t in w.threads :: PhaseOfPc(w, w.threads[t]))
  }

  /** The atomic action, if any, that a move performs. */
  function Meaning(w: World, m: Move): seq<Action>
  {
    match m
    case CreateEvent(h) => [Create(h)]
    case Call(t, op) => [Invoke(t, op)]
    case Leave(t) => [Return(t)]
    case Step(t, selectFails) =>
      match PcOf(w, t)
      case SetEntry(h) => if h == NULL_HANDLE then [Commit(t, Answer(FALSE, WSA_INVALID_HANDLE), false)] else []
      case SetCheck(h) => if EventAt(w, h).signaled then [Commit(t, Answer(TRUE, 0), false)] else []
      case SetWrite(h) => [Commit(t, Answer(TRUE, 0), false)]
      case ResetEntry(h) => if h == NULL_HANDLE then [Commit(t, Answer(FALSE, WSA_INVALID_HANDLE), false)] else []
      case ResetCheck(h) => if EventAt(w, h).signaled then [] else [Commit(t, Answer(TRUE, 0), false)]
      case ResetDrain(h) => if EventAt(w, h).counter > 0 then [Commit(t, Answer(TRUE, 0), false)] else []
      case WaitSelect(hs, _, _) => [Commit(t, WaitAnswer(w, hs, selectFails), selectFails && !WaitArgumentsRejected(hs))]
      case _ => []
  }

  /** A wait commits an answer that the atomic events allow at the instant of its select. */
  lemma WaitObservesBits(w: World, t: Thread, selectFails: bool)
    requires Inv(w) && Enabled(w, Step(t, selectFails)) && PcOf(w, t).WaitSelect?
    ensures var pc := PcOf(w, t);
      MayAnswer(Bits(w), WaitOp(pc.handles, pc.infinite, pc.waitAll), selectFails && !WaitArgumentsRejected(pc.handles),
                WaitAnswer(w, pc.handles, selectFails))
  {
    var hs := PcOf(w, t).handles;
    assert ThreadOk(w, t);
    var ready, view := Snapshot(w, hs), ViewOf(Bits(w), hs);
    assert forall j | 0 <= j < |hs| :: hs[j] in hs && (hs[j] != NULL_HANDLE ==> view[j] == Some(ready[j]));
    assert NULL_HANDLE in hs <==> None in view by {
      if NULL_HANDLE in hs {
        var j :| 0 <= j < |hs| && hs[j] == NULL_HANDLE;
        assert view[j] == None;
      }
    }
    if !WaitArgumentsRejected(hs) && LeastTrue(ready) < |hs| {
      assert FirstSet(view, LeastTrue(ready));
    }
  }

  /**
    What a wait with good arguments finishes with: the failure exactly when select failed, and
    otherwise the timeout exactly when no event it names is set, or the index of the first set one.
    */
  lemma WaitAnswersExactly(w: World, t: Thread, selectFails: bool, i: nat)
    requires Inv(w) && Enabled(w, Step(t, selectFails)) && PcOf(w, t).WaitSelect? && !WaitArgumentsRejected(PcOf(w, t).handles)
    ensures var pc := PcOf(w, t); var pc' := PcOf(After(w, Step(t, selectFails)), t); var view := ViewOf(Bits(w), pc.handles);
      && pc'.Finished? && pc'.op == WaitOp(pc.handles, pc.infinite, pc.waitAll)
      && (pc'.answer == Answer(WSA_WAIT_FAILED, WSAENETDOWN) <==> selectFails)
      && (pc'.answer == Answer(WSA_WAIT_TIMEOUT, 0) <==> !selectFails && NoneSet(view))
      && (i < |pc.handles| ==> (pc'.answer == Answer(WSA_WAIT_EVENT_0 + i, 0) <==> !selectFails && FirstSet(view, i)))
  {
    WaitObservesBits(w, t, selectFails);
    assert ThreadOk(w, t);
    ViewIsKnown(Bits(w), PcOf(w, t).handles);
  }

  lemma GotoAbs(w: World, t: Thread, pc: PC)
    ensures Abs(Goto(w, t, pc)) == State(Bits(w), Abs(w).threads[t := PhaseOfPc(w, pc)])
  {
    var w' := Goto(w, t, pc);
    assert Abs(w').threads == Abs(w).threads[t := PhaseOfPc(w, pc)];
  }

  /** Only the mutex holder touches an event, so every other thread keeps its phase. */
  lemma OtherPhaseKept(w: World, t: Thread, pc: PC, h: Handle, e: Event, u: Thread)
    requires u in w.threads && u != t && ThreadOk(w, u)
    requires h in w.events && (w.events[h].holder == None || w.events[h].holder == Some(t))
    ensures PhaseOfPc(Put(w, t, pc, h, e), w.threads[u]) == PhaseOfPc(w, w.threads[u])
  {
    hide Local;
  }

  lemma PutAbs(w: World, t: Thread, pc: PC, h: Handle, e: Event)
    requires Inv(w) && h in w.events
    requires w.events[h].holder == None || w.events[h].holder == Some(t)
    ensures Abs(Put(w, t, pc, h, e))
         == State(Bits(w)[h := e.counter > 0], Abs(w).threads[t := PhaseOfPc(Put(w, t, pc, h, e), pc)])
  {
    hide PhaseOfPc, ThreadOk, EventOk;
    var w' := Put(w, t, pc, h, e);
    forall u | u in w.threads && u != t
      ensures PhaseOfPc(w', w.threads[u]) == PhaseOfPc(w, w.threads[u])
    {
      OtherPhaseKept(w, t, pc, h, e, u);
    }
    assert Abs(w').threads == Abs(w).threads[t := PhaseOfPc(w', pc)];
    assert Bits(w') == Bits(w)[h := e.counter > 0];
  }

  lemma CreateRefines(w: World, h: Handle)
    requires Inv(w) && Enabled(w, CreateEvent(h))
    ensures EventSpec.Enabled(Abs(w), Create(h))
    ensures EventSpec.After(Abs(w), Create(h)) == Abs(After(w, CreateEvent(h)))
  {
    var w' := After(w, CreateEvent(h));
    forall u | u in w.threads
      ensures PhaseOfPc(w', w.threads[u]) == PhaseOfPc(w, w.threads[u])
    {
      assert ThreadOk(w, u);
    }
    assert Abs(w').threads == Abs(w).threads;
    assert Abs(w').bits == Abs(w).bits[h := false];
  }

  /** A call or return is the same call or return of the atomic events. */
  lemma VisibleRefines(w: World, m: Move)
    requires Inv(w) && Enabled(w, m) && (m.Call? || m.Leave?)
    ensures EventSpec.Enabled(Abs(w), Meaning(w, m)[0])
    ensures EventSpec.After(Abs(w), Meaning(w, m)[0]) == Abs(After(w, m))
    ensures EventSpec.Seen(Abs(w), Meaning(w, m)[0]) == Seen(w, m)
  {
    match m {
      case Call(t, op) => GotoAbs(w, t, EntryOf(op));
      case Leave(t) => GotoAbs(w, t, Idle);
    }
    assert Bits(w).Keys == w.events.Keys;
  }

  /** A commit in the atomic events, given the event bit and phase it leaves. */
  lemma CommitIs(s: State, t: Thread, op: Op, failed: bool, answer: Answer)
    requires PhaseOf(s, t) == Pending(op) && MayAnswer(s.bits, op, failed, answer)
    ensures EventSpec.Enabled(s, Commit(t, answer, failed))
    ensures EventSpec.After(s, Commit(t, answer, failed)) == State(Effect(s.bits, op), s.threads[t := Done(op, answer)])
  {
  }

  /** A step that commits without changing any event. */
  lemma CommitGoto(w: World, t: Thread, pc: PC, op: Op, answer: Answer)
    requires PhaseOfPc(w, PcOf(w, t)) == Pending(op) && PhaseOfPc(w, pc) == Done(op, answer)
    requires MayAnswer(Bits(w), op, false, answer) && Effect(Bits(w), op) == Bits(w)
    ensures EventSpec.Enabled(Abs(w), Commit(t, answer, false))
    ensures EventSpec.After(Abs(w), Commit(t, answer, false)) == Abs(Goto(w, t, pc))
  {
    GotoAbs(w, t, pc);
    CommitIs(Abs(w), t, op, false, answer);
  }

  /** A step that commits by changing the counter of the event it holds. */
  lemma CommitPut(w: World, t: Thread, pc: PC, h: Handle, e: Event, op: Op, answer: Answer)
    requires Inv(w) && h in w.events && w.events[h].holder == Some(t)
    requires PhaseOfPc(w, PcOf(w, t)) == Pending(op) && PhaseOfPc(Put(w, t, pc, h, e), pc) == Done(op, answer)
    requires MayAnswer(Bits(w), op, false, answer) && Effect(Bits(w), op) == Bits(w)[h := e.counter > 0]
    ensures EventSpec.Enabled(Abs(w), Commit(t, answer, false))
    ensures EventSpec.After(Abs(w), Commit(t, answer, false)) == Abs(Put(w, t, pc, h, e))
  {
    PutAbs(w, t, pc, h, e);
    CommitIs(Abs(w), t, op, false, answer);
  }

  /** A step on a held event that leaves the counter and the thread's phase alone. */
  lemma SilentPut(w: World, t: Thread, pc: PC, h: Handle, e: Event)
    requires Inv(w) && h in w.events && w.events[h].holder == Some(t) && t in w.threads
    requires e.counter == w.events[h].counter
    requires PhaseOfPc(Put(w, t, pc, h, e), pc) == PhaseOfPc(w, PcOf(w, t))
    ensures Abs(Put(w, t, pc, h, e)) == Abs(w)
  {
    PutAbs(w, t, pc, h, e);
    assert Bits(w)[h := e.counter > 0] == Bits(w);
  }

  /** A NULL handle is answered at once. */
  lemma NullRefines(w: World, t: Thread, selectFails: bool)
    requires Inv(w) && Enabled(w, Step(t, selectFails)) && BeforeLock(PcOf(w, t)) && PcOf(w, t).h == NULL_HANDLE
    ensures Simulated(w, Step(t, selectFails))
  {
    hide LeastTrue, WaitMayAnswer;
    var op := if PcOf(w, t).SetEntry? then SetOp(NULL_HANDLE) else ResetOp(NULL_HANDLE);
    CommitGoto(w, t, Finished(op, Answer(FALSE, WSA_INVALID_HANDLE)), op, Answer(FALSE, WSA_INVALID_HANDLE));
  }

  /** Taking the mutex is invisible. */
  lemma LockRefines(w: World, t: Thread, selectFails: bool)
    requires Inv(w) && Enabled(w, Step(t, selectFails)) && BeforeLock(PcOf(w, t)) && PcOf(w, t).h != NULL_HANDLE
    ensures Simulated(w, Step(t, selectFails))
  {
    hide LeastTrue, WaitMayAnswer;
    var h, pc := PcOf(w, t).h, PcOf(w, t);
    PutAbs(w, t, if pc.SetEntry? then SetCheck(h) else ResetCheck(h), h, w.events[h].(holder := Some(t)));
    assert Bits(w)[h := w.events[h].counter > 0] == Bits(w);
  }

  lemma WaitRefines(w: World, t: Thread, selectFails: bool)
    requires Inv(w) && Enabled(w, Step(t, selectFails)) && PcOf(w, t).WaitSelect?
    ensures Simulated(w, Step(t, selectFails))
  {
    var pc := PcOf(w, t);
    var op, answer := WaitOp(pc.handles, pc.infinite, pc.waitAll), WaitAnswer(w, pc.handles, selectFails);
    WaitObservesBits(w, t, selectFails);
    GotoAbs(w, t, Finished(op, answer));
    CommitIs(Abs(w), t, op, selectFails && !WaitArgumentsRejected(pc.handles), answer);
  }

  /** What the invariant says to a thread inside the critical section of h. */
  lemma HeldFacts(w: World, t: Thread, h: Handle)
    requires Inv(w) && Holding(PcOf(w, t)) == Some(h)
    ensures t in w.threads && h in w.events && h != NULL_HANDLE
    ensures w.events[h].holder == Some(t) && Local(w.threads[t], w.events[h])
  {
    assert ThreadOk(w, t);
  }

  /** WSASetEvent looking at the flag: setting a set event takes effect here. */
  lemma SetCheckRefines(w: World, t: Thread, selectFails: bool, h: Handle)
    requires Inv(w) && Enabled(w, Step(t, selectFails)) && PcOf(w, t) == SetCheck(h)
    ensures Simulated(w, Step(t, selectFails))
  {
    hide Inv, ThreadOk, EventOk, LeastTrue, Snapshot, WaitAnswer, WaitMayAnswer, PhaseOf;
    HeldFacts(w, t, h);
    if w.events[h].signaled {
      assert Bits(w)[h := true] == Bits(w);
      CommitGoto(w, t, SetUnlock(h), SetOp(h), Answer(TRUE, 0));
    } else {
      GotoAbs(w, t, SetWrite(h));
    }
  }

  /** WSASetEvent writing the counter: here it takes effect. */
  lemma SetWriteRefines(w: World, t: Thread, selectFails: bool, h: Handle)
    requires Inv(w) && Enabled(w, Step(t, selectFails)) && PcOf(w, t) == SetWrite(h)
    ensures Simulated(w, Step(t, selectFails))
  {
    hide Inv, ThreadOk, EventOk, LeastTrue, Snapshot, WaitAnswer, WaitMayAnswer, PhaseOf, Abs, Bits, EventSpec.Enabled, EventSpec.After;
    HeldFacts(w, t, h);
    CommitPut(w, t, SetFlag(h), h, w.events[h].(counter := w.events[h].counter + 1), SetOp(h), Answer(TRUE, 0));
  }

  /** WSASetEvent storing the flag and unlocking. */
  lemma SetEndRefines(w: World, t: Thread, selectFails: bool, h: Handle)
    requires Inv(w) && Enabled(w, Step(t, selectFails)) && (PcOf(w, t) == SetFlag(h) || PcOf(w, t) == SetUnlock(h))
    ensures Simulated(w, Step(t, selectFails))
  {
    hide Inv, ThreadOk, EventOk, LeastTrue, Snapshot, WaitAnswer, WaitMayAnswer, PhaseOf;
    HeldFacts(w, t, h);
    var e := w.events[h];
    if PcOf(w, t) == SetFlag(h) {
      SilentPut(w, t, SetUnlock(h), h, e.(signaled := true));
    } else {
      SilentPut(w, t, Finished(SetOp(h), Answer(TRUE, 0)), h, e.(holder := None));
    }
  }

  /** Steps of WSAResetEvent under the mutex of event h. */
  lemma ResetRefines(w: World, t: Thread, selectFails: bool, h: Handle)
    requires Inv(w) && Enabled(w, Step(t, selectFails)) && Holding(PcOf(w, t)) == Some(h)
    requires PcOf(w, t).ResetCheck? || PcOf(w, t).ResetDrain? || PcOf(w, t).ResetFlag? || PcOf(w, t).ResetUnlock?
    ensures Simulated(w, Step(t, selectFails))
  {
    hide Inv, ThreadOk, EventOk, LeastTrue, Snapshot, WaitAnswer, WaitMayAnswer, PhaseOf;
    HeldFacts(w, t, h);
    var e, pc := w.events[h], PcOf(w, t);
    if pc.ResetCheck? {
      if e.signaled { GotoAbs(w, t, ResetDrain(h)); } else { CommitGoto(w, t, ResetUnlock(h), ResetOp(h), Answer(TRUE, 0)); }
    } else if pc.ResetDrain? {
      if e.counter > 0 {
        CommitPut(w, t, ResetDrain(h), h, e.(counter := 0), ResetOp(h), Answer(TRUE, 0));
      } else {
        GotoAbs(w, t, ResetFlag(h));
      }
    } else if pc.ResetFlag? {
      SilentPut(w, t, ResetUnlock(h), h, e.(signaled := false));
    } else {
      SilentPut(w, t, Finished(ResetOp(h), Answer(TRUE, 0)), h, e.(holder := None));
    }
  }

  /** A step either takes effect at this instant, as one commit, or is invisible. */
  ghost predicate Simulated(w: World, m: Move)
  {
    var acts := Meaning(w, m);
    if acts == [] then Abs(After(w, m)) == Abs(w) && Seen(w, m) == []
    else |acts| == 1 && acts[0].Commit? && EventSpec.Enabled(Abs(w), acts[0])
         && EventSpec.After(Abs(w), acts[0]) == Abs(After(w, m))
         && EventSpec.Seen(Abs(w), acts[0]) == Seen(w, m)
  }

  lemma StepRefines(w: World, m: Move)
    requires Inv(w) && Enabled(w, m)
    ensures EventSpec.Legal(Abs(w), Meaning(w, m))
    ensures EventSpec.Exec(Abs(w), Meaning(w, m)) == Abs(After(w, m))
    ensures EventSpec.History(Abs(w), Meaning(w, m)) == Seen(w, m)
  {
    match m
    case CreateEvent(h) => CreateRefines(w, h);
    case Step(t, selectFails) =>
      var pc := PcOf(w, t);
      assert ThreadOk(w, t);
      if pc.WaitSelect? { WaitRefines(w, t, selectFails); }
      else if BeforeLock(pc) && pc.h == NULL_HANDLE { NullRefines(w, t, selectFails); }
      else if BeforeLock(pc) { LockRefines(w, t, selectFails); }
      else if pc.ResetCheck? || pc.ResetDrain? || pc.ResetFlag? || pc.ResetUnlock? { ResetRefines(w, t, selectFails, pc.h); }
      else if pc.SetCheck? { SetCheckRefines(w, t, selectFails, pc.h); }
      else if pc.SetWrite? { SetWriteRefines(w, t, selectFails, pc.h); }
      else { SetEndRefines(w, t, selectFails, pc.h); }
    case _ => VisibleRefines(w, m);
  }

  function Meanings(w: World, moves: seq<Move>): seq<Action>
    decreases |moves|
  {
    if moves == [] then [] else Meaning(w, moves[0]) + Meanings(After(w, moves[0]), moves[1..])
  }

  /** Running two action sequences one after the other. */
  lemma {:induction false} ExecConcat(s: State, xs: seq<Action>, ys: seq<Action>)
    requires EventSpec.Legal(s, xs) && EventSpec.Legal(EventSpec.Exec(s, xs), ys)
    ensures EventSpec.Legal(s, xs + ys)
    ensures EventSpec.Exec(s, xs + ys) == EventSpec.Exec(EventSpec.Exec(s, xs), ys)
    ensures EventSpec.History(s, xs + ys) == EventSpec.History(s, xs) + EventSpec.History(EventSpec.Exec(s, xs), ys)
    decreases |xs|
  {
    hide EventSpec.Enabled, EventSpec.After, EventSpec.Seen;
    if xs == [] {
      assert xs + ys == ys;
    } else {
      assert (xs + ys)[0] == xs[0] && (xs + ys)[1..] == xs[1..] + ys;
      ExecConcat(EventSpec.After(s, xs[0]), xs[1..], ys);
    }
  }

  /**
    Linearizability from any reachable point: the same moves, read as atomic actions,
    are a legal run of the atomic events with the same observable history and end state.
    */
  lemma {:induction false} RunRefines(w: World, moves: seq<Move>)
    requires Inv(w) && Legal(w, moves)
    ensures Inv(Exec(w, moves))
    ensures EventSpec.Legal(Abs(w), Meanings(w, moves))
    ensures EventSpec.Exec(Abs(w), Meanings(w, moves)) == Abs(Exec(w, moves))
    ensures EventSpec.History(Abs(w), Meanings(w, moves)) == History(w, moves)
    decreases |moves|
  {
    if moves != [] {
      StepKeepsInv(w, moves[0]);
      StepRefines(w, moves[0]);
      var w' := After(w, moves[0]);
      RunRefines(w', moves[1..]);
      ExecConcat(Abs(w), Meaning(w, moves[0]), Meanings(w', moves[1..]));
    }
  }

  /**
    Main result for events: every interleaving of set, reset, wait and create is
    indistinguishable from calls on one atomic Boolean per handle.
    */
  lemma EventsAreAtomic(moves: seq<Move>)
    requires Legal(Start, moves)
    ensures exists actions ::
      && EventSpec.Legal(EventSpec.Start, actions)
      && EventSpec.History(EventSpec.Start, actions) == History(Start, moves)
      && EventSpec.Exec(EventSpec.Start, actions) == Abs(Exec(Start, moves))
  {
    RunRefines(Start, moves);
    assert Abs(Start) == EventSpec.Start;
    var actions := Meanings(Start, moves);
    assert EventSpec.Legal(EventSpec.Start, actions);
  }

  /** In every reachable state the two copies agree whenever the mutex is free. */
  lemma CopiesAgree(moves: seq<Move>, h: Handle)
    requires Legal(Start, moves) && h in Exec(Start, moves).events
    ensures var e := Exec(Start, moves).events[h];
      e.counter <= 1 && (e.holder == None ==> (e.counter == 1 <==> e.signaled))
  {
    RunRefines(Start, moves);
    var w := Exec(Start, moves);
    assert EventOk(w, h);
    if w.events[h].holder.Some? { assert ThreadOk(w, w.events[h].holder.value); }
  }

  /** The error branch after the eventfd write is dead: setting a valid event never fails. */
  lemma SetNeverFails(moves: seq<Move>, t: Thread)
    requires Legal(Start, moves)
    ensures !PcOf(Exec(Start, moves), t).SetError?
  {
    hide EventSpec.Legal, EventSpec.Exec, EventSpec.History, Meanings, Legal, Exec, History, EventOk;
    RunRefines(Start, moves);
    var w := Exec(Start, moves);
    if t in w.threads { assert ThreadOk(w, t); }
  }

  // ------------------------------------------------------------- progress

  /** A thread inside a call is held up only by another thread's mutex, or by a select without a timeout. */
  lemma OnlyLocksBlock(w: World, t: Thread, selectFails: bool)
    requires Inv(w) && !PcOf(w, t).Idle? && !PcOf(w, t).Finished?
    ensures var pc := PcOf(w, t);
      Enabled(w, Step(t, selectFails)) <==>
        && !(BeforeLock(pc) && pc.h != NULL_HANDLE && w.events[pc.h].holder.Some?)
        && !(pc.WaitSelect? && pc.infinite && !selectFails
             && WaitArgumentsOk(ViewOf(Bits(w), pc.handles)) && NoneSet(ViewOf(Bits(w), pc.handles)))
  {
    assert ThreadOk(w, t);
    if PcOf(w, t).WaitSelect? && !WaitArgumentsRejected(PcOf(w, t).handles) {
      ViewIsKnown(Bits(w), PcOf(w, t).handles);
      var hs := PcOf(w, t).handles;
      var ready, view := Snapshot(w, hs), ViewOf(Bits(w), hs);
      assert forall j | 0 <= j < |hs| :: hs[j] in hs && view[j] == Some(ready[j]);
      if NoneSet(view) { assert forall j | 0 <= j < |hs| :: view[j] != Some(true); }
      else { assert exists j :: 0 <= j < |hs| && ready[j]; }
    } else if PcOf(w, t).WaitSelect? {
      RejectedView(Bits(w), PcOf(w, t).handles);
    }
  }

  lemma RejectedView(bits: map<Handle, bool>, handles: seq<Handle>)
    requires WaitArgumentsRejected(handles)
    ensures !WaitArgumentsOk(ViewOf(bits, handles))
  {
    if NULL_HANDLE in handles {
      var j :| 0 <= j < |handles| && handles[j] == NULL_HANDLE;
      assert ViewOf(bits, handles)[j] == None;
    }
  }

  /** How many of its own steps a thread in a critical section needs to leave it. */
  function StepsToUnlock(pc: PC, e: Event): nat {
    match pc
    case SetCheck(_) => 4
    case SetWrite(_) => 3
    case SetFlag(_) => 2
    case ResetCheck(_) => 5
    case ResetDrain(_) => if e.counter > 0 then 4 else 3
    case ResetFlag(_) => 2
    case _ => 1
  }

  /** The holder of a mutex can always step, comes nearer to the unlock, and frees it there with its call done. */
  lemma HolderGoesOn(w: World, t: Thread, h: Handle, selectFails: bool)
    requires Inv(w) && Holding(PcOf(w, t)) == Some(h)
    ensures var m := Step(t, selectFails); var w' := After(w, m); var pc' := PcOf(w', t);
      && Enabled(w, m)
      && if StepsToUnlock(PcOf(w, t), w.events[h]) > 1
         then Holding(pc') == Some(h) && StepsToUnlock(pc', w'.events[h]) < StepsToUnlock(PcOf(w, t), w.events[h])
         else w'.events[h].holder == None && pc'.Finished? && pc'.answer == Answer(TRUE, 0)
  {
    hide Inv, WaitAnswer, LeastTrue, Snapshot;
    HeldFacts(w, t, h);
  }

  // ------------------------------------------------------------- fWaitAll

  lemma {:induction false} RunConcat(w: World, xs: seq<Move>, ys: seq<Move>)
    requires Legal(w, xs) && Legal(Exec(w, xs), ys)
    ensures Legal(w, xs + ys) && Exec(w, xs + ys) == Exec(Exec(w, xs), ys)
    decreases |xs|
  {
    if xs == [] {
      assert xs + ys == ys;
    } else {
      assert (xs + ys)[0] == xs[0] && (xs + ys)[1..] == xs[1..] + ys;
      RunConcat(After(w, xs[0]), xs[1..], ys);
    }
  }

  /** Creates every handle of the list once. */
  function Creates(hs: seq<Handle>): seq<Move> {
    if hs == [] then []
    else
      var n := |hs| - 1;
      Creates(hs[..n]) + if hs[n] in hs[..n] then [] else [CreateEvent(hs[n])]
  }

  /** A world that has these events, all clear, and nobody calling. */
  function Fresh(hs: seq<Handle>): World {
    World(map h | h in hs :: Event(0, false, None), map[])
  }

  lemma {:induction false} CreatesAll(hs: seq<Handle>)
    requires NULL_HANDLE !in hs
    ensures Legal(Start, Creates(hs)) && Exec(Start, Creates(hs)) == Fresh(hs)
    decreases |hs|
  {
    if hs == [] {
      assert Fresh(hs) == Start;
    } else {
      var n := |hs| - 1;
      CreatesAll(hs[..n]);
      CreateLast(hs[..n], hs[n]);
      assert hs[..n] + [hs[n]] == hs;
      if hs[n] !in hs[..n] { RunConcat(Start, Creates(hs[..n]), [CreateEvent(hs[n])]); }
      else { assert Creates(hs[..n]) + [] == Creates(hs[..n]); }
    }
  }

  lemma CreateLast(hs: seq<Handle>, h: Handle)
    requires NULL_HANDLE !in hs && h != NULL_HANDLE
    ensures h in hs ==> Fresh(hs + [h]) == Fresh(hs)
    ensures h !in hs ==> Legal(Fresh(hs), [CreateEvent(h)]) && Exec(Fresh(hs), [CreateEvent(h)]) == Fresh(hs + [h])
  {
    if h !in hs {
      assert After(Fresh(hs), CreateEvent(h)).events == Fresh(hs + [h]).events;
      LegalCons(Fresh(hs), CreateEvent(h), []);
    } else {
      assert Fresh(hs + [h]).events == Fresh(hs).events;
    }
  }

  /** A whole WSASetEvent of a clear event, undisturbed. */
  function SetMoves(t: Thread, h: Handle): seq<Move> {
    [Call(t, SetOp(h)), Step(t, false), Step(t, false), Step(t, false), Step(t, false), Step(t, false), Leave(t)]
  }

  lemma LegalCons(w: World, m: Move, rest: seq<Move>)
    requires Enabled(w, m) && Legal(After(w, m), rest)
    ensures Legal(w, [m] + rest) && Exec(w, [m] + rest) == Exec(After(w, m), rest)
  {
    assert ([m] + rest)[1..] == rest;
  }

  /** One step inside the critical section of WSASetEvent on a clear event. */
  predicate SetGoes(pc: PC, e: Event, pc': PC, e': Event, h: Handle) {
    match pc
    case SetCheck(_) => !e.signaled && pc' == SetWrite(h) && e' == e
    case SetWrite(_) => e.counter == 0 && pc' == SetFlag(h) && e' == e.(counter := 1)
    case SetFlag(_) => pc' == SetUnlock(h) && e' == e.(signaled := true)
    case SetUnlock(_) => pc' == Finished(SetOp(h), Answer(TRUE, 0)) && e' == e.(holder := None)
    case _ => false
  }

  lemma SetGoesOn(w: World, t: Thread, h: Handle, pc: PC, e: Event, pc': PC, e': Event, rest: seq<Move>)
    requires h in w.events && Target(pc) == Some(h) && SetGoes(pc, e, pc', e', h)
    requires Legal(Put(w, t, pc', h, e'), rest)
    ensures Legal(Put(w, t, pc, h, e), [Step(t, false)] + rest)
    ensures Exec(Put(w, t, pc, h, e), [Step(t, false)] + rest) == Exec(Put(w, t, pc', h, e'), rest)
  {
    hide Legal, Exec;
    var from, to := Put(w, t, pc, h, e), Put(w, t, pc', h, e');
    assert from.events[h := e'] == to.events && from.threads[t := pc'] == to.threads;
    assert pc.SetCheck? ==> from.events == to.events;
    LegalCons(from, Step(t, false), rest);
  }

  /** The last move of a WSASetEvent that is done. */
  lemma SetReturns(w: World, t: Thread, h: Handle, op: Op, e: Event)
    ensures var done, w' := Put(w, t, Finished(op, Answer(TRUE, 0)), h, e), Put(w, t, Idle, h, e);
      Legal(done, [Leave(t)]) && Exec(done, [Leave(t)]) == w'
  {
    hide Legal, Exec, WaitAnswer;
    var done, w' := Put(w, t, Finished(op, Answer(TRUE, 0)), h, e), Put(w, t, Idle, h, e);
    Nothing(w');
    assert done.threads[t := Idle] == w'.threads;
    assert After(done, Leave(t)) == w';
    assert [Leave(t)] + [] == [Leave(t)];
    LegalCons(done, Leave(t), []);
  }

  /** From the flag check on: four steps, and whatever follows them. */
  lemma SetInside(w: World, t: Thread, h: Handle, rest: seq<Move>)
    requires h in w.events && Legal(Put(w, t, Finished(SetOp(h), Answer(TRUE, 0)), h, Event(1, true, None)), rest)
    ensures var moves := [Step(t, false)] + ([Step(t, false)] + ([Step(t, false)] + ([Step(t, false)] + rest)));
      var locked, done := Put(w, t, SetCheck(h), h, Event(0, false, Some(t))), Put(w, t, Finished(SetOp(h), Answer(TRUE, 0)), h, Event(1, true, None));
      Legal(locked, moves) && Exec(locked, moves) == Exec(done, rest)
  {
    hide Legal, Exec, Enabled, After, Put;
    var e, step := Event(0, false, Some(t)), Step(t, false);
    SetGoesOn(w, t, h, SetUnlock(h), Event(1, true, Some(t)), Finished(SetOp(h), Answer(TRUE, 0)), Event(1, true, None), rest);
    SetGoesOn(w, t, h, SetFlag(h), Event(1, false, Some(t)), SetUnlock(h), Event(1, true, Some(t)), [step] + rest);
    SetGoesOn(w, t, h, SetWrite(h), e, SetFlag(h), Event(1, false, Some(t)), [step] + ([step] + rest));
    SetGoesOn(w, t, h, SetCheck(h), e, SetWrite(h), e, [step] + ([step] + ([step] + rest)));
  }

  /** The steps of a WSASetEvent of a clear event, from its entry to its end. */
  lemma SetSteps(w: World, t: Thread, h: Handle)
    requires h != NULL_HANDLE && h in w.events && w.events[h] == Event(0, false, None) && PcOf(w, t) == SetEntry(h)
    ensures var step := Step(t, false); var moves := [step] + ([step] + ([step] + ([step] + ([step] + []))));
      Legal(w, moves) && Exec(w, moves) == Put(w, t, Finished(SetOp(h), Answer(TRUE, 0)), h, Event(1, true, None))
  {
    hide Legal, Exec, WaitAnswer;
    var done := Put(w, t, Finished(SetOp(h), Answer(TRUE, 0)), h, Event(1, true, None));
    Nothing(done);
    SetInside(w, t, h, []);
    LegalCons(w, Step(t, false), [Step(t, false)] + ([Step(t, false)] + ([Step(t, false)] + ([Step(t, false)] + []))));
  }

  /** It ends with the event set and the thread back where it was. */
  lemma SetRun(w: World, t: Thread, h: Handle)
    requires h != NULL_HANDLE && h in w.events && w.events[h] == Event(0, false, None) && PcOf(w, t) == Idle
    ensures Legal(w, SetMoves(t, h))
    ensures Exec(w, SetMoves(t, h)) == World(w.events[h := Event(1, true, None)], w.threads[t := Idle])
  {
    hide Legal, Exec, WaitAnswer;
    var e, step, w1 := Event(0, false, Some(t)), Step(t, false), Goto(w, t, SetEntry(h));
    SetReturns(w, t, h, SetOp(h), Event(1, true, None));
    SetInside(w, t, h, [Leave(t)]);
    var inside := [step] + ([step] + ([step] + ([step] + [Leave(t)])));
    assert Put(w1, t, SetCheck(h), h, e) == Put(w, t, SetCheck(h), h, e);
    LegalCons(w1, step, inside);
    LegalCons(w, Call(t, SetOp(h)), [step] + inside);
    assert [Call(t, SetOp(h))] + ([step] + inside) == SetMoves(t, h);
  }

  lemma Nothing(w: World)
    ensures Legal(w, []) && Exec(w, []) == w
  {
  }

  /**
    Whenever a wait for all events names two different ones, some run answers it with a
    success while one of them is clear: create the events, set the first, and wait.
    */
  lemma WaitAllMissed(hs: seq<Handle>, t: Thread, infinite: bool, clear: Handle)
    requires 1 <= |hs| <= WSA_MAXIMUM_WAIT_EVENTS && NULL_HANDLE !in hs && clear in hs && clear != hs[0]
    ensures exists moves ::
      && Legal(Start, moves)
      && PcOf(Exec(Start, moves), t) == Finished(WaitOp(hs, infinite, true), Answer(WSA_WAIT_EVENT_0, 0))
      && clear in Exec(Start, moves).events && Exec(Start, moves).events[clear].counter == 0
  {
    var create, setting, op := Creates(hs), SetMoves(t, hs[0]), WaitOp(hs, infinite, true);
    CreatesAll(hs);
    SetRun(Fresh(hs), t, hs[0]);
    var w := World(Fresh(hs).events[hs[0] := Event(1, true, None)], map[t := Idle]);
    var w' := WaitRun(w, t, hs, infinite);
    var wait := [Call(t, op), Step(t, false)];
    RunConcat(Fresh(hs), setting, wait);
    RunConcat(Start, create, setting + wait);
    assert Exec(Start, create + (setting + wait)) == w';
  }

  /** A wait whose first event is set answers with index 0. */
  lemma WaitRun(w: World, t: Thread, hs: seq<Handle>, infinite: bool) returns (w': World)
    requires 1 <= |hs| <= WSA_MAXIMUM_WAIT_EVENTS && NULL_HANDLE !in hs && PcOf(w, t) == Idle
    requires (forall h | h in hs :: h in w.events) && w.events[hs[0]].counter > 0
    ensures var op := WaitOp(hs, infinite, true); var moves := [Call(t, op), Step(t, false)];
      && Legal(w, moves) && Exec(w, moves) == w'
      && w' == Goto(w, t, Finished(op, Answer(WSA_WAIT_EVENT_0, 0)))
  {
    var op := WaitOp(hs, infinite, true);
    var w1 := Goto(w, t, WaitSelect(hs, infinite, true));
    w' := Goto(w, t, Finished(op, Answer(WSA_WAIT_EVENT_0, 0)));
    assert LeastTrue(Snapshot(w1, hs)) == 0 by { assert Snapshot(w1, hs)[0]; }
    assert After(w, Call(t, op)) == w1 && After(w1, Step(t, false)) == w';
    Nothing(w');
    LegalCons(w1, Step(t, false), []);
    LegalCons(w, Call(t, op), [Step(t, false)]);
    assert [Call(t, op)] + [Step(t, false)] == [Call(t, op), Step(t, false)];
  }
}
