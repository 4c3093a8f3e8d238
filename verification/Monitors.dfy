/**
  WSAEventSelect calls, monitor threads and user event calls interleaving freely.
  The list mutex is held across several steps; monitors read entries without it.
  */
module RegistrationProtocol {
  import opened Winsock
  import opened EventSpec
  import opened RegistrationTable
  import P = EventProtocol

  /** Where a WSAEventSelect call stands. */
  datatype SelPc =
    | NotIn
    | SelEntry(r: Registration)
    | SelScan(r: Registration)
    | SelEvent(r: Registration, i: nat)
    | SelMask(r: Registration, i: nat)
    | SelCreate(r: Registration)
    | SelSpawn(r: Registration, id: nat, saved: seq<nat>)
    | SelUnlock(r: Registration, ok: bool)
    | SelDone(r: Registration, ok: bool)

  /** Where a monitor stands; n is what its last epoll_wait returned, i counts the events handled. */
  datatype MonPc =
    | MonLook
    | MonPoll
    | MonRead(i: nat, n: nat)
    | MonSignal(i: nat, n: nat)
    | MonCall(i: nat, n: nat, h: Handle)
    | MonExit

  datatype Signal = Signal(node: nat, h: Handle)

  /**
    list holds entry addresses from the head on; rows is their memory.
    log records the registrations that took effect, signals the WSASetEvent calls of monitors.
    */
  datatype World = World(
    ev: P.World, list: seq<nat>, rows: map<nat, Row>, holder: Option<Thread>,
    selects: map<Thread, SelPc>, monitors: map<nat, MonPc>,
    log: seq<Registration>, signals: seq<Signal>)

  datatype Move =
    | EventMove(m: P.Move)
    | Select(t: Thread, r: Registration)
    | SelectStep(t: Thread, ok: bool, newId: nat)
    | SelectReturn(t: Thread)
    | Look(k: nat)
    | Poll(k: nat, nfds: int, interrupted: bool)
    | ReadEvent(k: nat)
    | SignalEvent(k: nat)
    | Resume(k: nat)

  const MAX_EPOLL_EVENTS := 10

  function RowAt(rows: map<nat, Row>, id: nat): Row {
    if id in rows then rows[id] else Row(0, NULL_HANDLE, 0, 0)
  }

  function Table(list: seq<nat>, rows: map<nat, Row>): seq<Row> {
    seq(|list|, i requires 0 <= i < |list| => RowAt(rows, list[i]))
  }

  function SelPcOf(w: World, t: Thread): SelPc {
    if t in w.selects then w.selects[t] else NotIn
  }

  function MonPcOf(w: World, k: nat): MonPc {
    if k in w.monitors then w.monitors[k] else MonExit
  }

  predicate InSection(pc: SelPc) {
    !pc.NotIn? && !pc.SelEntry? && !pc.SelDone?
  }

  predicate Known(ev: P.World, h: Handle) {
    h == NULL_HANDLE || h in ev.events
  }

  predicate Enabled(w: World, m: Move) {
    match m
    case EventMove(e) => P.Enabled(w.ev, e) && (e.Call? || e.Leave? ==> e.t.Caller?)
    case Select(t, r) => SelPcOf(w, t).NotIn? && Known(w.ev, r.event)
    case SelectStep(t, ok, newId) =>
      var pc := SelPcOf(w, t);
      && !pc.NotIn?
      && !pc.SelDone?
      && (pc.SelEntry? ==> w.holder == None)
      && (pc.SelCreate? && ok ==> newId !in w.rows)
    case SelectReturn(t) => SelPcOf(w, t).SelDone?
    case Look(k) => MonPcOf(w, k).MonLook?
    case Poll(k, nfds, _) => MonPcOf(w, k).MonPoll? && nfds <= MAX_EPOLL_EVENTS
    case ReadEvent(k) => MonPcOf(w, k).MonRead?
    case SignalEvent(k) => MonPcOf(w, k).MonSignal?
    case Resume(k) => MonPcOf(w, k).MonCall? && P.PcOf(w.ev, Monitor(k)).Finished?
  }

  function GotoSel(w: World, t: Thread, pc: SelPc): World {
    w.(selects := w.selects[t := pc])
  }

  function GotoMon(w: World, k: nat, pc: MonPc): World {
    w.(monitors := w.monitors[k := pc])
  }

  /** One step of WSAEventSelect. */
  function SelectAfter(w: World, t: Thread, ok: bool, newId: nat): World {
    match SelPcOf(w, t)
    case SelEntry(r) => GotoSel(w, t, SelScan(r)).(holder := Some(t))
    case SelScan(r) =>
      var i := RowOf(Table(w.list, w.rows), r.sock);
      GotoSel(w, t, if i < |w.list| then SelEvent(r, i) else SelCreate(r))
    case SelEvent(r, i) =>
      if i < |w.list| then
        GotoSel(w, t, SelMask(r, i)).(
          rows := w.rows[w.list[i] := RowAt(w.rows, w.list[i]).(event := r.event)], log := w.log + [r])
      else w
    case SelMask(r, i) =>
      if i < |w.list| then
        GotoSel(w, t, SelUnlock(r, true)).(
          rows := w.rows[w.list[i] := RowAt(w.rows, w.list[i]).(mask := r.mask)])
      else w
    case SelCreate(r) =>
      // malloc, epoll_create1 or epoll_ctl may fail; otherwise the entry goes to the front
      if !ok then GotoSel(w, t, SelUnlock(r, false))
      else GotoSel(w, t, SelSpawn(r, newId, w.list)).(list := [newId] + w.list, rows := w.rows[newId := NewRow(r)])
    case SelSpawn(r, id, _) =>
      if ok then GotoSel(w, t, SelUnlock(r, true)).(monitors := w.monitors[id := MonLook], log := w.log + [r])
      // the code follows the entry's next pointer: PointersAfter below, and PointersSpellList
      else if w.list == [] then w
      else GotoSel(w, t, SelUnlock(r, false)).(list := w.list[1..], rows := w.rows - {id})
    case SelUnlock(r, done) => GotoSel(w, t, SelDone(r, done)).(holder := None)
    case _ => w
  }

  function After(w: World, m: Move): World {
    match m
    case EventMove(e) => w.(ev := P.After(w.ev, e))
    case Select(t, r) => GotoSel(w, t, SelEntry(r))
    case SelectStep(t, ok, newId) => SelectAfter(w, t, ok, newId)
    case SelectReturn(t) => GotoSel(w, t, NotIn)
    case Look(k) => GotoMon(w, k, MonPoll)  // running is set once and never cleared
    case Poll(k, nfds, interrupted) =>
      GotoMon(w, k, if nfds >= 0 then MonRead(0, nfds) else if interrupted then MonLook else MonExit)
    case ReadEvent(k) =>
      var pc := MonPcOf(w, k);
      if !pc.MonRead? then w
      else if pc.i >= pc.n then GotoMon(w, k, MonLook)
      else if RowAt(w.rows, k).event == NULL_HANDLE then GotoMon(w, k, MonRead(pc.i + 1, pc.n))
      else GotoMon(w, k, MonSignal(pc.i, pc.n))
    case SignalEvent(k) =>
      // the event is read a second time for the call itself
      var pc, h := MonPcOf(w, k), RowAt(w.rows, k).event;
      if !pc.MonSignal? then w
      else GotoMon(w, k, MonCall(pc.i, pc.n, h)).(
        ev := P.After(w.ev, P.Call(Monitor(k), SetOp(h))), signals := w.signals + [Signal(k, h)])
    case Resume(k) =>
      var pc := MonPcOf(w, k);
      if !pc.MonCall? then w
      else GotoMon(w, k, MonRead(pc.i + 1, pc.n)).(ev := P.After(w.ev, P.Leave(Monitor(k))))
  }

  predicate Legal(w: World, moves: seq<Move>)
    decreases |moves|
  {
    moves == [] || (Enabled(w, moves[0]) && Legal(After(w, moves[0]), moves[1..]))
  }

  function Exec(w: World, moves: seq<Move>): World
    decreases |moves|
  {
    if moves == [] then w else Exec(After(w, moves[0]), moves[1..])
  }

  const Start := World(P.Start, [], map[], None, map[], map[], [], [])

  // ---------------------------------------------------------------- invariant

  /** Some registration of this socket that took effect gave this event. */
  ghost predicate EverRegistered(log: seq<Registration>, sock: int, h: Handle) {
    exists i :: 0 <= i < |log| && log[i].sock == sock && log[i].event == h
  }

  predicate ListOk(list: seq<nat>, rows: map<nat, Row>) {
    && (forall i, j | 0 <= i < j < |list| :: list[i] != list[j])
    && (forall i | 0 <= i < |list| :: list[i] in rows)
  }

  /** What the list is at each point of the critical section. */
  ghost predicate SectionOk(w: World, pc: SelPc) {
    var table := Table(w.list, w.rows);
    match pc
    case SelScan(r) => table == TableOf(w.log)
    case SelEvent(r, i) => table == TableOf(w.log) && i == RowOf(table, r.sock) && i < |table|
    case SelMask(r, i) => i < |table| && table[i := table[i].(mask := r.mask)] == TableOf(w.log) && r in w.log
    case SelCreate(r) => table == TableOf(w.log) && RowOf(table, r.sock) == |table|
    case SelSpawn(r, id, saved) =>
      && w.list == [id] + saved
      && id !in w.monitors
      && RowAt(w.rows, id) == NewRow(r)
      && Table(saved, w.rows) == TableOf(w.log)
      && RowOf(Table(saved, w.rows), r.sock) == |saved|
    case SelUnlock(r, ok) => table == TableOf(w.log) && (ok ==> r in w.log)
    case _ => true
  }

  ghost predicate SelectOk(w: World, t: Thread)
    requires t in w.selects
  {
    var pc := w.selects[t];
    && (InSection(pc) ==> w.holder == Some(t) && SectionOk(w, pc))
    && (!pc.NotIn? ==> Known(w.ev, pc.r.event))
    && (pc.SelDone? && pc.ok ==> pc.r in w.log)
  }

  ghost predicate MonitorOk(w: World, k: nat)
    requires k in w.monitors
  {
    var pc := w.monitors[k];
    && k in w.rows
    && EverRegistered(w.log, w.rows[k].sock, w.rows[k].event)
    && match pc
       case MonCall(_, _, h) => SetCallOf(P.PcOf(w.ev, Monitor(k)), h) && Signal(k, h) in w.signals
       case _ => P.PcOf(w.ev, Monitor(k)) == P.Idle
  }

  /** The thread is somewhere inside WSASetEvent(h). */
  predicate SetCallOf(pc: P.PC, h: Handle) {
    match pc
    case SetEntry(g) => g == h
    case SetCheck(g) => g == h
    case SetWrite(g) => g == h
    case SetFlag(g) => g == h
    case SetUnlock(g) => g == h
    case SetError(g) => g == h
    case Finished(op, _) => op == SetOp(h)
    case _ => false
  }

  ghost predicate SignalOk(w: World, s: Signal) {
    s.node in w.monitors && s.node in w.rows && EverRegistered(w.log, w.rows[s.node].sock, s.h)
  }

  ghost predicate Inv(w: World) {
    && P.Inv(w.ev)
    && ListOk(w.list, w.rows)
    && (forall id | id in w.rows :: Known(w.ev, w.rows[id].event))
    && (w.holder == None ==> Table(w.list, w.rows) == TableOf(w.log))
    && (w.holder.Some? ==> w.holder.value in w.selects && InSection(w.selects[w.holder.value]))
    && (forall t | t in w.selects :: SelectOk(w, t))
    && (forall k | k in w.monitors :: MonitorOk(w, k))
    && (forall k: nat | k !in w.monitors :: P.PcOf(w.ev, Monitor(k)) == P.Idle)
    && (forall s | s in w.signals :: SignalOk(w, s))
  }

  lemma TableUpdate(list: seq<nat>, rows: map<nat, Row>, i: nat, row: Row)
    requires ListOk(list, rows) && i < |list|
    ensures Table(list, rows[list[i] := row]) == Table(list, rows)[i := row]
  {
  }

  lemma EverRegisteredGrows(log: seq<Registration>, r: Registration, sock: int, h: Handle)
    requires EverRegistered(log, sock, h) || (r.sock == sock && r.event == h)
    ensures EverRegistered(log + [r], sock, h)
  {
    if EverRegistered(log, sock, h) {
      var i :| 0 <= i < |log| && log[i].sock == sock && log[i].event == h;
      assert (log + [r])[i] == log[i];
    } else {
      assert (log + [r])[|log|] == r;
    }
  }

  /** A step of the events never leaves WSASetEvent half way and only moves its own thread. */
  lemma EventMoveFrame(ev: P.World, e: P.Move, k: nat, h: Handle)
    requires P.Enabled(ev, e) && (e.Call? || e.Leave? ==> e.t.Caller?)
    ensures P.PcOf(ev, Monitor(k)) == P.Idle ==> P.PcOf(P.After(ev, e), Monitor(k)) == P.Idle
    ensures SetCallOf(P.PcOf(ev, Monitor(k)), h) ==> SetCallOf(P.PcOf(P.After(ev, e), Monitor(k)), h)
  {
  }

  lemma EventsOnlyGrow(ev: P.World, e: P.Move)
    requires P.Enabled(ev, e)
    ensures ev.events.Keys <= P.After(ev, e).events.Keys
  {
  }

  lemma EventMoveKeepsInv(w: World, e: P.Move)
    requires Inv(w) && Enabled(w, EventMove(e))
    ensures Inv(After(w, EventMove(e)))
  {
    var w' := After(w, EventMove(e));
    P.StepKeepsInv(w.ev, e);
    EventsOnlyGrow(w.ev, e);
    forall t | t in w'.selects
      ensures SelectOk(w', t)
    {
      assert SelectOk(w, t);
    }
    forall k | k in w'.monitors
      ensures MonitorOk(w', k)
    {
      assert MonitorOk(w, k);
      EventMoveFrame(w.ev, e, k, if w.monitors[k].MonCall? then w.monitors[k].h else 0);
    }
    forall k: nat | k !in w'.monitors
      ensures P.PcOf(w'.ev, Monitor(k)) == P.Idle
    {
      EventMoveFrame(w.ev, e, k, 0);
    }
    forall s | s in w'.signals
      ensures SignalOk(w', s)
    {
      assert SignalOk(w, s);
    }
  }

  /** A call entering, locking, unlocking or returning: the list itself is untouched. */
  lemma GotoSelKeepsInv(w: World, t: Thread, pc: SelPc, holder: Option<Thread>)
    requires Inv(w)
    requires w.holder == holder || (w.holder == None && holder == Some(t)) || (w.holder == Some(t) && holder == None)
    requires InSection(SelPcOf(w, t)) <==> w.holder == Some(t)
    requires InSection(pc) <==> holder == Some(t)
    requires InSection(pc) ==> SectionOk(w, pc)
    requires holder == None ==> Table(w.list, w.rows) == TableOf(w.log)
    requires !pc.NotIn? ==> Known(w.ev, pc.r.event)
    requires pc.SelDone? && pc.ok ==> pc.r in w.log
    ensures Inv(GotoSel(w, t, pc).(holder := holder))
  {
    var w' := GotoSel(w, t, pc).(holder := holder);
    forall u | u in w'.selects
      ensures SelectOk(w', u)
    {
      if u != t { assert SelectOk(w, u); }
    }
    forall k | k in w'.monitors
      ensures MonitorOk(w', k)
    {
      assert MonitorOk(w, k);
    }
    forall s | s in w'.signals
      ensures SignalOk(w', s)
    {
      assert SignalOk(w, s);
    }
  }

  /** The list mutex holder changes the list, its memory, the log or the set of monitors. */
  lemma SectionStepKeepsInv(w: World, w': World, t: Thread)
    requires Inv(w) && w.holder == Some(t) && w'.holder == Some(t)
    requires w'.ev == w.ev && w'.signals == w.signals
    requires t in w'.selects && w'.selects == w.selects[t := w'.selects[t]]
    requires InSection(w'.selects[t]) && SectionOk(w', w'.selects[t]) && Known(w.ev, w'.selects[t].r.event)
    requires ListOk(w'.list, w'.rows)
    requires forall id | id in w'.rows :: Known(w'.ev, w'.rows[id].event)
    requires w'.log == w.log || exists r :: w'.log == w.log + [r]
    requires forall k | k in w.monitors ::
      && k in w'.monitors && w'.monitors[k] == w.monitors[k]
      && k in w'.rows && w'.rows[k].sock == w.rows[k].sock
      && EverRegistered(w'.log, w'.rows[k].sock, w'.rows[k].event)
    requires forall k | k in w'.monitors && k !in w.monitors ::
      w'.monitors[k] == MonLook && k in w'.rows && EverRegistered(w'.log, w'.rows[k].sock, w'.rows[k].event)
    ensures Inv(w')
  {
    forall u | u in w'.selects
      ensures SelectOk(w', u)
    {
      if u != t { assert SelectOk(w, u); }
    }
    forall k | k in w'.monitors
      ensures MonitorOk(w', k)
    {
      if k in w.monitors { assert MonitorOk(w, k); }
    }
    forall s | s in w'.signals
      ensures SignalOk(w', s)
    {
      assert SignalOk(w, s);
      if w'.log != w.log {
        var r :| w'.log == w.log + [r];
        EverRegisteredGrows(w.log, r, w.rows[s.node].sock, s.h);
      }
    }
  }

  /** The stored event is the first half of the registration's table update. */
  lemma StoreEventTable(w: World, r: Registration, i: nat)
    requires ListOk(w.list, w.rows) && SectionOk(w, SelEvent(r, i))
    ensures var rows' := w.rows[w.list[i] := RowAt(w.rows, w.list[i]).(event := r.event)];
      SectionOk(w.(rows := rows', log := w.log + [r]), SelMask(r, i))
  {
    var table, row := Table(w.list, w.rows), RowAt(w.rows, w.list[i]).(event := r.event);
    TableUpdate(w.list, w.rows, i, row);
    TableOfAppend(w.log, r);
    assert table[i := row][i := row.(mask := r.mask)] == Register(table, r);
  }

  /** Storing the new event of an existing entry. */
  lemma StoreEventKeepsInv(w: World, t: Thread, ok: bool, newId: nat)
    requires Inv(w) && SelPcOf(w, t).SelEvent?
    ensures Inv(SelectAfter(w, t, ok, newId))
  {
    hide TableOf, EverRegistered, SetCallOf, P.Inv;
    assert SelectOk(w, t);
    var w', r := SelectAfter(w, t, ok, newId), SelPcOf(w, t).r;
    StoreEventTable(w, r, SelPcOf(w, t).i);
    forall k | k in w.monitors
      ensures k in w'.rows && w'.rows[k].sock == w.rows[k].sock
      ensures EverRegistered(w'.log, w'.rows[k].sock, w'.rows[k].event)
    {
      assert MonitorOk(w, k);
      EverRegisteredGrows(w.log, r, w'.rows[k].sock, w'.rows[k].event);
    }
    SectionStepKeepsInv(w, w', t);
  }

  /** Storing the new mask of an existing entry. */
  lemma StoreMaskKeepsInv(w: World, t: Thread, ok: bool, newId: nat)
    requires Inv(w) && SelPcOf(w, t).SelMask?
    ensures Inv(SelectAfter(w, t, ok, newId))
  {
    hide TableOf, EverRegistered, SetCallOf, P.Inv;
    assert SelectOk(w, t);
    var w', r, i := SelectAfter(w, t, ok, newId), SelPcOf(w, t).r, SelPcOf(w, t).i;
    TableUpdate(w.list, w.rows, i, RowAt(w.rows, w.list[i]).(mask := r.mask));
    assert forall k | k in w.monitors :: MonitorOk(w, k);
    SectionStepKeepsInv(w, w', t);
  }

  /** A new entry in front of the list, with its memory. */
  lemma PushShape(w: World, t: Thread, newId: nat)
    requires SelPcOf(w, t).SelCreate? && SectionOk(w, SelPcOf(w, t)) && ListOk(w.list, w.rows)
    requires newId !in w.rows && newId !in w.monitors
    ensures var r := SelPcOf(w, t).r; var w' := SelectAfter(w, t, true, newId);
      && w' == w.(list := [newId] + w.list, rows := w.rows[newId := NewRow(r)], selects := w.selects[t := SelSpawn(r, newId, w.list)])
      && ListOk(w'.list, w'.rows)
      && SectionOk(w', w'.selects[t])
  {
    hide TableOf, Interest, RowOf;
    assert Table(w.list, SelectAfter(w, t, true, newId).rows) == Table(w.list, w.rows);
  }

  /** Linking a new entry at the front. */
  lemma PushKeepsInv(w: World, t: Thread, newId: nat)
    requires Inv(w) && SelPcOf(w, t).SelCreate? && newId !in w.rows
    ensures Inv(SelectAfter(w, t, true, newId))
  {
    hide TableOf, Interest, EverRegistered, RowOf, SetCallOf, P.Inv, SectionOk, SelectAfter, ListOk, Table, SignalOk;
    assert SelectOk(w, t);
    assert forall k | k in w.monitors :: MonitorOk(w, k);
    PushShape(w, t, newId);
    SectionStepKeepsInv(w, SelectAfter(w, t, true, newId), t);
  }

  /** With the new entry in front, the list is the table of the log with the new registration. */
  lemma SpawnTable(w: World, pc: SelPc)
    requires pc.SelSpawn? && SectionOk(w, pc)
    ensures Table(w.list, w.rows) == TableOf(w.log + [pc.r])
    ensures |w.list| > 0 && w.list[0] == pc.id && RowAt(w.rows, pc.id) == NewRow(pc.r) && pc.id !in w.monitors
  {
    hide TableOf, Interest;
    assert w.list[0] == pc.id && w.list[1..] == pc.saved;
    assert Table(w.list, w.rows) == [NewRow(pc.r)] + Table(pc.saved, w.rows);
    TableOfAppend(w.log, pc.r);
  }

  /** Starting the monitor thread of the new entry. */
  lemma SpawnKeepsInv(w: World, t: Thread, newId: nat)
    requires Inv(w) && SelPcOf(w, t).SelSpawn?
    ensures Inv(SelectAfter(w, t, true, newId))
  {
    hide Interest, EverRegistered, SetCallOf, TableOf, Table, RowOf, P.Inv;
    assert SelectOk(w, t);
    var w', pc := SelectAfter(w, t, true, newId), SelPcOf(w, t);
    SpawnTable(w, pc);
    forall k | k in w'.monitors
      ensures k in w'.rows && EverRegistered(w'.log, w'.rows[k].sock, w'.rows[k].event)
    {
      if k in w.monitors { assert MonitorOk(w, k); }
      EverRegisteredGrows(w.log, pc.r, w'.rows[k].sock, w'.rows[k].event);
    }
    SectionStepKeepsInv(w, w', t);
  }

  /** The rollback in the critical section: the list is exactly the one before the push. */
  lemma RollbackRestoresList(w: World, t: Thread, newId: nat)
    requires Inv(w) && SelPcOf(w, t).SelSpawn?
    ensures var w' := SelectAfter(w, t, false, newId);
      && w'.list == SelPcOf(w, t).saved
      && ListOk(w'.list, w'.rows)
      && Table(w'.list, w'.rows) == Table(SelPcOf(w, t).saved, w.rows) == TableOf(w.log)
      && w'.monitors == w.monitors
      && w'.rows == w.rows - {SelPcOf(w, t).id}
  {
    hide TableOf, Interest, RowOf, EverRegistered, SetCallOf, MonitorOk, SignalOk, P.Inv;
    assert SelectOk(w, t);
    var w', pc := SelectAfter(w, t, false, newId), SelPcOf(w, t);
    assert w.list[0] == pc.id && w.list[1..] == pc.saved;
    assert forall i | 0 <= i < |pc.saved| :: pc.saved[i] == w.list[i + 1];
    assert Table(w'.list, w'.rows) == Table(pc.saved, w.rows);
  }

  lemma RollbackKeepsInv(w: World, t: Thread, newId: nat)
    requires Inv(w) && SelPcOf(w, t).SelSpawn?
    ensures Inv(SelectAfter(w, t, false, newId))
  {
    hide TableOf, Interest, RowOf, EverRegistered;
    RollbackRestoresList(w, t, newId);
    assert SelectOk(w, t);
    assert forall k | k in w.monitors :: MonitorOk(w, k);
    SectionStepKeepsInv(w, SelectAfter(w, t, false, newId), t);
  }

  lemma SelectStepKeepsInv(w: World, t: Thread, ok: bool, newId: nat)
    requires Inv(w) && Enabled(w, SelectStep(t, ok, newId))
    ensures Inv(SelectAfter(w, t, ok, newId))
  {
    hide TableOf, Interest, EverRegistered, RowOf, SetCallOf, MonitorOk, SignalOk, ListOk, P.Inv;
    assert SelectOk(w, t);
    var pc, w' := SelPcOf(w, t), SelectAfter(w, t, ok, newId);
    if pc.SelEvent? { StoreEventKeepsInv(w, t, ok, newId); }
    else if pc.SelMask? { StoreMaskKeepsInv(w, t, ok, newId); }
    else if pc.SelCreate? && ok { PushKeepsInv(w, t, newId); }
    else if pc.SelSpawn? {
      if ok { SpawnKeepsInv(w, t, newId); } else { RollbackKeepsInv(w, t, newId); }
    } else {
      assert w' == GotoSel(w, t, w'.selects[t]).(holder := w'.holder);
      GotoSelKeepsInv(w, t, w'.selects[t], w'.holder);
    }
  }

  /** Monitors and events do not touch what WSAEventSelect calls rely on. */
  lemma SelectsKept(w: World, w': World)
    requires forall t | t in w.selects :: SelectOk(w, t)
    requires w'.selects == w.selects && w'.holder == w.holder && w'.list == w.list && w'.rows == w.rows && w'.log == w.log
    requires w'.monitors.Keys == w.monitors.Keys && w'.ev.events == w.ev.events
    ensures forall t | t in w'.selects :: SelectOk(w', t)
  {
    hide TableOf, RowOf, Table;
    forall t | t in w'.selects
      ensures SelectOk(w', t)
    {
      assert SelectOk(w, t);
    }
  }

  /** A monitor moving on outside WSASetEvent. */
  lemma GotoMonKeepsInv(w: World, k: nat, pc: MonPc)
    requires Inv(w) && k in w.monitors && !w.monitors[k].MonCall? && !pc.MonCall?
    ensures Inv(GotoMon(w, k, pc))
  {
    hide TableOf, ListOk, EverRegistered, SetCallOf, Table, SelectOk, P.Inv;
    var w' := GotoMon(w, k, pc);
    SelectsKept(w, w');
    forall j | j in w'.monitors
      ensures MonitorOk(w', j)
    {
      assert MonitorOk(w, j);
    }
    forall s | s in w'.signals
      ensures SignalOk(w', s)
    {
      assert SignalOk(w, s);
    }
  }

  /** One monitor moves on, with its event thread, and the others stay as they are. */
  lemma MonitorsKept(w: World, w': World, k: nat, setPc: P.PC)
    requires k in w.monitors && k in w'.monitors && forall j | j in w.monitors :: MonitorOk(w, j)
    requires w'.rows == w.rows && w'.log == w.log && w'.monitors == w.monitors[k := w'.monitors[k]]
    requires w'.ev == P.Goto(w.ev, Monitor(k), setPc)
    requires if w'.monitors[k].MonCall? then SetCallOf(setPc, w'.monitors[k].h) && Signal(k, w'.monitors[k].h) in w'.signals else setPc == P.Idle
    requires forall s | s in w.signals :: s in w'.signals
    ensures forall j | j in w'.monitors :: MonitorOk(w', j)
  {
    hide EverRegistered, SetCallOf;
    forall j | j in w'.monitors
      ensures MonitorOk(w', j)
    {
      assert MonitorOk(w, j) && MonitorOk(w, k);
    }
  }

  /** A monitor entering or leaving WSASetEvent: its event thread and its loop position move together. */
  lemma MonitorCallKeepsInv(w: World, k: nat, setPc: P.PC, pc: MonPc, signals: seq<Signal>)
    requires Inv(w) && k in w.monitors && P.Inv(P.Goto(w.ev, Monitor(k), setPc))
    requires if pc.MonCall? then SetCallOf(setPc, pc.h) && Signal(k, pc.h) in signals else setPc == P.Idle
    requires forall s | s in signals :: s in w.signals || SignalOk(w, s)
    requires forall s | s in w.signals :: s in signals
    ensures Inv(GotoMon(w, k, pc).(ev := P.Goto(w.ev, Monitor(k), setPc), signals := signals))
  {
    hide TableOf, ListOk, EverRegistered, SetCallOf, Table, SelectOk, MonitorOk, P.Inv;
    var w' := GotoMon(w, k, pc).(ev := P.Goto(w.ev, Monitor(k), setPc), signals := signals);
    assert forall j: nat | j != k :: P.PcOf(w'.ev, Monitor(j)) == P.PcOf(w.ev, Monitor(j));
    assert w'.ev.events == w.ev.events;
    SelectsKept(w, w');
    MonitorsKept(w, w', k, setPc);
    forall s | s in w'.signals
      ensures SignalOk(w', s)
    {
      assert SignalOk(w, s);
    }
  }

  lemma SignalKeepsInv(w: World, k: nat)
    requires Inv(w) && Enabled(w, SignalEvent(k))
    ensures Inv(After(w, SignalEvent(k)))
  {
    hide SectionOk, TableOf, ListOk, Table, SelectOk, RowOf;
    assert MonitorOk(w, k);
    var pc, h := w.monitors[k], w.rows[k].event;
    P.GotoKeepsInv(w.ev, Monitor(k), P.SetEntry(h));
    MonitorCallKeepsInv(w, k, P.SetEntry(h), MonCall(pc.i, pc.n, h), w.signals + [Signal(k, h)]);
  }

  lemma ResumeShape(w: World, k: nat)
    requires Enabled(w, Resume(k))
    ensures k in w.monitors && w.monitors[k].MonCall?
    ensures var pc := w.monitors[k];
      After(w, Resume(k)) == GotoMon(w, k, MonRead(pc.i + 1, pc.n)).(ev := P.Goto(w.ev, Monitor(k), P.Idle), signals := w.signals)
  {
  }

  lemma ResumeKeepsInv(w: World, k: nat)
    requires Inv(w) && Enabled(w, Resume(k))
    ensures Inv(After(w, Resume(k)))
  {
    ResumeShape(w, k);
    P.GotoKeepsInv(w.ev, Monitor(k), P.Idle);
    MonitorCallKeepsInv(w, k, P.Idle, MonRead(w.monitors[k].i + 1, w.monitors[k].n), w.signals);
  }

  lemma StepKeepsInv(w: World, m: Move)
    requires Inv(w) && Enabled(w, m)
    ensures Inv(After(w, m))
  {
    hide Inv, SelectAfter, P.Inv, P.Enabled, P.After;
    match m
    case EventMove(e) => EventMoveKeepsInv(w, e);
    case Select(t, r) => SelectEntryKeepsInv(w, m);
    case SelectReturn(t) => SelectEntryKeepsInv(w, m);
    case SelectStep(t, ok, newId) => SelectStepKeepsInv(w, t, ok, newId);
    case SignalEvent(k) => SignalKeepsInv(w, k);
    case Resume(k) => ResumeKeepsInv(w, k);
    case _ => GotoMonKeepsInv(w, m.k, After(w, m).monitors[m.k]);
  }

  lemma SelectEntryKeepsInv(w: World, m: Move)
    requires Inv(w) && Enabled(w, m) && (m.Select? || m.SelectReturn?)
    ensures Inv(After(w, m))
  {
    var pc := After(w, m).selects[m.t];
    if w.holder.Some? { assert SelectOk(w, w.holder.value); }
    GotoSelKeepsInv(w, m.t, pc, w.holder);
  }

  lemma {:induction false} RunKeepsInv(w: World, moves: seq<Move>)
    requires Inv(w) && Legal(w, moves)
    ensures Inv(Exec(w, moves))
    decreases |moves|
  {
    if moves != [] {
      StepKeepsInv(w, moves[0]);
      RunKeepsInv(After(w, moves[0]), moves[1..]);
    }
  }

  lemma StartInv()
    ensures Inv(Start)
  {
  }

  /**
    In every reachable state with the list mutex free, the list is acyclic and is exactly the
    table of the registrations that took effect: one entry per socket, latest event and mask,
    epoll interest of the first mask, no completed registration lost.
    */
  lemma ListIsTable(moves: seq<Move>)
    requires Legal(Start, moves)
    ensures var w := Exec(Start, moves);
      && ListOk(w.list, w.rows)
      && (w.holder == None ==>
            Table(w.list, w.rows) == TableOf(w.log) && Faithful(w.log, Table(w.list, w.rows)))
      && (forall t | t in w.selects && w.selects[t].SelDone? && w.selects[t].ok :: w.selects[t].r in w.log)
  {
    StartInv();
    RunKeepsInv(Start, moves);
    var w := Exec(Start, moves);
    TableIsFaithful(w.log);
    assert forall t | t in w.selects :: SelectOk(w, t);
  }

  // ---------------------------------------------------------- the list's pointers

  /** g_socket_event_map and the next fields of the entries in memory. */
  datatype Pointers = Pointers(head: Option<nat>, next: map<nat, Option<nat>>)

  /** What a move writes to them: a new entry is linked in front, a rollback follows the entry's saved next. */
  function PointersAfter(ps: Pointers, w: World, m: Move): Pointers {
    if !m.SelectStep? then ps
    else
      match SelPcOf(w, m.t)
      case SelCreate(_) => if m.ok then Pointers(Some(m.newId), ps.next[m.newId := ps.head]) else ps
      case SelSpawn(_, id, _) =>
        if m.ok then ps else Pointers(if id in ps.next then ps.next[id] else None, ps.next - {id})
      case _ => ps
  }

  function PointersOf(ps: Pointers, w: World, moves: seq<Move>): Pointers
    decreases |moves|
  {
    if moves == [] then ps else PointersOf(PointersAfter(ps, w, moves[0]), After(w, moves[0]), moves[1..])
  }

  /** Following the pointers from p visits exactly these entries and ends at NULL. */
  predicate Leads(next: map<nat, Option<nat>>, p: Option<nat>, list: seq<nat>)
    decreases |list|
  {
    if list == [] then p == None
    else p == Some(list[0]) && list[0] in next && Leads(next, next[list[0]], list[1..])
  }

  /** A list that ends has no entry twice: the pointers form no cycle. */
  lemma {:induction false} LeadsNowhereTwice(next: map<nat, Option<nat>>, p: Option<nat>, list: seq<nat>)
    requires Leads(next, p, list)
    ensures forall i, j | 0 <= i < j < |list| :: list[i] != list[j]
    decreases |list|
  {
    if list != [] {
      LeadsNowhereTwice(next, next[list[0]], list[1..]);
      forall j | 1 <= j < |list|
        ensures list[j] != list[0]
      {
        LeadsFrom(next, p, list, j);
        if list[j] == list[0] { LeadsUnique(next, p, list, list[j..]); }
      }
    }
  }

  lemma {:induction false} LeadsFrom(next: map<nat, Option<nat>>, p: Option<nat>, list: seq<nat>, j: nat)
    requires Leads(next, p, list) && j < |list|
    ensures Leads(next, Some(list[j]), list[j..])
    decreases j
  {
    if j > 0 {
      LeadsFrom(next, next[list[0]], list[1..], j - 1);
      assert list[1..][j - 1..] == list[j..];
    }
  }

  lemma {:induction false} LeadsUnique(next: map<nat, Option<nat>>, p: Option<nat>, xs: seq<nat>, ys: seq<nat>)
    requires Leads(next, p, xs) && Leads(next, p, ys)
    ensures |xs| == |ys|
    decreases |xs|
  {
    if xs != [] { LeadsUnique(next, next[xs[0]], xs[1..], ys[1..]); }
  }

  lemma {:induction false} LeadsFrame(next: map<nat, Option<nat>>, next': map<nat, Option<nat>>, p: Option<nat>, list: seq<nat>)
    requires Leads(next, p, list)
    requires forall id | id in list && id in next :: id in next' && next'[id] == next[id]
    ensures Leads(next', p, list)
    decreases |list|
  {
    if list != [] { LeadsFrame(next, next', next[list[0]], list[1..]); }
  }

  lemma StepKeepsPointers(ps: Pointers, w: World, m: Move)
    requires Inv(w) && Enabled(w, m) && Leads(ps.next, ps.head, w.list)
    ensures var ps' := PointersAfter(ps, w, m); Leads(ps'.next, ps'.head, After(w, m).list)
  {
    hide Inv, TableOf, Interest, RowOf, RowAt, Table, Leads, P.Enabled, P.After;
    if m.SelectStep? && SelPcOf(w, m.t).SelCreate? && m.ok {
      InvOfList(w, m.t);
      PointersPush(ps, w.list, m.newId);
    } else if m.SelectStep? && SelPcOf(w, m.t).SelSpawn? && !m.ok {
      InvOfList(w, m.t);
      PointersPop(ps, w.list);
    }
  }

  /** What the invariant says about the list when its new entry is still unlinked, or is at the head. */
  lemma InvOfList(w: World, t: Thread)
    requires Inv(w) && t in w.selects
    ensures ListOk(w.list, w.rows)
    ensures w.selects[t].SelSpawn? ==> w.list != [] && w.list[0] == w.selects[t].id
  {
    hide TableOf, Interest, RowOf, RowAt, Table, EverRegistered, MonitorOk, SignalOk, P.Inv;
    assert SelectOk(w, t);
  }

  lemma PointersPush(ps: Pointers, list: seq<nat>, id: nat)
    requires Leads(ps.next, ps.head, list) && id !in list
    ensures Leads(ps.next[id := ps.head], Some(id), [id] + list)
  {
    LeadsFrame(ps.next, ps.next[id := ps.head], ps.head, list);
    assert ([id] + list)[1..] == list;
  }

  lemma PointersPop(ps: Pointers, list: seq<nat>)
    requires Leads(ps.next, ps.head, list) && list != [] && forall i, j | 0 <= i < j < |list| :: list[i] != list[j]
    ensures list[0] in ps.next && Leads(ps.next - {list[0]}, ps.next[list[0]], list[1..])
  {
    assert forall i | 0 <= i < |list[1..]| :: list[1..][i] == list[i + 1];
    LeadsFrame(ps.next, ps.next - {list[0]}, ps.next[list[0]], list[1..]);
  }

  lemma {:induction false} RunKeepsPointers(ps: Pointers, w: World, moves: seq<Move>)
    requires Inv(w) && Legal(w, moves) && Leads(ps.next, ps.head, w.list)
    ensures Leads(PointersOf(ps, w, moves).next, PointersOf(ps, w, moves).head, Exec(w, moves).list)
    decreases |moves|
  {
    hide Inv, Enabled, After, PointersAfter, Leads;
    if moves != [] {
      StepKeepsPointers(ps, w, moves[0]);
      StepKeepsInv(w, moves[0]);
      RunKeepsPointers(PointersAfter(ps, w, moves[0]), After(w, moves[0]), moves[1..]);
    }
  }

  /**
    In every reachable state, inside critical sections too, the head and next pointers form no
    cycle and lead through exactly the entries of the list, although a rollback just follows
    the next pointer its entry was given at the push.
    */
  lemma PointersSpellList(moves: seq<Move>)
    requires Legal(Start, moves)
    ensures var ps, list := PointersOf(Pointers(None, map[]), Start, moves), Exec(Start, moves).list;
      && Leads(ps.next, ps.head, list)
      && forall i, j | 0 <= i < j < |list| :: list[i] != list[j]
  {
    StartInv();
    var none := Pointers(None, map[]);
    RunKeepsPointers(none, Start, moves);
    var ps := PointersOf(none, Start, moves);
    LeadsNowhereTwice(ps.next, ps.head, Exec(Start, moves).list);
  }

  /** A monitor only ever signals events registered for its own socket. */
  lemma MonitorsSignalOwnSocket(moves: seq<Move>, i: nat)
    requires Legal(Start, moves) && i < |Exec(Start, moves).signals|
    ensures var w := Exec(Start, moves); var s := w.signals[i];
      s.node in w.rows && exists j :: 0 <= j < |w.log| && w.log[j].sock == w.rows[s.node].sock && w.log[j].event == s.h
  {
    StartInv();
    RunKeepsInv(Start, moves);
    assert SignalOk(Exec(Start, moves), Exec(Start, moves).signals[i]);
  }

  /** A monitor's thread is only ever inside WSASetEvent, for an event registered for its own socket. */
  lemma MonitorsOnlySetOwnEvents(moves: seq<Move>, k: nat)
    requires Legal(Start, moves) && P.PcOf(Exec(Start, moves).ev, Monitor(k)) != P.Idle
    ensures var w := Exec(Start, moves);
      && k in w.monitors && k in w.rows && w.monitors[k].MonCall?
      && SetCallOf(P.PcOf(w.ev, Monitor(k)), w.monitors[k].h)
      && EverRegistered(w.log, w.rows[k].sock, w.monitors[k].h)
  {
    StartInv();
    RunKeepsInv(Start, moves);
    var w := Exec(Start, moves);
    assert k in w.monitors && MonitorOk(w, k);
    assert SignalOk(w, Signal(k, w.monitors[k].h));
  }

  /** A step of WSAEventSelect only ever starts monitors, each at the top of its loop. */
  lemma SelectMonitors(w: World, t: Thread, ok: bool, newId: nat)
    ensures var w' := SelectAfter(w, t, ok, newId); var pc := SelPcOf(w, t);
      && w'.ev == w.ev && w'.signals == w.signals
      && w'.monitors == (if pc.SelSpawn? && ok then w.monitors[pc.id := MonLook] else w.monitors)
  {
    hide RowOf, Table, Interest, RowAt, NewRow;
  }

  lemma SelectOthers(w: World, t: Thread, ok: bool, newId: nat, u: Thread)
    requires u != t
    ensures SelPcOf(SelectAfter(w, t, ok, newId), u) == SelPcOf(w, u)
  {
    hide RowOf, Table, Interest, RowAt, NewRow;
  }

  /** A monitor goes on for good, unless its own epoll_wait fails and was not interrupted. */
  lemma MonitorEnds(w: World, m: Move, k: nat)
    requires Inv(w) && Enabled(w, m)
    ensures k in w.monitors ==> k in After(w, m).monitors
    ensures k !in w.monitors && k in After(w, m).monitors ==> After(w, m).monitors[k] == MonLook
    ensures k in w.monitors && MonPcOf(After(w, m), k) == MonExit <==>
              k in w.monitors && (MonPcOf(w, k) == MonExit || (m.Poll? && m.k == k && m.nfds < 0 && !m.interrupted))
  {
    hide Inv, P.Enabled, P.After, SelectAfter;
    if m.SelectStep? {
      SelectMonitors(w, m.t, m.ok, m.newId);
      if SelPcOf(w, m.t).SelSpawn? { SpawnedIsNew(w, m.t); }
    }
  }

  lemma SpawnedIsNew(w: World, t: Thread)
    requires Inv(w) && t in w.selects && w.selects[t].SelSpawn?
    ensures w.selects[t].id !in w.monitors
  {
    hide TableOf, Interest, RowOf, Table, P.Inv;
    assert SelectOk(w, t);
  }

  /** Some epoll_wait of monitor k failed for another reason than an interrupt. */
  predicate PollFailed(moves: seq<Move>, k: nat) {
    exists m | m in moves :: m.Poll? && m.k == k && m.nfds < 0 && !m.interrupted
  }

  lemma {:induction false} RunEnds(w: World, moves: seq<Move>, k: nat)
    requires Inv(w) && Legal(w, moves) && MonPcOf(Exec(w, moves), k) == MonExit && k in Exec(w, moves).monitors
    ensures (k in w.monitors && MonPcOf(w, k) == MonExit) || PollFailed(moves, k)
    decreases |moves|
  {
    hide Inv, Enabled, After;
    if moves != [] {
      MonitorEnds(w, moves[0], k);
      StepKeepsInv(w, moves[0]);
      RunEnds(After(w, moves[0]), moves[1..], k);
      assert moves[0] in moves && forall m | m in moves[1..] :: m in moves;
    }
  }

  /** A started monitor has stopped only after such a failure. */
  lemma MonitorsKeepRunning(moves: seq<Move>, k: nat)
    requires Legal(Start, moves) && k in Exec(Start, moves).monitors && !PollFailed(moves, k)
    ensures MonPcOf(Exec(Start, moves), k) != MonExit
  {
    StartInv();
    if MonPcOf(Exec(Start, moves), k) == MonExit { RunEnds(Start, moves, k); }
  }

  // ------------------------------------------------------ signals and reports

  /** How many of the signals are monitor k's. */
  function Signalled(signals: seq<Signal>, k: nat): nat {
    if signals == [] then 0
    else Signalled(signals[..|signals| - 1], k) + if signals[|signals| - 1].node == k then 1 else 0
  }

  /** How many events epoll_wait has reported to monitor k. */
  function Reported(moves: seq<Move>, k: nat): nat {
    if moves == [] then 0
    else (if moves[0].Poll? && moves[0].k == k && moves[0].nfds > 0 then moves[0].nfds else 0) + Reported(moves[1..], k)
  }

  /** How many reported events the monitor still has to look at. */
  function Outstanding(pc: MonPc): nat {
    match pc
    case MonRead(i, n) => if i < n then n - i else 0
    case MonSignal(i, n) => if i < n then n - i else 0
    case MonCall(i, n, _) => if i < n then n - i - 1 else 0
    case _ => 0
  }

  /** Inside its loop a monitor is at an event that was reported. */
  predicate InRange(pc: MonPc) {
    (pc.MonSignal? || pc.MonCall?) ==> pc.i < pc.n
  }

  lemma SignalledAppend(signals: seq<Signal>, s: Signal, k: nat)
    ensures Signalled(signals + [s], k) == Signalled(signals, k) + if s.node == k then 1 else 0
  {
    assert (signals + [s])[..|signals|] == signals;
  }

  lemma StepCounts(w: World, m: Move, k: nat)
    requires Enabled(w, m) && InRange(MonPcOf(w, k)) && (m.SelectStep? && SelPcOf(w, m.t).SelSpawn? ==> SelPcOf(w, m.t).id !in w.monitors)
    ensures InRange(MonPcOf(After(w, m), k))
    ensures Signalled(After(w, m).signals, k) + Outstanding(MonPcOf(After(w, m), k))
         <= Signalled(w.signals, k) + Outstanding(MonPcOf(w, k)) + Reported([m], k)
  {
    hide SelectAfter, Signalled, P.Enabled, P.After;
    if m.SelectStep? { SelectMonitors(w, m.t, m.ok, m.newId); }
    assert Reported([m][1..], k) == 0;
    if m.SignalEvent? { SignalledAppend(w.signals, Signal(m.k, RowAt(w.rows, m.k).event), k); }
  }

  lemma {:induction false} RunCounts(w: World, moves: seq<Move>, k: nat)
    requires Inv(w) && Legal(w, moves) && InRange(MonPcOf(w, k))
    ensures Signalled(Exec(w, moves).signals, k) + Outstanding(MonPcOf(Exec(w, moves), k))
         <= Signalled(w.signals, k) + Outstanding(MonPcOf(w, k)) + Reported(moves, k)
    decreases |moves|
  {
    hide Inv, Enabled, After, Signalled;
    if moves != [] {
      var m := moves[0];
      if m.SelectStep? && SelPcOf(w, m.t).SelSpawn? { SpawnedIsNew(w, m.t); }
      StepCounts(w, m, k);
      StepKeepsInv(w, m);
      RunCounts(After(w, m), moves[1..], k);
      assert Reported([m], k) + Reported(moves[1..], k) == Reported(moves, k) by { assert [m][1..] == []; }
    }
  }

  /** A monitor calls WSASetEvent at most once for each event its epoll_wait reported. */
  lemma SignalsWithinReports(moves: seq<Move>, k: nat)
    requires Legal(Start, moves)
    ensures Signalled(Exec(Start, moves).signals, k) <= Reported(moves, k)
  {
    StartInv();
    RunCounts(Start, moves, k);
  }

  /** How many of its own moves, seen from its loop, a monitor needs to be back at the top. */
  function RoundLeft(pc: MonPc): nat {
    match pc
    case MonRead(i, n) => if i < n then 3 * (n - i) + 1 else 1
    case MonSignal(i, n) => if i < n then 3 * (n - i) else 0
    case MonCall(i, n, _) => if i < n then 3 * (n - i) - 1 else 0
    case _ => 0
  }

  /** Each move of a monitor inside its loop brings it nearer to the top, where it looks again. */
  lemma RoundGoesOn(w: World, m: Move, k: nat)
    requires Enabled(w, m) && InRange(MonPcOf(w, k))
    requires (m.ReadEvent? || m.SignalEvent? || m.Resume?) && m.k == k
    ensures RoundLeft(MonPcOf(After(w, m), k)) < RoundLeft(MonPcOf(w, k))
    ensures RoundLeft(MonPcOf(After(w, m), k)) == 0 ==> MonPcOf(After(w, m), k) == MonLook
  {
    hide P.Enabled, P.After;
  }

  /** A monitor is never stuck: it has a move of its own, or is inside WSASetEvent. */
  lemma MonitorCanMove(w: World, k: nat, n: int, interrupted: bool)
    requires Inv(w) && k in w.monitors && n <= MAX_EPOLL_EVENTS
    ensures match w.monitors[k]
      case MonLook => Enabled(w, Look(k)) && MonPcOf(After(w, Look(k)), k) == MonPoll
      case MonPoll => Enabled(w, Poll(k, n, interrupted))
      case MonRead(_, _) => Enabled(w, ReadEvent(k))
      case MonSignal(_, _) => Enabled(w, SignalEvent(k))
      case MonCall(_, _, h) => SetCallOf(P.PcOf(w.ev, Monitor(k)), h) && (P.PcOf(w.ev, Monitor(k)).Finished? ==> Enabled(w, Resume(k)))
      case MonExit => true
  {
    assert MonitorOk(w, k);
  }

  /** The entry keeps its NULL event. */
  predicate StaysNull(w: World, k: nat, count: nat) {
    && k in w.monitors && RowAt(w.rows, k).event == NULL_HANDLE
    && !MonPcOf(w, k).MonSignal? && !MonPcOf(w, k).MonCall?
    && Signalled(w.signals, k) == count
  }

  /** With a NULL event and no new one, a monitor signals nothing, whatever is reported. */
  lemma {:induction false} NullEventIsSilent(w: World, moves: seq<Move>, k: nat)
    requires Inv(w) && Legal(w, moves) && AllQuiet(w, moves, k, NULL_HANDLE)
    requires StaysNull(w, k, Signalled(w.signals, k))
    ensures StaysNull(Exec(w, moves), k, Signalled(w.signals, k))
    decreases |moves|
  {
    hide Inv, Enabled, After, Signalled, Quiet;
    if moves != [] {
      StepStaysNull(w, moves[0], k, Signalled(w.signals, k));
      StepKeepsInv(w, moves[0]);
      NullEventIsSilent(After(w, moves[0]), moves[1..], k);
    }
  }

  lemma StepStaysNull(w: World, m: Move, k: nat, count: nat)
    requires Inv(w) && Enabled(w, m) && Quiet(w, m, k, NULL_HANDLE) && StaysNull(w, k, count)
    ensures StaysNull(After(w, m), k, count)
  {
    assert k in w.rows by { assert MonitorOk(w, k); }
    hide Inv, SelectAfter, Signalled, P.Enabled, P.After;
    if m.SelectStep? {
      if SelPcOf(w, m.t).SelSpawn? { SpawnedIsNew(w, m.t); }
      SelectFrame(w, m.t, m.ok, m.newId, k);
      SelectMonitors(w, m.t, m.ok, m.newId);
    } else if m.SignalEvent? {
      assert m.k != k;
      SignalledAppend(w.signals, Signal(m.k, RowAt(w.rows, m.k).event), k);
    } else {
      OtherMoveStaysNull(w, m, k, count);
    }
  }

  lemma OtherMoveStaysNull(w: World, m: Move, k: nat, count: nat)
    requires Enabled(w, m) && StaysNull(w, k, count) && !m.SelectStep? && !m.SignalEvent?
    ensures StaysNull(After(w, m), k, count)
  {
    hide SelectAfter, Signalled, P.Enabled, P.After;
  }

  // ------------------------------------------------------ what a call reports

  /** How often thread t's steps extended the log. */
  function Effects(w: World, moves: seq<Move>, t: Thread): nat
    decreases |moves|
  {
    if moves == [] then 0
    else
      (if moves[0].SelectStep? && moves[0].t == t && |After(w, moves[0]).log| > |w.log| then 1 else 0)
      + Effects(After(w, moves[0]), moves[1..], t)
  }

  /** How often the call at this point has taken effect. */
  predicate EffectsFit(pc: SelPc, count: nat) {
    match pc
    case SelMask(_, _) => count == 1
    case SelUnlock(_, ok) => count == if ok then 1 else 0
    case SelDone(_, ok) => count == if ok then 1 else 0
    case _ => count == 0
  }

  /** One step of the call itself. */
  lemma OwnStepFits(w: World, t: Thread, ok: bool, newId: nat, count: nat)
    requires !SelPcOf(w, t).NotIn? && !SelPcOf(w, t).SelDone? && EffectsFit(SelPcOf(w, t), count)
    requires SelectOk(w, t) && SectionOk(w, SelPcOf(w, t))
    ensures var w', pc := SelectAfter(w, t, ok, newId), SelPcOf(w, t);
      var one := if |w'.log| > |w.log| then 1 else 0;
      EffectsFit(SelPcOf(w', t), count + one) && (one == 1 ==> w'.log == w.log + [pc.r])
  {
    hide RowOf, Interest, TableOf;
  }

  lemma StepFits(w: World, m: Move, t: Thread, count: nat)
    requires Inv(w) && Enabled(w, m) && EffectsFit(SelPcOf(w, t), count) && m != SelectReturn(t)
    ensures var w' := After(w, m);
      var one := if m.SelectStep? && m.t == t && |w'.log| > |w.log| then 1 else 0;
      && EffectsFit(SelPcOf(w', t), count + one)
      && (one == 1 ==> w'.log == w.log + [SelPcOf(w, t).r])
  {
    if m.SelectStep? && m.t == t {
      assert SelectOk(w, t) && SectionOk(w, SelPcOf(w, t));
      hide Inv, SelectAfter, SectionOk, SelectOk, EffectsFit;
      OwnStepFits(w, t, m.ok, m.newId, count);
    } else {
      hide Inv, SelectAfter, P.After, P.Enabled, EffectsFit;
      if m.SelectStep? { SelectOthers(w, m.t, m.ok, m.newId, t); }
    }
  }

  /**
    From before a WSAEventSelect call to before its return: it reports success exactly when it
    took effect, and then once; a call that reports failure has registered nothing.
    */
  lemma {:induction false} SuccessIsEffect(w: World, moves: seq<Move>, t: Thread, count: nat)
    requires Inv(w) && Legal(w, moves) && EffectsFit(SelPcOf(w, t), count) && SelectReturn(t) !in moves
    ensures EffectsFit(SelPcOf(Exec(w, moves), t), count + Effects(w, moves, t))
    decreases |moves|
  {
    hide Inv, Enabled, After, EffectsFit;
    if moves != [] {
      StepFits(w, moves[0], t, count);
      StepKeepsInv(w, moves[0]);
      var one := if moves[0].SelectStep? && moves[0].t == t && |After(w, moves[0]).log| > |w.log| then 1 else 0;
      SuccessIsEffect(After(w, moves[0]), moves[1..], t, count + one);
    }
  }

  /** How often thread t could not have a resource: memory, an epoll instance or a thread. */
  function Shortages(w: World, moves: seq<Move>, t: Thread): nat
    decreases |moves|
  {
    if moves == [] then 0
    else (if LacksResource(w, moves[0], t) then 1 else 0) + Shortages(After(w, moves[0]), moves[1..], t)
  }

  predicate LacksResource(w: World, m: Move, t: Thread) {
    m.SelectStep? && m.t == t && !m.ok && (SelPcOf(w, t).SelCreate? || SelPcOf(w, t).SelSpawn?)
  }

  /** How many resources the call at this point has missed. */
  predicate ShortagesFit(pc: SelPc, count: nat) {
    match pc
    case SelUnlock(_, ok) => count == if ok then 0 else 1
    case SelDone(_, ok) => count == if ok then 0 else 1
    case _ => count == 0
  }

  lemma StepShortages(w: World, m: Move, t: Thread, count: nat)
    requires Inv(w) && Enabled(w, m) && ShortagesFit(SelPcOf(w, t), count) && m != SelectReturn(t)
    ensures ShortagesFit(SelPcOf(After(w, m), t), count + if LacksResource(w, m, t) then 1 else 0)
  {
    if m.SelectStep? && m.t == t {
      assert SelectOk(w, t) && SectionOk(w, SelPcOf(w, t));
      hide Inv, SelectAfter, SelectOk, SectionOk, ShortagesFit;
      OwnStepShortages(w, t, m.ok, m.newId, count);
    } else {
      hide Inv, SelectAfter, P.After, P.Enabled;
      if m.SelectStep? { SelectOthers(w, m.t, m.ok, m.newId, t); }
    }
  }

  lemma OwnStepShortages(w: World, t: Thread, ok: bool, newId: nat, count: nat)
    requires !SelPcOf(w, t).NotIn? && !SelPcOf(w, t).SelDone? && ShortagesFit(SelPcOf(w, t), count)
    requires SelectOk(w, t) && SectionOk(w, SelPcOf(w, t))
    ensures ShortagesFit(SelPcOf(SelectAfter(w, t, ok, newId), t), count + if LacksResource(w, SelectStep(t, ok, newId), t) then 1 else 0)
  {
    hide RowOf, Interest, TableOf;
  }

  /** A call reports failure exactly when it could not have one of its resources. */
  lemma {:induction false} FailureIsShortage(w: World, moves: seq<Move>, t: Thread, count: nat)
    requires Inv(w) && Legal(w, moves) && ShortagesFit(SelPcOf(w, t), count) && SelectReturn(t) !in moves
    ensures ShortagesFit(SelPcOf(Exec(w, moves), t), count + Shortages(w, moves, t))
    decreases |moves|
  {
    hide Inv, Enabled, After, ShortagesFit, LacksResource;
    if moves != [] {
      StepShortages(w, moves[0], t, count);
      StepKeepsInv(w, moves[0]);
      FailureIsShortage(After(w, moves[0]), moves[1..], t, count + if LacksResource(w, moves[0], t) then 1 else 0);
    }
  }

  /** How many own steps a call has left. */
  function SelLeft(pc: SelPc): nat {
    match pc
    case SelEntry(_) => 6
    case SelScan(_) => 5
    case SelCreate(_) => 4
    case SelEvent(_, _) => 3
    case SelSpawn(_, _, _) => 3
    case SelMask(_, _) => 2
    case SelUnlock(_, _) => 1
    case _ => 0
  }

  /** A call only ever waits for the list mutex, each of its steps brings it nearer to its end, and then the mutex is free. */
  lemma SelectGoesOn(w: World, t: Thread, ok: bool, newId: nat)
    requires Inv(w) && !SelPcOf(w, t).NotIn? && !SelPcOf(w, t).SelDone? && newId !in w.rows
    ensures var m := SelectStep(t, ok, newId);
      && (Enabled(w, m) <==> !(SelPcOf(w, t).SelEntry? && w.holder.Some?))
      && (Enabled(w, m) ==> SelLeft(SelPcOf(After(w, m), t)) < SelLeft(SelPcOf(w, t)))
      && (Enabled(w, m) && SelPcOf(After(w, m), t).SelDone? ==> After(w, m).holder == None)
  {
    hide TableOf, Interest, RowOf, P.Inv, MonitorOk, SignalOk, EverRegistered;
    assert SelectOk(w, t);
  }

  // ------------------------------------------------- level-triggered delivery

  predicate Bit(w: World, e: Handle) {
    P.EventAt(w.ev, e).counter > 0
  }

  /** The monitor is still busy with the first readiness its epoll_wait returned. */
  predicate InFirstRound(pc: MonPc) {
    (pc.MonRead? || pc.MonSignal? || pc.MonCall?) && pc.i == 0
  }

  /** Neither a reset of e takes effect nor the entry k gets a new event. */
  predicate Quiet(w: World, m: Move, k: nat, e: Handle) {
    match m
    case EventMove(Step(t, _)) => !(P.PcOf(w.ev, t) == P.ResetDrain(e) && Bit(w, e))
    case SelectStep(t, _, _) =>
      var pc := SelPcOf(w, t);
      pc.SelEvent? && pc.i < |w.list| ==> w.list[pc.i] != k
    case _ => true
  }

  predicate AllQuiet(w: World, moves: seq<Move>, k: nat, e: Handle)
    decreases |moves|
  {
    moves == [] || (Quiet(w, moves[0], k, e) && AllQuiet(After(w, moves[0]), moves[1..], k, e))
  }

  /** The monitor has not yet taken effect on e, but is on its way to. */
  predicate OnItsWay(w: World, k: nat, e: Handle) {
    match MonPcOf(w, k)
    case MonRead(i, n) => i == 0 && n >= 1
    case MonSignal(i, n) => i == 0
    case MonCall(i, n, h) => i == 0 && h == e && P.PhaseOfPc(w.ev, P.PcOf(w.ev, Monitor(k))) == Pending(SetOp(e))
    case _ => false
  }

  predicate Tracked(w: World, k: nat, e: Handle) {
    && k in w.monitors
    && RowAt(w.rows, k).event == e
    && (OnItsWay(w, k, e) || Bit(w, e))
  }

  /** Nothing but an effective reset clears the bit. */
  lemma BitStays(ev: P.World, m: P.Move, e: Handle)
    requires P.Inv(ev) && P.Enabled(ev, m) && P.EventAt(ev, e).counter > 0
    requires m.Step? ==> P.PcOf(ev, m.t) != P.ResetDrain(e)
    ensures P.EventAt(P.After(ev, m), e).counter > 0
  {
  }

  /** A step of a pending WSASetEvent(e) leaves it pending or the event set. */
  lemma SetProgress(ev: P.World, m: P.Move, t: Thread, e: Handle)
    requires P.Inv(ev) && P.Enabled(ev, m) && e != NULL_HANDLE && SetCallOf(P.PcOf(ev, t), e)
    requires m.Call? || m.Leave? ==> m.t != t
    requires P.PhaseOfPc(ev, P.PcOf(ev, t)) == Pending(SetOp(e))
    ensures P.PhaseOfPc(P.After(ev, m), P.PcOf(P.After(ev, m), t)) == Pending(SetOp(e))
         || P.EventAt(P.After(ev, m), e).counter > 0
  {
    if m.Step? && m.t == t { assert P.ThreadOk(ev, t); }
  }

  lemma EventMoveTracks(w: World, m: P.Move, k: nat, e: Handle)
    requires Inv(w) && Enabled(w, EventMove(m)) && Quiet(w, EventMove(m), k, e)
    requires e != NULL_HANDLE && Tracked(w, k, e)
    ensures Tracked(After(w, EventMove(m)), k, e)
  {
    assert MonitorOk(w, k);
    if Bit(w, e) { BitStays(w.ev, m, e); }
    else if MonPcOf(w, k).MonCall? { SetProgress(w.ev, m, Monitor(k), e); }
  }

  /** The list mutex holder leaves a running monitor's entry alone, except where it stores a new event. */
  lemma SelectFrame(w: World, t: Thread, ok: bool, newId: nat, k: nat)
    requires Enabled(w, SelectStep(t, ok, newId)) && k in w.monitors && k in w.rows
    requires SelPcOf(w, t).SelSpawn? ==> SelPcOf(w, t).id != k
    requires var pc := SelPcOf(w, t); pc.SelEvent? && pc.i < |w.list| ==> w.list[pc.i] != k
    ensures var w' := SelectAfter(w, t, ok, newId);
      w'.ev == w.ev && MonPcOf(w', k) == MonPcOf(w, k) && k in w'.monitors && RowAt(w'.rows, k).event == RowAt(w.rows, k).event
  {
    hide TableOf, Interest;
  }

  lemma SelectTracks(w: World, m: Move, k: nat, e: Handle)
    requires Inv(w) && Enabled(w, m) && m.SelectStep? && Quiet(w, m, k, e) && Tracked(w, k, e)
    ensures Tracked(After(w, m), k, e)
  {
    assert MonitorOk(w, k) && SelectOk(w, m.t);
    hide SelectAfter, TableOf;
    SelectFrame(w, m.t, m.ok, m.newId, k);
  }

  /** Moves of another monitor. */
  lemma OtherMonitorTracks(w: World, m: Move, k: nat, e: Handle)
    requires Enabled(w, m) && Tracked(w, k, e)
    requires (m.Look? || m.Poll? || m.ReadEvent? || m.SignalEvent? || m.Resume?) && m.k != k
    ensures Tracked(After(w, m), k, e)
  {
    hide P.Enabled, P.Advance, SelectAfter;
  }

  /** Moves of the monitor itself; a finished first WSASetEvent has taken effect. */
  lemma OwnMonitorTracks(w: World, m: Move, k: nat, e: Handle)
    requires Enabled(w, m) && e != NULL_HANDLE && Tracked(w, k, e)
    requires (m.Look? || m.Poll? || m.ReadEvent? || m.SignalEvent? || m.Resume?) && m.k == k
    ensures Tracked(After(w, m), k, e)
  {
  }

  lemma StepTracks(w: World, m: Move, k: nat, e: Handle)
    requires Inv(w) && Enabled(w, m) && Quiet(w, m, k, e) && e != NULL_HANDLE && Tracked(w, k, e)
    ensures Tracked(After(w, m), k, e)
  {
    if m.EventMove? { EventMoveTracks(w, m.m, k, e); }
    else if m.SelectStep? { SelectTracks(w, m, k, e); }
    else if m.Look? || m.Poll? || m.ReadEvent? || m.SignalEvent? || m.Resume? {
      if m.k == k { OwnMonitorTracks(w, m, k, e); } else { OtherMonitorTracks(w, m, k, e); }
    }
  }

  lemma {:induction false} RunTracks(w: World, moves: seq<Move>, k: nat, e: Handle)
    requires Inv(w) && Legal(w, moves) && AllQuiet(w, moves, k, e) && e != NULL_HANDLE && Tracked(w, k, e)
    ensures Tracked(Exec(w, moves), k, e)
    decreases |moves|
  {
    if moves != [] {
      StepKeepsInv(w, moves[0]);
      StepTracks(w, moves[0], k, e);
      RunTracks(After(w, moves[0]), moves[1..], k, e);
    }
  }

  /** A set bit is a counter of one, and is mirrored by the flag once the mutex is free. */
  lemma BitIsVisible(ev: P.World, e: Handle)
    requires P.Inv(ev) && P.EventAt(ev, e).counter > 0
    ensures e in ev.events && ev.events[e].counter == 1 && (ev.events[e].holder == None ==> ev.events[e].signaled)
  {
    assert P.EventOk(ev, e);
    if ev.events[e].holder.Some? { assert P.ThreadOk(ev, ev.events[e].holder.value); }
  }

  /**
    Level-triggered delivery: from any reachable state in which epoll_wait has just reported
    the socket ready, once the monitor is past that readiness the event is set, whatever the
    other threads did, as long as no reset took effect and the entry kept its event.
    Resets that took effect earlier, even ones still running, cannot suppress it.
    */
  lemma ReadyIterationSignals(before: seq<Move>, moves: seq<Move>, k: nat, n: nat)
    requires Legal(Start, before) && MonPcOf(Exec(Start, before), k) == MonRead(0, n) && n >= 1
    requires var w := Exec(Start, before); var e := RowAt(w.rows, k).event;
      && e != NULL_HANDLE
      && Legal(w, moves)
      && AllQuiet(w, moves, k, e)
      && !InFirstRound(MonPcOf(Exec(w, moves), k))
    ensures var w := Exec(Start, before); var e := RowAt(w.rows, k).event; var w' := Exec(w, moves);
      && e in w'.ev.events
      && w'.ev.events[e].counter == 1
      && (w'.ev.events[e].holder == None ==> w'.ev.events[e].signaled)
  {
    StartInv();
    RunKeepsInv(Start, before);
    var w := Exec(Start, before);
    var e := RowAt(w.rows, k).event;
    TrackedArrives(w, moves, k, e);
  }

  /** The report of readiness puts the monitor on its way to the signal. */
  lemma ReportTracks(w: World, k: nat, n: nat, interrupted: bool)
    requires Inv(w) && MonPcOf(w, k) == MonPoll && 1 <= n <= MAX_EPOLL_EVENTS
    ensures var m := Poll(k, n, interrupted);
      Enabled(w, m) && Inv(After(w, m)) && Tracked(After(w, m), k, RowAt(w.rows, k).event)
  {
    hide Inv, SelectAfter, P.After, P.Enabled;
    StepKeepsInv(w, Poll(k, n, interrupted));
  }

  lemma TrackedArrives(w: World, moves: seq<Move>, k: nat, e: Handle)
    requires Inv(w) && Legal(w, moves) && AllQuiet(w, moves, k, e) && e != NULL_HANDLE && Tracked(w, k, e)
    requires !InFirstRound(MonPcOf(Exec(w, moves), k))
    ensures var w' := Exec(w, moves);
      && e in w'.ev.events
      && w'.ev.events[e].counter == 1
      && (w'.ev.events[e].holder == None ==> w'.ev.events[e].signaled)
  {
    hide Legal, Exec, AllQuiet;
    RunTracks(w, moves, k, e);
    RunKeepsInv(w, moves);
    BitIsVisible(Exec(w, moves).ev, e);
  }

  /**
    The same from the report on: whenever epoll_wait tells a monitor that its socket is ready,
    and the entry has an event, that event is set once the monitor is past this readiness.
    */
  lemma ReportedReadinessSignals(before: seq<Move>, moves: seq<Move>, k: nat, n: nat, interrupted: bool)
    requires Legal(Start, before) && MonPcOf(Exec(Start, before), k) == MonPoll && 1 <= n <= MAX_EPOLL_EVENTS
    requires var w := Exec(Start, before); var e := RowAt(w.rows, k).event; var w1 := After(w, Poll(k, n, interrupted));
      && e != NULL_HANDLE
      && Legal(w1, moves)
      && AllQuiet(w1, moves, k, e)
      && !InFirstRound(MonPcOf(Exec(w1, moves), k))
    ensures var w := Exec(Start, before); var e := RowAt(w.rows, k).event;
      var w' := Exec(After(w, Poll(k, n, interrupted)), moves);
      && Enabled(w, Poll(k, n, interrupted))
      && e in w'.ev.events
      && w'.ev.events[e].counter == 1
      && (w'.ev.events[e].holder == None ==> w'.ev.events[e].signaled)
  {
    hide Inv, Legal, Exec, AllQuiet, After, Enabled, Tracked, InFirstRound;
    StartInv();
    RunKeepsInv(Start, before);
    var w := Exec(Start, before);
    ReportTracks(w, k, n, interrupted);
    TrackedArrives(After(w, Poll(k, n, interrupted)), moves, k, RowAt(w.rows, k).event);
  }

  // ------------------------------------------------------- runs of one thread

  lemma LegalCons(w: World, m: Move, rest: seq<Move>)
    requires Enabled(w, m) && Legal(After(w, m), rest)
    ensures Legal(w, [m] + rest) && Exec(w, [m] + rest) == Exec(After(w, m), rest)
  {
    hide Enabled, After;
    assert ([m] + rest)[1..] == rest;
  }

  lemma NoMoves(w: World)
    ensures Legal(w, []) && Exec(w, []) == w
  {
  }

  /** Steps of event calls, as moves of the whole system. */
  function EventMoves(ms: seq<P.Move>): seq<Move> {
    if ms == [] then [] else [EventMove(ms[0])] + EventMoves(ms[1..])
  }

  /** They run as they do among themselves, and touch nothing else. */
  lemma {:induction false} EventMovesRun(w: World, ms: seq<P.Move>, rest: seq<Move>)
    requires P.Legal(w.ev, ms) && forall m | m in ms :: m.Call? || m.Leave? ==> m.t.Caller?
    requires Legal(w.(ev := P.Exec(w.ev, ms)), rest)
    ensures Legal(w, EventMoves(ms) + rest) && Exec(w, EventMoves(ms) + rest) == Exec(w.(ev := P.Exec(w.ev, ms)), rest)
    decreases |ms|
  {
    hide P.Enabled, P.After;
    if ms == [] {
      assert EventMoves(ms) + rest == rest;
    } else {
      var w1 := w.(ev := P.After(w.ev, ms[0]));
      assert ms[0] in ms && Enabled(w, EventMove(ms[0])) && After(w, EventMove(ms[0])) == w1;
      EventMovesRun(w1, ms[1..], rest);
      LegalCons(w, EventMove(ms[0]), EventMoves(ms[1..]) + rest);
      assert EventMoves(ms) + rest == [EventMove(ms[0])] + (EventMoves(ms[1..]) + rest);
    }
  }

  /** The moves of one round of a monitor: look, a report of one event, the signal, and back to the top. */
  function RoundMoves(k: nat): seq<Move> {
    var step := P.Step(Monitor(k), false);
    [Look(k)] + ([Poll(k, 1, false)] + ([ReadEvent(k)] + ([SignalEvent(k)]
      + (EventMoves([step] + ([step] + ([step] + ([step] + ([step] + []))))) + ([Resume(k)] + ([ReadEvent(k)] + []))))))
  }

  /** The monitor has called WSASetEvent for the one event reported. */
  function Calling(w: World, k: nat): World {
    var e := RowAt(w.rows, k).event;
    GotoMon(w, k, MonCall(0, 1, e)).(ev := P.Goto(w.ev, Monitor(k), P.SetEntry(e)), signals := w.signals + [Signal(k, e)])
  }

  /** The beginning of a round, up to the call. */
  lemma RoundBegins(w: World, k: nat, rest: seq<Move>)
    requires MonPcOf(w, k) == MonLook && RowAt(w.rows, k).event != NULL_HANDLE && Legal(Calling(w, k), rest)
    ensures var moves := [Look(k)] + ([Poll(k, 1, false)] + ([ReadEvent(k)] + ([SignalEvent(k)] + rest)));
      Legal(w, moves) && Exec(w, moves) == Exec(Calling(w, k), rest)
  {
    hide Legal, Exec, SelectAfter;
    var w1, w2, w3 := GotoMon(w, k, MonPoll), GotoMon(w, k, MonRead(0, 1)), GotoMon(w, k, MonSignal(0, 1));
    MonitorStages(w, k);
    hide After, GotoMon, P.Enabled;
    LegalCons(w3, SignalEvent(k), rest);
    LegalCons(w2, ReadEvent(k), [SignalEvent(k)] + rest);
    LegalCons(w1, Poll(k, 1, false), [ReadEvent(k)] + ([SignalEvent(k)] + rest));
    LegalCons(w, Look(k), [Poll(k, 1, false)] + ([ReadEvent(k)] + ([SignalEvent(k)] + rest)));
  }

  lemma MonitorStages(w: World, k: nat)
    requires MonPcOf(w, k) == MonLook && RowAt(w.rows, k).event != NULL_HANDLE
    ensures var w1, w2, w3 := GotoMon(w, k, MonPoll), GotoMon(w, k, MonRead(0, 1)), GotoMon(w, k, MonSignal(0, 1));
      && Enabled(w, Look(k)) && After(w, Look(k)) == w1
      && Enabled(w1, Poll(k, 1, false)) && After(w1, Poll(k, 1, false)) == w2
      && Enabled(w2, ReadEvent(k)) && After(w2, ReadEvent(k)) == w3
      && Enabled(w3, SignalEvent(k)) && After(w3, SignalEvent(k)) == Calling(w, k)
  {
    hide P.Enabled, SelectAfter;
    assert w.monitors[k := MonPoll][k := MonRead(0, 1)] == w.monitors[k := MonRead(0, 1)];
    assert w.monitors[k := MonRead(0, 1)][k := MonSignal(0, 1)] == w.monitors[k := MonSignal(0, 1)];
    var call := MonCall(0, 1, RowAt(w.rows, k).event);
    assert w.monitors[k := MonSignal(0, 1)][k := call] == w.monitors[k := call];
  }

  /** A monitor left to itself when its socket is ready: it runs once through its loop and sets its clear event. */
  lemma DeliveryRunsThrough(w: World, k: nat)
    requires MonPcOf(w, k) == MonLook
    requires var e := RowAt(w.rows, k).event; e != NULL_HANDLE && e in w.ev.events && w.ev.events[e] == P.Event(0, false, None)
    ensures var e := RowAt(w.rows, k).event; var w' := Exec(w, RoundMoves(k));
      && Legal(w, RoundMoves(k))
      && w'.ev.events == w.ev.events[e := P.Event(1, true, None)]
      && w'.signals == w.signals + [Signal(k, e)]
      && MonPcOf(w', k) == MonLook
      && w'.list == w.list && w'.rows == w.rows && w'.log == w.log && w'.selects == w.selects && w'.holder == w.holder
  {
    hide Legal, Exec, After, Enabled, EventMoves, P.Legal, P.Exec, P.Enabled, P.After;
    var e, step := RowAt(w.rows, k).event, P.Step(Monitor(k), false);
    var steps := [step] + ([step] + ([step] + ([step] + ([step] + []))));
    P.SetSteps(Calling(w, k).ev, Monitor(k), e);
    var done := Calling(w, k).(ev := P.Exec(Calling(w, k).ev, steps));
    RoundEnds(done, k);
    assert forall m | m in steps :: m == step;
    EventMovesRun(Calling(w, k), steps, [Resume(k)] + ([ReadEvent(k)] + []));
    RoundBegins(w, k, EventMoves(steps) + ([Resume(k)] + ([ReadEvent(k)] + [])));
  }

  /** The end of a round: the call returns and no event is left. */
  lemma RoundEnds(w: World, k: nat)
    requires MonPcOf(w, k).MonCall? && MonPcOf(w, k).i == 0 && MonPcOf(w, k).n == 1 && P.PcOf(w.ev, Monitor(k)).Finished?
    ensures var tail := [Resume(k)] + ([ReadEvent(k)] + []);
      && Legal(w, tail)
      && Exec(w, tail) == GotoMon(w, k, MonLook).(ev := P.Goto(w.ev, Monitor(k), P.Idle))
  {
    hide Legal, Exec, SelectAfter;
    var w1 := GotoMon(w, k, MonRead(1, 1)).(ev := P.Goto(w.ev, Monitor(k), P.Idle));
    var w2 := GotoMon(w1, k, MonLook);
    assert w.monitors[k := MonRead(1, 1)][k := MonLook] == w.monitors[k := MonLook];
    NoMoves(w2);
    LegalCons(w1, ReadEvent(k), []);
    LegalCons(w, Resume(k), [ReadEvent(k)] + []);
  }

  /** The moves of one whole registration of a new socket. */
  function RegisterMoves(t: Thread, r: Registration, newId: nat): seq<Move> {
    var step := SelectStep(t, true, newId);
    [Select(t, r)] + ([step] + ([step] + ([step] + ([step] + ([step] + ([SelectReturn(t)] + []))))))
  }

  /** A first registration left to itself: it succeeds, its entry is in front, and its monitor started. */
  lemma RegistrationRunsThrough(w: World, t: Thread, r: Registration, newId: nat)
    requires w.holder == None && SelPcOf(w, t) == NotIn && Known(w.ev, r.event)
    requires newId !in w.rows && RowOf(Table(w.list, w.rows), r.sock) == |w.list|
    ensures var w' := Exec(w, RegisterMoves(t, r, newId));
      && Legal(w, RegisterMoves(t, r, newId))
      && w' == w.(list := [newId] + w.list, rows := w.rows[newId := NewRow(r)], log := w.log + [r],
                  monitors := w.monitors[newId := MonLook], selects := w.selects[t := NotIn])
  {
    hide Legal, Exec, Interest, P.Enabled, P.After, RowOf, Table;
    var step := SelectStep(t, true, newId);
    var w1, w2 := GotoSel(w, t, SelEntry(r)), GotoSel(w, t, SelScan(r)).(holder := Some(t));
    var w3 := GotoSel(w, t, SelCreate(r)).(holder := Some(t));
    var w4 := GotoSel(w, t, SelSpawn(r, newId, w.list)).(holder := Some(t), list := [newId] + w.list, rows := w.rows[newId := NewRow(r)]);
    var w5 := GotoSel(w4, t, SelUnlock(r, true)).(monitors := w.monitors[newId := MonLook], log := w.log + [r]);
    var w6 := GotoSel(w5, t, SelDone(r, true)).(holder := None);
    var w7 := GotoSel(w6, t, NotIn);
    CallStages(w, t, r, newId);
    NoMoves(w7);
    LegalCons(w6, SelectReturn(t), []);
    LegalCons(w5, step, [SelectReturn(t)] + []);
    LegalCons(w4, step, [step] + ([SelectReturn(t)] + []));
    LegalCons(w3, step, [step] + ([step] + ([SelectReturn(t)] + [])));
    LegalCons(w2, step, [step] + ([step] + ([step] + ([SelectReturn(t)] + []))));
    LegalCons(w1, step, [step] + ([step] + ([step] + ([step] + ([SelectReturn(t)] + [])))));
    LegalCons(w, Select(t, r), [step] + ([step] + ([step] + ([step] + ([step] + ([SelectReturn(t)] + []))))));
    assert w7.selects == w.selects[t := NotIn];
  }

  lemma CallStages(w: World, t: Thread, r: Registration, newId: nat)
    requires w.holder == None && newId !in w.rows && RowOf(Table(w.list, w.rows), r.sock) == |w.list|
    ensures var w1, w2 := GotoSel(w, t, SelEntry(r)), GotoSel(w, t, SelScan(r)).(holder := Some(t));
      var w3 := GotoSel(w, t, SelCreate(r)).(holder := Some(t));
      var w4 := GotoSel(w, t, SelSpawn(r, newId, w.list)).(holder := Some(t), list := [newId] + w.list, rows := w.rows[newId := NewRow(r)]);
      && SelectAfter(w1, t, true, newId) == w2
      && SelectAfter(w2, t, true, newId) == w3
      && SelectAfter(w3, t, true, newId) == w4
  {
    hide RowOf, Table, Interest;
    assert w.selects[t := SelEntry(r)][t := SelScan(r)] == w.selects[t := SelScan(r)];
    assert w.selects[t := SelScan(r)][t := SelCreate(r)] == w.selects[t := SelCreate(r)];
    assert w.selects[t := SelCreate(r)][t := SelSpawn(r, newId, w.list)] == w.selects[t := SelSpawn(r, newId, w.list)];
  }
}
