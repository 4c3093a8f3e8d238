/** Event objects as the library keeps them: a flag in memory and a counter in the kernel. */
module EventObjects {
  import opened Winsock
  import opened EventSpec
  import EventProtocol

  const FD_SETSIZE := 1024

  /** The eventfd counters of the process, by descriptor. */
  class Kernel {
    var counters: map<int, nat>

    constructor ()
      ensures counters == map[]
    {
      counters := map[];
    }

    /** A non-blocking write of 8 bytes: adds to the counter unless it would overflow. */
    method Write(fd: int, val: nat) returns (written: int)
      requires fd in counters
      modifies this
      ensures counters.Keys == old(counters).Keys
      ensures old(counters)[fd] + val <= EventProtocol.EVENTFD_MAX ==>
                written == 8 && counters == old(counters)[fd := old(counters)[fd] + val]
      ensures old(counters)[fd] + val > EventProtocol.EVENTFD_MAX ==> written == -1 && counters == old(counters)
    {
      if counters[fd] + val > EventProtocol.EVENTFD_MAX { return -1; }
      counters := counters[fd := counters[fd] + val];
      written := 8;
    }

    /** A non-blocking read of 8 bytes: takes the whole counter, or fails when it is zero. */
    method Read(fd: int) returns (got: int)
      requires fd in counters
      modifies this
      ensures got == if old(counters)[fd] > 0 then 8 else -1
      ensures counters == old(counters)[fd := 0]
    {
      got := if counters[fd] > 0 then 8 else -1;
      counters := counters[fd := 0];
    }
  }

  class EventObject {
    const eventfd: int
    var signaled: bool

    constructor (eventfd: int)
      ensures this.eventfd == eventfd && !signaled
    {
      this.eventfd, signaled := eventfd, false;
    }

    /** The two copies agree, as they do whenever the mutex is free. */
    predicate Valid(k: Kernel)
      reads this, k
    {
      eventfd in k.counters && k.counters[eventfd] == if signaled then 1 else 0
    }
  }

  /** WSASetEvent run without interference, as under the event mutex. */
  method SetEvent(event: EventObject?, k: Kernel) returns (answer: Answer)
    requires event != null ==> event.Valid(k)
    modifies k, event
    ensures answer == if event == null then Answer(FALSE, WSA_INVALID_HANDLE) else Answer(TRUE, 0)
    ensures event == null ==> k.counters == old(k.counters)
    ensures event != null ==>
      event.Valid(k) && event.signaled && k.counters == old(k.counters)[event.eventfd := 1]
  {
    if event == null { return Answer(FALSE, WSA_INVALID_HANDLE); }
    if !event.signaled {
      var written := k.Write(event.eventfd, 1);
      if written != 8 { return Answer(FALSE, WSAENETDOWN); }
      event.signaled := true;
    }
    return Answer(TRUE, 0);
  }

  /** WSAResetEvent run without interference, with its drain loop. */
  method ResetEvent(event: EventObject?, k: Kernel) returns (answer: Answer)
    requires event != null ==> event.Valid(k)
    modifies k, event
    ensures answer == if event == null then Answer(FALSE, WSA_INVALID_HANDLE) else Answer(TRUE, 0)
    ensures event == null ==> k.counters == old(k.counters)
    ensures event != null ==>
      event.Valid(k) && !event.signaled && k.counters == old(k.counters)[event.eventfd := 0]
  {
    if event == null { return Answer(FALSE, WSA_INVALID_HANDLE); }
    if event.signaled {
      var got := k.Read(event.eventfd);
      while got == 8
        invariant event.eventfd in k.counters && k.counters == old(k.counters)[event.eventfd := 0]
        decreases got
      {
        got := k.Read(event.eventfd);
      }
      event.signaled := false;
    }
    return Answer(TRUE, 0);
  }

  datatype Timeval = Timeval(sec: nat, usec: nat)

  /** The descriptors select leaves in the set: below nfds and readable. */
  function SelectReady(nfds: int, fds: set<int>, counters: map<int, nat>): set<int> {
    set fd | fd in fds && fd < nfds && fd in counters && counters[fd] > 0
  }

  /** The events of a call as the wait sees them through the counters. */
  function Seen(events: seq<EventObject?>, counters: map<int, nat>): View {
    seq(|events|, i requires 0 <= i < |events| =>
      if events[i] == null then None else Some(events[i].eventfd in counters && counters[events[i].eventfd] > 0))
  }

  /** Every event's descriptor fits an fd_set. */
  predicate Selectable(events: seq<EventObject?>) {
    forall i | 0 <= i < |events| && events[i] != null :: 0 <= events[i].eventfd < FD_SETSIZE
  }

  /** The first loop: all descriptors in the set and at most maxFd, or a NULL handle found. */
  method CollectFds(events: seq<EventObject?>) returns (ok: bool, readfds: set<int>, maxFd: int)
    ensures ok <==> forall i | 0 <= i < |events| :: events[i] != null
    ensures ok ==> forall i | 0 <= i < |events| :: events[i].eventfd in readfds && events[i].eventfd <= maxFd
    ensures ok ==> forall fd | fd in readfds :: exists i :: 0 <= i < |events| && events[i] != null && events[i].eventfd == fd
  {
    readfds, maxFd, ok := {}, -1, true;
    for i := 0 to |events|
      invariant ok
      invariant forall j | 0 <= j < i :: events[j] != null && events[j].eventfd in readfds && events[j].eventfd <= maxFd
      invariant forall fd | fd in readfds :: exists j :: 0 <= j < i && events[j] != null && events[j].eventfd == fd
    {
      var event := events[i];
      if event == null { return false, readfds, maxFd; }
      readfds := readfds + {event.eventfd};
      if event.eventfd > maxFd { maxFd := event.eventfd; }
    }
  }

  /** The last loop: the least index whose descriptor select left in the set. */
  method FirstInSet(events: seq<EventObject?>, ready: set<int>) returns (i: nat)
    requires forall j | 0 <= j < |events| :: events[j] != null
    ensures i <= |events|
    ensures i < |events| ==> events[i].eventfd in ready
    ensures forall j | 0 <= j < i :: events[j].eventfd !in ready
  {
    i := 0;
    while i < |events|
      invariant i <= |events|
      invariant forall j | 0 <= j < i :: events[j].eventfd !in ready
    {
      if events[i].eventfd in ready { break; }
      i := i + 1;
    }
  }

  /** The millisecond timeout split for select. */
  function TimevalOf(timeout: nat): (tv: Timeval)
    ensures tv.usec < 1_000_000 && tv.sec * 1_000_000 + tv.usec == 1000 * timeout
  {
    Timeval(timeout / 1000, (timeout % 1000) * 1000)
  }

  /** The events a call names: none for a NULL array, whatever count says. */
  function Named(handles: Option<seq<EventObject?>>): seq<EventObject?> {
    if handles.Some? then handles.value else []
  }

  /**
    WSAWaitForMultipleEvents over the counters at the instant select returns. The answer is one
    the atomic events allow, and a failure with good arguments comes from select alone.
    With WSA_INFINITE select only returns on an error or with an event ready. waitAll and
    alertable are the parameters the code ignores.
    */
  method WaitForMultipleEvents(count: nat, handles: Option<seq<EventObject?>>, waitAll: bool, timeout: nat, alertable: bool,
                               counters: map<int, nat>, selectFails: bool)
    returns (answer: Answer, passed: Option<Timeval>)
    requires timeout <= WSA_INFINITE && Selectable(Named(handles)) && (handles.Some? ==> |handles.value| == count)
    requires timeout == WSA_INFINITE && !selectFails && WaitArgumentsOk(Seen(Named(handles), counters)) ==>
               !NoneSet(Seen(Named(handles), counters))
    ensures WaitMayAnswer(Seen(Named(handles), counters), timeout == WSA_INFINITE, selectFails, answer)
    ensures handles == None ==> answer == Answer(WSA_WAIT_FAILED, WSA_INVALID_PARAMETER) && passed == None
    ensures WaitArgumentsOk(Seen(Named(handles), counters)) ==>
              (answer == Answer(WSA_WAIT_FAILED, WSAENETDOWN) <==> selectFails)
    ensures WaitArgumentsOk(Seen(Named(handles), counters)) ==>
              passed == if timeout == WSA_INFINITE then None else Some(TimevalOf(timeout))
  {
    passed := None;
    if count == 0 || count > WSA_MAXIMUM_WAIT_EVENTS || handles == None {
      return Answer(WSA_WAIT_FAILED, WSA_INVALID_PARAMETER), None;
    }
    var events := handles.value;
    ghost var view := Seen(events, counters);
    var ok, readfds, maxFd := CollectFds(events);
    if !ok {
      ghost var j :| 0 <= j < |events| && events[j] == null;
      assert view[j] == None;
      return Answer(WSA_WAIT_FAILED, WSA_INVALID_HANDLE), None;
    }
    if timeout != WSA_INFINITE { passed := Some(TimevalOf(timeout)); }
    if selectFails { return Answer(WSA_WAIT_FAILED, WSAENETDOWN), passed; }

    var ready := SelectReady(maxFd + 1, readfds, counters);
    assert forall j | 0 <= j < |events| :: events[j].eventfd in ready <==> view[j] == Some(true);
    answer := Answer(WSA_WAIT_TIMEOUT, 0);
    if ready != {} {
      var i := FirstInSet(events, ready);
      if i < |events| {
        assert FirstSet(view, i);
        answer := Answer(WSA_WAIT_EVENT_0 + i, 0);
      }
    }
  }
}
