/**
  What the socket registration list means: the fold of all successful
  WSAEventSelect calls, newest socket first.
  */
module RegistrationTable {
  import opened EventSpec

  const FD_READ: bv64 := 0x01
  const FD_WRITE: bv64 := 0x02
  const FD_OOB: bv64 := 0x04
  const FD_ACCEPT: bv64 := 0x08
  const FD_CONNECT: bv64 := 0x10
  const FD_CLOSE: bv64 := 0x20

  const EPOLLIN: bv32 := 0x001
  const EPOLLPRI: bv32 := 0x002
  const EPOLLOUT: bv32 := 0x004
  const EPOLLRDHUP: bv32 := 0x2000

  datatype Registration = Registration(sock: int, event: Handle, mask: bv64)

  /** One list entry, with the interest set its epoll instance was created with. */
  datatype Row = Row(sock: int, event: Handle, mask: bv64, interest: bv32)

  /** Each network event is watched through exactly one epoll flag, and no other flag is asked for. */
  function Interest(mask: bv64): (flags: bv32)
    ensures flags & EPOLLIN != 0 <==> mask & (FD_READ | FD_ACCEPT) != 0
    ensures flags & EPOLLOUT != 0 <==> mask & (FD_WRITE | FD_CONNECT) != 0
    ensures flags & EPOLLPRI != 0 <==> mask & FD_OOB != 0
    ensures flags & EPOLLRDHUP != 0 <==> mask & FD_CLOSE != 0
    ensures flags & !(EPOLLIN | EPOLLOUT | EPOLLPRI | EPOLLRDHUP) == 0
  {
    (if mask & (FD_READ | FD_ACCEPT) != 0 then EPOLLIN else 0)
    | (if mask & (FD_WRITE | FD_CONNECT) != 0 then EPOLLOUT else 0)
    | (if mask & FD_OOB != 0 then EPOLLPRI else 0)
    | (if mask & FD_CLOSE != 0 then EPOLLRDHUP else 0)
  }

  /** The first position of the socket, or the length when it is absent. */
  function RowOf(table: seq<Row>, sock: int): (i: nat)
    ensures i <= |table|
    ensures i < |table| ==> table[i].sock == sock
    ensures forall j: nat | j < i :: table[j].sock != sock
  {
    if table == [] || table[0].sock == sock then 0 else 1 + RowOf(table[1..], sock)
  }

  function NewRow(r: Registration): Row {
    Row(r.sock, r.event, r.mask, Interest(r.mask))
  }

  /** A successful call: an existing entry gets the new event and mask but keeps its epoll interest. */
  function Register(table: seq<Row>, r: Registration): seq<Row> {
    var i := RowOf(table, r.sock);
    if i < |table| then table[i := table[i].(event := r.event, mask := r.mask)]
    else [NewRow(r)] + table
  }

  function TableOf(log: seq<Registration>): seq<Row> {
    if log == [] then [] else Register(TableOf(log[..|log| - 1]), log[|log| - 1])
  }

  predicate DistinctSockets(table: seq<Row>) {
    forall i, j | 0 <= i < j < |table| :: table[i].sock != table[j].sock
  }

  /** Entry i is the first registration of its socket in the log. */
  predicate IsFirst(log: seq<Registration>, i: nat) {
    i < |log| && forall j: nat | j < i :: log[j].sock != log[i].sock
  }

  /** Entry i is the latest registration of its socket in the log. */
  predicate IsLatest(log: seq<Registration>, i: nat) {
    i < |log| && forall j: nat | i < j < |log| :: log[j].sock != log[i].sock
  }

  /** The row holds the latest event and mask of its socket, and the interest of the first mask. */
  ghost predicate Describes(log: seq<Registration>, row: Row) {
    && (exists i: nat :: IsLatest(log, i) && log[i] == Registration(row.sock, row.event, row.mask))
    && (exists i: nat :: IsFirst(log, i) && log[i].sock == row.sock && row.interest == Interest(log[i].mask))
  }

  lemma AppendLatest(log: seq<Registration>, r: Registration, i: nat)
    requires IsLatest(log, i) && log[i].sock != r.sock
    ensures IsLatest(log + [r], i)
  {
  }

  lemma AppendFirst(log: seq<Registration>, r: Registration, i: nat)
    requires IsFirst(log, i)
    ensures IsFirst(log + [r], i)
  {
  }

  /** A call about another socket leaves a row's description valid. */
  lemma DescribesOther(log: seq<Registration>, r: Registration, row: Row)
    requires Describes(log, row) && row.sock != r.sock
    ensures Describes(log + [r], row)
  {
    var i: nat :| IsLatest(log, i) && log[i] == Registration(row.sock, row.event, row.mask);
    AppendLatest(log, r, i);
    assert (log + [r])[i] == log[i];
    var k: nat :| IsFirst(log, k) && log[k].sock == row.sock && row.interest == Interest(log[k].mask);
    AppendFirst(log, r, k);
    assert (log + [r])[k] == log[k];
  }

  /** Registering a known socket again: newest event and mask, oldest interest. */
  lemma DescribesUpdated(log: seq<Registration>, r: Registration, row: Row)
    requires Describes(log, row) && row.sock == r.sock
    ensures Describes(log + [r], row.(event := r.event, mask := r.mask))
  {
    assert IsLatest(log + [r], |log|) && (log + [r])[|log|] == r;
    var k: nat :| IsFirst(log, k) && log[k].sock == row.sock && row.interest == Interest(log[k].mask);
    AppendFirst(log, r, k);
    assert (log + [r])[k] == log[k];
  }

  lemma DescribesNew(log: seq<Registration>, r: Registration)
    requires forall i | 0 <= i < |log| :: log[i].sock != r.sock
    ensures Describes(log + [r], NewRow(r))
  {
    assert IsLatest(log + [r], |log|) && IsFirst(log + [r], |log|) && (log + [r])[|log|] == r;
  }

  /** The table of a log, as properties of the log. */
  ghost predicate Faithful(log: seq<Registration>, table: seq<Row>) {
    && DistinctSockets(table)
    && (forall row | row in table :: Describes(log, row))
    && (forall r | r in log :: RowOf(table, r.sock) < |table|)
  }

  /** Registering keeps the table faithful to the extended log. */
  lemma RegisterFaithful(log: seq<Registration>, table: seq<Row>, r: Registration)
    requires Faithful(log, table)
    ensures Faithful(log + [r], Register(table, r))
  {
    var log', table' := log + [r], Register(table, r);
    var i := RowOf(table, r.sock);
    forall row | row in table'
      ensures Describes(log', row)
    {
      if i < |table| {
        var k :| 0 <= k < |table'| && table'[k] == row;
        assert table[k] in table;
        if k == i { DescribesUpdated(log, r, table[i]); } else { DescribesOther(log, r, row); }
      } else if row == NewRow(r) {
        assert forall j | 0 <= j < |log| :: log[j] in log;
        DescribesNew(log, r);
      } else {
        assert row in table;
        var k :| 0 <= k < |table| && table[k] == row;
        DescribesOther(log, r, row);
      }
    }
    forall q | q in log'
      ensures RowOf(table', q.sock) < |table'|
    {
      if q.sock == r.sock {
        assert table'[if i < |table| then i else 0].sock == q.sock;
      } else {
        var k := RowOf(table, q.sock);
        assert q in log;
        assert table'[if i < |table| then k else k + 1].sock == q.sock;
      }
    }
  }

  /**
    After any calls, the list has exactly one entry per socket ever registered, holding the
    socket's latest event and mask and the epoll interest of its first mask.
    */
  lemma {:induction false} TableIsFaithful(log: seq<Registration>)
    ensures Faithful(log, TableOf(log))
    decreases |log|
  {
    if log != [] {
      var front, last := log[..|log| - 1], log[|log| - 1];
      TableIsFaithful(front);
      RegisterFaithful(front, TableOf(front), last);
      assert front + [last] == log;
    }
  }

  /**
    The list watches a socket for what its latest mask asks exactly when that mask asks for the
    same epoll flags as the first one did.
    */
  lemma InterestCurrentIff(log: seq<Registration>, row: Row, first: nat, latest: nat)
    requires row in TableOf(log) && IsFirst(log, first) && IsLatest(log, latest)
    requires log[first].sock == log[latest].sock == row.sock
    ensures row.interest == Interest(row.mask) <==> Interest(log[first].mask) == Interest(log[latest].mask)
  {
    hide Interest;
    TableIsFaithful(log);
    assert Describes(log, row);
    var i: nat :| IsLatest(log, i) && log[i] == Registration(row.sock, row.event, row.mask);
    var k: nat :| IsFirst(log, k) && log[k].sock == row.sock && row.interest == Interest(log[k].mask);
    assert i == latest && k == first;
  }

  /** Registering a socket twice keeps the interest of the first mask. */
  lemma SecondMaskUnwatched(sock: int, h: Handle, g: Handle, first: bv64, second: bv64)
    ensures TableOf([Registration(sock, h, first), Registration(sock, g, second)]) == [Row(sock, g, second, Interest(first))]
  {
    hide Interest;
    var r, q := Registration(sock, h, first), Registration(sock, g, second);
    TableOfAppend([], r);
    TableOfAppend([r], q);
    assert [] + [r] == [r] && [r] + [q] == [r, q];
    assert TableOf([r]) == [NewRow(r)];
  }

  /** For instance: registered for reading and then for writing, a socket is watched for reading only. */
  lemma StaleInterest(sock: int, h: Handle, g: Handle)
    ensures TableOf([Registration(sock, h, FD_READ), Registration(sock, g, FD_WRITE)]) == [Row(sock, g, FD_WRITE, EPOLLIN)]
    ensures Interest(FD_WRITE) == EPOLLOUT
  {
    SecondMaskUnwatched(sock, h, g, FD_READ, FD_WRITE);
    OneFlag();
  }

  lemma OneFlag()
    ensures Interest(FD_READ) == EPOLLIN && Interest(FD_WRITE) == EPOLLOUT
  {
  }

  lemma TableOfAppend(log: seq<Registration>, r: Registration)
    ensures TableOf(log + [r]) == Register(TableOf(log), r)
  {
    assert (log + [r])[..|log|] == log;
  }
}

/** The registration list as linked nodes, and WSAEventSelect on it. */
module EventSelectList {
  import opened Winsock
  import opened EventSpec
  import opened RegistrationTable

  class SocketEventMap {
    var sock: int
    var event: Handle
    var networkEvents: bv64
    var interest: bv32
    var next: SocketEventMap?

    constructor (r: Registration, interest: bv32, next: SocketEventMap?)
      ensures sock == r.sock && event == r.event && networkEvents == r.mask
      ensures this.interest == interest && this.next == next
    {
      sock, event, networkEvents := r.sock, r.event, r.mask;
      this.interest, this.next := interest, next;
    }

    function AsRow(): Row
      reads this
    {
      Row(sock, event, networkEvents, interest)
    }
  }

  /** Which of the resources a new registration needs could be had. */
  datatype Resources = Resources(malloc: bool, epollCreate: bool, epollCtl: bool, thread: bool)

  class EventSelectList {
    var head: SocketEventMap?
    ghost var nodes: seq<SocketEventMap>

    /** nodes is the chain from head: no node twice, so no cycle, and null after the last. */
    ghost predicate Valid()
      reads this, nodes
    {
      && (forall i, j | 0 <= i < j < |nodes| :: nodes[i] != nodes[j])
      && head == (if nodes == [] then null else nodes[0])
      && (forall i {:trigger nodes[i].next} | 0 <= i < |nodes| ::
            nodes[i].next == (if i + 1 < |nodes| then nodes[i + 1] else null))
    }

    ghost function Rows(): seq<Row>
      reads this, nodes
    {
      seq(|nodes|, i requires 0 <= i < |nodes| reads this, nodes => nodes[i].AsRow())
    }

    constructor ()
      ensures Valid() && Rows() == []
    {
      head, nodes := null, [];
    }

    /** The scan for a socket's entry. */
    method Find(sock: int) returns (existing: SocketEventMap?, ghost i: nat)
      requires Valid()
      ensures i == RowOf(Rows(), sock)
      ensures existing == (if i < |nodes| then nodes[i] else null)
    {
      existing, i := head, 0;
      while existing != null
        invariant i <= |nodes|
        invariant existing == (if i < |nodes| then nodes[i] else null)
        invariant forall j | 0 <= j < i :: nodes[j].sock != sock
        decreases |nodes| - i
      {
        if existing.sock == sock { break; }
        existing, i := existing.next, i + 1;
      }
      assert forall j | 0 <= j < |nodes| :: Rows()[j].sock == nodes[j].sock;
    }

    /** Link a new entry and start its monitor; unlink it again if the thread cannot be created. */
    method Insert(r: Registration, threadCreated: bool)
      requires Valid()
      modifies this
      ensures Valid()
      ensures if threadCreated then |nodes| > 0 && fresh(nodes[0]) && nodes[1..] == old(nodes) else nodes == old(nodes)
      ensures Rows() == if threadCreated then [NewRow(r)] + old(Rows()) else old(Rows())
    {
      var map' := new SocketEventMap(r, Interest(r.mask), head);
      head := map';
      nodes := [map'] + nodes;
      if !threadCreated {
        head := map'.next;
        nodes := nodes[1..];
        assert nodes == old(nodes);
      }
    }

    /** WSAEventSelect, from taking the list mutex to releasing it. */
    method EventSelect(r: Registration, res: Resources) returns (answer: Answer)
      requires Valid()
      modifies this, nodes
      ensures Valid()
      ensures answer ==
        if RowOf(old(Rows()), r.sock) < |old(Rows())| || res == Resources(true, true, true, true) then Answer(0, 0)
        else Answer(SOCKET_ERROR, if res.malloc then WSAENETDOWN else WSA_NOT_ENOUGH_MEMORY)
      ensures Rows() == if answer.value == 0 then Register(old(Rows()), r) else old(Rows())
      ensures nodes == old(nodes) || (|nodes| > 0 && fresh(nodes[0]) && nodes[1..] == old(nodes))
    {
      var existing, i := Find(r.sock);
      if existing != null {
        existing.event := r.event;
        existing.networkEvents := r.mask;
        assert Rows() == Register(old(Rows()), r);
        return Answer(0, 0);
      }
      if !res.malloc { return Answer(SOCKET_ERROR, WSA_NOT_ENOUGH_MEMORY); }
      if !res.epollCreate || !res.epollCtl { return Answer(SOCKET_ERROR, WSAENETDOWN); }
      Insert(r, res.thread);
      return if res.thread then Answer(0, 0) else Answer(SOCKET_ERROR, WSAENETDOWN);
    }
  }
}
