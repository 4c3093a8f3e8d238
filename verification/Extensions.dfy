/** AcceptEx and GetAcceptExSockaddrs: three regions in the caller's output buffer. */
module AcceptBuffer {
  import opened Winsock
  import opened Decimals
  import opened StreamSpec

  const SOCKADDR_STORAGE := 128

  /** What the system calls behind AcceptEx give: both addresses as stored, and recv's bytes or error. */
  datatype Arrival =
    | AcceptFails
    | Dup2Fails
    | Connected(local: seq<Byte>, remote: seq<Byte>, data: Option<seq<Byte>>)

  /** The address lengths the caller reserved, and the room for data. */
  datatype Sizes = Sizes(data: nat, local: nat, remote: nat)

  predicate ArrivalOk(arrival: Arrival, z: Sizes) {
    arrival.Connected? ==>
      && |arrival.local| == |arrival.remote| == SOCKADDR_STORAGE
      && (arrival.data.Some? ==> |arrival.data.value| <= z.data)
  }

  /** The buffer after the three copies, in the order they are made: data, local, remote. */
  function Filled(mem: seq<Byte>, z: Sizes, local: seq<Byte>, remote: seq<Byte>, data: seq<Byte>): (mem': seq<Byte>)
    requires FilledFits(mem, z, local, remote, data)
    ensures |mem'| == |mem|
  {
    Poke(Poke(Poke(mem, z.local + z.remote, data), 0, local[..z.local]), z.local, remote[..z.remote])
  }

  /** Where GetAcceptExSockaddrs says the two addresses are. */
  function LocalRange(z: Sizes): Buf { Buf(0, z.local) }
  function RemoteRange(z: Sizes): Buf { Buf(z.local, z.remote) }

  function Range(mem: seq<Byte>, b: Buf): seq<Byte>
    requires b.base + b.len <= |mem|
  {
    mem[b.base..b.base + b.len]
  }

  /** The range lies in the buffer and holds these bytes. */
  predicate Reads(mem: seq<Byte>, b: Buf, content: seq<Byte>) {
    b.base + b.len <= |mem| && Range(mem, b) == content
  }

  /** The lengths are those of stored addresses, and everything fits the buffer. */
  predicate FilledFits(mem: seq<Byte>, z: Sizes, local: seq<Byte>, remote: seq<Byte>, data: seq<Byte>) {
    && z.local + z.remote + |data| <= |mem|
    && |local| == |remote| == SOCKADDR_STORAGE && z.local <= SOCKADDR_STORAGE && z.remote <= SOCKADDR_STORAGE
  }

  /**
    The three regions do not disturb each other: the ranges handed out later hold exactly the
    two addresses, the received bytes survive both address copies, and the rest is untouched.
    */
  lemma RegionsHold(mem: seq<Byte>, z: Sizes, local: seq<Byte>, remote: seq<Byte>, data: seq<Byte>)
    requires FilledFits(mem, z, local, remote, data)
    ensures var end := Filled(mem, z, local, remote, data); var at := z.local + z.remote;
      && Apart(LocalRange(z), RemoteRange(z))
      && Range(end, LocalRange(z)) == local[..z.local]
      && Range(end, RemoteRange(z)) == remote[..z.remote]
      && end[at..at + |data|] == data
      && end[at + |data|..] == mem[at + |data|..]
  {
    var at := z.local + z.remote;
    var end := Filled(mem, z, local, remote, data);
    assert end == local[..z.local] + remote[..z.remote] + data + mem[at + |data|..];
  }

  /** memcpy into the buffer at an offset. */
  method Memcpy(dst: array<Byte>, at: nat, src: seq<Byte>)
    requires at + |src| <= dst.Length
    modifies dst
    ensures dst[..] == Poke(old(dst[..]), at, src)
  {
    var i := 0;
    while i < |src|
      invariant i <= |src|
      invariant forall j | 0 <= j < dst.Length :: dst[j] == if at <= j < at + i then src[j - at] else old(dst[j])
    {
      dst[at + i] := src[i];
      i := i + 1;
    }
  }

  /** AcceptEx; out is null for a NULL output buffer, received is what was stored through the count pointer. */
  method AcceptEx(out: array?<Byte>, z: Sizes, wantCount: bool, arrival: Arrival)
    returns (answer: Answer, received: Option<nat>)
    requires ArrivalOk(arrival, z)
    requires out != null ==>
               z.local + z.remote + z.data <= out.Length && z.local <= SOCKADDR_STORAGE && z.remote <= SOCKADDR_STORAGE
    modifies out
    ensures answer ==
      if arrival.AcceptFails? then Answer(FALSE, WSAECONNREFUSED)
      else if arrival.Dup2Fails? then Answer(FALSE, WSAEINVAL)
      else if z.data > 0 && out != null && arrival.data == None then Answer(FALSE, WSAECONNRESET)
      else Answer(TRUE, 0)
    ensures answer.value == FALSE ==> received == None && (out != null ==> out[..] == old(out[..]))
    ensures answer.value == TRUE ==>
      var data := if z.data > 0 && out != null then arrival.data.value else [];
      && (received == if wantCount then Some(|data|) else None)
      && (out != null ==> out[..] == Filled(old(out[..]), z, arrival.local, arrival.remote, data))
  {
    received := None;
    if arrival.AcceptFails? { return Answer(FALSE, WSAECONNREFUSED), None; }
    if arrival.Dup2Fails? { return Answer(FALSE, WSAEINVAL), None; }
    var count := 0;
    if z.data > 0 && out != null {
      if arrival.data == None { return Answer(FALSE, WSAECONNRESET), None; }
      Memcpy(out, z.local + z.remote, arrival.data.value);
      count := |arrival.data.value|;
    } else if out != null {
      assert out[..] == Poke(out[..], z.local + z.remote, []);
    }
    if wantCount { received := Some(count); }
    if out != null {
      Memcpy(out, 0, arrival.local[..z.local]);
      Memcpy(out, z.local, arrival.remote[..z.remote]);
    }
    return Answer(TRUE, 0), received;
  }

  /**
    GetAcceptExSockaddrs: each range is stored when both of its pointers are given, and reads
    exactly the address that AcceptEx put there, whatever the buffer held before and whatever
    was received.
    */
  method GetAcceptExSockaddrs(z: Sizes, wantLocal: bool, wantRemote: bool) returns (local: Option<Buf>, remote: Option<Buf>)
    ensures local.Some? == wantLocal && remote.Some? == wantRemote
    ensures local.Some? ==> local.value.len == z.local
    ensures remote.Some? ==> remote.value.len == z.remote
    ensures forall mem, l, r, data | FilledFits(mem, z, l, r, data) ::
      && (local.Some? ==> Reads(Filled(mem, z, l, r, data), local.value, l[..z.local]))
      && (remote.Some? ==> Reads(Filled(mem, z, l, r, data), remote.value, r[..z.remote]))
  {
    local, remote := None, None;
    if wantLocal { local := Some(Buf(0, z.local)); }
    if wantRemote { remote := Some(Buf(z.local, z.remote)); }
    forall mem, l, r, data | FilledFits(mem, z, l, r, data)
      ensures Reads(Filled(mem, z, l, r, data), LocalRange(z), l[..z.local])
      ensures Reads(Filled(mem, z, l, r, data), RemoteRange(z), r[..z.remote])
    {
      RegionsHold(mem, z, l, r, data);
    }
  }

  /** AcceptEx and then GetAcceptExSockaddrs on the buffer it filled, with the same lengths. */
  method AcceptAndSplit(out: array<Byte>, z: Sizes, arrival: Arrival) returns (ok: bool, local: seq<Byte>, remote: seq<Byte>)
    requires ArrivalOk(arrival, z)
    requires z.local + z.remote + z.data <= out.Length && z.local <= SOCKADDR_STORAGE && z.remote <= SOCKADDR_STORAGE
    modifies out
    ensures ok <==> arrival.Connected? && (z.data > 0 ==> arrival.data.Some?)
    ensures ok ==> local == arrival.local[..z.local] && remote == arrival.remote[..z.remote]
    ensures !ok ==> out[..] == old(out[..])
  {
    local, remote := [], [];
    var answer, _ := AcceptEx(out, z, false, arrival);
    ok := answer.value == TRUE;
    if ok {
      var l, r := GetAcceptExSockaddrs(z, true, true);
      assert Reads(out[..], l.value, arrival.local[..z.local]) && Reads(out[..], r.value, arrival.remote[..z.remote]);
      local, remote := Range(out[..], l.value), Range(out[..], r.value);
    }
  }
}

/** TransmitPackets: memory and file elements sent one after the other. */
module PacketTransmission {
  import opened Winsock
  import opened Decimals

  const TP_ELEMENT_MEMORY: bv32 := 1
  const TP_ELEMENT_FILE: bv32 := 2

  /** An element: its flags, requested length, and the buffer or file it refers to. */
  datatype Element = Element(flags: bv32, length: nat, buffer: seq<Byte>, file: seq<Byte>, offset: nat)

  predicate ElementOk(e: Element) {
    e.flags & TP_ELEMENT_MEMORY != 0 ==> |e.buffer| == e.length
  }

  predicate Transfers(e: Element) {
    e.flags & TP_ELEMENT_MEMORY != 0 || e.flags & TP_ELEMENT_FILE != 0
  }

  /** What sendfile can take from a file: from the offset on, at most length bytes. */
  function FileRange(file: seq<Byte>, offset: nat, length: nat): (bytes: seq<Byte>)
    ensures |bytes| == if offset > |file| then 0 else if length < |file| - offset then length else |file| - offset
    ensures forall i | 0 <= i < |bytes| :: bytes[i] == file[offset + i]
  {
    if offset > |file| then [] else file[offset..if offset + length < |file| then offset + length else |file|]
  }

  /** The bytes an element stands for: memory takes precedence, a file gives what it has of the range. */
  function Payload(e: Element): (bytes: seq<Byte>)
    ensures e.flags & TP_ELEMENT_MEMORY != 0 ==> bytes == e.buffer
    ensures e.flags & TP_ELEMENT_MEMORY == 0 && e.flags & TP_ELEMENT_FILE != 0 ==>
      && |bytes| == (if e.offset > |e.file| then 0 else if e.length < |e.file| - e.offset then e.length else |e.file| - e.offset)
      && forall i | 0 <= i < |bytes| :: bytes[i] == e.file[e.offset + i]
    ensures !Transfers(e) ==> bytes == []
  {
    if e.flags & TP_ELEMENT_MEMORY != 0 then e.buffer
    else if e.flags & TP_ELEMENT_FILE != 0 then FileRange(e.file, e.offset, e.length)
    else []
  }

  /** For instance, with the flags as numbers: two bytes of a file from offset 2 on, and a buffer whatever the file. */
  lemma PayloadExamples()
    ensures Payload(Element(2, 2, [], [1, 2, 3, 4], 2)) == [3, 4]
    ensures Payload(Element(3, 1, [9], [1, 2, 3, 4], 2)) == [9]
    ensures Payload(Element(4, 1, [9], [1, 2, 3, 4], 2)) == []
  {
    assert FileRange([1, 2, 3, 4], 2, 2) == [3, 4];
    assert 3 as bv32 & TP_ELEMENT_MEMORY != 0 && 2 as bv32 & TP_ELEMENT_FILE != 0;
  }

  /** What send or sendfile did for an element: moved that many bytes, or failed. */
  type Outcome = Option<nat>

  predicate OutcomesOk(es: seq<Element>, os: seq<Outcome>) {
    |os| == |es| && forall i | 0 <= i < |es| :: os[i].Some? ==> os[i].value <= |Payload(es[i])|
  }

  /** The first element whose transfer fails, or the length when none does. */
  function FirstFailure(es: seq<Element>, os: seq<Outcome>): (i: nat)
    requires |os| == |es|
    ensures i <= |es|
    ensures i < |es| ==> Transfers(es[i]) && os[i] == None
    ensures forall j: nat | j < i :: Transfers(es[j]) ==> os[j].Some?
  {
    if es == [] || (Transfers(es[0]) && os[0] == None) then 0 else 1 + FirstFailure(es[1..], os[1..])
  }

  /** All bytes of the elements, in order. */
  function Whole(es: seq<Element>): seq<Byte> {
    if es == [] then [] else Whole(es[..|es| - 1]) + Payload(es[|es| - 1])
  }

  function Moved(e: Element, o: Outcome): nat {
    if Transfers(e) && o.Some? then o.value else 0
  }

  /** The bytes that went out. */
  function Sent(es: seq<Element>, os: seq<Outcome>): seq<Byte>
    requires OutcomesOk(es, os)
  {
    if es == [] then []
    else
      var n := |es| - 1;
      Sent(es[..n], os[..n]) + Payload(es[n])[..Moved(es[n], os[n])]
  }

  predicate AllMovedFully(es: seq<Element>, os: seq<Outcome>)
    requires |os| == |es|
  {
    forall i | 0 <= i < |es| :: Moved(es[i], os[i]) == |Payload(es[i])|
  }

  /** Partial transfers only lose bytes, and lose none exactly when every transfer was full. */
  lemma {:induction false} SentLength(es: seq<Element>, os: seq<Outcome>)
    requires OutcomesOk(es, os)
    ensures |Sent(es, os)| <= |Whole(es)|
    ensures |Sent(es, os)| == |Whole(es)| <==> AllMovedFully(es, os)
    ensures AllMovedFully(es, os) ==> Sent(es, os) == Whole(es)
    decreases |es|
  {
    hide Payload, Moved, AllMovedFully;
    if es == [] {
      NothingMoved(es, os);
    } else {
      var n := |es| - 1;
      SentLength(es[..n], os[..n]);
      LastMoved(es, os);
    }
  }

  lemma NothingMoved(es: seq<Element>, os: seq<Outcome>)
    requires |os| == |es| == 0
    ensures AllMovedFully(es, os)
  {
  }

  lemma LastMoved(es: seq<Element>, os: seq<Outcome>)
    requires OutcomesOk(es, os) && es != []
    ensures var n := |es| - 1;
      && Moved(es[n], os[n]) <= |Payload(es[n])|
      && (AllMovedFully(es, os) <==> AllMovedFully(es[..n], os[..n]) && Moved(es[n], os[n]) == |Payload(es[n])|)
  {
    hide Payload;
    var n := |es| - 1;
    assert forall i | 0 <= i < n :: es[..n][i] == es[i] && os[..n][i] == os[i];
    assert AllMovedFully(es[..n], os[..n]) ==> forall i | 0 <= i < n :: Moved(es[..n][i], os[..n][i]) == |Payload(es[..n][i])|;
  }

  lemma WholeLast(es: seq<Element>)
    requires es != []
    ensures Whole(es) == Whole(es[..|es| - 1]) + Payload(es[|es| - 1])
  {
  }

  lemma {:induction false} WholeSplit(es: seq<Element>, k: nat)
    requires k <= |es|
    ensures Whole(es) == Whole(es[..k]) + Whole(es[k..])
    decreases |es|
  {
    hide Whole, Payload;
    if k == |es| {
      assert es[..k] == es && es[k..] == [];
      assert Whole([]) == [] by { NothingWhole(); }
    } else {
      var n := |es| - 1;
      WholeSplit(es[..n], k);
      WholeLast(es);
      WholeLast(es[k..]);
      assert es[..n][..k] == es[..k] && es[..n][k..] == es[k..][..n - k] && es[k..][n - k] == es[n];
      Append3(Whole(es[..k]), Whole(es[k..][..n - k]), Payload(es[n]));
    }
  }

  lemma NothingWhole()
    ensures Whole([]) == []
  {
  }

  /** What TransmitPackets puts on the wire: it stops at the first failure. */
  function OnWire(es: seq<Element>, os: seq<Outcome>): seq<Byte>
    requires OutcomesOk(es, os)
  {
    var k := FirstFailure(es, os);
    Sent(es[..k], os[..k])
  }

  /**
    The elements go out complete and in order exactly when every transfer before the first
    failure moved all its bytes and no byte belongs to the elements from there on. The call
    itself ignores how many bytes were moved.
    */
  lemma CompleteIff(es: seq<Element>, os: seq<Outcome>)
    requires OutcomesOk(es, os)
    ensures var k := FirstFailure(es, os);
      OnWire(es, os) == Whole(es) <==> AllMovedFully(es[..k], os[..k]) && Whole(es[k..]) == []
  {
    hide Payload, Moved, Transfers, FirstFailure, AllMovedFully, Sent, Whole;
    var k := FirstFailure(es, os);
    SentLength(es[..k], os[..k]);
    WholeSplit(es, k);
  }

  /** When every transfer before the first failure is full, exactly the elements before it go out. */
  lemma FullPrefix(es: seq<Element>, os: seq<Outcome>)
    requires OutcomesOk(es, os)
    ensures var k := FirstFailure(es, os);
      OnWire(es, os) == Whole(es[..k]) <==> AllMovedFully(es[..k], os[..k])
  {
    hide Payload, Moved, Transfers, FirstFailure, AllMovedFully, Sent, Whole;
    var k := FirstFailure(es, os);
    SentLength(es[..k], os[..k]);
  }

  /** A reported success is complete exactly when every transfer was full. */
  lemma SuccessCompleteIff(es: seq<Element>, os: seq<Outcome>)
    requires OutcomesOk(es, os) && FirstFailure(es, os) == |es|
    ensures OnWire(es, os) == Whole(es) <==> AllMovedFully(es, os)
  {
    hide Payload, Moved, Transfers, FirstFailure, AllMovedFully, Sent;
    CompleteIff(es, os);
    assert es[..|es|] == es && os[..|es|] == os && es[|es|..] == [];
  }

  /** A success can lose data: one short send and the call still reports success. */
  lemma ShortSendGoesUnnoticed()
    ensures exists es, os :: OutcomesOk(es, os) && FirstFailure(es, os) == |es| && OnWire(es, os) != Whole(es)
  {
    var es, os := [Element(TP_ELEMENT_MEMORY, 2, [7, 8], [], 0)], [Some(1)];
    assert Payload(es[0]) == [7, 8];
    assert !AllMovedFully(es, os);
    assert FirstFailure(es, os) == |es|;
    SuccessCompleteIff(es, os);
  }

  /** The socket's outgoing stream. */
  class Wire {
    var bytes: seq<Byte>

    constructor ()
      ensures bytes == []
    {
      bytes := [];
    }

    /** send: some of the data goes out, or the call fails. */
    method Send(data: seq<Byte>, o: Outcome) returns (sent: int)
      requires o.Some? ==> o.value <= |data|
      modifies this
      ensures sent == if o.Some? then o.value else -1
      ensures bytes == old(bytes) + if o.Some? then data[..o.value] else []
    {
      if o == None { return -1; }
      bytes := bytes + data[..o.value];
      return o.value;
    }

    /** sendfile: at most length bytes of the file from the offset on go out, or the call fails. */
    method SendFile(file: seq<Byte>, offset: nat, length: nat, o: Outcome) returns (sent: int)
      requires o.Some? ==> o.value <= length && (o.value == 0 || offset + o.value <= |file|)
      modifies this
      ensures sent == if o.Some? then o.value else -1
      ensures bytes == old(bytes) + if o.Some? && o.value > 0 then file[offset..offset + o.value] else []
    {
      if o == None { return -1; }
      if o.value > 0 { bytes := bytes + file[offset..offset + o.value]; }
      return o.value;
    }
  }

  /** One turn of the loop: the memory flag is looked at first, an element with neither flag sends nothing. */
  method TransmitElement(e: Element, o: Outcome, wire: Wire) returns (sent: int)
    requires o.Some? ==> o.value <= |Payload(e)|
    modifies wire
    ensures sent < 0 <==> Transfers(e) && o == None
    ensures |wire.bytes| == |old(wire.bytes)| + (if sent < 0 then 0 else Moved(e, o)) && old(wire.bytes) <= wire.bytes
    ensures forall i | |old(wire.bytes)| <= i < |wire.bytes| ::
      && i - |old(wire.bytes)| < |Payload(e)|
      && wire.bytes[i] == Payload(e)[i - |old(wire.bytes)|]
    ensures e.flags & TP_ELEMENT_MEMORY == 0 && e.flags & TP_ELEMENT_FILE != 0 ==>
      forall i | |old(wire.bytes)| <= i < |wire.bytes| ::
        e.offset + (i - |old(wire.bytes)|) < |e.file| && wire.bytes[i] == e.file[e.offset + (i - |old(wire.bytes)|)]
  {
    sent := 0;
    if e.flags & TP_ELEMENT_MEMORY != 0 {
      sent := wire.Send(e.buffer, o);
    } else if e.flags & TP_ELEMENT_FILE != 0 {
      sent := wire.SendFile(e.file, e.offset, e.length, o);
    }
  }

  /** The element loop: stops at the first failure, or runs through. */
  method TransmitElements(es: seq<Element>, os: seq<Outcome>, wire: Wire) returns (k: nat)
    requires OutcomesOk(es, os)
    modifies wire
    ensures k == FirstFailure(es, os)
    ensures wire.bytes == old(wire.bytes) + Sent(es[..k], os[..k])
  {
    hide Sent, FirstFailure, Payload, Moved, Transfers;
    SentNothing(es, os);
    k := 0;
    while k < |es|
      invariant k <= FirstFailure(es, os)
      invariant wire.bytes == old(wire.bytes) + Sent(es[..k], os[..k])
    {
      SentStep(es, os, k);
      ghost var before := wire.bytes;
      var sent := TransmitElement(es[k], os[k], wire);
      assert wire.bytes == before + if sent < 0 then [] else Payload(es[k])[..Moved(es[k], os[k])];
      if sent < 0 { return; }
      k := k + 1;
    }
  }

  /**
    TransmitPackets; elements is None for a NULL array. Exactly the elements before the first
    failure go out if and only if each of their transfers was full.
    */
  method TransmitPackets(elements: Option<seq<Element>>, os: seq<Outcome>, wire: Wire) returns (answer: Answer)
    requires elements.Some? ==> OutcomesOk(elements.value, os) && forall e | e in elements.value :: ElementOk(e)
    modifies wire
    ensures elements == None || elements.value == [] ==>
      answer == Answer(FALSE, WSAEINVAL) && wire.bytes == old(wire.bytes)
    ensures elements.Some? && elements.value != [] ==>
      var k := FirstFailure(elements.value, os);
      && (answer == if k == |elements.value| then Answer(TRUE, 0) else Answer(FALSE, WSAECONNRESET))
      && wire.bytes == old(wire.bytes) + OnWire(elements.value, os)
      && (wire.bytes == old(wire.bytes) + Whole(elements.value[..k]) <==> AllMovedFully(elements.value[..k], os[..k]))
  {
    hide FirstFailure, Sent, Whole, Payload, AllMovedFully;
    if elements == None || elements.value == [] { return Answer(FALSE, WSAEINVAL); }
    var k := TransmitElements(elements.value, os, wire);
    FullPrefix(elements.value, os);
    ghost var was := old(wire.bytes);
    assert wire.bytes[|was|..] == OnWire(elements.value, os);
    assert (was + Whole(elements.value[..k]))[|was|..] == Whole(elements.value[..k]);
    return if k < |elements.value| then Answer(FALSE, WSAECONNRESET) else Answer(TRUE, 0);
  }

  lemma SentNothing(es: seq<Element>, os: seq<Outcome>)
    requires OutcomesOk(es, os)
    ensures Sent(es[..0], os[..0]) == []
  {
  }

  /** One more element: its moved prefix is appended. */
  lemma SentStep(es: seq<Element>, os: seq<Outcome>, i: nat)
    requires OutcomesOk(es, os) && i < |es|
    ensures Moved(es[i], os[i]) <= |Payload(es[i])|
    ensures Sent(es[..i + 1], os[..i + 1]) == Sent(es[..i], os[..i]) + Payload(es[i])[..Moved(es[i], os[i])]
  {
    hide Payload;
    assert es[..i + 1][..i] == es[..i] && os[..i + 1][..i] == os[..i];
  }
}
