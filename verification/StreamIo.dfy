/** Scatter/gather buffers over flat memory, and a byte stream that moves any part of them. */
module StreamSpec {
  import opened Decimals

  /** A WSABUF or iovec: a range of the process's memory. */
  datatype Buf = Buf(base: nat, len: nat)

  predicate Fits(mem: seq<Byte>, bufs: seq<Buf>) {
    forall i | 0 <= i < |bufs| :: bufs[i].base + bufs[i].len <= |mem|
  }

  predicate Apart(a: Buf, b: Buf) {
    a.base + a.len <= b.base || b.base + b.len <= a.base
  }

  predicate Disjoint(bufs: seq<Buf>) {
    forall i, j | 0 <= i < j < |bufs| :: Apart(bufs[i], bufs[j])
  }

  function Capacity(bufs: seq<Buf>): nat {
    if bufs == [] then 0 else bufs[0].len + Capacity(bufs[1..])
  }

  /** The bytes of the buffers, in order. */
  function Gather(mem: seq<Byte>, bufs: seq<Buf>): (bytes: seq<Byte>)
    requires Fits(mem, bufs)
    ensures |bytes| == Capacity(bufs)
  {
    if bufs == [] then [] else mem[bufs[0].base..bufs[0].base + bufs[0].len] + Gather(mem, bufs[1..])
  }

  /** Overwrite memory from at on. */
  function Poke(mem: seq<Byte>, at: nat, data: seq<Byte>): (mem': seq<Byte>)
    requires at + |data| <= |mem|
    ensures |mem'| == |mem|
  {
    mem[..at] + data + mem[at + |data|..]
  }

  lemma PokeAt(mem: seq<Byte>, at: nat, data: seq<Byte>, a: nat)
    requires at + |data| <= |mem| && a < |mem|
    ensures Poke(mem, at, data)[a] == if at <= a < at + |data| then data[a - at] else mem[a]
  {
  }

  /** Fill the buffers in order until the data runs out. */
  function Scatter(mem: seq<Byte>, bufs: seq<Buf>, data: seq<Byte>): (mem': seq<Byte>)
    requires Fits(mem, bufs)
    ensures |mem'| == |mem|
    decreases |bufs|
  {
    if bufs == [] then mem
    else
      var k := if |data| < bufs[0].len then |data| else bufs[0].len;
      Scatter(Poke(mem, bufs[0].base, data[..k]), bufs[1..], data[k..])
  }

  /** Address a lies in one of the buffers. */
  predicate Covered(bufs: seq<Buf>, a: nat) {
    exists i :: 0 <= i < |bufs| && bufs[i].base <= a < bufs[i].base + bufs[i].len
  }

  /** Scattering changes nothing outside the buffers. */
  lemma {:induction false} ScatterFrame(mem: seq<Byte>, bufs: seq<Buf>, data: seq<Byte>, a: nat)
    requires Fits(mem, bufs) && a < |mem| && !Covered(bufs, a)
    ensures Scatter(mem, bufs, data)[a] == mem[a]
    decreases |bufs|
  {
    if bufs != [] {
      var k := if |data| < bufs[0].len then |data| else bufs[0].len;
      RestUncovered(bufs, a);
      ScatterFrame(Poke(mem, bufs[0].base, data[..k]), bufs[1..], data[k..], a);
    }
  }

  lemma {:induction false} ScatterNothing(mem: seq<Byte>, bufs: seq<Buf>)
    requires Fits(mem, bufs)
    ensures Scatter(mem, bufs, []) == mem
    decreases |bufs|
  {
    if bufs != [] {
      assert Poke(mem, bufs[0].base, []) == mem;
      ScatterNothing(mem, bufs[1..]);
    }
  }

  lemma NotCoveredByRest(bufs: seq<Buf>, a: nat)
    requires bufs != [] && Disjoint(bufs) && bufs[0].base <= a < bufs[0].base + bufs[0].len
    ensures !Covered(bufs[1..], a)
  {
    var rest := bufs[1..];
    forall i | 0 <= i < |rest|
      ensures !(rest[i].base <= a < rest[i].base + rest[i].len)
    {
      assert rest[i] == bufs[i + 1] && Apart(bufs[0], bufs[i + 1]);
    }
  }

  lemma RestUncovered(bufs: seq<Buf>, a: nat)
    requires bufs != [] && !Covered(bufs, a)
    ensures !(bufs[0].base <= a < bufs[0].base + bufs[0].len) && !Covered(bufs[1..], a)
  {
    var rest := bufs[1..];
    forall i | 0 <= i < |rest|
      ensures !(rest[i].base <= a < rest[i].base + rest[i].len)
    {
      assert rest[i] == bufs[i + 1];
    }
  }

  lemma DisjointRest(bufs: seq<Buf>)
    requires bufs != [] && Disjoint(bufs)
    ensures Disjoint(bufs[1..])
  {
    var rest := bufs[1..];
    forall i, j | 0 <= i < j < |rest|
      ensures Apart(rest[i], rest[j])
    {
      assert rest[i] == bufs[i + 1] && rest[j] == bufs[j + 1];
    }
  }

  /** The first buffer keeps its bytes while the others are filled. */
  lemma FirstBufferKept(mem: seq<Byte>, bufs: seq<Buf>, data: seq<Byte>)
    requires bufs != [] && Fits(mem, bufs) && Disjoint(bufs)
    requires Fits(mem, bufs[1..])
    ensures var b := bufs[0]; Scatter(mem, bufs[1..], data)[b.base..b.base + b.len] == mem[b.base..b.base + b.len]
  {
    hide Scatter;
    var b := bufs[0];
    forall a | b.base <= a < b.base + b.len
      ensures Scatter(mem, bufs[1..], data)[a] == mem[a]
    {
      NotCoveredByRest(bufs, a);
      ScatterFrame(mem, bufs[1..], data, a);
    }
  }

  function Share(b: Buf, data: seq<Byte>): (k: nat)
    ensures k <= |data| && k <= b.len && (k == b.len || k == |data|)
  {
    if |data| < b.len then |data| else b.len
  }

  lemma ScatterFirst(mem: seq<Byte>, bufs: seq<Buf>, data: seq<Byte>)
    requires bufs != [] && Fits(mem, bufs)
    ensures var b := bufs[0]; var k := Share(b, data); var mem1 := Poke(mem, b.base, data[..k]);
      && Fits(mem1, bufs[1..])
      && Scatter(mem, bufs, data) == Scatter(mem1, bufs[1..], data[k..])
      && mem1[b.base..b.base + b.len][..k] == data[..k]
  {
  }

  /** Byte i of buffer j comes behind all bytes of the buffers before it. */
  lemma {:induction false} GatherAt(mem: seq<Byte>, bufs: seq<Buf>, j: nat, i: nat)
    requires Fits(mem, bufs) && j < |bufs| && i < bufs[j].len
    ensures Capacity(bufs[..j]) + i < |Gather(mem, bufs)|
    ensures Gather(mem, bufs)[Capacity(bufs[..j]) + i] == mem[bufs[j].base + i]
    decreases j
  {
    if j > 0 {
      assert bufs[..j][0] == bufs[0] && bufs[..j][1..] == bufs[1..][..j - 1];
      GatherAt(mem, bufs[1..], j - 1, i);
    }
  }

  /** Buffers are filled one after the other, so that of two that overlap the later one wins. */
  lemma {:induction false} ScatterInOrder(mem: seq<Byte>, xs: seq<Buf>, ys: seq<Buf>, data: seq<Byte>)
    requires Fits(mem, xs + ys) && Fits(mem, xs) && Fits(mem, ys)
    ensures var k := if |data| < Capacity(xs) then |data| else Capacity(xs);
      Scatter(mem, xs + ys, data) == Scatter(Scatter(mem, xs, data[..k]), ys, data[k..])
    decreases |xs|
  {
    if xs == [] {
      assert xs + ys == ys && data[0..] == data;
    } else {
      var b, rest, n := xs[0], xs[1..], Share(xs[0], data);
      var k := if |data| < Capacity(xs) then |data| else Capacity(xs);
      assert (xs + ys)[0] == b && (xs + ys)[1..] == rest + ys;
      var mem1 := Poke(mem, b.base, data[..n]);
      FitsRest(mem, xs);
      FitsRest(mem, xs + ys);
      ScatterInOrder(mem1, rest, ys, data[n..]);
      assert data[..k][..n] == data[..n] && data[..k][n..] == data[n..][..k - n] && data[n..][k - n..] == data[k..];
      assert Share(b, data[..k]) == n;
    }
  }

  lemma FitsRest(mem: seq<Byte>, bufs: seq<Buf>)
    requires Fits(mem, bufs) && bufs != []
    ensures Fits(mem, bufs[1..])
  {
    assert forall i | 0 <= i < |bufs| - 1 :: bufs[1..][i] == bufs[i + 1];
  }

  /** One buffer gets the front of the data at its own address, and keeps what lies behind that. */
  lemma ScatterOne(mem: seq<Byte>, b: Buf, data: seq<Byte>, a: nat)
    requires Fits(mem, [b]) && a < |mem|
    ensures Scatter(mem, [b], data)[a] == if b.base <= a < b.base + Share(b, data) then data[a - b.base] else mem[a]
  {
    assert [b][1..] == [];
  }

  /** What was scattered over disjoint buffers is read back in order, and the rest of them is as before. */
  lemma {:induction false} GatherOfScatter(mem: seq<Byte>, bufs: seq<Buf>, data: seq<Byte>)
    requires Fits(mem, bufs) && Disjoint(bufs) && |data| <= Capacity(bufs)
    ensures Gather(Scatter(mem, bufs, data), bufs)[..|data|] == data
    ensures Gather(Scatter(mem, bufs, data), bufs)[|data|..] == Gather(mem, bufs)[|data|..]
    decreases |bufs|
  {
    hide Scatter, Poke;
    if bufs != [] {
      var b, rest, k := bufs[0], bufs[1..], Share(bufs[0], data);
      var mem1 := Poke(mem, b.base, data[..k]);
      ScatterFirst(mem, bufs, data);
      FirstBufferKept(mem1, bufs, data[k..]);
      DisjointRest(bufs);
      GatherOfScatter(mem1, rest, data[k..]);
      FirstAlone(mem, bufs, data[..k]);
      var end := Scatter(mem1, rest, data[k..]);
      var first, tail := end[b.base..b.base + b.len], Gather(end, rest);
      assert Gather(end, bufs) == first + tail;
      assert first == data[..k] + mem[b.base + k..b.base + b.len];
      TwoParts(first, tail, data, k, mem[b.base..b.base + b.len], Gather(mem, rest));
    }
  }

  /** Writing into the first buffer leaves the others' bytes alone. */
  lemma FirstAlone(mem: seq<Byte>, bufs: seq<Buf>, data: seq<Byte>)
    requires bufs != [] && Fits(mem, bufs) && Disjoint(bufs) && |data| <= bufs[0].len
    ensures var b := bufs[0]; var mem1 := Poke(mem, b.base, data);
      && Fits(mem, bufs[1..]) && Fits(mem1, bufs[1..])
      && Gather(mem1, bufs[1..]) == Gather(mem, bufs[1..])
      && mem1[b.base..b.base + b.len] == data + mem[b.base + |data|..b.base + b.len]
  {
    FitsRest(mem, bufs);
    var b, rest, mem1 := bufs[0], bufs[1..], Poke(mem, bufs[0].base, data);
    forall a | 0 <= a < |mem|
      ensures mem1[a] == if b.base <= a < b.base + |data| then data[a - b.base] else mem[a]
    {
      PokeAt(mem, b.base, data, a);
    }
    hide Poke;
    forall i | 0 <= i < |rest|
      ensures mem1[rest[i].base..rest[i].base + rest[i].len] == mem[rest[i].base..rest[i].base + rest[i].len]
    {
      assert rest[i] == bufs[i + 1] && Apart(b, bufs[i + 1]);
    }
    SameGather(mem, mem1, rest);
  }

  lemma {:induction false} SameGather(mem: seq<Byte>, mem': seq<Byte>, bufs: seq<Buf>)
    requires |mem| == |mem'| && Fits(mem, bufs) && Fits(mem', bufs)
    requires forall i | 0 <= i < |bufs| :: mem'[bufs[i].base..bufs[i].base + bufs[i].len] == mem[bufs[i].base..bufs[i].base + bufs[i].len]
    ensures Gather(mem', bufs) == Gather(mem, bufs)
    decreases |bufs|
  {
    if bufs != [] {
      FitsRest(mem, bufs);
      assert forall i | 0 <= i < |bufs[1..]| :: bufs[1..][i] == bufs[i + 1];
      SameGather(mem, mem', bufs[1..]);
    }
  }

  /** Data split over a first part and the rest, read back from both. */
  lemma TwoParts(first: seq<Byte>, tail: seq<Byte>, data: seq<Byte>, k: nat, first0: seq<Byte>, tail0: seq<Byte>)
    requires k <= |data| && k <= |first| == |first0| && |tail| == |tail0| && |data| - k <= |tail|
    requires first == data[..k] + first0[k..] && (k == |first| || k == |data|)
    requires tail[..|data| - k] == data[k..] && tail[|data| - k..] == tail0[|data| - k..]
    ensures (first + tail)[..|data|] == data && (first + tail)[|data|..] == (first0 + tail0)[|data|..]
  {
    if k == |data| {
      assert tail == tail0;
      assert (first + tail)[..k] == first[..k];
    } else {
      assert (first + tail)[..|data|] == first + tail[..|data| - k];
      assert (first + tail)[|data|..] == tail[|data| - k..] && (first0 + tail0)[|data|..] == tail0[|data| - k..];
    }
  }

  // -------------------------------------------------------- calls on a stream

  /** A successful call: who moved how many bytes between which memory and the stream. */
  datatype Call = Send(mem: seq<Byte>, bufs: seq<Buf>, n: nat) | Recv(mem: seq<Byte>, bufs: seq<Buf>, n: nat)

  /** The stream: bytes in flight, and all the bytes the two sides reported. */
  datatype Channel = Channel(queue: seq<Byte>, sent: seq<Byte>, received: seq<Byte>)

  predicate Possible(c: Channel, call: Call) {
    && Fits(call.mem, call.bufs)
    && call.n <= Capacity(call.bufs)
    && (call.Recv? ==> Disjoint(call.bufs) && call.n <= |c.queue|)
  }

  /** The receiver's memory after the call, and the bytes it finds in its buffers. */
  function Delivered(c: Channel, call: Call): seq<Byte>
    requires Possible(c, call) && call.Recv?
  {
    Gather(Scatter(call.mem, call.bufs, c.queue[..call.n]), call.bufs)[..call.n]
  }

  function After(c: Channel, call: Call): Channel
    requires Possible(c, call)
  {
    match call
    case Send(mem, bufs, n) => c.(queue := c.queue + Gather(mem, bufs)[..n], sent := c.sent + Gather(mem, bufs)[..n])
    case Recv(_, _, n) => c.(queue := c.queue[n..], received := c.received + Delivered(c, call))
  }

  predicate Legal(c: Channel, calls: seq<Call>)
    decreases |calls|
  {
    calls == [] || (Possible(c, calls[0]) && Legal(After(c, calls[0]), calls[1..]))
  }

  function Exec(c: Channel, calls: seq<Call>): Channel
    requires Legal(c, calls)
    decreases |calls|
  {
    if calls == [] then c else Exec(After(c, calls[0]), calls[1..])
  }

  predicate Conserved(c: Channel) {
    c.received + c.queue == c.sent
  }

  lemma CallConserves(c: Channel, call: Call)
    requires Conserved(c) && Possible(c, call)
    ensures Conserved(After(c, call))
  {
    hide Scatter, Gather, Capacity, Disjoint;
    match call
    case Send(mem, bufs, n) =>
      var part := Gather(mem, bufs)[..n];
      assert c.received + (c.queue + part) == (c.received + c.queue) + part;
    case Recv(mem, bufs, n) =>
      GatherOfScatter(mem, bufs, c.queue[..n]);
      assert c.queue == c.queue[..n] + c.queue[n..];
      assert c.received + c.queue[..n] + c.queue[n..] == c.received + c.queue;
  }

  /**
    Conservation: over any calls with any buffers and any partial counts, the bytes received so
    far followed by the bytes in flight are exactly the bytes reported sent.
    */
  lemma {:induction false} StreamConserves(c: Channel, calls: seq<Call>)
    requires Conserved(c) && Legal(c, calls)
    ensures Conserved(Exec(c, calls))
    decreases |calls|
  {
    if calls != [] {
      CallConserves(c, calls[0]);
      StreamConserves(After(c, calls[0]), calls[1..]);
    }
  }

  /** The same bytes offered, or the same room, and the same count: only the split into buffers differs. */
  predicate SameUpToSplit(a: Call, b: Call) {
    && Fits(a.mem, a.bufs) && Fits(b.mem, b.bufs)
    && a.n == b.n
    && match a
       case Send(_, _, _) => b.Send? && Gather(a.mem, a.bufs) == Gather(b.mem, b.bufs)
       case Recv(_, _, _) => b.Recv? && Capacity(a.bufs) == Capacity(b.bufs) && Disjoint(a.bufs) && Disjoint(b.bufs)
  }

  /** How either side splits its bytes into buffers makes no difference to the stream. */
  lemma {:induction false} SplitDoesNotMatter(c: Channel, xs: seq<Call>, ys: seq<Call>)
    requires |xs| == |ys| && (forall i | 0 <= i < |xs| :: SameUpToSplit(xs[i], ys[i]))
    requires Legal(c, xs)
    ensures Legal(c, ys) && Exec(c, ys) == Exec(c, xs)
    decreases |xs|
  {
    if xs != [] {
      var x, y := xs[0], ys[0];
      assert SameUpToSplit(x, y);
      assert Capacity(y.bufs) == Capacity(x.bufs) by {
        if x.Send? { assert |Gather(x.mem, x.bufs)| == |Gather(y.mem, y.bufs)|; }
      }
      if x.Recv? {
        GatherOfScatter(x.mem, x.bufs, c.queue[..x.n]);
        GatherOfScatter(y.mem, y.bufs, c.queue[..y.n]);
      }
      assert After(c, x) == After(c, y);
      SplitDoesNotMatter(After(c, x), xs[1..], ys[1..]);
    }
  }
}

/** WSASend and WSARecv: the buffer array is copied to an iovec array and handed to the kernel. */
module StreamIo {
  import opened Winsock
  import opened Decimals
  import opened StreamSpec

  /** The most bytes one readv or writev moves. */
  const MAX_RW_COUNT := 0x7FFF_F000
  const DWORDS := 0x1_0000_0000

  /** What the kernel does with a call: move so many bytes, or fail with this (mapped) error. */
  datatype Kernel = Moved(n: nat) | Fails(error: int)

  /** The kernel's end of the stream. */
  class Stream {
    var queue: seq<Byte>

    constructor ()
      ensures queue == []
    {
      queue := [];
    }

    method Writev(mem: array<Byte>, iov: array<Buf>, k: Kernel) returns (result: int)
      requires Fits(mem[..], iov[..])
      requires k.Moved? ==> k.n <= Capacity(iov[..]) && k.n <= MAX_RW_COUNT
      modifies this
      ensures result == if k.Moved? then k.n else -1
      ensures queue == old(queue) + if k.Moved? then Gather(mem[..], iov[..])[..k.n] else []
    {
      if k.Fails? { return -1; }
      queue := queue + Gather(mem[..], iov[..])[..k.n];
      return k.n;
    }

    method Readv(mem: array<Byte>, iov: array<Buf>, k: Kernel) returns (result: int)
      requires Fits(mem[..], iov[..])
      requires k.Moved? ==> k.n <= Capacity(iov[..]) && k.n <= |queue| && k.n <= MAX_RW_COUNT
      modifies this, mem
      ensures result == if k.Moved? then k.n else -1
      ensures queue == if k.Moved? then old(queue)[k.n..] else old(queue)
      ensures mem[..] == if k.Moved? then Scatter(old(mem[..]), old(iov[..]), old(queue)[..k.n]) else old(mem[..])
    {
      if k.Fails? { return -1; }
      var after := Scatter(mem[..], iov[..], queue[..k.n]);
      forall i | 0 <= i < mem.Length {
        mem[i] := after[i];
      }
      queue := queue[k.n..];
      return k.n;
    }
  }

  /** The WSABUF-to-iovec loop. */
  method CopyBuffers(buffers: seq<Buf>) returns (iov: array<Buf>)
    ensures fresh(iov) && iov[..] == buffers
  {
    iov := new Buf[|buffers|](_ => Buf(0, 0));
    for i := 0 to |buffers|
      invariant forall j | 0 <= j < i :: iov[j] == buffers[j]
    {
      iov[i] := buffers[i];
    }
  }

  /** WSASend; buffers is None for a NULL pointer. The count comes back if it was asked for. */
  method Send(mem: array<Byte>, buffers: Option<seq<Buf>>, wantCount: bool, malloc: bool, stream: Stream, k: Kernel)
    returns (answer: Answer, reported: Option<nat>)
    requires buffers.Some? ==> Fits(mem[..], buffers.value)
    requires buffers.Some? && k.Moved? ==> k.n <= Capacity(buffers.value) && k.n <= MAX_RW_COUNT
    modifies stream
    ensures answer ==
      if buffers == None || buffers.value == [] then Answer(SOCKET_ERROR, WSAEFAULT)
      else if !malloc then Answer(SOCKET_ERROR, WSA_NOT_ENOUGH_MEMORY)
      else if k.Fails? then Answer(SOCKET_ERROR, k.error)
      else Answer(0, 0)
    ensures answer.value != 0 ==> stream.queue == old(stream.queue) && reported == None
    ensures answer.value == 0 ==>
      && stream.queue == old(stream.queue) + Gather(mem[..], buffers.value)[..k.n]
      && reported == if wantCount then Some(k.n) else None
  {
    reported := None;
    if buffers == None || buffers.value == [] { return Answer(SOCKET_ERROR, WSAEFAULT), None; }
    if !malloc { return Answer(SOCKET_ERROR, WSA_NOT_ENOUGH_MEMORY), None; }
    var iov := CopyBuffers(buffers.value);
    var result := stream.Writev(mem, iov, k);
    if result < 0 { return Answer(SOCKET_ERROR, k.error), None; }
    if wantCount { reported := Some(result % DWORDS); }
    return Answer(0, 0), reported;
  }

  /** WSARecv; flags is the in-out flags word, None for a NULL pointer, and is cleared on success. */
  method Recv(mem: array<Byte>, buffers: Option<seq<Buf>>, wantCount: bool, flags: Option<nat>, malloc: bool,
              stream: Stream, k: Kernel)
    returns (answer: Answer, reported: Option<nat>, newFlags: Option<nat>)
    requires buffers.Some? ==> Fits(mem[..], buffers.value)
    requires buffers.Some? && k.Moved? ==>
               k.n <= Capacity(buffers.value) && k.n <= |stream.queue| && k.n <= MAX_RW_COUNT
    modifies stream, mem
    ensures answer ==
      if buffers == None || buffers.value == [] then Answer(SOCKET_ERROR, WSAEFAULT)
      else if !malloc then Answer(SOCKET_ERROR, WSA_NOT_ENOUGH_MEMORY)
      else if k.Fails? then Answer(SOCKET_ERROR, k.error)
      else Answer(0, 0)
    ensures answer.value != 0 ==>
      stream.queue == old(stream.queue) && mem[..] == old(mem[..]) && reported == None && newFlags == flags
    ensures answer.value == 0 ==>
      && stream.queue == old(stream.queue)[k.n..]
      && mem[..] == Scatter(old(mem[..]), buffers.value, old(stream.queue)[..k.n])
      && (reported == if wantCount then Some(k.n) else None)
      && (newFlags == if flags.Some? then Some(0) else None)
  {
    reported, newFlags := None, flags;
    if buffers == None || buffers.value == [] { return Answer(SOCKET_ERROR, WSAEFAULT), None, flags; }
    if !malloc { return Answer(SOCKET_ERROR, WSA_NOT_ENOUGH_MEMORY), None, flags; }
    var iov := CopyBuffers(buffers.value);
    var result := stream.Readv(mem, iov, k);
    if result < 0 { return Answer(SOCKET_ERROR, k.error), None, flags; }
    if wantCount { reported := Some(result % DWORDS); }
    if flags.Some? { newFlags := Some(0); }
    return Answer(0, 0), reported, newFlags;
  }
}

/** The two calls on one stream, in any order, with the account of what they reported. */
module StreamLink {
  import opened Winsock
  import opened Decimals
  import opened StreamSpec
  import Io = StreamIo

  /** A stream between two sides, with everything they reported. */
  class Link {
    const stream: Io.Stream
    ghost var channel: Channel

    /** The channel's queue is the kernel's, and no byte was lost, doubled or reordered. */
    ghost predicate Valid()
      reads this, stream
    {
      channel.queue == stream.queue && Conserved(channel)
    }

    constructor ()
      ensures Valid() && fresh(stream) && channel == Channel([], [], [])
    {
      stream := new Io.Stream();
      channel := Channel([], [], []);
    }

    /** One WSASend: on success the reported bytes of the buffers count as sent. */
    method SendOn(mem: array<Byte>, buffers: Option<seq<Buf>>, wantCount: bool, malloc: bool, k: Io.Kernel)
      returns (answer: Answer, reported: Option<nat>)
      requires Valid() && (buffers.Some? ==> Fits(mem[..], buffers.value))
      requires buffers.Some? && k.Moved? ==> k.n <= Capacity(buffers.value) && k.n <= Io.MAX_RW_COUNT
      modifies `channel, stream
      ensures Valid() && channel.received == old(channel).received
      ensures answer.value != 0 ==> channel == old(channel)
      ensures answer.value == 0 ==>
        buffers.Some? && k.Moved? && channel.sent == old(channel).sent + Gather(mem[..], buffers.value)[..k.n]
      ensures answer.value == 0 && wantCount ==> reported == Some(|channel.sent| - |old(channel).sent|)
    {
      hide Gather, Fits, Capacity;
      answer, reported := Io.Send(mem, buffers, wantCount, malloc, stream, k);
      if answer.value == 0 {
        ghost var call := Call.Send(mem[..], buffers.value, k.n);
        CallConserves(channel, call);
        channel := After(channel, call);
      }
    }

    /** One WSARecv into buffers that do not overlap: on success the bytes now in them count as received. */
    method RecvOn(mem: array<Byte>, buffers: Option<seq<Buf>>, wantCount: bool, flags: Option<nat>, malloc: bool, k: Io.Kernel)
      returns (answer: Answer, reported: Option<nat>, newFlags: Option<nat>)
      requires Valid() && (buffers.Some? ==> Fits(mem[..], buffers.value) && Disjoint(buffers.value))
      requires buffers.Some? && k.Moved? ==>
                 k.n <= Capacity(buffers.value) && k.n <= |stream.queue| && k.n <= Io.MAX_RW_COUNT
      modifies `channel, stream, mem
      ensures Valid() && channel.sent == old(channel).sent
      ensures answer.value != 0 ==> channel == old(channel) && mem[..] == old(mem[..])
      ensures answer.value == 0 ==>
        && buffers.Some? && k.Moved? && Fits(mem[..], buffers.value)
        && channel.received == old(channel).received + Gather(mem[..], buffers.value)[..k.n]
      ensures answer.value == 0 && wantCount ==> reported == Some(|channel.received| - |old(channel).received|)
    {
      hide Gather, Capacity, Disjoint, Scatter;
      ghost var call := if buffers.Some? && k.Moved? then Call.Recv(mem[..], buffers.value, k.n) else Call.Recv([], [], 0);
      answer, reported, newFlags := Io.Recv(mem, buffers, wantCount, flags, malloc, stream, k);
      if answer.value == 0 {
        CallConserves(channel, call);
        channel := After(channel, call);
      }
    }
  }
}
