/** What GetAddrInfoW makes of a getaddrinfo result, for any pattern of malloc failures. */
module AddrInfoSpec {
  import opened Winsock
  import opened Decimals

  /** One entry of the C library's result list. */
  datatype Source = Source(flags: int, family: int, socktype: int, protocol: int, addrlen: nat,
                           addr: Option<seq<Byte>>, canonname: Option<string>)

  /** One entry of the wide result list; the name is a sequence of wide character codes. */
  datatype Item = Item(flags: int, family: int, socktype: int, protocol: int, addrlen: nat,
                       addr: Option<seq<Byte>>, canonname: Option<seq<nat>>)

  type Widen = string -> seq<nat>

  /** How many malloc calls one entry takes when its node is allocated. */
  function Calls(src: Source): nat {
    1 + (if src.addr.Some? then 1 else 0) + (if src.canonname.Some? then 1 else 0)
  }

  /** The entry made with malloc call k for its node: a failed copy of address or name is dropped. */
  function ItemOf(src: Source, k: nat, ok: nat -> bool, widen: Widen): Item {
    Item(src.flags, src.family, src.socktype, src.protocol, src.addrlen,
         if src.addr.Some? && ok(k + 1) then src.addr else None,
         if src.canonname.Some? && ok(k + Calls(src) - 1) then Some(widen(src.canonname.value)) else None)
  }

  /** Every node allocation succeeds, counting malloc calls from k. */
  predicate NodesFit(list: seq<Source>, k: nat, ok: nat -> bool) {
    list == [] || (ok(k) && NodesFit(list[1..], k + Calls(list[0]), ok))
  }

  function Converted(list: seq<Source>, k: nat, ok: nat -> bool, widen: Widen): seq<Item> {
    if list == [] then [] else [ItemOf(list[0], k, ok, widen)] + Converted(list[1..], k + Calls(list[0]), ok, widen)
  }

  /** The faithful wide copy of an entry. */
  function Copied(src: Source, widen: Widen): Item {
    Item(src.flags, src.family, src.socktype, src.protocol, src.addrlen, src.addr,
         if src.canonname.Some? then Some(widen(src.canonname.value)) else None)
  }

  /** Equal up to an address or name that may be missing. */
  predicate CopyOf(item: Item, src: Source, widen: Widen) {
    var full := Copied(src, widen);
    && item.(addr := full.addr, canonname := full.canonname) == full
    && (item.addr == None || item.addr == full.addr)
    && (item.canonname == None || item.canonname == full.canonname)
  }

  /** The number of the malloc call for the node of entry i. */
  function NodeCall(list: seq<Source>, k: nat, i: nat): nat
    requires i <= |list|
  {
    if i == 0 then k else NodeCall(list[1..], k + Calls(list[0]), i - 1)
  }

  /** Entry i is made with the malloc calls from its own on. */
  lemma {:induction false} ConvertedAt(list: seq<Source>, k: nat, ok: nat -> bool, widen: Widen, i: nat)
    requires i < |list|
    ensures |Converted(list, k, ok, widen)| == |list|
    ensures Converted(list, k, ok, widen)[i] == ItemOf(list[i], NodeCall(list, k, i), ok, widen)
    decreases i
  {
    hide ItemOf;
    ConvertedLength(list, k, ok, widen);
    if i > 0 { ConvertedAt(list[1..], k + Calls(list[0]), ok, widen, i - 1); }
  }

  lemma {:induction false} ConvertedLength(list: seq<Source>, k: nat, ok: nat -> bool, widen: Widen)
    ensures |Converted(list, k, ok, widen)| == |list|
    decreases |list|
  {
    if list != [] { ConvertedLength(list[1..], k + Calls(list[0]), ok, widen); }
  }

  /** Same length, order and scalar fields; address and name are missing exactly when their own malloc failed. */
  lemma ConvertedCopies(list: seq<Source>, k: nat, ok: nat -> bool, widen: Widen)
    ensures |Converted(list, k, ok, widen)| == |list|
    ensures forall i | 0 <= i < |list| :: CopyOf(Converted(list, k, ok, widen)[i], list[i], widen)
    ensures forall i | 0 <= i < |list| :: var item, c := Converted(list, k, ok, widen)[i], NodeCall(list, k, i);
      && (item.addr.Some? <==> list[i].addr.Some? && ok(c + 1))
      && (item.canonname.Some? <==> list[i].canonname.Some? && ok(c + if list[i].addr.Some? then 2 else 1))
    ensures (forall j: nat :: ok(j)) ==>
              NodesFit(list, k, ok) && forall i | 0 <= i < |list| :: Converted(list, k, ok, widen)[i] == Copied(list[i], widen)
  {
    ConvertedLength(list, k, ok, widen);
    NodesFitIff(list, k, ok);
    forall i | 0 <= i < |list|
      ensures Converted(list, k, ok, widen)[i] == ItemOf(list[i], NodeCall(list, k, i), ok, widen)
    {
      ConvertedAt(list, k, ok, widen, i);
    }
  }

  /** The conversion has memory for its nodes exactly when the malloc of each one succeeds. */
  lemma NodesFitIff(list: seq<Source>, k: nat, ok: nat -> bool)
    ensures NodesFit(list, k, ok) <==> forall i | 0 <= i < |list| :: ok(NodeCall(list, k, i))
  {
    if NodesFit(list, k, ok) {
      forall i | 0 <= i < |list|
        ensures ok(NodeCall(list, k, i))
      {
        FitAt(list, k, ok, i);
      }
    } else {
      var i := FirstUnfit(list, k, ok);
      assert !ok(NodeCall(list, k, i));
    }
  }

  lemma {:induction false} FitAt(list: seq<Source>, k: nat, ok: nat -> bool, i: nat)
    requires NodesFit(list, k, ok) && i < |list|
    ensures ok(NodeCall(list, k, i))
    decreases i
  {
    if i > 0 { FitAt(list[1..], k + Calls(list[0]), ok, i - 1); }
  }

  lemma {:induction false} FirstUnfit(list: seq<Source>, k: nat, ok: nat -> bool) returns (i: nat)
    requires !NodesFit(list, k, ok)
    ensures i < |list| && !ok(NodeCall(list, k, i))
    decreases |list|
  {
    i := 0;
    if ok(k) {
      var j := FirstUnfit(list[1..], k + Calls(list[0]), ok);
      i := j + 1;
    }
  }
}

/** GetAddrInfoW and FreeAddrInfoW on linked nodes, with a ledger of live allocations. */
module AddrInfoList {
  import opened Winsock
  import opened Decimals
  import opened AddrInfoSpec

  class Bytes {
    const data: seq<Byte>
    constructor (data: seq<Byte>)
      ensures this.data == data
    {
      this.data := data;
    }
  }

  class WideText {
    const data: seq<nat>
    constructor (data: seq<nat>)
      ensures this.data == data
    {
      this.data := data;
    }
  }

  /** The C library's own result list, one block as far as the ledger goes. */
  class SourceList {
    const entries: seq<Source>
    constructor (entries: seq<Source>)
      ensures this.entries == entries
    {
      this.entries := entries;
    }
  }

  class AddrInfoW {
    var flags: int
    var family: int
    var socktype: int
    var protocol: int
    var addrlen: nat
    var addr: Bytes?
    var canonname: WideText?
    var next: AddrInfoW?

    constructor (src: Source)
      ensures flags == src.flags && family == src.family && socktype == src.socktype && protocol == src.protocol
      ensures addrlen == src.addrlen && addr == null && canonname == null && next == null
    {
      flags, family, socktype, protocol := src.flags, src.family, src.socktype, src.protocol;
      addrlen, addr, canonname, next := src.addrlen, null, null, null;
    }

    function AsItem(): Item
      reads this
    {
      Item(flags, family, socktype, protocol, addrlen,
           if addr == null then None else Some(addr.data),
           if canonname == null then None else Some(canonname.data))
    }

    /** The allocations this entry owns: its node, address and name. */
    ghost function Blocks(): set<object>
      reads this
    {
      {this} + (if addr == null then {} else {addr}) + (if canonname == null then {} else {canonname})
    }
  }

  /** malloc and free: call number k succeeds as ok(k) says; live is the set of blocks not yet freed. */
  class Ledger {
    const ok: nat -> bool
    var calls: nat
    ghost var live: set<object>

    constructor (ok: nat -> bool)
      ensures this.ok == ok && calls == 0 && live == {}
    {
      this.ok, calls, live := ok, 0, {};
    }

    method MallocNode(src: Source) returns (node: AddrInfoW?)
      modifies this
      ensures calls == old(calls) + 1
      ensures if ok(old(calls)) then node != null && fresh(node) && live == old(live) + {node}
              else node == null && live == old(live)
      ensures node != null ==> node.AsItem() == Item(src.flags, src.family, src.socktype, src.protocol, src.addrlen, None, None)
      ensures node != null ==> node.addr == null && node.canonname == null && node.next == null
    {
      node := null;
      if ok(calls) {
        node := new AddrInfoW(src);
        live := live + {node};
      }
      calls := calls + 1;
    }

    method MallocBytes(data: seq<Byte>) returns (b: Bytes?)
      modifies this
      ensures calls == old(calls) + 1
      ensures if ok(old(calls)) then b != null && fresh(b) && b.data == data && live == old(live) + {b}
              else b == null && live == old(live)
    {
      b := null;
      if ok(calls) {
        b := new Bytes(data);
        live := live + {b};
      }
      calls := calls + 1;
    }

    method MallocWide(data: seq<nat>) returns (b: WideText?)
      modifies this
      ensures calls == old(calls) + 1
      ensures if ok(old(calls)) then b != null && fresh(b) && b.data == data && live == old(live) + {b}
              else b == null && live == old(live)
    {
      b := null;
      if ok(calls) {
        b := new WideText(data);
        live := live + {b};
      }
      calls := calls + 1;
    }

    /** Only a live block may be freed, so a second free of the same block cannot verify. */
    method Free(block: object)
      requires block in live
      modifies this
      ensures live == old(live) - {block} && calls == old(calls)
    {
      live := live - {block};
    }
  }

  /** nodes is the chain from head to null, without a cycle. */
  ghost predicate Chain(head: AddrInfoW?, nodes: seq<AddrInfoW>)
    reads nodes
  {
    && (forall i, j | 0 <= i < j < |nodes| :: nodes[i] != nodes[j])
    && head == (if nodes == [] then null else nodes[0])
    && (forall i {:trigger nodes[i].next} | 0 <= i < |nodes| ::
          nodes[i].next == (if i + 1 < |nodes| then nodes[i + 1] else null))
  }

  ghost function Items(nodes: seq<AddrInfoW>): seq<Item>
    reads nodes
  {
    if nodes == [] then [] else Items(nodes[..|nodes| - 1]) + [nodes[|nodes| - 1].AsItem()]
  }

  /** All memory reachable from the list. */
  ghost function Owned(nodes: seq<AddrInfoW>): set<object>
    reads nodes
  {
    if nodes == [] then {} else Owned(nodes[..|nodes| - 1]) + nodes[|nodes| - 1].Blocks()
  }

  /** No two entries share a block, and no block is owned twice. */
  ghost predicate Separate(nodes: seq<AddrInfoW>)
    reads nodes
  {
    nodes == [] || (Separate(nodes[..|nodes| - 1]) && Owned(nodes[..|nodes| - 1]) !! nodes[|nodes| - 1].Blocks())
  }

  lemma {:induction false} OwnedPart(nodes: seq<AddrInfoW>, i: nat)
    requires i < |nodes| && Separate(nodes)
    ensures Owned(nodes[..i + 1]) == Owned(nodes[..i]) + nodes[i].Blocks()
    ensures Owned(nodes[..i]) !! nodes[i].Blocks()
    ensures Owned(nodes[..i + 1]) <= Owned(nodes)
    decreases |nodes|
  {
    var front := nodes[..|nodes| - 1];
    if i + 1 < |nodes| {
      OwnedPart(front, i);
      assert front[..i] == nodes[..i] && front[..i + 1] == nodes[..i + 1];
    } else {
      assert nodes[..i + 1] == nodes && nodes[..i] == front;
    }
  }

  /** Free one entry: address and name if present, then the node itself. */
  method FreeEntry(node: AddrInfoW, ledger: Ledger)
    requires node.Blocks() <= ledger.live
    modifies ledger
    ensures ledger.live == old(ledger.live) - node.Blocks() && ledger.calls == old(ledger.calls)
  {
    if node.addr != null { ledger.Free(node.addr); }
    if node.canonname != null { ledger.Free(node.canonname); }
    ledger.Free(node);
  }

  /** FreeAddrInfoW: every node, address and name of the list is freed once, and nothing else. */
  method FreeAddrInfoW(head: AddrInfoW?, ledger: Ledger, ghost nodes: seq<AddrInfoW>)
    requires Chain(head, nodes) && Separate(nodes) && Owned(nodes) <= ledger.live
    modifies ledger
    ensures ledger.live == old(ledger.live) - Owned(nodes) && ledger.calls == old(ledger.calls)
  {
    var current := head;
    ghost var i := 0;
    while current != null
      invariant i <= |nodes| && current == (if i < |nodes| then nodes[i] else null)
      invariant ledger.live == old(ledger.live) - Owned(nodes[..i]) && ledger.calls == old(ledger.calls)
      decreases |nodes| - i
    {
      OwnedPart(nodes, i);
      assert current in ledger.live;
      var nextItem := current.next;
      FreeEntry(current, ledger);
      current := nextItem;
      i := i + 1;
    }
    assert nodes[..i] == nodes;
  }

  /** Appending an entry with blocks of its own. */
  lemma OwnedAppend(nodes: seq<AddrInfoW>, item: AddrInfoW)
    ensures Owned(nodes + [item]) == Owned(nodes) + item.Blocks()
    ensures Separate(nodes + [item]) <==> Separate(nodes) && Owned(nodes) !! item.Blocks()
    ensures Items(nodes + [item]) == Items(nodes) + [item.AsItem()]
  {
    assert (nodes + [item])[..|nodes|] == nodes;
  }

  /** What the lookup itself gave: an error code, or the library's list. */
  datatype Lookup = Failed(code: int) | Found(list: seq<Source>)

  /** One turn of the conversion loop up to the link: the node with its copies, or None without memory. */
  method ConvertEntry(src: Source, ledger: Ledger, widen: Widen) returns (witem: AddrInfoW?)
    modifies ledger
    ensures witem == null <==> !ledger.ok(old(ledger.calls))
    ensures witem == null ==> ledger.live == old(ledger.live)
    ensures witem != null ==>
      && ledger.calls == old(ledger.calls) + Calls(src)
      && fresh(witem) && fresh(witem.Blocks())
      && witem.next == null
      && witem.AsItem() == ItemOf(src, old(ledger.calls), ledger.ok, widen)
      && ledger.live == old(ledger.live) + witem.Blocks()
  {
    witem := ledger.MallocNode(src);
    if witem == null { return; }
    if src.addr.Some? {
      witem.addr := ledger.MallocBytes(src.addr.value);
    }
    if src.canonname.Some? {
      witem.canonname := ledger.MallocWide(widen(src.canonname.value));
    }
  }

  /** A well-formed list, with the memory it owns and the entries it holds. */
  ghost predicate ListOk(head: AddrInfoW?, nodes: seq<AddrInfoW>, blocks: set<object>, items: seq<Item>)
    reads nodes
  {
    Chain(head, nodes) && Separate(nodes) && Owned(nodes) == blocks && Items(nodes) == items
  }

  /** Only the links matter to a chain, only the rest to what it owns and holds. */
  twostate lemma LinksDoNotOwn(nodes: seq<AddrInfoW>)
    requires forall i | 0 <= i < |nodes| :: nodes[i].AsItem() == old(nodes[i].AsItem()) && nodes[i].Blocks() == old(nodes[i].Blocks())
    ensures Owned(nodes) == old(Owned(nodes)) && Separate(nodes) == old(Separate(nodes)) && Items(nodes) == old(Items(nodes))
  {
    if nodes != [] { LinksDoNotOwn(nodes[..|nodes| - 1]); }
  }

  /** Link a new entry behind the last one. */
  method Append(wresult: AddrInfoW?, wcurrent: AddrInfoW?, witem: AddrInfoW,
                ghost nodes: seq<AddrInfoW>, ghost blocks: set<object>, ghost items: seq<Item>)
    returns (first: AddrInfoW)
    requires ListOk(wresult, nodes, blocks, items)
    requires witem !in nodes && witem.next == null && blocks !! witem.Blocks()
    requires wcurrent == (if nodes == [] then null else nodes[|nodes| - 1])
    modifies wcurrent
    ensures ListOk(first, nodes + [witem], blocks + old(witem.Blocks()), items + [old(witem.AsItem())])
  {
    hide Owned, Separate, Items;
    if wresult == null {
      first := witem;
    } else {
      first := wresult;
      wcurrent.next := witem;
    }
    LinksDoNotOwn(nodes);
    OwnedAppend(nodes, witem);
  }

  /** One turn of the conversion loop: copy the entry and link it, or run out of memory. */
  method Extend(src: Source, wresult: AddrInfoW?, wcurrent: AddrInfoW?, ledger: Ledger, widen: Widen,
                ghost nodes: seq<AddrInfoW>, ghost blocks: set<object>, ghost items: seq<Item>)
    returns (witem: AddrInfoW?, first: AddrInfoW?, ghost own: set<object>)
    requires ListOk(wresult, nodes, blocks, items)
    requires wcurrent == (if nodes == [] then null else nodes[|nodes| - 1])
    modifies ledger, wcurrent
    ensures witem == null <==> !ledger.ok(old(ledger.calls))
    ensures witem == null ==> ListOk(wresult, nodes, blocks, items) && ledger.live == old(ledger.live)
    ensures witem != null ==>
      && ledger.calls == old(ledger.calls) + Calls(src)
      && fresh(witem) && fresh(own)
      && ledger.live == old(ledger.live) + own
      && ListOk(first, nodes + [witem], blocks + own, items + [ItemOf(src, old(ledger.calls), ledger.ok, widen)])
  {
    witem := ConvertEntry(src, ledger, widen);
    first, own := wresult, {};
    if witem != null {
      own := witem.Blocks();
      first := Append(wresult, wcurrent, witem, nodes, blocks, items);
    }
  }

  /** The loop is at entry i and malloc call c, having made items; the rest decides the rest. */
  ghost predicate Reached(list: seq<Source>, i: nat, k: nat, c: nat, ok: nat -> bool, widen: Widen, items: seq<Item>) {
    && i <= |list|
    && (NodesFit(list, k, ok) <==> NodesFit(list[i..], c, ok))
    && Converted(list, k, ok, widen) == items + Converted(list[i..], c, ok, widen)
  }

  lemma ReachedNext(list: seq<Source>, i: nat, k: nat, c: nat, ok: nat -> bool, widen: Widen, items: seq<Item>)
    requires i < |list| && Reached(list, i, k, c, ok, widen, items)
    ensures if ok(c) then Reached(list, i + 1, k, c + Calls(list[i]), ok, widen, items + [ItemOf(list[i], c, ok, widen)])
            else !NodesFit(list, k, ok)
  {
    assert list[i..][1..] == list[i + 1..];
    var rest := Converted(list[i + 1..], c + Calls(list[i]), ok, widen);
    assert items + ([ItemOf(list[i], c, ok, widen)] + rest) == items + [ItemOf(list[i], c, ok, widen)] + rest;
  }

  lemma EmptyIsOk()
    ensures ListOk(null, [], {}, [])
  {
  }

  lemma ReachedStart(list: seq<Source>, k: nat, ok: nat -> bool, widen: Widen)
    ensures Reached(list, 0, k, k, ok, widen, [])
  {
    assert list[0..] == list;
  }

  lemma ReachedEnd(list: seq<Source>, k: nat, c: nat, ok: nat -> bool, widen: Widen, items: seq<Item>)
    requires Reached(list, |list|, k, c, ok, widen, items)
    ensures NodesFit(list, k, ok) && Converted(list, k, ok, widen) == items
  {
  }

  /** The clean-up of a half-built list. */
  method DiscardList(wresult: AddrInfoW?, ledger: Ledger, ghost nodes: seq<AddrInfoW>,
                     ghost blocks: set<object>, ghost items: seq<Item>)
    requires ListOk(wresult, nodes, blocks, items) && blocks <= ledger.live
    modifies ledger
    ensures ledger.live == old(ledger.live) - blocks
  {
    FreeAddrInfoW(wresult, ledger, nodes);
  }

  /** The conversion loop with its clean-up path. */
  method ConvertList(list: seq<Source>, ledger: Ledger, widen: Widen)
    returns (ok: bool, wresult: AddrInfoW?, ghost nodes: seq<AddrInfoW>, ghost blocks: set<object>)
    modifies ledger
    ensures ok <==> NodesFit(list, old(ledger.calls), ledger.ok)
    ensures !ok ==> ledger.live == old(ledger.live)
    ensures ok ==>
      && ListOk(wresult, nodes, blocks, Converted(list, old(ledger.calls), ledger.ok, widen))
      && fresh(blocks) && ledger.live == old(ledger.live) + blocks
  {
    hide ListOk, Reached, NodesFit, Converted;
    var wcurrent: AddrInfoW? := null;
    ghost var items: seq<Item> := [];
    wresult, nodes, blocks := null, [], {};
    EmptyIsOk();
    ReachedStart(list, ledger.calls, ledger.ok, widen);
    for i := 0 to |list|
      invariant ListOk(wresult, nodes, blocks, items)
      invariant wcurrent == (if nodes == [] then null else nodes[|nodes| - 1])
      invariant wcurrent != null ==> fresh(wcurrent)
      invariant fresh(blocks) && ledger.live == old(ledger.live) + blocks
      invariant Reached(list, i, old(ledger.calls), ledger.calls, ledger.ok, widen, items)
    {
      ReachedNext(list, i, old(ledger.calls), ledger.calls, ledger.ok, widen, items);
      ghost var item := ItemOf(list[i], ledger.calls, ledger.ok, widen);
      var witem, first, own := Extend(list[i], wresult, wcurrent, ledger, widen, nodes, blocks, items);
      if witem == null {
        DiscardList(wresult, ledger, nodes, blocks, items);
        return false, null, [], {};
      }
      wresult, wcurrent := first, witem;
      nodes, blocks, items := nodes + [witem], blocks + own, items + [item];
    }
    ReachedEnd(list, old(ledger.calls), ledger.calls, ledger.ok, widen, items);
    ok := true;
  }

  /**
    GetAddrInfoW after the lookup. With memory for every node it returns the converted list and
    the ledger has grown by exactly that list; otherwise it reports out of memory and the ledger
    is as before. stored is what was written through ppResult, None if nothing was.
    */
  method GetAddrInfoW(lookup: Lookup, ledger: Ledger, widen: Widen)
    returns (ret: int, stored: Option<AddrInfoW?>, ghost nodes: seq<AddrInfoW>)
    modifies ledger
    ensures lookup.Failed? ==> ret == lookup.code && stored == None && ledger.live == old(ledger.live)
    ensures lookup.Found? && !NodesFit(lookup.list, old(ledger.calls), ledger.ok) ==>
      ret == WSA_NOT_ENOUGH_MEMORY && stored == None && ledger.live == old(ledger.live)
    ensures lookup.Found? && NodesFit(lookup.list, old(ledger.calls), ledger.ok) ==>
      && ret == 0 && stored.Some?
      && Chain(stored.value, nodes) && Separate(nodes)
      && Items(nodes) == Converted(lookup.list, old(ledger.calls), ledger.ok, widen)
      && fresh(Owned(nodes)) && ledger.live == old(ledger.live) + Owned(nodes)
  {
    hide NodesFit, Converted;
    if lookup.Failed? { return lookup.code, None, []; }
    var result := new SourceList(lookup.list);
    ledger.live := ledger.live + {result};
    var ok, wresult, ns, blocks := ConvertList(lookup.list, ledger, widen);
    ledger.Free(result);
    if !ok { return WSA_NOT_ENOUGH_MEMORY, None, []; }
    return 0, Some(wresult), ns;
  }
}
