/**
  The ancillary-data macros: a record format with alignment, and the cursor that walks it
  (section 5 of RFC 3542). Addresses and lengths are 64-bit words that wrap around.
  */
module ControlMessages {
  import opened Winsock
  import opened Decimals

  /** The number of different 64-bit words. */
  const WORDS: nat := 0x1_0000_0000_0000_0000
  const SIZEOF_SIZE_T := 8
  const SIZEOF_CMSGHDR := 16
  const NULL := 0

  /** The sum of two words, as a word. */
  function Wrap(sum: nat): nat {
    if sum < WORDS then sum else sum - WORDS
  }

  /** CMSG_ALIGN: add 7, which may wrap, and clear the low three bits. */
  function Align(len: nat): nat {
    var sum := Wrap(len + (SIZEOF_SIZE_T - 1));
    sum - sum % SIZEOF_SIZE_T
  }

  /** CMSG_SPACE */
  function Space(len: nat): nat {
    Wrap(Align(SIZEOF_CMSGHDR) + Align(len))
  }

  /** CMSG_LEN */
  function Len(len: nat): nat {
    Wrap(Align(SIZEOF_CMSGHDR) + len)
  }

  /** The control buffer of a message: its address, and its bytes. */
  datatype Control = Control(base: nat, mem: seq<Byte>)

  predicate Valid(c: Control) {
    0 < c.base && c.base + |c.mem| < WORDS
  }

  /** A whole header at p lies in the buffer. */
  predicate Inside(c: Control, p: nat) {
    c.base <= p && p + SIZEOF_CMSGHDR <= c.base + |c.mem|
  }

  function Decode(bytes: seq<Byte>): nat {
    if bytes == [] then 0 else bytes[0] + 256 * Decode(bytes[1..])
  }

  /** n as k little-endian bytes. */
  function Encode(n: nat, k: nat): (bytes: seq<Byte>)
    ensures |bytes| == k
  {
    if k == 0 then [] else [n % 256] + Encode(n / 256, k - 1)
  }

  function Pow256(k: nat): nat { if k == 0 then 1 else 256 * Pow256(k - 1) }

  lemma {:induction false} DecodeOfEncode(n: nat, k: nat)
    requires n < Pow256(k)
    ensures Decode(Encode(n, k)) == n
    decreases k
  {
    if k > 0 {
      DecodeOfEncode(n / 256, k - 1);
      assert Encode(n, k)[1..] == Encode(n / 256, k - 1);
    }
  }

  /** The field of size bytes that starts off bytes behind p. */
  function Field(c: Control, p: nat, off: nat, size: nat): nat {
    if c.base <= p && p - c.base + off + size <= |c.mem| then Decode(c.mem[p - c.base + off..p - c.base + off + size]) else 0
  }

  function CmsgLen(c: Control, p: nat): nat { Field(c, p, 0, 8) }
  function CmsgLevel(c: Control, p: nat): nat { Field(c, p, 8, 4) }
  function CmsgType(c: Control, p: nat): nat { Field(c, p, 12, 4) }

  /** CMSG_FIRSTHDR */
  function FirstHdr(c: Control): nat {
    if |c.mem| >= SIZEOF_CMSGHDR then c.base else NULL
  }

  /** CMSG_NXTHDR */
  function NextHdr(c: Control, p: nat): nat {
    if p == NULL then FirstHdr(c)
    else
      var next := Wrap(p + Align(CmsgLen(c, p)));
      if Wrap(next + Align(SIZEOF_CMSGHDR)) > Wrap(c.base + |c.mem|) then NULL else next
  }

  /** CMSG_DATA */
  function DataAt(p: nat): nat {
    Wrap(p + Align(SIZEOF_CMSGHDR))
  }

  /** CMSG_NXTHDR of NULL starts the walk: the first header when the buffer has room for one. */
  lemma NextOfNull(c: Control)
    ensures NextHdr(c, NULL) == if |c.mem| < SIZEOF_CMSGHDR then NULL else c.base
  {
  }

  /** The cursor after k steps of a loop that stops at NULL. */
  function Visit(c: Control, p: nat, k: nat): nat
    decreases k
  {
    if k == 0 || p == NULL then p else Visit(c, NextHdr(c, p), k - 1)
  }

  // ---------------------------------------------------------------- alignment

  /** Aligning is adding the distance to the next multiple of 8, unless the addition wraps. */
  lemma AlignValue(len: nat)
    requires len < WORDS
    ensures len <= WORDS - SIZEOF_SIZE_T ==> len <= Align(len) < len + SIZEOF_SIZE_T && Align(len) % SIZEOF_SIZE_T == 0
    ensures len > WORDS - SIZEOF_SIZE_T ==> Align(len) == 0
    ensures Align(len) == 0 <==> len == 0 || len > WORDS - SIZEOF_SIZE_T
  {
  }

  /** The law behind the format: aligning a record's length is aligning its payload's. */
  lemma AlignAfterHeader(len: nat)
    requires len + 32 < WORDS
    ensures Align(Len(len)) == SIZEOF_CMSGHDR + Align(len) == Space(len)
  {
    assert (len + 16 + 7) % 8 == (len + 7) % 8;
  }

  // --------------------------------------------------------------- termination

  /** The header's length neither stalls the cursor nor carries it past the top of memory. */
  predicate Honest(c: Control, p: nat) {
    0 < CmsgLen(c, p) <= WORDS - SIZEOF_SIZE_T && p + Align(CmsgLen(c, p)) + SIZEOF_CMSGHDR < WORDS
  }

  lemma {:induction false} DecodeBound(bytes: seq<Byte>)
    ensures Decode(bytes) < Pow256(|bytes|)
    decreases |bytes|
  {
    if bytes != [] { DecodeBound(bytes[1..]); }
  }

  lemma CmsgLenIsWord(c: Control, p: nat)
    ensures CmsgLen(c, p) < WORDS
  {
    assert Pow256(8) == WORDS;
    if c.base <= p && p - c.base + 8 <= |c.mem| { DecodeBound(c.mem[p - c.base..p - c.base + 8]); }
  }

  /** The cursor moves strictly forward to a whole header exactly when the current length is honest. */
  lemma NextAdvancesIff(c: Control, p: nat)
    requires Valid(c) && Inside(c, p) && NextHdr(c, p) != NULL
    ensures NextHdr(c, p) > p && Inside(c, NextHdr(c, p)) <==> Honest(c, p)
    ensures Honest(c, p) ==> NextHdr(c, p) >= p + SIZEOF_SIZE_T
  {
    CmsgLenIsWord(c, p);
    AlignValue(CmsgLen(c, p));
  }

  /** The cursor stays where it is exactly for a length of zero or one that wraps when aligned. */
  lemma StuckIff(c: Control, p: nat)
    requires Valid(c) && Inside(c, p)
    ensures NextHdr(c, p) == p <==> CmsgLen(c, p) == 0 || CmsgLen(c, p) > WORDS - SIZEOF_SIZE_T
  {
    CmsgLenIsWord(c, p);
    AlignValue(CmsgLen(c, p));
  }

  lemma {:induction false} StuckForever(c: Control, p: nat, k: nat)
    requires NextHdr(c, p) == p
    ensures Visit(c, p, k) == p
    decreases k
  {
    if k > 0 { StuckForever(c, p, k - 1); }
  }

  /** A nonzero length is not enough: all bits set is nonzero, and the walk never ends. */
  lemma NonzeroLengthMayLoop()
    ensures var c := Control(4096, Encode(WORDS - 1, 8) + Encode(0, 8));
      && Valid(c)
      && CmsgLen(c, FirstHdr(c)) != 0
      && forall k: nat :: Visit(c, FirstHdr(c), k) == c.base
  {
    var c := Control(4096, Encode(WORDS - 1, 8) + Encode(0, 8));
    assert c.mem[..8] == Encode(WORDS - 1, 8);
    assert Pow256(8) == WORDS;
    DecodeOfEncode(WORDS - 1, 8);
    StuckIff(c, c.base);
    forall k: nat
      ensures Visit(c, FirstHdr(c), k) == c.base
    {
      StuckForever(c, c.base, k);
    }
  }

  /** The k-th header of the walk over the buffer. */
  function Cursor(c: Control, k: nat): nat {
    Visit(c, FirstHdr(c), k)
  }

  lemma {:induction false} VisitNext(c: Control, p: nat, k: nat)
    ensures Visit(c, p, k + 1) == if Visit(c, p, k) == NULL then NULL else NextHdr(c, Visit(c, p, k))
    decreases k
  {
    if k == 0 {
      assert p != NULL ==> Visit(c, p, 1) == Visit(c, NextHdr(c, p), 0);
    } else if p != NULL {
      VisitNext(c, NextHdr(c, p), k - 1);
    }
  }

  /** Every header that has a successor is honest. */
  ghost predicate HonestWalk(c: Control) {
    forall k: nat | Successor(c, k) != NULL :: Honest(c, Cursor(c, k))
  }

  /** Every successor is further on, and a whole header inside the buffer. */
  ghost predicate ForwardWalk(c: Control) {
    forall k: nat | Successor(c, k) != NULL :: Successor(c, k) > Cursor(c, k) && Inside(c, Successor(c, k))
  }

  function Successor(c: Control, k: nat): nat { Cursor(c, k + 1) }

  /** Up to the k-th header, honest lengths and forward steps are the same. */
  lemma {:induction false} WalkInside(c: Control, k: nat)
    requires Valid(c) && (HonestWalk(c) || ForwardWalk(c)) && Cursor(c, k) != NULL
    ensures Inside(c, Cursor(c, k)) && Cursor(c, k) >= c.base + SIZEOF_SIZE_T * k
    ensures Successor(c, k) != NULL ==>
      Honest(c, Cursor(c, k)) && Successor(c, k) >= Cursor(c, k) + SIZEOF_SIZE_T && Inside(c, Successor(c, k))
    decreases k
  {
    hide Visit, NextHdr, Honest, FirstHdr;
    if k == 0 {
      CursorStart(c);
    } else {
      VisitNext(c, FirstHdr(c), k - 1);
      assert Successor(c, k - 1) == Cursor(c, k);
      WalkInside(c, k - 1);
    }
    VisitNext(c, FirstHdr(c), k);
    if Successor(c, k) != NULL { NextAdvancesIff(c, Cursor(c, k)); }
  }

  lemma CursorStart(c: Control)
    ensures Cursor(c, 0) != NULL ==> Cursor(c, 0) == c.base && Inside(c, c.base)
  {
  }

  /** A walk only ever moves forward inside the buffer exactly when every header it leaves is honest. */
  lemma WalkForwardIff(c: Control)
    requires Valid(c)
    ensures ForwardWalk(c) <==> HonestWalk(c)
  {
    hide Visit, Honest;
    forall k: nat | Successor(c, k) != NULL && (HonestWalk(c) || ForwardWalk(c))
      ensures Honest(c, Cursor(c, k)) && Successor(c, k) > Cursor(c, k) && Inside(c, Successor(c, k))
    {
      VisitNext(c, FirstHdr(c), k);
      WalkInside(c, k);
    }
  }

  /**
    A walk that leaves only honest headers returns whole headers inside the buffer, each
    further on than the last, and ends within one step per 8 bytes of buffer.
    */
  lemma HonestWalkEnds(c: Control)
    requires Valid(c) && HonestWalk(c)
    ensures forall k: nat | Cursor(c, k) != NULL :: Inside(c, Cursor(c, k)) && Cursor(c, k) >= c.base + SIZEOF_SIZE_T * k
    ensures Cursor(c, |c.mem| / SIZEOF_SIZE_T) == NULL
  {
    hide Visit, Honest, Cursor;
    forall k: nat | Cursor(c, k) != NULL
      ensures Inside(c, Cursor(c, k)) && Cursor(c, k) >= c.base + SIZEOF_SIZE_T * k
    {
      WalkInside(c, k);
    }
  }

  // ------------------------------------------------------------------- layout

  /** One control message; padding is whatever lies between the payload and the next header. */
  datatype Record = Record(level: nat, kind: nat, payload: seq<Byte>, padding: seq<Byte>)

  predicate RecordOk(r: Record) {
    && r.level < 0x1_0000_0000
    && r.kind < 0x1_0000_0000
    && |r.payload| + 32 < WORDS
    && |r.padding| == Align(|r.payload|) - |r.payload|
  }

  function Header(r: Record): (h: seq<Byte>)
    ensures |h| == SIZEOF_CMSGHDR
  {
    Encode(Len(|r.payload|), 8) + Encode(r.level, 4) + Encode(r.kind, 4)
  }

  function Laid(r: Record): seq<Byte> {
    Header(r) + r.payload + r.padding
  }

  function Layout(rs: seq<Record>): seq<Byte> {
    if rs == [] then [] else Laid(rs[0]) + Layout(rs[1..])
  }

  /** The bytes that must be present: everything but the padding of the last record. */
  function Needed(rs: seq<Record>): seq<Byte> {
    if rs == [] then [] else if |rs| == 1 then Header(rs[0]) + rs[0].payload else Laid(rs[0]) + Needed(rs[1..])
  }

  /** From offset o on, the buffer holds the records, and no room for another header is left over. */
  predicate HoldsAt(c: Control, o: nat, rs: seq<Record>) {
    && o + |Needed(rs)| <= |c.mem| < o + |Layout(rs)| + SIZEOF_CMSGHDR
    && c.mem[o..o + |Needed(rs)|] == Needed(rs)
  }

  /** A record takes CMSG_SPACE of its payload. */
  lemma LaidIsSpace(r: Record)
    requires RecordOk(r)
    ensures |Laid(r)| == Space(|r.payload|) == Align(Len(|r.payload|))
  {
    AlignAfterHeader(|r.payload|);
  }

  /** What a receiver takes from the header at p: level, type, and cmsg_len - CMSG_LEN(0) bytes at CMSG_DATA. */
  datatype Message = Message(level: nat, kind: nat, payload: seq<Byte>)

  function MessageAt(c: Control, p: nat): Option<Message> {
    var len, data := CmsgLen(c, p), DataAt(p) - c.base;
    if Inside(c, p) && len >= Len(0) && 0 <= data && data + len - Len(0) <= |c.mem|
    then Some(Message(CmsgLevel(c, p), CmsgType(c, p), c.mem[data..data + len - Len(0)]))
    else None
  }

  function MessageOf(r: Record): Message {
    Message(r.level, r.kind, r.payload)
  }

  lemma NeededFront(rs: seq<Record>)
    requires rs != []
    ensures Header(rs[0]) + rs[0].payload <= Needed(rs)
    ensures |Needed(rs)| <= |Layout(rs)| && |Needed(rs)| >= SIZEOF_CMSGHDR
  {
    if |rs| > 1 { NeededFront(rs[1..]); }
  }

  /** A slice of a slice. */
  lemma SliceOf(mem: seq<Byte>, o: nat, need: seq<Byte>, i: nat, j: nat)
    requires o + |need| <= |mem| && mem[o..o + |need|] == need && i <= j <= |need|
    ensures mem[o + i..o + j] == need[i..j]
  {
    forall k | i <= k < j
      ensures mem[o + k] == need[k]
    {
      assert mem[o..o + |need|][k] == mem[o + k];
    }
    forall k | 0 <= k < j - i
      ensures mem[o + i..o + j][k] == need[i..j][k]
    {
      assert mem[o + (i + k)] == need[i + k];
    }
  }

  lemma HeaderFields(r: Record)
    ensures Header(r)[0..8] == Encode(Len(|r.payload|), 8)
    ensures Header(r)[8..12] == Encode(r.level, 4)
    ensures Header(r)[12..16] == Encode(r.kind, 4)
  {
  }

  lemma FieldReads(c: Control, p: nat, off: nat, size: nat, n: nat)
    requires c.base <= p && p - c.base + off + size <= |c.mem| && n < Pow256(size)
    requires c.mem[p - c.base + off..p - c.base + off + size] == Encode(n, size)
    ensures Field(c, p, off, size) == n
  {
    DecodeOfEncode(n, size);
  }

  /** The front of a layout, field by field. */
  lemma FrontOfLayout(rs: seq<Record>)
    requires rs != []
    ensures var r, need := rs[0], Needed(rs);
      && |need| >= SIZEOF_CMSGHDR + |r.payload|
      && need[0..8] == Encode(Len(|r.payload|), 8)
      && need[8..12] == Encode(r.level, 4)
      && need[12..16] == Encode(r.kind, 4)
      && need[16..16 + |r.payload|] == r.payload
  {
    NeededFront(rs);
    HeaderFields(rs[0]);
    var h, need := Header(rs[0]), Needed(rs);
    var front := h + rs[0].payload;
    assert need[..|front|] == front;
    SliceOf(need, 0, front, 0, 8);
    SliceOf(need, 0, front, 8, 12);
    SliceOf(need, 0, front, 12, 16);
    SliceOf(need, 0, front, 16, |front|);
    assert front[0..8] == h[0..8] && front[8..12] == h[8..12] && front[12..16] == h[12..16];
  }

  lemma WordSizes()
    ensures Pow256(8) == WORDS && Pow256(4) == 0x1_0000_0000
  {
  }

  /** The bytes of a record at offset o, read as a message. */
  lemma BytesAreMessage(c: Control, o: nat, r: Record)
    requires Valid(c) && RecordOk(r) && o + SIZEOF_CMSGHDR + |r.payload| <= |c.mem|
    requires c.mem[o..o + 8] == Encode(Len(|r.payload|), 8)
    requires c.mem[o + 8..o + 12] == Encode(r.level, 4)
    requires c.mem[o + 12..o + 16] == Encode(r.kind, 4)
    requires c.mem[o + 16..o + 16 + |r.payload|] == r.payload
    ensures MessageAt(c, c.base + o) == Some(MessageOf(r)) && CmsgLen(c, c.base + o) == Len(|r.payload|)
  {
    hide Encode, Decode, Field;
    WordSizes();
    FieldReads(c, c.base + o, 0, 8, Len(|r.payload|));
    FieldReads(c, c.base + o, 8, 4, r.level);
    FieldReads(c, c.base + o, 12, 4, r.kind);
  }

  /** Reading back the first record of a layout. */
  lemma FirstReads(c: Control, o: nat, rs: seq<Record>)
    requires Valid(c) && rs != [] && RecordOk(rs[0]) && HoldsAt(c, o, rs)
    ensures MessageAt(c, c.base + o) == Some(MessageOf(rs[0])) && CmsgLen(c, c.base + o) == Len(|rs[0].payload|)
  {
    var n, need := |rs[0].payload|, Needed(rs);
    FrontOfLayout(rs);
    SliceOf(c.mem, o, need, 0, 8);
    SliceOf(c.mem, o, need, 8, 12);
    SliceOf(c.mem, o, need, 12, 16);
    SliceOf(c.mem, o, need, 16, 16 + n);
    BytesAreMessage(c, o, rs[0]);
  }

  /** The next record's bytes follow the first one's. */
  lemma HoldsNext(c: Control, o: nat, rs: seq<Record>)
    requires |rs| > 1 && HoldsAt(c, o, rs)
    ensures HoldsAt(c, o + |Laid(rs[0])|, rs[1..]) && o + |Laid(rs[0])| + SIZEOF_CMSGHDR <= |c.mem|
  {
    NeededFront(rs[1..]);
    var need := Needed(rs);
    SliceOf(c.mem, o, need, |Laid(rs[0])|, |need|);
    assert need[|Laid(rs[0])|..] == Needed(rs[1..]);
  }

  /** From a record the cursor steps over CMSG_SPACE bytes, or to NULL when no header fits behind. */
  lemma StepOverRecord(c: Control, p: nat, r: Record)
    requires Valid(c) && c.base + |c.mem| + 32 < WORDS && RecordOk(r)
    requires Inside(c, p) && p + SIZEOF_CMSGHDR + |r.payload| <= c.base + |c.mem| && CmsgLen(c, p) == Len(|r.payload|)
    ensures NextHdr(c, p) == if p + |Laid(r)| + SIZEOF_CMSGHDR > c.base + |c.mem| then NULL else p + |Laid(r)|
  {
    LaidIsSpace(r);
    AlignValue(|r.payload|);
    assert Align(SIZEOF_CMSGHDR) == SIZEOF_CMSGHDR;
    assert p + |Laid(r)| + SIZEOF_CMSGHDR < WORDS;
  }

  /** From a record the cursor steps to the next one, or to NULL behind the last. */
  lemma NextOfRecord(c: Control, o: nat, rs: seq<Record>)
    requires Valid(c) && c.base + |c.mem| + 32 < WORDS
    requires rs != [] && RecordOk(rs[0]) && HoldsAt(c, o, rs)
    ensures |rs| == 1 ==> NextHdr(c, c.base + o) == NULL
    ensures |rs| > 1 ==> NextHdr(c, c.base + o) == c.base + o + |Laid(rs[0])| && HoldsAt(c, o + |Laid(rs[0])|, rs[1..])
  {
    FirstReads(c, o, rs);
    StepOverRecord(c, c.base + o, rs[0]);
    if |rs| == 1 {
      assert Layout(rs) == Laid(rs[0]) + Layout([]);
    } else {
      HoldsNext(c, o, rs);
    }
  }

  /** How many bytes the first k records take. */
  function Before(rs: seq<Record>, k: nat): nat
    requires k <= |rs|
  {
    if k == 0 then 0 else |Laid(rs[0])| + Before(rs[1..], k - 1)
  }

  /** k steps on, the cursor is at record k of a layout, and behind the last at NULL. */
  lemma {:induction false} WalkReaches(c: Control, o: nat, rs: seq<Record>, k: nat)
    requires Valid(c) && c.base + |c.mem| + 32 < WORDS
    requires rs != [] && (forall i | 0 <= i < |rs| :: RecordOk(rs[i])) && HoldsAt(c, o, rs) && k <= |rs|
    ensures k < |rs| ==> Visit(c, c.base + o, k) == c.base + o + Before(rs, k) && HoldsAt(c, o + Before(rs, k), rs[k..])
    ensures k == |rs| ==> Visit(c, c.base + o, k) == NULL
    decreases k
  {
    hide NextHdr, HoldsAt, Laid;
    if k == 0 {
      assert rs[k..] == rs;
    } else {
      NextOfRecord(c, o, rs);
      if |rs| > 1 {
        var o', rest := o + |Laid(rs[0])|, rs[1..];
        assert rest[k - 1..] == rs[k..];
        WalkReaches(c, o', rest, k - 1);
      }
    }
  }

  /**
    Round trip: over any sequence of control messages laid out with CMSG_SPACE and CMSG_LEN,
    the walk visits exactly those messages in order, each header and payload reads back, and
    it stops after the last, whether or not the last padding is counted in the buffer length.
    */
  lemma WalkReturnsLayout(c: Control, rs: seq<Record>, k: nat)
    requires Valid(c) && c.base + |c.mem| + 32 < WORDS
    requires (forall i | 0 <= i < |rs| :: RecordOk(rs[i])) && HoldsAt(c, 0, rs) && k <= |rs|
    ensures k < |rs| ==> MessageAt(c, Visit(c, FirstHdr(c), k)) == Some(MessageOf(rs[k]))
    ensures k == |rs| ==> Visit(c, FirstHdr(c), k) == NULL
  {
    hide MessageAt, NextHdr, Laid;
    if rs != [] {
      NeededFront(rs);
      WalkReaches(c, 0, rs, k);
      if k < |rs| { FirstReads(c, Before(rs, k), rs[k..]); }
    }
  }
}
