/** The array-backed fd_set: what its macros mean for any sequence of operations. */
module SocketSetSpec {
  import opened Winsock

  const FD_SETSIZE := 1024

  datatype Op = Set(fd: int) | Clr(fd: int) | Zero

  function Added(s: seq<int>, fd: int): seq<int> {
    if fd !in s && |s| < FD_SETSIZE then s + [fd] else s
  }

  function Apply(s: seq<int>, op: Op): seq<int> {
    match op
    case Set(fd) => Added(s, fd)
    case Clr(fd) => Without(s, fd)
    case Zero => []
  }

  /** The contents after some operations on a zeroed set. */
  function Run(ops: seq<Op>): seq<int> {
    if ops == [] then [] else Apply(Run(ops[..|ops| - 1]), ops[|ops| - 1])
  }

  predicate Distinct(s: seq<int>) {
    forall i, j | 0 <= i < j < |s| :: s[i] != s[j]
  }

  /** The call at k put fd in, and nothing took it out again. */
  ghost predicate PutInAt(ops: seq<Op>, fd: int, k: nat) {
    && k < |ops| && ops[k] == Set(fd)
    && |Run(ops[..k])| < FD_SETSIZE
    && forall j | k < j < |ops| :: ops[j] != Clr(fd) && ops[j] != Zero
  }

  lemma RemovedFacts(s: seq<int>, fd: int)
    requires Distinct(s)
    ensures Distinct(Without(s, fd)) && |Without(s, fd)| <= |s|
    ensures forall x :: x in Without(s, fd) <==> x in s && x != fd
  {
    var i, r := IndexOf(s, fd), Without(s, fd);
    if i < |s| {
      assert forall k | 0 <= k < i :: r[k] == s[k];
      assert forall k | i <= k < |r| :: r[k] == s[k + 1];
      assert s == s[..i] + [fd] + s[i + 1..];
      forall x | x in r
        ensures x in s && x != fd
      {
        var k :| 0 <= k < |r| && r[k] == x;
        assert x == s[if k < i then k else k + 1];
      }
    }
  }

  lemma ApplyFacts(s: seq<int>, op: Op)
    requires Distinct(s) && |s| <= FD_SETSIZE
    ensures Distinct(Apply(s, op)) && |Apply(s, op)| <= FD_SETSIZE
    ensures forall fd :: fd in Apply(s, op) <==>
              (op == Set(fd) && |s| < FD_SETSIZE) || (fd in s && op != Clr(fd) && op != Zero)
  {
    hide Without;
    if op.Clr? { RemovedFacts(s, op.fd); }
  }

  /**
    Over every operation sequence the contents have no duplicate and never exceed FD_SETSIZE,
    and hold exactly the descriptors put in while there was room and not taken out since.
    */
  lemma {:induction false} RunIsBoundedSet(ops: seq<Op>)
    ensures Distinct(Run(ops)) && |Run(ops)| <= FD_SETSIZE
    ensures forall fd :: fd in Run(ops) <==> exists k: nat :: PutInAt(ops, fd, k)
    decreases |ops|
  {
    if ops != [] {
      var n := |ops| - 1;
      var front, op := ops[..n], ops[n];
      RunIsBoundedSet(front);
      ApplyFacts(Run(front), op);
      forall fd
        ensures fd in Run(ops) <==> exists k: nat :: PutInAt(ops, fd, k)
      {
        PutInStep(ops, fd);
      }
    }
  }

  /** The last operation puts fd in, or leaves the earlier verdict, or takes it out. */
  lemma PutInStep(ops: seq<Op>, fd: int)
    requires ops != []
    ensures var n := |ops| - 1; var front, op := ops[..n], ops[n];
      (exists k: nat :: PutInAt(ops, fd, k)) <==>
      (op == Set(fd) && |Run(front)| < FD_SETSIZE)
      || ((exists k: nat :: PutInAt(front, fd, k)) && op != Clr(fd) && op != Zero)
  {
    var n := |ops| - 1;
    var front, op := ops[..n], ops[n];
    hide Run;
    forall k: nat | k < n
      ensures PutInAt(ops, fd, k) <==> PutInAt(front, fd, k) && op != Clr(fd) && op != Zero
    {
      assert front[..k] == ops[..k];
      assert forall j | k <= j < n :: front[j] == ops[j];
    }
    assert PutInAt(ops, fd, n) <==> op == Set(fd) && |Run(front)| < FD_SETSIZE;
  }

  /** fd came in with the call at k, where it was absent and there was room, and it stayed. */
  ghost predicate CameInAt(ops: seq<Op>, fd: int, k: nat) {
    PutInAt(ops, fd, k) && fd !in Run(ops[..k])
  }

  /** One operation keeps the descriptors that stay in order, and puts a new one behind all others. */
  lemma ApplyKeepsOrder(s: seq<int>, op: Op, a: int, b: int)
    requires Distinct(s) && |s| <= FD_SETSIZE && a in Apply(s, op) && b in Apply(s, op) && a != b
    ensures var r := Apply(s, op);
      IndexOf(r, a) < IndexOf(r, b) <==> a in s && (b in s ==> IndexOf(s, a) < IndexOf(s, b))
  {
    match op
    case Set(fd) =>
      IndexInAppend(s, fd, a);
      IndexInAppend(s, fd, b);
    case Clr(fd) =>
      RemovedFacts(s, fd);
      RemovedKeepsOrder(s, fd, a, b);
    case Zero =>
  }

  lemma IndexInAppend(s: seq<int>, fd: int, a: int)
    requires a in Added(s, fd)
    ensures IndexOf(Added(s, fd), a) == IndexOf(s, a)
  {
    var r, i := Added(s, fd), IndexOf(s, a);
    assert forall j | 0 <= j < |s| :: r[j] == s[j];
    assert i < |r| && r[i] == a;
    assert forall j: nat | j < i :: r[j] != a;
  }

  /** A descriptor in the set came in at exactly one call. */
  lemma {:induction false} CameInOnce(ops: seq<Op>, fd: int) returns (k: nat)
    requires fd in Run(ops)
    ensures CameInAt(ops, fd, k) && forall l: nat | CameInAt(ops, fd, l) :: l == k
    decreases |ops|
  {
    var n := |ops| - 1;
    var front, op := ops[..n], ops[n];
    RunIsBoundedSet(front);
    ApplyFacts(Run(front), op);
    assert forall l: nat | l <= n :: front[..l] == ops[..l];
    if fd in Run(front) {
      k := CameInOnce(front, fd);
      LastingCall(ops, fd, k);
      forall l: nat | CameInAt(ops, fd, l)
        ensures l == k
      {
        if l < n { LastingCall(ops, fd, l); }
      }
    } else {
      k := n;
      forall l: nat | CameInAt(ops, fd, l)
        ensures l == k
      {
        if l < n {
          CameInBefore(ops, fd, l);
          assert false;
        }
      }
    }
  }

  /** A call that lasts over one more operation. */
  lemma LastingCall(ops: seq<Op>, fd: int, k: nat)
    requires ops != [] && k < |ops| - 1
    ensures var n := |ops| - 1;
      CameInAt(ops, fd, k) <==> CameInAt(ops[..n], fd, k) && ops[n] != Clr(fd) && ops[n] != Zero
  {
    hide Run;
    var n := |ops| - 1;
    assert ops[..n][..k] == ops[..k];
    assert forall j | k <= j < n :: ops[..n][j] == ops[j];
  }

  /** Over every operation sequence the descriptors lie in the order in which they came in. */
  lemma {:induction false} RunIsInOrder(ops: seq<Op>, a: int, b: int, k: nat, l: nat)
    requires a in Run(ops) && b in Run(ops) && CameInAt(ops, a, k) && CameInAt(ops, b, l)
    ensures IndexOf(Run(ops), a) < IndexOf(Run(ops), b) <==> k < l
    decreases |ops|
  {
    var n := |ops| - 1;
    var front, op := ops[..n], ops[n];
    RunIsBoundedSet(front);
    ApplyFacts(Run(front), op);
    if a != b {
      ApplyKeepsOrder(Run(front), op, a, b);
      if k < n { CameInBefore(ops, a, k); }
      if l < n { CameInBefore(ops, b, l); }
      if k < n && l < n { RunIsInOrder(front, a, b, k, l); }
      if k == n { assert a !in Run(front); }
      if l == n { assert b !in Run(front); }
    } else {
      var c := CameInOnce(ops, a);
    }
  }

  lemma CameInBefore(ops: seq<Op>, fd: int, k: nat)
    requires ops != [] && k < |ops| - 1 && CameInAt(ops, fd, k)
    ensures var front := ops[..|ops| - 1]; CameInAt(front, fd, k) && fd in Run(front)
  {
    LastingCall(ops, fd, k);
    var front := ops[..|ops| - 1];
    RunIsBoundedSet(front);
    assert PutInAt(front, fd, k);
  }

  /** Taking one descriptor out keeps the others in order. */
  lemma RemovedKeepsOrder(s: seq<int>, fd: int, a: int, b: int)
    requires Distinct(s) && a in s && b in s && a != fd && b != fd
    ensures a in Without(s, fd) && b in Without(s, fd)
    ensures IndexOf(Without(s, fd), a) < IndexOf(Without(s, fd), b) <==> IndexOf(s, a) < IndexOf(s, b)
  {
    RemovedIndex(s, fd, a);
    RemovedIndex(s, fd, b);
  }

  lemma RemovedIndex(s: seq<int>, fd: int, a: int)
    requires Distinct(s) && a in s && a != fd
    ensures a in Without(s, fd)
    ensures IndexOf(Without(s, fd), a) == if IndexOf(s, a) < IndexOf(s, fd) then IndexOf(s, a) else IndexOf(s, a) - 1
  {
    var i, k, r := IndexOf(s, fd), IndexOf(s, a), Without(s, fd);
    if i < |s| {
      var k' := if k < i then k else k - 1;
      assert r[k'] == a;
      assert forall j | 0 <= j < |r| :: r[j] == s[if j < i then j else j + 1];
    }
  }
}

/** FD_ZERO, FD_SET and FD_CLR on the array, in place. */
module SocketSet {
  import opened Winsock
  import opened SocketSetSpec

  class FdSet {
    var fdCount: nat
    const fdArray: array<int>

    predicate Valid()
      reads this
    {
      fdArray.Length == FD_SETSIZE && fdCount <= FD_SETSIZE
    }

    function Contents(): seq<int>
      requires Valid()
      reads this, fdArray
    {
      fdArray[..fdCount]
    }

    constructor ()
      ensures Valid() && Contents() == [] && fresh(fdArray)
    {
      fdArray := new int[FD_SETSIZE];
      fdCount := 0;
    }

    method Zero()
      requires Valid()
      modifies `fdCount
      ensures Valid() && Contents() == Apply(old(Contents()), Op.Zero)
    {
      fdCount := 0;
    }

    method Set(fd: int)
      requires Valid()
      modifies `fdCount, fdArray
      ensures Valid() && Contents() == Apply(old(Contents()), Op.Set(fd))
    {
      var i := 0;
      while i < fdCount
        invariant i <= fdCount
        invariant forall j | 0 <= j < i :: fdArray[j] != fd
      {
        if fdArray[i] == fd { break; }
        i := i + 1;
      }
      assert i == fdCount <==> fd !in Contents();
      if i == fdCount {
        if fdCount < FD_SETSIZE {
          fdArray[i] := fd;
          fdCount := fdCount + 1;
        }
      }
    }

    /** The inner loop of FD_CLR: move everything behind k one place down. */
    method ShiftDown(k: nat)
      requires Valid() && k < fdCount
      modifies fdArray
      ensures fdArray[..fdCount - 1] == old(fdArray[..k] + fdArray[k + 1..fdCount])
    {
      var i := k;
      while i < fdCount - 1
        invariant k <= i <= fdCount - 1
        invariant forall j | 0 <= j < k :: fdArray[j] == old(fdArray[j])
        invariant forall j | k <= j < i :: fdArray[j] == old(fdArray[j + 1])
        invariant forall j | i <= j < FD_SETSIZE :: fdArray[j] == old(fdArray[j])
      {
        fdArray[i] := fdArray[i + 1];
        i := i + 1;
      }
    }

    method Clr(fd: int)
      requires Valid()
      modifies `fdCount, fdArray
      ensures Valid() && Contents() == Apply(old(Contents()), Op.Clr(fd))
    {
      var i := 0;
      while i < fdCount
        invariant i <= fdCount && fdCount == old(fdCount) && Contents() == old(Contents())
        invariant forall j | 0 <= j < i :: fdArray[j] != fd
      {
        if fdArray[i] == fd {
          assert i == IndexOf(Contents(), fd);
          assert fdArray[i + 1..fdCount] == Contents()[i + 1..] && fdArray[..i] == Contents()[..i];
          ShiftDown(i);
          fdCount := fdCount - 1;
          return;
        }
        i := i + 1;
      }
    }
  }
}
