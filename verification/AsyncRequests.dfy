/**
  Asynchronous lookups: the request list with its push, rollback and cancel critical
  sections, and the worker threads, all interleaving freely.
  */
module AsyncProtocol {
  import opened Winsock

  /** Where a request stands between its push and the end of its worker. */
  datatype Stage =
    | Pushed
    | Failed                    // pthread_create failed, the rollback is still to come
    | Started
    | Resolving
    | Resolved(found: bool)
    | Copying
    | Finished

  datatype Request = Request(next: nat, cancelled: bool, stage: Stage, handle: nat)

  /** What happened to the request with this handle. */
  datatype Happening =
    | Cancelled(handle: nat)
    | SecondCheck(handle: nat, found: bool, sawCancelled: bool)
    | Wrote(handle: nat)

  /**
    head and the next fields are addresses, 0 being NULL; freed requests leave the map and
    their address may be reused. intended is what the list would be if every operation
    removed only its own request; it and log are history, not program state.
    */
  datatype World = World(head: nat, reqs: map<nat, Request>, counter: nat, intended: seq<nat>, log: seq<Happening>)

  datatype Move =
    | Push(a: nat)
    | Spawn(a: nat, ok: bool)
    | Rollback(a: nat)
    | Cancel(h: nat, chain: seq<nat>)   // chain is the list the loop walks
    | FirstCheck(a: nat)
    | Resolve(a: nat, found: bool)
    | Recheck(a: nat)
    | Copy(a: nat)

  /** chain is the whole linked list that starts at p. */
  predicate Links(reqs: map<nat, Request>, p: nat, chain: seq<nat>)
    decreases |chain|
  {
    if chain == [] then p == 0
    else p != 0 && p == chain[0] && p in reqs && Links(reqs, reqs[p].next, chain[1..])
  }

  predicate Distinct(chain: seq<nat>) {
    forall i, j | 0 <= i < j < |chain| :: chain[i] != chain[j]
  }

  predicate AtStage(w: World, a: nat, stage: Stage) {
    a in w.reqs && w.reqs[a].stage == stage
  }

  predicate Enabled(w: World, m: Move) {
    match m
    case Push(a) => a != 0 && a !in w.reqs
    case Spawn(a, _) => AtStage(w, a, Pushed)
    case Rollback(a) => AtStage(w, a, Failed)
    case Cancel(_, chain) => Links(w.reqs, w.head, chain) && Distinct(chain)
    case FirstCheck(a) => AtStage(w, a, Started)
    case Resolve(a, _) => AtStage(w, a, Resolving)
    case Recheck(a) => a in w.reqs && w.reqs[a].stage.Resolved?
    case Copy(a) => AtStage(w, a, Copying)
  }

  function RequestAt(w: World, a: nat): Request {
    if a in w.reqs then w.reqs[a] else Request(0, false, Finished, 0)
  }

  function GotoStage(w: World, a: nat, stage: Stage): World {
    w.(reqs := w.reqs[a := RequestAt(w, a).(stage := stage)])
  }

  /** WSACancelAsyncRequest: unlink and flag the node whose address equals the handle. */
  function CancelAfter(w: World, h: nat, chain: seq<nat>): World {
    var i := IndexOf(chain, h);
    if i == |chain| then w
    else
      var req := RequestAt(w, h);
      var flagged := w.reqs[h := req.(cancelled := true)];
      var cancelled := w.(intended := Without(w.intended, h), log := w.log + [Cancelled(req.handle)]);
      if i == 0 then cancelled.(reqs := flagged, head := req.next)
      else cancelled.(reqs := flagged[chain[i - 1] := RequestAt(w, chain[i - 1]).(next := req.next)])
  }

  function After(w: World, m: Move): World {
    match m
    case Push(a) =>
      w.(reqs := w.reqs[a := Request(w.head, false, Pushed, w.counter)], head := a,
         counter := w.counter + 1, intended := [a] + w.intended)
    case Spawn(a, ok) => GotoStage(w, a, if ok then Started else Failed)
    case Rollback(a) =>
      w.(head := RequestAt(w, a).next, reqs := w.reqs - {a}, intended := Without(w.intended, a))
    case Cancel(h, chain) => CancelAfter(w, h, chain)
    case FirstCheck(a) => GotoStage(w, a, if RequestAt(w, a).cancelled then Finished else Resolving)
    case Resolve(a, found) => GotoStage(w, a, Resolved(found))
    case Recheck(a) =>
      var req := RequestAt(w, a);
      var found := req.stage.Resolved? && req.stage.found;
      GotoStage(w, a, if !req.cancelled && found then Copying else Finished).(
        log := w.log + [SecondCheck(req.handle, found, req.cancelled)])
    case Copy(a) => GotoStage(w, a, Finished).(log := w.log + [Wrote(RequestAt(w, a).handle)])
  }

  predicate Legal(w: World, moves: seq<Move>)
    decreases |moves|
  {
    moves == [] || (Enabled(w, moves[0]) && Legal(After(w, moves[0]), moves[1..]))
  }

  function Exec(w: World, moves: seq<Move>): World
    decreases |moves|
  {
    if moves == [] then w else Exec(After(w, moves[0]), moves[1..])
  }

  const Start := World(0, map[], 1, [], [])

  // ----------------------------------------------------------------- the list

  lemma {:induction false} LinksUnique(reqs: map<nat, Request>, p: nat, xs: seq<nat>, ys: seq<nat>)
    requires Links(reqs, p, xs) && Links(reqs, p, ys)
    ensures xs == ys
    decreases |xs|
  {
    if xs != [] {
      LinksUnique(reqs, reqs[p].next, xs[1..], ys[1..]);
      assert xs == [p] + xs[1..] && ys == [p] + ys[1..];
    }
  }

  /** The memory off the chain does not matter. */
  lemma {:induction false} LinksFrame(reqs: map<nat, Request>, reqs': map<nat, Request>, p: nat, chain: seq<nat>)
    requires Links(reqs, p, chain)
    requires forall a | a in chain && a in reqs :: a in reqs' && reqs'[a].next == reqs[a].next
    ensures Links(reqs', p, chain)
    decreases |chain|
  {
    if chain != [] {
      LinksFrame(reqs, reqs', reqs[p].next, chain[1..]);
    }
  }

  /** The pointer that leads to position i, and the chain from there. */
  function PointerAt(reqs: map<nat, Request>, p: nat, chain: seq<nat>, i: nat): nat {
    if i == 0 then p else if i <= |chain| && chain[i - 1] in reqs then reqs[chain[i - 1]].next else 0
  }

  lemma {:induction false} LinksSuffix(reqs: map<nat, Request>, p: nat, chain: seq<nat>, i: nat)
    requires Links(reqs, p, chain) && i <= |chain|
    ensures Links(reqs, PointerAt(reqs, p, chain, i), chain[i..])
    ensures forall j | 0 <= j < i :: chain[j] in reqs
    decreases i
  {
    if i > 0 {
      LinksSuffix(reqs, reqs[p].next, chain[1..], i - 1);
      assert chain[1..][i - 1..] == chain[i..];
      assert forall j | 1 <= j < i :: chain[j] == chain[1..][j - 1];
    }
  }

  /** Redirecting the pointer in front of position i splices the chain there. */
  lemma {:induction false} LinksSplice(reqs: map<nat, Request>, p: nat, chain: seq<nat>, i: nat, r: Request, tail: seq<nat>)
    requires Links(reqs, p, chain) && Distinct(chain) && 0 < i <= |chain|
    requires forall j | 0 <= j < i :: chain[j] !in tail
    requires Links(reqs, r.next, tail)
    ensures Links(reqs[chain[i - 1] := r], p, chain[..i] + tail)
    decreases i
  {
    var reqs' := reqs[chain[i - 1] := r];
    var spliced := chain[..i] + tail;
    if i == 1 {
      LinksFrame(reqs, reqs', r.next, tail);
      assert spliced[1..] == tail;
    } else {
      LinksSplice(reqs, reqs[p].next, chain[1..], i - 1, r, tail);
      assert spliced[1..] == chain[1..][..i - 1] + tail;
    }
  }

  /** The list is exactly the requests pushed and not rolled back or cancelled, newest first. */
  ghost predicate Exact(w: World) {
    Links(w.reqs, w.head, w.intended) && Distinct(w.intended) && 0 !in w.reqs
  }

  /** Unlinking the node at position i > 0 by its predecessor's pointer. */
  lemma UnlinkInside(reqs: map<nat, Request>, p: nat, chain: seq<nat>, i: nat, flagged: Request)
    requires Links(reqs, p, chain) && Distinct(chain) && 0 < i < |chain|
    requires chain[i] in reqs && flagged.next == reqs[chain[i]].next && chain[i - 1] in reqs
    ensures Links(reqs[chain[i] := flagged][chain[i - 1] := reqs[chain[i - 1]].(next := flagged.next)], p, chain[..i] + chain[i + 1..])
  {
    LinksSuffix(reqs, p, chain, i + 1);
    var linked := reqs[chain[i - 1]].(next := flagged.next);
    LinksSplice(reqs, p, chain, i, linked, chain[i + 1..]);
    LinksFrame(reqs[chain[i - 1] := linked], reqs[chain[i] := flagged][chain[i - 1] := linked], p, chain[..i] + chain[i + 1..]);
  }

  /** The unlinked chain is linked: around the head, or around the predecessor. */
  lemma CancelUnlinks(w: World, h: nat, chain: seq<nat>)
    requires Enabled(w, Cancel(h, chain)) && h in chain
    ensures var w' := CancelAfter(w, h, chain); Links(w'.reqs, w'.head, Without(chain, h))
  {
    var i, w' := IndexOf(chain, h), CancelAfter(w, h, chain);
    LinksSuffix(w.reqs, w.head, chain, i + 1);
    if i == 0 {
      LinksFrame(w.reqs, w'.reqs, w.reqs[h].next, chain[1..]);
      assert chain[..i] + chain[1..] == chain[1..];
    } else {
      assert chain[i - 1] in w.reqs && chain[i - 1] != h;
      UnlinkInside(w.reqs, w.head, chain, i, w.reqs[h].(cancelled := true));
    }
  }

  lemma CancelKeepsExact(w: World, h: nat, chain: seq<nat>)
    requires Exact(w) && Enabled(w, Cancel(h, chain))
    ensures Exact(CancelAfter(w, h, chain))
  {
    LinksUnique(w.reqs, w.head, chain, w.intended);
    if h in chain {
      CancelUnlinks(w, h, chain);
      LinksSuffix(w.reqs, w.head, chain, |chain|);
      var i := IndexOf(chain, h);
      assert i > 0 ==> chain[i - 1] in w.reqs;
    }
  }

  lemma StepKeepsExact(w: World, m: Move)
    requires Exact(w) && Enabled(w, m) && !m.Rollback?
    ensures Exact(After(w, m))
  {
    match m
    case Cancel(h, chain) => CancelKeepsExact(w, h, chain);
    case Push(a) =>
      if a in w.intended { LinksSuffix(w.reqs, w.head, w.intended, |w.intended|); }
      LinksFrame(w.reqs, After(w, m).reqs, w.head, w.intended);
      assert After(w, m).intended[1..] == w.intended;
    case _ => LinksFrame(w.reqs, After(w, m).reqs, w.head, w.intended);
  }

  /** A rollback drops its own request and every request pushed after it. */
  lemma RollbackDrops(w: World, a: nat)
    requires Exact(w) && Enabled(w, Rollback(a)) && a in w.intended
    ensures Links(After(w, Rollback(a)).reqs, After(w, Rollback(a)).head, w.intended[IndexOf(w.intended, a) + 1..])
  {
    var i := IndexOf(w.intended, a);
    LinksSuffix(w.reqs, w.head, w.intended, i + 1);
    LinksFrame(w.reqs, w.reqs - {a}, w.reqs[a].next, w.intended[i + 1..]);
  }

  /** Exactly when a rollback removes its own request and nothing else. */
  predicate SafeRollback(w: World, a: nat) {
    w.head == a || (a !in w.intended && RequestAt(w, a).next == w.head)
  }

  lemma RollbackExactIff(w: World, a: nat)
    requires Exact(w) && Enabled(w, Rollback(a))
    ensures Exact(After(w, Rollback(a))) <==> SafeRollback(w, a)
  {
    var w' := After(w, Rollback(a));
    var i := IndexOf(w.intended, a);
    if a in w.intended {
      RollbackDrops(w, a);
      if Exact(w') { LinksUnique(w'.reqs, w'.head, w'.intended, w.intended[i + 1..]); }
      if w.head == a { assert w'.intended == w.intended[1..]; }
    } else {
      if Exact(w') && w.intended != [] { assert w'.head == w.intended[0]; }
      if SafeRollback(w, a) { LinksFrame(w.reqs, w'.reqs, w.head, w.intended); }
    }
  }

  predicate RollbacksSafe(w: World, moves: seq<Move>)
    decreases |moves|
  {
    moves == [] || ((moves[0].Rollback? ==> SafeRollback(w, moves[0].a)) && RollbacksSafe(After(w, moves[0]), moves[1..]))
  }

  lemma {:induction false} RunExact(w: World, moves: seq<Move>)
    requires Exact(w) && Legal(w, moves) && RollbacksSafe(w, moves)
    ensures Exact(Exec(w, moves))
    decreases |moves|
  {
    if moves != [] {
      if moves[0].Rollback? { RollbackExactIff(w, moves[0].a); } else { StepKeepsExact(w, moves[0]); }
      RunExact(After(w, moves[0]), moves[1..]);
    }
  }

  /**
    As long as every rollback is safe, the list loses nobody: the request was still at the head,
    or a cancel had already unlinked it and its next pointer still is the head.
    */
  lemma SafeRunsKeepList(moves: seq<Move>)
    requires Legal(Start, moves) && RollbacksSafe(Start, moves)
    ensures Exact(Exec(Start, moves))
  {
    RunExact(Start, moves);
  }

  /** The addresses pushed in a run, newest first. */
  function PushedIn(moves: seq<Move>): seq<nat> {
    if moves == [] then []
    else PushedIn(moves[1..]) + (if moves[0].Push? then [moves[0].a] else [])
  }

  predicate OnlyAdds(moves: seq<Move>) {
    forall m | m in moves :: !m.Rollback? && !m.Cancel?
  }

  /** No address of a linked list is free. */
  lemma LinkedIsAllocated(reqs: map<nat, Request>, p: nat, chain: seq<nat>)
    requires Links(reqs, p, chain)
    ensures forall a | a in chain :: a in reqs
  {
    LinksSuffix(reqs, p, chain, |chain|);
  }

  /** Moves other than rollbacks and cancels only put requests in front of a linked list. */
  lemma AddStep(w: World, m: Move, p: nat, chain: seq<nat>)
    requires Links(w.reqs, p, chain) && Enabled(w, m) && !m.Rollback? && !m.Cancel?
    ensures Links(After(w, m).reqs, p, chain)
    ensures p == w.head ==> Links(After(w, m).reqs, After(w, m).head, PushedIn([m]) + chain)
    ensures After(w, m).intended == PushedIn([m]) + w.intended
    ensures forall a | a in w.reqs :: a in After(w, m).reqs && After(w, m).reqs[a].next == w.reqs[a].next && a !in PushedIn([m])
  {
    LinkedIsAllocated(w.reqs, p, chain);
    LinksFrame(w.reqs, After(w, m).reqs, p, chain);
    assert PushedIn([m]) == if m.Push? then [m.a] else [];
    assert ([if m.Push? then m.a else 0] + chain)[1..] == chain && [] + chain == chain;
  }

  lemma PushedFirst(moves: seq<Move>, tail: seq<nat>)
    requires moves != []
    ensures PushedIn(moves) == PushedIn(moves[1..]) + PushedIn([moves[0]])
    ensures PushedIn(moves) + tail == PushedIn(moves[1..]) + (PushedIn([moves[0]]) + tail)
  {
    assert PushedIn([moves[0]]) == PushedIn([]) + if moves[0].Push? then [moves[0].a] else [];
    Append3(PushedIn(moves[1..]), PushedIn([moves[0]]), tail);
  }

  lemma {:induction false} PushesPrepend(w: World, moves: seq<Move>, chain: seq<nat>)
    requires Links(w.reqs, w.head, chain) && Legal(w, moves) && OnlyAdds(moves)
    ensures Links(Exec(w, moves).reqs, Exec(w, moves).head, PushedIn(moves) + chain)
    decreases |moves|
  {
    hide Links, Enabled, After;
    if moves == [] {
      assert [] + chain == chain;
    } else {
      AddStep(w, moves[0], w.head, chain);
      PushesPrepend(After(w, moves[0]), moves[1..], PushedIn([moves[0]]) + chain);
      PushedFirst(moves, chain);
    }
  }

  lemma {:induction false} PushesKeep(w: World, moves: seq<Move>, a: nat)
    requires a in w.reqs && Legal(w, moves) && OnlyAdds(moves)
    ensures a in Exec(w, moves).reqs && Exec(w, moves).reqs[a].next == w.reqs[a].next && a !in PushedIn(moves)
    decreases |moves|
  {
    hide Enabled, After;
    if moves != [] {
      AddStep(w, moves[0], 0, []);
      PushesKeep(After(w, moves[0]), moves[1..], a);
      PushedFirst(moves, []);
    }
  }

  lemma {:induction false} PushesIntended(w: World, moves: seq<Move>)
    requires Exact(w) && Legal(w, moves) && OnlyAdds(moves)
    ensures Exact(Exec(w, moves)) && Exec(w, moves).intended == PushedIn(moves) + w.intended
    decreases |moves|
  {
    hide Exact, Enabled, After;
    if moves == [] {
      assert [] + w.intended == w.intended;
    } else {
      AddStep(w, moves[0], 0, []);
      StepKeepsExact(w, moves[0]);
      PushesIntended(After(w, moves[0]), moves[1..]);
      PushedFirst(moves, w.intended);
    }
  }

  /**
    Between a push and its rollback only other threads' pushes and workers run: from any linked
    list, even one that an earlier rollback shortened, the rollback resets the list to its value
    before the push, and removes its own request alone exactly when nobody pushed.
    */
  lemma RollbackAfterPushes(w: World, a: nat, moves: seq<Move>, chain: seq<nat>)
    requires Links(w.reqs, w.head, chain) && Enabled(w, Push(a)) && Legal(After(w, Push(a)), moves) && OnlyAdds(moves)
    requires Enabled(Exec(After(w, Push(a)), moves), Rollback(a))
    ensures var w2 := Exec(After(w, Push(a)), moves); var end := After(w2, Rollback(a)); var pushed := PushedIn(moves);
      && Links(w2.reqs, w2.head, pushed + ([a] + chain))
      && Links(end.reqs, end.head, chain)
      && (Links(end.reqs, end.head, pushed + chain) <==> pushed == [])
      && (Exact(w) ==> (Exact(end) <==> pushed == []))
  {
    var w1 := After(w, Push(a));
    var w2 := Exec(w1, moves);
    var end, pushed := After(w2, Rollback(a)), PushedIn(moves);
    LinkedIsAllocated(w.reqs, w.head, chain);
    LinksFrame(w.reqs, w1.reqs, w.head, chain);
    assert ([a] + chain)[1..] == chain;
    PushesPrepend(w1, moves, [a] + chain);
    forall b | b in w1.reqs
      ensures b in w2.reqs && w2.reqs[b].next == w1.reqs[b].next && b !in pushed
    {
      PushesKeep(w1, moves, b);
    }
    LinksFrame(w.reqs, end.reqs, w.head, chain);
    if Links(end.reqs, end.head, pushed + chain) { LinksUnique(end.reqs, end.head, pushed + chain, chain); }
    if pushed == [] { assert pushed + chain == chain; }
    if Exact(w) {
      StepKeepsExact(w, Push(a));
      PushesIntended(w1, moves);
      assert w2.intended == pushed + ([a] + w.intended);
      if pushed != [] { assert w2.head == w2.intended[0] && w2.intended[0] in pushed && w2.intended[|pushed|] == a; }
      RollbackExactIff(w2, a);
    }
  }

  lemma {:induction false} ExecAppend(w: World, moves: seq<Move>, m: Move)
    requires Legal(w, moves) && Enabled(Exec(w, moves), m)
    ensures Legal(w, moves + [m]) && Exec(w, moves + [m]) == After(Exec(w, moves), m)
    decreases |moves|
  {
    var all := moves + [m];
    if moves == [] {
      assert all[1..] == [];
    } else {
      assert all[1..] == moves[1..] + [m];
      ExecAppend(After(w, moves[0]), moves[1..], m);
    }
  }

  /** The list head points to memory that was freed. */
  predicate Dangling(w: World) {
    w.head != 0 && w.head !in w.reqs
  }

  /** A list that comes to a freed request never ends properly. */
  lemma {:induction false} RunsIntoFreed(reqs: map<nat, Request>, reqs': map<nat, Request>, p: nat, xs: seq<nat>, a: nat, tail: seq<nat>, ys: seq<nat>)
    requires Links(reqs, p, xs + ([a] + tail)) && a !in reqs'
    requires forall x | x in xs && x in reqs :: x in reqs' && reqs'[x].next == reqs[x].next
    ensures !Links(reqs', p, ys)
    decreases |xs|
  {
    if xs != [] && ys != [] {
      assert (xs + ([a] + tail))[1..] == xs[1..] + ([a] + tail);
      RunsIntoFreed(reqs, reqs', reqs[p].next, xs[1..], a, tail, ys[1..]);
    }
  }

  /**
    Two requests whose creation failed, with b above a on the list and mid in between. Rolling
    back the older one first leaves a head from which the list runs into freed memory. The other
    order leaves exactly what was below a, which loses mid.
    */
  lemma OverlappingOrder(w: World, a: nat, b: nat, mid: seq<nat>, chain: seq<nat>, olderFirst: bool)
    requires AtStage(w, a, Failed) && AtStage(w, b, Failed)
    requires Links(w.reqs, w.head, [b] + (mid + ([a] + chain))) && Distinct([b] + (mid + ([a] + chain)))
    ensures var order := if olderFirst then [Rollback(a), Rollback(b)] else [Rollback(b), Rollback(a)];
      var end := Exec(w, order);
      && Legal(w, order)
      && ((exists ys :: Links(end.reqs, end.head, ys)) <==> !olderFirst)
      && (Dangling(end) <==> olderFirst && mid == [])
      && (!olderFirst ==> Links(end.reqs, end.head, chain))
      && (!olderFirst ==> (Links(end.reqs, end.head, mid + chain) <==> mid == []))
  {
    var all, below, n := [b] + (mid + ([a] + chain)), mid + ([a] + chain), |mid| + 1;
    var reqs' := w.reqs - {a, b};
    Places(b, mid, a, chain);
    LinksSuffix(w.reqs, w.head, all, |all|);
    LinksSuffix(w.reqs, w.head, all, 1);
    LinksSuffix(w.reqs, w.head, all, n + 1);
    if olderFirst {
      TwoMoves(w, Rollback(a), Rollback(b));
      assert w.reqs - {a} - {b} == reqs';
      forall ys
        ensures !Links(reqs', w.reqs[b].next, ys)
      {
        RunsIntoFreed(w.reqs, reqs', w.reqs[b].next, mid, a, chain, ys);
      }
    } else {
      TwoMoves(w, Rollback(b), Rollback(a));
      assert w.reqs - {b} - {a} == reqs';
      LinksFrame(w.reqs, reqs', w.reqs[a].next, chain);
      if Links(reqs', w.reqs[a].next, mid + chain) { LinksUnique(reqs', w.reqs[a].next, mid + chain, chain); }
      assert [] + chain == chain;
    }
  }

  /** Where the four parts of the list are, and that they have no address in common. */
  lemma Places(b: nat, mid: seq<nat>, a: nat, chain: seq<nat>)
    requires Distinct([b] + (mid + ([a] + chain)))
    ensures var all := [b] + (mid + ([a] + chain)); var n := |mid| + 1;
      && all[0] == b && all[n] == a && all[1..] == mid + ([a] + chain) && all[n + 1..] == chain
      && a != b && a !in mid && b !in mid && a !in chain && b !in chain
  {
    var all, n := [b] + (mid + ([a] + chain)), |mid| + 1;
    assert all[n] == a && all[0] == b;
    assert forall i | 0 <= i < |mid| :: mid[i] == all[i + 1];
    assert forall i | 0 <= i < |chain| :: chain[i] == all[n + 1 + i];
  }

  lemma TwoMoves(w: World, m: Move, n: Move)
    requires Enabled(w, m) && Enabled(After(w, m), n)
    ensures Legal(w, [m, n]) && Exec(w, [m, n]) == After(After(w, m), n)
  {
    hide Enabled, After;
    assert [m, n][1..] == [n] && [n][1..] == [];
    var w2 := After(After(w, m), n);
    assert Legal(w2, []) && Exec(w2, []) == w2;
    assert Legal(After(w, m), [n]) && Exec(After(w, m), [n]) == w2;
  }

  /**
    Such a run: two creations fail, and the older request is rolled back first. The second
    rollback reinstates the request the first one freed.
    */
  lemma OverlappingRollbacksDangle()
    ensures exists moves :: Legal(Start, moves) && Dangling(Exec(Start, moves))
  {
    ExecAppend(Start, [], Push(1));
    var pushes := [Push(1)] + [Push(2)];
    ExecAppend(Start, [Push(1)], Push(2));
    ExecAppend(Start, pushes, Spawn(1, false));
    ExecAppend(Start, pushes + [Spawn(1, false)], Spawn(2, false));
    var failed := pushes + [Spawn(1, false)] + [Spawn(2, false)];
    ExecAppend(Start, failed, Rollback(1));
    ExecAppend(Start, failed + [Rollback(1)], Rollback(2));
    assert Exec(Start, failed + [Rollback(1)] + [Rollback(2)]).head == 1;
  }

  // -------------------------------------------------------------- the workers

  /** Entry j is a second check of h that passed, and no cancel of h came before it. */
  ghost predicate Cleared(log: seq<Happening>, h: nat, j: nat) {
    j < |log| && log[j] == SecondCheck(h, true, false) && forall k | 0 <= k < j :: log[k] != Cancelled(h)
  }

  /** A write has a cleared second check before it and no other write of the same request. */
  ghost predicate WriteOk(log: seq<Happening>, i: nat)
    requires i < |log|
  {
    log[i].Wrote? ==>
      && (exists j: nat :: j < i && Cleared(log, log[i].handle, j))
      && (forall k | 0 <= k < |log| && k != i :: log[k] != log[i])
  }

  ghost predicate RequestOk(w: World, a: nat)
    requires a in w.reqs
  {
    var r := w.reqs[a];
    && r.handle < w.counter
    && (Cancelled(r.handle) in w.log ==> r.cancelled)
    && (r.stage.Copying? ==> exists j: nat :: Cleared(w.log, r.handle, j))
    && (!r.stage.Finished? ==> Wrote(r.handle) !in w.log)
  }

  ghost predicate WorkersOk(w: World) {
    && (forall a | a in w.reqs :: RequestOk(w, a))
    && (forall a, b | a in w.reqs && b in w.reqs && a != b :: w.reqs[a].handle != w.reqs[b].handle)
    && (forall i | 0 <= i < |w.log| :: w.log[i].handle < w.counter && WriteOk(w.log, i))
  }

  lemma ClearedGrows(log: seq<Happening>, e: Happening, h: nat, j: nat)
    requires Cleared(log, h, j)
    ensures Cleared(log + [e], h, j)
  {
    assert (log + [e])[j] == log[j];
  }

  /** One more log entry keeps earlier writes in order. */
  lemma LogGrows(log: seq<Happening>, e: Happening)
    requires forall i | 0 <= i < |log| :: WriteOk(log, i)
    requires e.Wrote? ==> e !in log && exists j: nat :: Cleared(log, e.handle, j)
    ensures forall i | 0 <= i < |log + [e]| :: WriteOk(log + [e], i)
  {
    var log' := log + [e];
    forall i | 0 <= i < |log'|
      ensures WriteOk(log', i)
    {
      if log'[i].Wrote? {
        if i < |log| { assert WriteOk(log, i); }
        var h := log'[i].handle;
        var j: nat :| j < i && Cleared(log, h, j);
        ClearedGrows(log, e, h, j);
      }
    }
  }

  /** A request's worker or a cancel adds one entry about that request and moves only it on. */
  lemma EntryKeepsWorkers(w: World, w': World, a: nat, e: Happening)
    requires WorkersOk(w) && a in w.reqs && e.handle == w.reqs[a].handle
    requires w'.counter == w.counter && w'.log == w.log + [e] && w'.reqs.Keys == w.reqs.Keys
    requires forall b | b in w.reqs && b != a :: w'.reqs[b].(next := 0) == w.reqs[b].(next := 0)
    requires w'.reqs[a].handle == w.reqs[a].handle
    requires w.reqs[a].cancelled || e.Cancelled? ==> w'.reqs[a].cancelled
    requires w'.reqs[a].stage.Copying? ==> w.reqs[a].stage.Copying? || (e == SecondCheck(e.handle, true, false) && !w.reqs[a].cancelled)
    requires !w'.reqs[a].stage.Finished? ==> !w.reqs[a].stage.Finished? && !e.Wrote?
    requires e.Wrote? ==> w.reqs[a].stage.Copying?
    ensures WorkersOk(w')
  {
    assert RequestOk(w, a);
    LogGrows(w.log, e);
    forall b | b in w'.reqs
      ensures RequestOk(w', b)
    {
      assert RequestOk(w, b);
      if w'.reqs[b].stage.Copying? {
        if w.reqs[b].stage.Copying? {
          var j: nat :| Cleared(w.log, w.reqs[b].handle, j);
          ClearedGrows(w.log, e, w.reqs[b].handle, j);
        } else {
          assert Cleared(w'.log, e.handle, |w.log|);
        }
      }
    }
  }

  lemma CancelKeepsWorkers(w: World, h: nat, chain: seq<nat>)
    requires WorkersOk(w) && Enabled(w, Cancel(h, chain))
    ensures WorkersOk(CancelAfter(w, h, chain))
  {
    if h in chain {
      LinksSuffix(w.reqs, w.head, chain, |chain|);
      var i := IndexOf(chain, h);
      assert i > 0 ==> chain[i - 1] in w.reqs && chain[i - 1] != h;
      EntryKeepsWorkers(w, CancelAfter(w, h, chain), h, Cancelled(w.reqs[h].handle));
    }
  }

  lemma StepKeepsWorkers(w: World, m: Move)
    requires WorkersOk(w) && Enabled(w, m)
    ensures WorkersOk(After(w, m))
  {
    var w' := After(w, m);
    match m
    case Cancel(h, chain) => CancelKeepsWorkers(w, h, chain);
    case Recheck(a) => EntryKeepsWorkers(w, w', a, SecondCheck(w.reqs[a].handle, w.reqs[a].stage.found, w.reqs[a].cancelled));
    case Copy(a) =>
      assert RequestOk(w, a);
      EntryKeepsWorkers(w, w', a, Wrote(w.reqs[a].handle));
    case _ => QuietStepKeepsWorkers(w, m);
  }

  /** Moves that leave no entry in the log. */
  lemma QuietStepKeepsWorkers(w: World, m: Move)
    requires WorkersOk(w) && Enabled(w, m) && !m.Cancel? && !m.Recheck? && !m.Copy?
    ensures WorkersOk(After(w, m))
  {
    hide WriteOk, Cleared, Links;
    var w' := After(w, m);
    assert w'.log == w.log && forall i | 0 <= i < |w.log| :: WriteOk(w.log, i);
    forall b | b in w'.reqs
      ensures RequestOk(w', b)
    {
      if b in w.reqs { assert RequestOk(w, b); }
    }
    assert forall b | b in w.reqs :: RequestOk(w, b);
  }

  lemma {:induction false} RunKeepsWorkers(w: World, moves: seq<Move>)
    requires WorkersOk(w) && Legal(w, moves)
    ensures WorkersOk(Exec(w, moves))
    decreases |moves|
  {
    if moves != [] {
      StepKeepsWorkers(w, moves[0]);
      RunKeepsWorkers(After(w, moves[0]), moves[1..]);
    }
  }

  /**
    In every interleaving a request's result buffer is written at most once, and only after a
    second check that found a result and no cancellation; a cancel that comes before the
    second check silences the worker for good.
    */
  lemma WorkerWritesOnce(moves: seq<Move>, h: nat)
    requires Legal(Start, moves)
    ensures var log := Exec(Start, moves).log;
      && (forall i, k | 0 <= i < k < |log| :: !(log[i] == Wrote(h) && log[k] == Wrote(h)))
      && (forall i | 0 <= i < |log| && log[i] == Wrote(h) :: exists j: nat :: j < i && Cleared(log, h, j))
      && (forall c | 0 <= c < |log| && log[c] == Cancelled(h) && (forall j | 0 <= j < c :: log[j] != SecondCheck(h, true, false)) ::
            Wrote(h) !in log)
  {
    RunKeepsWorkers(Start, moves);
    var log := Exec(Start, moves).log;
    assert forall i | 0 <= i < |log| :: WriteOk(log, i);
  }

  // ------------------------------------------------- results that do arrive

  /** What the log says about a request at its stage: which checks it made, and whether it was cancelled or written. */
  ghost predicate StoryOk(w: World, a: nat)
    requires a in w.reqs
  {
    var r := w.reqs[a];
    var checked := exists f, c :: SecondCheck(r.handle, f, c) in w.log;
    && r.handle < w.counter
    && (r.cancelled <==> Cancelled(r.handle) in w.log)
    && (match r.stage
        case Copying => SecondCheck(r.handle, true, false) in w.log && Wrote(r.handle) !in w.log
        case Finished =>
          && (checked || r.cancelled)
          && (SecondCheck(r.handle, true, false) in w.log <==> Wrote(r.handle) in w.log)
        case _ => !checked && Wrote(r.handle) !in w.log)
  }

  ghost predicate StoriesOk(w: World) {
    && (forall a | a in w.reqs :: StoryOk(w, a))
    && (forall a, b | a in w.reqs && b in w.reqs && a != b :: w.reqs[a].handle != w.reqs[b].handle)
    && (forall e | e in w.log :: e.handle < w.counter)
  }

  /** An entry about another request changes nothing about this one. */
  lemma OtherEntry(w: World, w': World, b: nat, e: Happening)
    requires b in w.reqs && b in w'.reqs && StoryOk(w, b) && w'.log == w.log + [e] && e.handle != w.reqs[b].handle
    requires w'.reqs[b].(next := 0) == w.reqs[b].(next := 0) && w'.counter == w.counter
    ensures StoryOk(w', b)
  {
    var h := w.reqs[b].handle;
    assert forall x | x in w'.log && x.handle == h :: x in w.log;
    assert forall x | x in w.log :: x in w'.log;
  }

  /** An entry about this request, with the step it stands for. */
  lemma OwnEntry(w: World, w': World, a: nat, e: Happening)
    requires a in w.reqs && a in w'.reqs && StoryOk(w, a) && w'.log == w.log + [e] && e.handle == w.reqs[a].handle
    requires w'.counter == w.counter && w'.reqs[a].handle == w.reqs[a].handle
    requires var r, r' := w.reqs[a], w'.reqs[a];
      match e
      case Cancelled(_) => r'.cancelled && r'.stage == r.stage
      case SecondCheck(_, f, c) =>
        r.stage.Resolved? && c == r.cancelled == r'.cancelled && r'.stage == if f && !c then Copying else Finished
      case Wrote(_) => r.stage == Copying && r'.stage == Finished && r'.cancelled == r.cancelled
    ensures StoryOk(w', a)
  {
    assert w'.log[|w.log|] == e;
    assert forall x :: x in w'.log <==> x in w.log || x == e;
  }

  /** A move without an entry: what a request may become. */
  predicate QuietChange(r: Request, r': Request) {
    && r'.handle == r.handle && r'.cancelled == r.cancelled
    && (r'.stage == r.stage
        || (Early(r.stage) && Early(r'.stage))
        || (Early(r.stage) && r'.stage == Finished && r.cancelled))
  }

  predicate Early(stage: Stage) { !stage.Copying? && !stage.Finished? }

  lemma QuietStory(w: World, w': World, b: nat)
    requires b in w.reqs && b in w'.reqs && StoryOk(w, b) && w'.log == w.log && w'.counter >= w.counter
    requires QuietChange(w.reqs[b], w'.reqs[b])
    ensures StoryOk(w', b)
  {
  }

  lemma NewStory(w: World, w': World, a: nat)
    requires a in w'.reqs && (forall e | e in w'.log :: e.handle < w'.reqs[a].handle) && w'.reqs[a].handle < w'.counter
    requires Early(w'.reqs[a].stage) && !w'.reqs[a].cancelled
    ensures StoryOk(w', a)
  {
  }

  /** What a cancel that hits changes: flags and links, and one log entry. */
  lemma CancelShape(w: World, h: nat, chain: seq<nat>)
    requires Enabled(w, Cancel(h, chain)) && h in chain
    ensures h in w.reqs
    ensures var w' := CancelAfter(w, h, chain);
      && w'.reqs.Keys == w.reqs.Keys && w'.counter == w.counter
      && w'.log == w.log + [Cancelled(w.reqs[h].handle)]
      && w'.reqs[h] == w.reqs[h].(cancelled := true)
      && forall b | b in w.reqs && b != h :: w'.reqs[b].(next := 0) == w.reqs[b].(next := 0)
  {
    LinkedIsAllocated(w.reqs, w.head, chain);
    var i := IndexOf(chain, h);
    assert i > 0 ==> chain[i - 1] in chain && chain[i - 1] != h;
  }

  lemma CancelKeepsStories(w: World, h: nat, chain: seq<nat>)
    requires StoriesOk(w) && Enabled(w, Cancel(h, chain))
    ensures StoriesOk(CancelAfter(w, h, chain))
  {
    if h in chain {
      CancelShape(w, h, chain);
      var w', e := CancelAfter(w, h, chain), Cancelled(w.reqs[h].handle);
      assert forall b | b in w.reqs :: StoryOk(w, b);
      hide CancelAfter, Enabled, StoryOk;
      forall b | b in w'.reqs
        ensures StoryOk(w', b)
      {
        if b != h { OtherEntry(w, w', b, e); } else { OwnEntry(w, w', h, e); }
      }
    }
  }

  lemma {:induction false} RunKeepsStories(w: World, moves: seq<Move>)
    requires StoriesOk(w) && Legal(w, moves)
    ensures StoriesOk(Exec(w, moves))
    decreases |moves|
  {
    hide StoriesOk, Enabled, After;
    if moves != [] {
      StepKeepsStories(w, moves[0]);
      RunKeepsStories(After(w, moves[0]), moves[1..]);
    }
  }

  lemma StepKeepsStories(w: World, m: Move)
    requires StoriesOk(w) && Enabled(w, m)
    ensures StoriesOk(After(w, m))
  {
    match m
    case Cancel(h, chain) => CancelKeepsStories(w, h, chain);
    case Recheck(a) => EntryKeepsStories(w, m);
    case Copy(a) => EntryKeepsStories(w, m);
    case _ => QuietKeepsStories(w, m);
  }

  /** The log entry of a second check or a copy. */
  function EntryOf(w: World, m: Move): Happening {
    var r := RequestAt(w, if m.Recheck? || m.Copy? then m.a else 0);
    if m.Copy? then Wrote(r.handle) else SecondCheck(r.handle, r.stage.Resolved? && r.stage.found, r.cancelled)
  }

  /** Such a move: one entry, and only its own request goes on. */
  lemma EntryShape(w: World, m: Move)
    requires Enabled(w, m) && (m.Recheck? || m.Copy?)
    ensures var w', e := After(w, m), EntryOf(w, m);
      && m.a in w.reqs && w'.reqs.Keys == w.reqs.Keys && w'.counter == w.counter && w'.log == w.log + [e]
      && (forall b | b in w.reqs && b != m.a :: w'.reqs[b] == w.reqs[b])
      && var r, r' := w.reqs[m.a], w'.reqs[m.a];
      && r' == r.(stage := r'.stage) && e.handle == r.handle
      && (m.Recheck? ==> r.stage.Resolved? && r'.stage == if e.found && !e.sawCancelled then Copying else Finished)
      && (m.Copy? ==> r.stage == Copying && r'.stage == Finished)
  {
    hide Links;
  }

  /** The second check and the copy. */
  lemma EntryKeepsStories(w: World, m: Move)
    requires StoriesOk(w) && Enabled(w, m) && (m.Recheck? || m.Copy?)
    ensures StoriesOk(After(w, m))
  {
    EntryShape(w, m);
    assert forall b | b in w.reqs :: StoryOk(w, b);
    hide Links, StoryOk, After, Enabled;
    var w', e := After(w, m), EntryOf(w, m);
    forall b | b in w'.reqs
      ensures StoryOk(w', b)
    {
      if b != m.a { OtherEntry(w, w', b, e); } else { OwnEntry(w, w', b, e); }
    }
  }

  /** Such a move: old requests change quietly, and a new one gets a handle of its own. */
  lemma QuietShape(w: World, m: Move)
    requires Enabled(w, m) && !m.Cancel? && !m.Recheck? && !m.Copy?
    ensures var w' := After(w, m);
      && w'.log == w.log && w'.counter >= w.counter
      && (forall b | b in w'.reqs && b in w.reqs :: QuietChange(w.reqs[b], w'.reqs[b]))
      && (forall b | b in w'.reqs && b !in w.reqs ::
            m == Push(b) && w'.reqs[b] == Request(w.head, false, Pushed, w.counter) && w'.counter == w.counter + 1)
  {
    hide Links;
  }

  lemma QuietKeepsStories(w: World, m: Move)
    requires StoriesOk(w) && Enabled(w, m) && !m.Cancel? && !m.Recheck? && !m.Copy?
    ensures StoriesOk(After(w, m))
  {
    QuietShape(w, m);
    assert forall b | b in w.reqs :: w.reqs[b].handle < w.counter by { assert forall b | b in w.reqs :: StoryOk(w, b); }
    hide Links, StoryOk, After, Enabled;
    var w' := After(w, m);
    forall b | b in w'.reqs
      ensures StoryOk(w', b)
    {
      if b in w.reqs { QuietStory(w, w', b); } else { NewStory(w, w', b); }
    }
  }

  /**
    In every run: a finished worker that was never cancelled has made its second check, and one
    whose second check saw a result and no cancellation has written it, once.
    */
  lemma FinishedWorkersDelivered(moves: seq<Move>, a: nat)
    requires Legal(Start, moves) && AtStage(Exec(Start, moves), a, Finished)
    ensures var w := Exec(Start, moves); var h := w.reqs[a].handle;
      && (w.reqs[a].cancelled <==> Cancelled(h) in w.log)
      && (Cancelled(h) !in w.log ==> exists f, c :: SecondCheck(h, f, c) in w.log)
      && (Wrote(h) in w.log <==> SecondCheck(h, true, false) in w.log)
      && (forall i, k | 0 <= i < k < |w.log| :: !(w.log[i] == Wrote(h) && w.log[k] == Wrote(h)))
  {
    RunKeepsStories(Start, moves);
    WorkerWritesOnce(moves, Exec(Start, moves).reqs[a].handle);
    assert StoryOk(Exec(Start, moves), a);
  }

  /** A worker is on its way from this lookup result to its end. */
  ghost predicate Carries(w: World, a: nat, h: nat, found: bool) {
    && a in w.reqs && w.reqs[a].handle == h
    && match w.reqs[a].stage
       case Resolved(f) => f == found
       case Copying => found
       case Finished => (Wrote(h) in w.log ==> found) && (found && !w.reqs[a].cancelled ==> Wrote(h) in w.log)
       case _ => false
  }

  lemma StepCarries(w: World, m: Move, a: nat, h: nat, found: bool)
    requires StoriesOk(w) && Enabled(w, m) && Carries(w, a, h, found)
    ensures Carries(After(w, m), a, h, found)
  {
    assert StoryOk(w, a);
    match m
    case Cancel(g, chain) => CancelCarries(w, g, chain, a, h, found);
    case Recheck(b) => EntryCarries(w, m, a, h, found);
    case Copy(b) => EntryCarries(w, m, a, h, found);
    case _ =>
      hide StoriesOk, StoryOk, Links;
      assert After(w, m).log == w.log;
  }

  lemma CancelCarries(w: World, g: nat, chain: seq<nat>, a: nat, h: nat, found: bool)
    requires Enabled(w, Cancel(g, chain)) && Carries(w, a, h, found)
    ensures Carries(CancelAfter(w, g, chain), a, h, found)
  {
    if g in chain {
      CancelShape(w, g, chain);
      hide CancelAfter;
      var w' := CancelAfter(w, g, chain);
      assert forall x :: x in w'.log <==> x in w.log || x == w'.log[|w.log|];
      assert w'.log[|w.log|].Cancelled?;
    }
  }

  lemma EntryCarries(w: World, m: Move, a: nat, h: nat, found: bool)
    requires StoriesOk(w) && Enabled(w, m) && Carries(w, a, h, found) && (m.Recheck? || m.Copy?)
    ensures Carries(After(w, m), a, h, found)
  {
    assert StoryOk(w, a);
    var w', n := After(w, m), |w.log|;
    assert w'.log[..n] == w.log && w'.log[n] in w'.log;
    assert forall x :: x in w'.log <==> x in w.log || x == w'.log[n];
    assert m.a != a ==> w'.log[n].handle != h;
  }

  lemma {:induction false} RunCarries(w: World, moves: seq<Move>, a: nat, h: nat, found: bool)
    requires StoriesOk(w) && Legal(w, moves) && Carries(w, a, h, found)
    ensures Carries(Exec(w, moves), a, h, found)
    decreases |moves|
  {
    hide StoriesOk, Enabled, After, Carries;
    if moves != [] {
      StepCarries(w, moves[0], a, h, found);
      StepKeepsStories(w, moves[0]);
      RunCarries(After(w, moves[0]), moves[1..], a, h, found);
    }
  }

  /**
    From the lookup on, in every interleaving: a result that was found is in the buffer once
    the worker has finished, unless the request was cancelled; one that was not found never is.
    */
  lemma FoundResultArrives(before: seq<Move>, moves: seq<Move>, a: nat, found: bool)
    requires Legal(Start, before) && AtStage(Exec(Start, before), a, Resolving)
    requires Legal(After(Exec(Start, before), Resolve(a, found)), moves)
    ensures var w := Exec(Start, before); var h := w.reqs[a].handle;
      var end := Exec(After(w, Resolve(a, found)), moves);
      && a in end.reqs && end.reqs[a].handle == h
      && (found && end.reqs[a].stage == Finished && !end.reqs[a].cancelled ==> Wrote(h) in end.log)
      && (!found ==> Wrote(h) !in end.log)
  {
    RunKeepsStories(Start, before);
    var w := Exec(Start, before);
    var w1 := After(w, Resolve(a, found));
    StepKeepsStories(w, Resolve(a, found));
    RunKeepsStories(w1, moves);
    RunCarries(w1, moves, a, w.reqs[a].handle, found);
    assert StoryOk(Exec(w1, moves), a);
  }

  /** Cancelled before its first check, a request makes no second one. */
  ghost predicate Silenced(w: World, a: nat, h: nat) {
    && a in w.reqs && w.reqs[a].handle == h && w.reqs[a].cancelled
    && (w.reqs[a].stage == Pushed || w.reqs[a].stage == Started || w.reqs[a].stage == Finished)
    && forall f, c :: SecondCheck(h, f, c) !in w.log
  }

  lemma StepStaysSilent(w: World, m: Move, a: nat, h: nat)
    requires StoriesOk(w) && Enabled(w, m) && Silenced(w, a, h) && !(m.Spawn? && m.a == a && !m.ok)
    ensures Silenced(After(w, m), a, h)
  {
    hide StoryOk, Links;
    match m
    case Cancel(g, chain) =>
      if g in chain {
        CancelShape(w, g, chain);
        hide CancelAfter;
        var log' := CancelAfter(w, g, chain).log;
        assert forall x | x in log' :: x in w.log || x == log'[|w.log|];
      }
    case Recheck(b) => LastEntrySilent(w, m, a, h);
    case Copy(b) => LastEntrySilent(w, m, a, h);
    case _ => assert After(w, m).log == w.log;
  }

  lemma LastEntrySilent(w: World, m: Move, a: nat, h: nat)
    requires StoriesOk(w) && Enabled(w, m) && Silenced(w, a, h) && (m.Recheck? || m.Copy?)
    ensures Silenced(After(w, m), a, h)
  {
    hide StoryOk, Links;
    var log' := After(w, m).log;
    assert forall x | x in log' :: x in w.log || x == log'[|w.log|];
    if m.Recheck? { assert log'[|w.log|].handle == w.reqs[m.a].handle != h; }
  }

  /** A cancel that comes before the worker's first check keeps it from ever looking anything up. */
  lemma {:induction false} CancelledEarlyNeverLooks(w: World, moves: seq<Move>, a: nat, h: nat)
    requires StoriesOk(w) && Legal(w, moves) && Silenced(w, a, h) && Spawn(a, false) !in moves
    ensures Silenced(Exec(w, moves), a, h)
    decreases |moves|
  {
    hide StoriesOk, Enabled, After, Silenced;
    if moves != [] {
      StepStaysSilent(w, moves[0], a, h);
      StepKeepsStories(w, moves[0]);
      CancelledEarlyNeverLooks(After(w, moves[0]), moves[1..], a, h);
    }
  }

  /** A lookup left to itself, from any state: it is pushed, runs to its end, and writes its result. */
  lemma LookupRunsThrough(w: World, a: nat)
    requires Enabled(w, Push(a))
    ensures var moves := [Push(a), Spawn(a, true), FirstCheck(a), Resolve(a, true), Recheck(a), Copy(a)];
      && Legal(w, moves)
      && Exec(w, moves) == World(a, w.reqs[a := Request(w.head, false, Finished, w.counter)], w.counter + 1, [a] + w.intended,
                                 w.log + [SecondCheck(w.counter, true, false), Wrote(w.counter)])
  {
    hide Legal, Exec, Enabled, After;
    var w1 := World(a, w.reqs[a := Request(w.head, false, Pushed, w.counter)], w.counter + 1, [a] + w.intended, w.log);
    StagesInOrder(w, w1, a);
    TwoMoves(GotoStage(w1, a, Resolved(true)), Recheck(a), Copy(a));
    LegalCons(GotoStage(w1, a, Resolving), Resolve(a, true), [Recheck(a), Copy(a)]);
    LegalCons(GotoStage(w1, a, Started), FirstCheck(a), [Resolve(a, true)] + [Recheck(a), Copy(a)]);
    LegalCons(w1, Spawn(a, true), [FirstCheck(a)] + ([Resolve(a, true)] + [Recheck(a), Copy(a)]));
    LegalCons(w, Push(a), [Spawn(a, true)] + ([FirstCheck(a)] + ([Resolve(a, true)] + [Recheck(a), Copy(a)])));
    assert [Push(a)] + ([Spawn(a, true)] + ([FirstCheck(a)] + ([Resolve(a, true)] + [Recheck(a), Copy(a)])))
        == [Push(a), Spawn(a, true), FirstCheck(a), Resolve(a, true), Recheck(a), Copy(a)];
  }

  /** The stages a request that is left to itself goes through. */
  lemma StagesInOrder(w: World, w1: World, a: nat)
    requires Enabled(w, Push(a))
    requires w1 == World(a, w.reqs[a := Request(w.head, false, Pushed, w.counter)], w.counter + 1, [a] + w.intended, w.log)
    ensures After(w, Push(a)) == w1
    ensures Enabled(w1, Spawn(a, true)) && After(w1, Spawn(a, true)) == GotoStage(w1, a, Started)
    ensures var w2 := GotoStage(w1, a, Started); Enabled(w2, FirstCheck(a)) && After(w2, FirstCheck(a)) == GotoStage(w1, a, Resolving)
    ensures var w3 := GotoStage(w1, a, Resolving); Enabled(w3, Resolve(a, true)) && After(w3, Resolve(a, true)) == GotoStage(w1, a, Resolved(true))
    ensures var w4 := GotoStage(w1, a, Resolved(true)); var w5 := After(w4, Recheck(a));
      && Enabled(w4, Recheck(a)) && Enabled(w5, Copy(a))
      && After(w5, Copy(a)) == GotoStage(w1, a, Finished).(log := w.log + [SecondCheck(w.counter, true, false), Wrote(w.counter)])
  {
    var w5 := After(GotoStage(w1, a, Resolved(true)), Recheck(a));
    assert w5 == GotoStage(w1, a, Copying).(log := w.log + [SecondCheck(w.counter, true, false)]);
    assert w.log + [SecondCheck(w.counter, true, false)] + [Wrote(w.counter)] == w.log + [SecondCheck(w.counter, true, false), Wrote(w.counter)];
  }

  lemma LegalCons(w: World, m: Move, rest: seq<Move>)
    requires Enabled(w, m) && Legal(After(w, m), rest)
    ensures Legal(w, [m] + rest) && Exec(w, [m] + rest) == Exec(After(w, m), rest)
  {
    assert ([m] + rest)[1..] == rest;
  }

  /** How many of its own moves a request has left. */
  function WorkLeft(stage: Stage): nat {
    match stage
    case Pushed => 6
    case Started => 4
    case Resolving => 3
    case Resolved(_) => 2
    case Failed => 1
    case Copying => 1
    case Finished => 0
  }

  /** The next move of a request's own thread. */
  function OwnMove(stage: Stage, a: nat, good: bool): Move {
    match stage
    case Pushed => Spawn(a, good)
    case Failed => Rollback(a)
    case Started => FirstCheck(a)
    case Resolving => Resolve(a, good)
    case Resolved(_) => Recheck(a)
    case Copying => Copy(a)
    case Finished => FirstCheck(a)
  }

  /** Until it has finished, a request always has a move, and each brings it nearer to its end. */
  lemma WorkerGoesOn(w: World, a: nat, good: bool)
    requires a in w.reqs && w.reqs[a].stage != Finished
    ensures var m := OwnMove(w.reqs[a].stage, a, good);
      && Enabled(w, m)
      && (a in After(w, m).reqs ==> WorkLeft(After(w, m).reqs[a].stage) < WorkLeft(w.reqs[a].stage))
  {
  }

  // ---------------------------------------------------------------- handles

  /** A cancel flags exactly the listed request whose address is the number it was given. */
  lemma CancelHitsIff(w: World, h: nat, chain: seq<nat>, a: nat)
    requires Enabled(w, Cancel(h, chain)) && a in w.reqs
    ensures var w' := After(w, Cancel(h, chain));
      a in w'.reqs && (w'.reqs[a].cancelled <==> w.reqs[a].cancelled || (h == a && a in chain))
  {
    LinkedIsAllocated(w.reqs, w.head, chain);
    var i := IndexOf(chain, h);
    assert 0 < i < |chain| ==> chain[i - 1] in chain && chain[i - 1] != h;
  }

  /** Cancelling a request by the handle its lookup returned works exactly when that counter is its address. */
  lemma CancelByOwnHandleIff(w: World, chain: seq<nat>, a: nat)
    requires a in w.reqs && a in chain && !w.reqs[a].cancelled && Enabled(w, Cancel(w.reqs[a].handle, chain))
    ensures After(w, Cancel(w.reqs[a].handle, chain)).reqs[a].cancelled <==> w.reqs[a].handle == a
  {
    CancelHitsIff(w, w.reqs[a].handle, chain, a);
  }

  /** A lookup at any other address than its handle 1: started, cancelled by that handle, and still running. */
  lemma CancelledLookupRunsOn(a: nat)
    requires a > 1
    ensures var moves := [Push(a), Spawn(a, true), Cancel(1, [a])]; var w := Exec(Start, moves);
      && Legal(Start, moves)
      && a in w.reqs && w.reqs[a] == Request(0, false, Started, 1)
      && w.head == a
  {
    var w1 := After(Start, Push(a));
    var w2 := After(w1, Spawn(a, true));
    assert Links(w2.reqs, w2.head, [a]) by { assert [a][1..] == []; }
    assert IndexOf([a], 1) == 1 by { assert 1 !in [a]; }
    ExecAppend(Start, [], Push(a));
    ExecAppend(Start, [Push(a)], Spawn(a, true));
    ExecAppend(Start, [Push(a), Spawn(a, true)], Cancel(1, [a]));
    assert [] + [Push(a)] == [Push(a)] && [Push(a)] + [Spawn(a, true)] == [Push(a), Spawn(a, true)];
    assert [Push(a), Spawn(a, true)] + [Cancel(1, [a])] == [Push(a), Spawn(a, true), Cancel(1, [a])];
  }

  /** Every request lies at or above limit, and no cancel has hit anything. */
  ghost predicate Unharmed(w: World, limit: nat) {
    && (forall a | a in w.reqs :: a >= limit && !w.reqs[a].cancelled)
    && (forall h :: Cancelled(h) !in w.log)
  }

  /** Cancel is called with small numbers, such as returned handles, and memory lies above them. */
  predicate HandlesBelowMemory(moves: seq<Move>, limit: nat) {
    forall m | m in moves :: (m.Push? ==> m.a >= limit) && (m.Cancel? ==> m.h < limit)
  }

  lemma CancelByHandleIsNoOp(w: World, h: nat, chain: seq<nat>, limit: nat)
    requires Unharmed(w, limit) && Enabled(w, Cancel(h, chain)) && h < limit
    ensures After(w, Cancel(h, chain)) == w
  {
    LinksSuffix(w.reqs, w.head, chain, |chain|);
  }

  lemma {:induction false} RunUnharmed(w: World, moves: seq<Move>, limit: nat)
    requires Unharmed(w, limit) && Legal(w, moves) && HandlesBelowMemory(moves, limit)
    ensures Unharmed(Exec(w, moves), limit)
    decreases |moves|
  {
    if moves != [] {
      if moves[0].Cancel? { CancelByHandleIsNoOp(w, moves[0].h, moves[0].chain, limit); }
      RunUnharmed(After(w, moves[0]), moves[1..], limit);
    }
  }

  /**
    The handle a lookup returns is a counter, but the cancel loop compares addresses: as long
    as no request lies at an address below the handles used, no call ever cancels anything.
    */
  lemma HandlesCancelNothing(moves: seq<Move>, limit: nat)
    requires Legal(Start, moves) && HandlesBelowMemory(moves, limit)
    ensures var w := Exec(Start, moves);
      (forall a | a in w.reqs :: !w.reqs[a].cancelled) && (forall h :: Cancelled(h) !in w.log)
  {
    RunUnharmed(Start, moves, limit);
  }

  /** Every cancel is given a handle that some lookup has returned by then. */
  predicate CancelsUseHandles(w: World, moves: seq<Move>)
    decreases |moves|
  {
    moves == [] || ((moves[0].Cancel? ==> 1 <= moves[0].h < w.counter) && CancelsUseHandles(After(w, moves[0]), moves[1..]))
  }

  lemma {:induction false} HandlesStayBelow(w: World, moves: seq<Move>, m: Move)
    requires CancelsUseHandles(w, moves)
    ensures w.counter <= Exec(w, moves).counter
    ensures m in moves && m.Cancel? ==> m.h < Exec(w, moves).counter
    decreases |moves|
  {
    if moves != [] {
      HandlesStayBelow(After(w, moves[0]), moves[1..], m);
      assert m in moves ==> m == moves[0] || m in moves[1..];
    }
  }

  /** In every run that cancels by returned handles, with memory above the last handle, nothing is ever cancelled. */
  lemma ReturnedHandlesCancelNothing(moves: seq<Move>)
    requires Legal(Start, moves) && CancelsUseHandles(Start, moves)
    requires forall m | m in moves && m.Push? :: m.a >= Exec(Start, moves).counter
    ensures var w := Exec(Start, moves);
      (forall a | a in w.reqs :: !w.reqs[a].cancelled) && (forall h :: Cancelled(h) !in w.log)
  {
    var limit := Exec(Start, moves).counter;
    forall m | m in moves
      ensures (m.Push? ==> m.a >= limit) && (m.Cancel? ==> m.h < limit)
    {
      HandlesStayBelow(Start, moves, m);
    }
    HandlesCancelNothing(moves, limit);
  }
}

/** The request list as linked nodes. */
module AsyncRequestList {
  import opened Winsock

  class AsyncRequest {
    const address: nat
    var cancelled: bool
    var next: AsyncRequest?

    constructor (address: nat)
      ensures this.address == address && !cancelled && next == null
    {
      this.address, cancelled, next := address, false, null;
    }
  }

  /** chain is the whole list that starts at p; live blocks have distinct addresses. */
  ghost predicate Linked(p: AsyncRequest?, chain: seq<AsyncRequest>)
    reads chain
  {
    && (forall i, j | 0 <= i < j < |chain| :: chain[i] != chain[j] && chain[i].address != chain[j].address)
    && p == (if chain == [] then null else chain[0])
    && (forall i {:trigger chain[i].next} | 0 <= i < |chain| ::
          chain[i].next == (if i + 1 < |chain| then chain[i + 1] else null))
  }

  /** Two lists that start at the same node are the same. */
  lemma {:induction false} LinkedUnique(p: AsyncRequest?, xs: seq<AsyncRequest>, ys: seq<AsyncRequest>)
    requires Linked(p, xs) && Linked(p, ys)
    ensures xs == ys
    decreases |xs|
  {
    if xs != [] && ys != [] {
      LinkedSuffix(p, xs, 1);
      LinkedSuffix(p, ys, 1);
      assert xs[0].next == (if xs[1..] == [] then null else xs[1]);
      assert ys[0].next == (if ys[1..] == [] then null else ys[1]);
      LinkedUnique(xs[0].next, xs[1..], ys[1..]);
      assert xs == [xs[0]] + xs[1..] && ys == [ys[0]] + ys[1..];
    }
  }

  lemma LinkedSuffix(p: AsyncRequest?, chain: seq<AsyncRequest>, i: nat)
    requires Linked(p, chain) && i <= |chain|
    ensures Linked(if i < |chain| then chain[i] else null, chain[i..])
  {
    assert forall j | 0 <= j < |chain| - i :: chain[i..][j] == chain[i + j];
    assert forall j | 0 <= j < |chain| - i :: chain[i..][j].next == chain[i + j].next;
  }

  class AsyncRequestList {
    var head: AsyncRequest?
    var handleCounter: int
    ghost var nodes: seq<AsyncRequest>

    /** nodes is the chain from head. */
    ghost predicate Valid()
      reads this, nodes
    {
      Linked(head, nodes)
    }

    constructor ()
      ensures Valid() && nodes == [] && handleCounter == 1
    {
      head, handleCounter, nodes := null, 1, [];
    }

    /** The first critical section of a lookup. */
    method Push(req: AsyncRequest) returns (handle: int)
      requires Valid() && req !in nodes
      requires forall i | 0 <= i < |nodes| :: nodes[i].address != req.address
      modifies this, req
      ensures Valid() && nodes == [req] + old(nodes)
      ensures handle == old(handleCounter) && handleCounter == handle + 1
      ensures req.cancelled == old(req.cancelled)
    {
      handle := handleCounter;
      handleCounter := handleCounter + 1;
      req.next := head;
      head := req;
      nodes := [req] + nodes;
    }

    /**
      The second critical section, after pthread_create failed; tail is the list behind the
      request. A request still on the list takes all newer ones with it. One that a cancel
      has unlinked brings back whatever it pointed to then.
      */
    method Rollback(req: AsyncRequest, ghost tail: seq<AsyncRequest>)
      requires Valid() && Linked(req.next, tail)
      modifies this
      ensures Valid() && head == req.next && nodes == tail
      ensures forall i | 0 <= i < |old(nodes)| && old(nodes)[i] == req :: nodes == old(nodes)[i + 1..]
      ensures forall i | 0 <= i < |old(nodes)| && old(nodes)[i] == req.next :: nodes == old(nodes)[i..]
      ensures handleCounter == old(handleCounter)
    {
      forall i | 0 <= i < |nodes| && nodes[i] == req
        ensures tail == nodes[i + 1..]
      {
        LinkedSuffix(head, nodes, i + 1);
        LinkedUnique(req.next, tail, nodes[i + 1..]);
      }
      forall i | 0 <= i < |nodes| && nodes[i] == req.next
        ensures tail == nodes[i..]
      {
        LinkedSuffix(head, nodes, i);
        LinkedUnique(req.next, tail, nodes[i..]);
      }
      head := req.next;
      nodes := tail;
    }

    /** WSACancelAsyncRequest: walk to the node at that address, flag it and unlink it in place. */
    method Cancel(handle: int) returns (answer: Answer, ghost i: nat)
      requires Valid()
      modifies this, nodes
      ensures Valid() && answer == Answer(0, 0) && handleCounter == old(handleCounter)
      ensures i <= |old(nodes)| && forall j | 0 <= j < i :: old(nodes)[j].address != handle
      ensures i < |old(nodes)| ==> old(nodes)[i].address == handle
      ensures nodes == if i < |old(nodes)| then old(nodes)[..i] + old(nodes)[i + 1..] else old(nodes)
      ensures forall n | n in old(nodes) :: n.cancelled == (old(n.cancelled) || n.address == handle)
    {
      var prev: AsyncRequest?, req := null, head;
      i := 0;
      while req != null
        invariant i <= |nodes|
        invariant req == (if i < |nodes| then nodes[i] else null)
        invariant prev == (if i > 0 then nodes[i - 1] else null)
        invariant forall j | 0 <= j < i :: nodes[j].address != handle
        decreases |nodes| - i
      {
        if req.address == handle { break; }
        prev, req, i := req, req.next, i + 1;
      }
      answer := Answer(0, 0);
      if req != null {
        req.cancelled := true;
        if prev != null {
          prev.next := req.next;
        } else {
          head := req.next;
        }
        nodes := nodes[..i] + nodes[i + 1..];
      }
    }
  }
}
