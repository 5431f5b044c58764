/** The life of the forwarder's objects when a logout deletes stacks as the code does, by thread id through the stack table,
    and not the stacks the array points to. */
module DeletionByThread {
  import opened Lifetime
  import T = StackTable

  /** The thread ids of the stacks, and the chains of the table. */
  datatype World = World(s: State, chains: seq<seq<T.Stack>>, tids: map<Stid, nat>)

  /** A step of Lifetime that touches no table, the registration of a stack at the head of its chain, and the deletion of
      the first stack left in the array. */
  datatype Move = Own(a: Action) | Register(i: nat, id: Stid, j: nat, tid: nat) | DelNext

  ghost predicate NoStacks(w: World) {
    Initial(w.s) && |w.chains| == T.BUCKETS && (forall b :: 0 <= b < |w.chains| ==> w.chains[b] == []) && w.tids == map[]
  }

  function Named(tids: map<Stid, nat>, id: Stid): T.Stack { T.Stack(id, if id in tids then tids[id] else 0) }

  /** The stacks of an array from index j on, by index. */
  function Places(stacks: map<nat, Stid>, tids: map<Stid, nat>, j: nat): seq<T.Stack>
    decreases MAX_STACKS - j
  {
    if j >= MAX_STACKS then []
    else (if j in stacks then [Named(tids, stacks[j])] else []) + Places(stacks, tids, j + 1)
  }

  /** The lowest index from j on that is in use. */
  function FirstIndex(stacks: map<nat, Stid>, j: nat): (k: nat)
    ensures k < MAX_STACKS ==> j <= k && k in stacks
    decreases MAX_STACKS - j
  {
    if j >= MAX_STACKS then MAX_STACKS else if j in stacks then j else FirstIndex(stacks, j + 1)
  }

  predicate Deletes(s: State) { s.ctl.Freeing? && s.ctl.x in s.insts }

  /** What is left in the array of the instance that logs out. */
  function Left(w: World): seq<T.Stack> {
    if Deletes(w.s) then Places(w.s.insts[w.s.ctl.x].stacks, w.tids, 0) else []
  }

  /** handle_stack_logout: the slot is emptied, and the first stack of the thread in the table is freed. */
  function DoDelNext(hash: nat -> nat, w: World): World {
    if !Deletes(w.s) || |w.chains| != T.BUCKETS then w
    else var x := w.s.insts[w.s.ctl.x];
         var j := FirstIndex(x.stacks, 0);
         if j >= MAX_STACKS then w
         else var tid := Named(w.tids, x.stacks[j]).tid;
              var chain := T.Chain(hash, w.chains, tid);
              var hit := T.Hit(chain, tid);
              w.(s := w.s.(insts := w.s.insts[w.s.ctl.x := x.(stacks := x.stacks - {j})],
                           freedS := w.s.freedS + if hit.Some? then {hit.value.id} else {}),
                 chains := w.chains[T.Home(hash, tid) := T.Drop(chain, tid)])
  }

  function DoRegister(hash: nat -> nat, w: World, i: nat, id: Stid, j: nat, tid: nat): World {
    var t := DoStackAdd(w.s, i, id, j);
    if t == w.s || |w.chains| != T.BUCKETS then w
    else var b := T.Home(hash, tid);
         w.(s := t, chains := w.chains[b := [T.Stack(id, tid)] + w.chains[b]], tids := w.tids[id := tid])
  }

  function WStep(hash: nat -> nat, w: World, v: Move): World {
    match v
    case Own(a) => if a.StackAdd? || a.FreeStack? then w else w.(s := Step(w.s, a))
    case Register(i, id, j, tid) => DoRegister(hash, w, i, id, j, tid)
    case DelNext => DoDelNext(hash, w)
  }

  function WRun(hash: nat -> nat, w: World, moves: seq<Move>): World {
    if moves == [] then w else WStep(hash, WRun(hash, w, moves[..|moves| - 1]), moves[|moves| - 1])
  }

  /** Whenever a logout begins to delete, the array of the instance is in order. */
  ghost predicate Orderly(hash: nat -> nat, w: World, v: Move)
    requires |w.chains| == T.BUCKETS
  {
    v == Own(SeeRx) && !Deletes(w.s) ==> T.InOrder(hash, w.chains, Left(WStep(hash, w, v)))
  }

  ghost predicate Ordered(hash: nat -> nat, w0: World, moves: seq<Move>) {
    moves == [] || (var w := WRun(hash, w0, moves[..|moves| - 1]);
                    Ordered(hash, w0, moves[..|moves| - 1]) && |w.chains| == T.BUCKETS && Orderly(hash, w, moves[|moves| - 1]))
  }

  // ----- table and arrays -----

  /** Each stack of the table has been registered, and each stack of an array is in the table. */
  ghost predicate Tabled(hash: nat -> nat, chains: seq<seq<T.Stack>>, tids: map<Stid, nat>, insts: map<Iid, Inst>) {
    && T.Good(hash, chains)
    && (forall b, k :: 0 <= b < |chains| && 0 <= k < |chains[b]| ==> chains[b][k].id in tids && chains[b][k] == Named(tids, chains[b][k].id))
    && (forall x, j :: x in insts && j in insts[x].stacks ==> InTable(hash, chains, tids, insts[x].stacks[j]))
  }

  ghost predicate InTable(hash: nat -> nat, chains: seq<seq<T.Stack>>, tids: map<Stid, nat>, id: Stid)
    requires |chains| == T.BUCKETS
  {
    id in tids && Named(tids, id) in T.Chain(hash, chains, tids[id])
  }

  ghost predicate WInv(hash: nat -> nat, w: World) {
    && Inv(w.s) && w.tids.Keys == w.s.stks.Keys
    && Tabled(hash, w.chains, w.tids, w.s.insts)
    && T.InOrder(hash, w.chains, Left(w))
    && (w.s.ctl.NewStack? || w.s.ctl.Ringed? ==> InTable(hash, w.chains, w.tids, w.s.ctl.s))
  }

  lemma NothingWInv(hash: nat -> nat, w: World)
    requires NoStacks(w)
    ensures WInv(hash, w)
  {
    InitInv(w.s);
    hide Inv;
  }

  // ----- a step that touches no table -----

  /** What it does to the arrays, and to the place of the control thread. */
  ghost predicate Framed(s: State, t: State) {
    && t.stks.Keys == s.stks.Keys
    && (forall x, j :: x in t.insts && j in t.insts[x].stacks ==>
          || (x in s.insts && j in s.insts[x].stacks && t.insts[x].stacks[j] == s.insts[x].stacks[j])
          || (s.ctl.Ringed? && t.insts[x].stacks[j] == s.ctl.s))
    && (Deletes(s) && Deletes(t) ==> t.ctl == s.ctl && t.insts[s.ctl.x].stacks == s.insts[s.ctl.x].stacks)
    && (t.ctl.NewStack? || t.ctl.Ringed? ==> (s.ctl.NewStack? || s.ctl.Ringed?) && t.ctl.s == s.ctl.s)
  }

  lemma Frames(s: State, a: Action)
    requires Inv(s) && !a.StackAdd? && !a.FreeStack?
    ensures Framed(s, Step(s, a)) && (Deletes(Step(s, a)) && !Deletes(s) ==> a == SeeRx)
  {
    LoggingOutKnown(s);
    hide Inv, Framed;
    if ReaderOf(a).Some? {
      LoopFrames(s, a);
    } else {
      CtlFrames(s, a);
      assert Step(s, a) == StepCtl(s, a);
      hide Step;
    }
  }

  lemma LoggingOutKnown(s: State)
    requires Inv(s)
    ensures LoggingOut(s.ctl).Some? ==> LoggingOut(s.ctl).value in s.insts
  {
    hide InstOk, PublishedOk, ArraysOk, StksOk, EntriesOk, CtlOk, ReaderOk, Grace;
  }

  lemma LoopFrames(s: State, a: Action)
    requires ReaderOf(a).Some?
    ensures Framed(s, Step(s, a)) && Deletes(Step(s, a)) == Deletes(s)
  {
    hide StepReader, NewEntry;
  }

  lemma CtlFrames(s: State, a: Action)
    requires ReaderOf(a).None? && !a.StackAdd? && !a.FreeStack? && (s.ctl.Freeing? ==> s.ctl.x in s.insts)
    ensures Framed(s, StepCtl(s, a)) && (Deletes(StepCtl(s, a)) && !Deletes(s) ==> a == SeeRx)
  {
    hide IsOn, Cur, PublishedAt;
    match a
    case AddTick(i, x) => assert StepCtl(s, a) == DoAddTick(s, i, x); hide StepCtl;
    case Publish => assert StepCtl(s, a) == DoPublish(s); hide StepCtl;
    case Attach(i) => AttachFrames(s, i);
    case SetRings => assert StepCtl(s, a) == DoSetRings(s); hide StepCtl;
    case SetPlace => assert StepCtl(s, a) == DoSetPlace(s); hide StepCtl;
    case SetReg => StackFrames(s); hide StepCtl, DoSetReg, DoSetCur;
    case SetCur => StackFrames(s); hide StepCtl, DoSetReg, DoSetCur;
    case LogoutTick(i) => LogoutFrames(s, i);
    case Unpublish => assert StepCtl(s, a) == DoUnpublish(s); hide StepCtl;
    case _ => WaitFrames(s, a); hide StepCtl;
  }

  lemma StackFrames(s: State)
    ensures StepCtl(s, SetReg) == DoSetReg(s) && StepCtl(s, SetCur) == DoSetCur(s)
    ensures Framed(s, DoSetReg(s)) && !(Deletes(DoSetReg(s)) && !Deletes(s))
    ensures Framed(s, DoSetCur(s)) && !(Deletes(DoSetCur(s)) && !Deletes(s))
  {
    hide StepCtl;
    assert StepCtl(s, SetReg) == DoSetReg(s) && StepCtl(s, SetCur) == DoSetCur(s) by { StackSteps(s); }
  }

  lemma StackSteps(s: State)
    ensures StepCtl(s, SetReg) == DoSetReg(s) && StepCtl(s, SetCur) == DoSetCur(s)
  {
    hide DoSetReg, DoSetCur;
  }

  lemma WaitFrames(s: State, a: Action)
    requires a.ThrdFails? || a.SnapRxCount? || a.SnapTxCount? || a.SeeTx? || a.SeeRx? || a.FreeInst?
    requires s.ctl.Freeing? ==> s.ctl.x in s.insts
    ensures Framed(s, StepCtl(s, a)) && (Deletes(StepCtl(s, a)) && !Deletes(s) ==> a == SeeRx)
  {
    hide DoAddTick, DoPublish, DoAttach, DoStackAdd, DoSetRings, DoSetPlace, DoSetReg, DoSetCur, DoLogoutTick, DoUnpublish;
  }

  lemma AttachFrames(s: State, i: nat)
    ensures Framed(s, DoAttach(s, i)) && (Deletes(DoAttach(s, i)) ==> Deletes(s))
  {
  }

  lemma LogoutFrames(s: State, i: nat)
    ensures Framed(s, DoLogoutTick(s, i)) && (Deletes(DoLogoutTick(s, i)) ==> Deletes(s))
  {
  }

  lemma OwnKeepsWInv(hash: nat -> nat, w: World, a: Action)
    requires WInv(hash, w) && !a.StackAdd? && !a.FreeStack? && Orderly(hash, w, Own(a))
    ensures WInv(hash, w.(s := Step(w.s, a)))
  {
    hide Inv, Step, Tabled, InTable, T.InOrder, Framed;
    Frames(w.s, a);
    StepKeepsInv(w.s, a);
    FrameKeepsTable(hash, w, Step(w.s, a));
    FrameKeepsLeft(hash, w, Step(w.s, a), a);
    hide Left;
  }

  lemma FrameKeepsTable(hash: nat -> nat, w: World, t: State)
    requires WInv(hash, w) && Framed(w.s, t)
    ensures t.stks.Keys == w.s.stks.Keys && Tabled(hash, w.chains, w.tids, t.insts)
    ensures t.ctl.NewStack? || t.ctl.Ringed? ==> InTable(hash, w.chains, w.tids, t.ctl.s)
  {
    hide Inv, T.Good, InTable, T.InOrder, Left;
  }

  lemma FrameKeepsLeft(hash: nat -> nat, w: World, t: State, a: Action)
    requires WInv(hash, w) && Framed(w.s, t) && (Deletes(t) && !Deletes(w.s) ==> a == SeeRx) && t == Step(w.s, a)
    requires !a.StackAdd? && !a.FreeStack? && Orderly(hash, w, Own(a))
    ensures T.InOrder(hash, w.chains, Left(w.(s := t)))
  {
    hide Inv, Tabled, InTable, Places, Step, T.Ahead, T.Chain;
    if !Deletes(t) { assert Left(w.(s := t)) == []; }
    else if Deletes(w.s) { assert Left(w.(s := t)) == Left(w); }
    else { assert WStep(hash, w, Own(a)) == w.(s := t); }
  }

  // ----- registering a stack -----

  lemma RegisterKeepsWInv(hash: nat -> nat, w: World, i: nat, id: Stid, j: nat, tid: nat)
    requires WInv(hash, w)
    ensures WInv(hash, DoRegister(hash, w, i, id, j, tid))
  {
    var t := DoStackAdd(w.s, i, id, j);
    if t != w.s {
      AddedStack(w.s, i, id, j);
      StepKeepsInv(w.s, StackAdd(i, id, j));
      hide Inv, DoStackAdd, PublishedAt;
      HeadKeepsTable(hash, w.chains, w.tids, w.s.insts, id, tid);
    }
  }

  lemma AddedStack(s: State, i: nat, id: Stid, j: nat)
    requires DoStackAdd(s, i, id, j) != s
    ensures var t := DoStackAdd(s, i, id, j);
            && id !in s.stks && t.stks.Keys == s.stks.Keys + {id} && t.insts == s.insts && t.ctl == NewStack(id, j) && s.ctl == Idle
            && t == Step(s, StackAdd(i, id, j))
  {
  }

  lemma HeadKeepsTable(hash: nat -> nat, chains: seq<seq<T.Stack>>, tids: map<Stid, nat>, insts: map<Iid, Inst>, id: Stid, tid: nat)
    requires Tabled(hash, chains, tids, insts) && id !in tids
    ensures var b := T.Home(hash, tid);
            var after := chains[b := [T.Stack(id, tid)] + chains[b]];
            Tabled(hash, after, tids[id := tid], insts) && InTable(hash, after, tids[id := tid], id)
  {
    var b := T.Home(hash, tid);
    var new_ := T.Stack(id, tid);
    var after := chains[b := [new_] + chains[b]];
    HeadIsGood(hash, chains, tids, insts, new_);
    hide T.Good, T.Home;
    assert forall k :: 0 <= k < |chains[b]| ==> after[b][k + 1] == chains[b][k];
    assert after[b][0] == new_;
    forall x, k | x in insts && k in insts[x].stacks ensures InTable(hash, after, tids[id := tid], insts[x].stacks[k]) {
      var other := insts[x].stacks[k];
      assert InTable(hash, chains, tids, other);
      assert Named(tids[id := tid], other) == Named(tids, other);
    }
  }

  lemma HeadIsGood(hash: nat -> nat, chains: seq<seq<T.Stack>>, tids: map<Stid, nat>, insts: map<Iid, Inst>, s: T.Stack)
    requires Tabled(hash, chains, tids, insts) && s.id !in tids
    ensures var b := T.Home(hash, s.tid); T.Good(hash, chains[b := [s] + chains[b]])
  {
    var b := T.Home(hash, s.tid);
    hide InTable, Named;
    assert forall k :: 0 <= k < |chains[b]| ==> chains[b][k] != s;
    DistinctHead(chains[b], s);
    hide Tabled, T.Distinct;
    forall i | 0 <= i < |chains[b]| + 1 ensures T.Home(hash, ([s] + chains[b])[i].tid) == b {
      if i > 0 { assert ([s] + chains[b])[i] == chains[b][i - 1]; }
    }
    hide T.Home;
  }

  lemma DistinctHead(chain: seq<T.Stack>, s: T.Stack)
    requires T.Distinct(chain) && forall k :: 0 <= k < |chain| ==> chain[k] != s
    ensures T.Distinct([s] + chain)
  {
    assert forall k :: 0 <= k < |chain| ==> ([s] + chain)[k + 1] == chain[k];
  }

  // ----- deleting one -----

  lemma {:induction false} PlacesFirst(stacks: map<nat, Stid>, tids: map<Stid, nat>, j: nat)
    ensures var k := FirstIndex(stacks, j);
            Places(stacks, tids, j) ==
            if k < MAX_STACKS then [Named(tids, stacks[k])] + Places(stacks - {k}, tids, j) else []
    decreases MAX_STACKS - j
  {
    if j < MAX_STACKS {
      if j in stacks {
        PlacesAbove(stacks, stacks - {j}, tids, j + 1);
      } else {
        PlacesFirst(stacks, tids, j + 1);
      }
    }
  }

  lemma {:induction false} PlacesAbove(stacks: map<nat, Stid>, left: map<nat, Stid>, tids: map<Stid, nat>, j: nat)
    requires forall k :: k >= j ==> (k in left <==> k in stacks) && (k in left ==> left[k] == stacks[k])
    ensures Places(left, tids, j) == Places(stacks, tids, j)
    decreases MAX_STACKS - j
  {
    if j < MAX_STACKS { PlacesAbove(stacks, left, tids, j + 1); }
  }

  /** Dropping the first stack of a thread leaves the others in order. */
  lemma {:induction false} AheadDrop(chain: seq<T.Stack>, p: T.Stack, s: T.Stack, before: seq<T.Stack>)
    requires T.Distinct(chain) && T.Hit(chain, p.tid) == T.Some(p) && T.Ahead(chain, s, [p] + before) && s != p
    ensures T.Ahead(T.Drop(chain, p.tid), s, before)
  {
    var rest := chain[1..];
    if chain[0].tid == p.tid {
      AheadWithout(rest, p, s, before);
    } else {
      assert ([chain[0]] + T.Drop(rest, p.tid))[1..] == T.Drop(rest, p.tid);
      if chain[0] != s { AheadDrop(rest, p, s, before); }
    }
  }

  lemma {:induction false} AheadWithout(chain: seq<T.Stack>, p: T.Stack, s: T.Stack, before: seq<T.Stack>)
    requires p !in chain && T.Ahead(chain, s, [p] + before)
    ensures T.Ahead(chain, s, before)
  {
    if chain[0] != s { AheadWithout(chain[1..], p, s, before); }
  }

  /** The walk goes on in order. */
  lemma RestInOrder(hash: nat -> nat, chains: seq<seq<T.Stack>>, p: T.Stack, rest: seq<T.Stack>)
    requires T.Good(hash, chains) && T.InOrder(hash, chains, [p] + rest) && p !in rest
    requires T.Hit(T.Chain(hash, chains, p.tid), p.tid) == T.Some(p)
    ensures var b := T.Home(hash, p.tid);
            T.InOrder(hash, chains[b := T.Drop(chains[b], p.tid)], rest)
  {
    var b := T.Home(hash, p.tid);
    var after := chains[b := T.Drop(chains[b], p.tid)];
    T.HitIsListed(chains[b], p.tid);
    hide T.Hit, T.Drop, T.Ahead;
    forall k | 0 <= k < |rest| ensures T.Ahead(T.Chain(hash, after, rest[k].tid), rest[k], rest[..k]) {
      var s := rest[k];
      assert ([p] + rest)[k + 1] == s && ([p] + rest)[..k + 1] == [p] + rest[..k];
      if T.Home(hash, s.tid) == b {
        AheadDrop(chains[b], p, s, rest[..k]);
      } else {
        AheadWithout(chains[T.Home(hash, s.tid)], p, s, rest[..k]);
      }
    }
  }

  lemma {:induction false} DropKeeps(chain: seq<T.Stack>, tid: nat, s: T.Stack)
    requires s in chain && T.Hit(chain, tid) != T.Some(s)
    ensures s in T.Drop(chain, tid)
  {
    if chain[0].tid != tid && chain[0] != s { DropKeeps(chain[1..], tid, s); }
  }

  lemma {:induction false} DropIsPart(chain: seq<T.Stack>, tid: nat)
    requires T.Distinct(chain)
    ensures T.Distinct(T.Drop(chain, tid)) && forall s :: s in T.Drop(chain, tid) ==> s in chain
  {
    if chain != [] && chain[0].tid != tid {
      var rest := T.Drop(chain[1..], tid);
      DropIsPart(chain[1..], tid);
      assert chain[0] !in chain[1..];
      forall i, j | 0 <= i < j < |rest| + 1 ensures ([chain[0]] + rest)[i] != ([chain[0]] + rest)[j] {
        if i == 0 { assert rest[j - 1] in chain[1..]; }
      }
    }
  }

  lemma DropKeepsTable(hash: nat -> nat, chains: seq<seq<T.Stack>>, tids: map<Stid, nat>, insts: map<Iid, Inst>, p: T.Stack)
    requires |chains| == T.BUCKETS && Tabled(hash, chains, tids, insts) && T.Hit(T.Chain(hash, chains, p.tid), p.tid) == T.Some(p)
    requires forall x, j :: x in insts && j in insts[x].stacks ==> insts[x].stacks[j] != p.id
    ensures var b := T.Home(hash, p.tid); Tabled(hash, chains[b := T.Drop(chains[b], p.tid)], tids, insts)
  {
    var b := T.Home(hash, p.tid);
    var after := chains[b := T.Drop(chains[b], p.tid)];
    DropIsPart(chains[b], p.tid);
    hide T.Hit, T.Drop, T.Home;
    assert T.Good(hash, after) by {
      forall c, i | 0 <= c < |after| && 0 <= i < |after[c]| ensures T.Home(hash, after[c][i].tid) == c {
        assert after[c][i] in chains[c];
      }
    }
    forall c, k | 0 <= c < |after| && 0 <= k < |after[c]|
      ensures after[c][k].id in tids && after[c][k] == Named(tids, after[c][k].id)
    {
      assert after[c][k] in chains[c];
    }
    forall x, j | x in insts && j in insts[x].stacks ensures InTable(hash, after, tids, insts[x].stacks[j]) {
      var s := Named(tids, insts[x].stacks[j]);
      assert InTable(hash, chains, tids, insts[x].stacks[j]);
      if T.Home(hash, s.tid) == b { DropKeeps(chains[b], p.tid, s); }
    }
  }

  /** The stack that the walk comes to, and whether the table leads to it. */
  lemma NextHit(hash: nat -> nat, w: World)
    requires |w.chains| == T.BUCKETS && Left(w) != []
    ensures var p := Left(w)[0];
            T.Hit(T.Chain(hash, w.chains, p.tid), p.tid) == T.Some(p) <==> T.Ahead(T.Chain(hash, w.chains, p.tid), p, [])
  {
    var p := Left(w)[0];
    T.HitLeft(T.Chain(hash, w.chains, p.tid), [], p);
    T.MinusNone(T.Chain(hash, w.chains, p.tid));
  }

  lemma {:induction false} PlacesMembers(stacks: map<nat, Stid>, tids: map<Stid, nat>, j: nat)
    ensures forall p :: p in Places(stacks, tids, j) ==> exists k :: k in stacks && p == Named(tids, stacks[k])
    decreases MAX_STACKS - j
  {
    if j < MAX_STACKS { PlacesMembers(stacks, tids, j + 1); }
  }

  /** What is left begins with the stack at the lowest index. */
  lemma LeftBegins(w: World)
    requires Deletes(w.s) && Left(w) != []
    ensures var stacks := w.s.insts[w.s.ctl.x].stacks;
            var j := FirstIndex(stacks, 0);
            && j < MAX_STACKS && Left(w)[0] == Named(w.tids, stacks[j])
            && Left(w) == [Left(w)[0]] + Places(stacks - {j}, w.tids, 0)
  {
    PlacesFirst(w.s.insts[w.s.ctl.x].stacks, w.tids, 0);
    hide Places;
  }

  /** The walk frees the stack it has come to exactly if the stacks ahead of it in its chain are all of other threads. */
  lemma DelNextIff(hash: nat -> nat, w: World)
    requires Inv(w.s) && |w.chains| == T.BUCKETS && Deletes(w.s) && Left(w) != []
    ensures var p := Left(w)[0];
            && p.id !in w.s.freedS
            && (p.id in DoDelNext(hash, w).s.freedS <==> T.Ahead(T.Chain(hash, w.chains, p.tid), p, []))
            && (p.id in DoDelNext(hash, w).s.freedS <==> DoDelNext(hash, w).s == DoFreeStack(w.s, FirstIndex(w.s.insts[w.s.ctl.x].stacks, 0)))
  {
    hide T.Ahead, T.Home, T.Hit, T.Drop, T.Chain, DoDelNext, DoFreeStack, Left, Places, Named;
    var j, p := FirstIndex(w.s.insts[w.s.ctl.x].stacks, 0), Left(w)[0];
    LeftBegins(w);
    OnlyOnce(w.s, w.s.ctl.x, j);
    NamedId(w.tids, w.s.insts[w.s.ctl.x].stacks[j]);
    hide Inv;
    NextHit(hash, w);
    T.HitIsListed(T.Chain(hash, w.chains, p.tid), p.tid);
    DelNextFrees(hash, w, j, p);
    SameName(T.Hit(T.Chain(hash, w.chains, p.tid), p.tid), p);
  }

  lemma NamedId(tids: map<Stid, nat>, id: Stid)
    ensures Named(tids, id).id == id
  {
  }

  lemma SameName(hit: T.Option<T.Stack>, p: T.Stack)
    requires hit.Some? ==> hit.value.tid == p.tid
    ensures hit == T.Some(p) <==> hit.Some? && hit.value.id == p.id
  {
  }

  lemma DelNextFrees(hash: nat -> nat, w: World, j: nat, p: T.Stack)
    requires Deletes(w.s) && |w.chains| == T.BUCKETS && j == FirstIndex(w.s.insts[w.s.ctl.x].stacks, 0) < MAX_STACKS
    requires p == Named(w.tids, w.s.insts[w.s.ctl.x].stacks[j])
    ensures var hit := T.Hit(T.Chain(hash, w.chains, p.tid), p.tid);
            DoDelNext(hash, w).s ==
            w.s.(insts := InstsFreed(w.s, w.s.ctl.x, j), freedS := w.s.freedS + if hit.Some? then {hit.value.id} else {})
    ensures DoFreeStack(w.s, j) == w.s.(insts := InstsFreed(w.s, w.s.ctl.x, j), freedS := w.s.freedS + {p.id})
  {
    hide T.Hit, T.Drop, T.Home, T.Chain;
  }

  /** In order, the walk frees the stack it has come to. */
  lemma OrderedHit(hash: nat -> nat, w: World)
    requires WInv(hash, w) && Deletes(w.s) && Left(w) != []
    ensures var stacks := w.s.insts[w.s.ctl.x].stacks;
            var j, p := FirstIndex(stacks, 0), Left(w)[0];
            && T.Hit(T.Chain(hash, w.chains, p.tid), p.tid) == T.Some(p)
            && DoDelNext(hash, w).s == DoFreeStack(w.s, j)
  {
    hide Inv, Left, T.InOrder, InTable;
    LeftBegins(w);
    FirstAhead(hash, w.chains, Left(w));
    NextHit(hash, w);
    hide T.Ahead, T.InOrder, T.Chain, T.Hit;
    DelNextFrees(hash, w, FirstIndex(w.s.insts[w.s.ctl.x].stacks, 0), Left(w)[0]);
    hide DoDelNext, DoFreeStack;
  }

  lemma FirstAhead(hash: nat -> nat, chains: seq<seq<T.Stack>>, places: seq<T.Stack>)
    requires |chains| == T.BUCKETS && T.InOrder(hash, chains, places) && places != []
    ensures T.Ahead(T.Chain(hash, chains, places[0].tid), places[0], [])
  {
    assert places[..0] == [];
    hide T.Ahead;
  }

  /** No array holds the deleted stack any more. */
  lemma OnlyOnce(s: State, x: Iid, j: nat)
    requires Inv(s) && x in s.insts && j in s.insts[x].stacks
    ensures forall y, k :: y in InstsFreed(s, x, j) && k in InstsFreed(s, x, j)[y].stacks ==>
              InstsFreed(s, x, j)[y].stacks[k] != s.insts[x].stacks[j]
    ensures s.insts[x].stacks[j] !in s.freedS
  {
    hide InstOk, PublishedOk, StksOk, EntriesOk, FreedOk, CtlOk, ReaderOk, Grace;
    forall y, k | y in InstsFreed(s, x, j) && k in InstsFreed(s, x, j)[y].stacks
      ensures InstsFreed(s, x, j)[y].stacks[k] != s.insts[x].stacks[j]
    {
      assert k in s.insts[y].stacks;
    }
  }

  lemma FewerTabled(hash: nat -> nat, w: World, x: Iid, j: nat)
    requires |w.chains| == T.BUCKETS && Tabled(hash, w.chains, w.tids, w.s.insts) && x in w.s.insts
    ensures Tabled(hash, w.chains, w.tids, InstsFreed(w.s, x, j))
  {
    hide T.Good, InTable;
    forall y, k | y in InstsFreed(w.s, x, j) && k in InstsFreed(w.s, x, j)[y].stacks
      ensures InTable(hash, w.chains, w.tids, InstsFreed(w.s, x, j)[y].stacks[k])
    {
      assert k in w.s.insts[y].stacks;
    }
  }

  lemma NotInRest(stacks: map<nat, Stid>, tids: map<Stid, nat>, p: T.Stack)
    requires forall k :: k in stacks ==> stacks[k] != p.id
    ensures p !in Places(stacks, tids, 0)
  {
    PlacesMembers(stacks, tids, 0);
    hide Places;
  }

  lemma DelTable(hash: nat -> nat, w: World, x: Iid, j: nat, p: T.Stack)
    requires WInv(hash, w) && Deletes(w.s) && x == w.s.ctl.x && j in w.s.insts[x].stacks && p == Named(w.tids, w.s.insts[x].stacks[j])
    requires Left(w) == [p] + Places(w.s.insts[x].stacks - {j}, w.tids, 0)
    requires T.Hit(T.Chain(hash, w.chains, p.tid), p.tid) == T.Some(p)
    ensures var b := T.Home(hash, p.tid);
            var after := w.chains[b := T.Drop(w.chains[b], p.tid)];
            && Tabled(hash, after, w.tids, InstsFreed(w.s, x, j))
            && T.InOrder(hash, after, Places(w.s.insts[x].stacks - {j}, w.tids, 0))
  {
    OnlyOnce(w.s, x, j);
    FewerTabled(hash, w, x, j);
    hide Inv, T.Hit, T.Drop, T.InOrder, Places;
    var rest := Places(w.s.insts[x].stacks - {j}, w.tids, 0);
    assert InstsFreed(w.s, x, j)[x].stacks == w.s.insts[x].stacks - {j};
    NotInRest(w.s.insts[x].stacks - {j}, w.tids, p);
    RestInOrder(hash, w.chains, p, rest);
    DropKeepsTable(hash, w.chains, w.tids, InstsFreed(w.s, x, j), p);
  }

  lemma DelNextKeepsWInv(hash: nat -> nat, w: World)
    requires WInv(hash, w)
    ensures WInv(hash, DoDelNext(hash, w))
    ensures DoDelNext(hash, w).s == w.s || exists j :: DoDelNext(hash, w).s == Step(w.s, FreeStack(j))
  {
    if Deletes(w.s) && Left(w) != [] {
      DeletesOne(hash, w);
    } else if Deletes(w.s) {
      PlacesFirst(w.s.insts[w.s.ctl.x].stacks, w.tids, 0);
      hide Inv, Tabled, T.InOrder;
    }
  }

  lemma DeletesOne(hash: nat -> nat, w: World)
    requires WInv(hash, w) && Deletes(w.s) && Left(w) != []
    ensures WInv(hash, DoDelNext(hash, w))
    ensures exists j :: DoDelNext(hash, w).s == Step(w.s, FreeStack(j))
  {
    OrderedHit(hash, w);
    LeftBegins(w);
    var x := w.s.ctl.x;
    var j, p := FirstIndex(w.s.insts[x].stacks, 0), Left(w)[0];
    StepKeepsInv(w.s, FreeStack(j));
    DelTable(hash, w, x, j, p);
    hide Inv, Tabled, T.InOrder, T.Hit, T.Drop, T.Home, Places, Step;
    assert Step(w.s, FreeStack(j)) == DoFreeStack(w.s, j) by { FreeStackStep(w.s, j); }
    var t := DoDelNext(hash, w);
    assert t.s.insts == InstsFreed(w.s, x, j);
    assert t.chains == w.chains[T.Home(hash, p.tid) := T.Drop(w.chains[T.Home(hash, p.tid)], p.tid)];
  }

  lemma FreeStackStep(s: State, j: nat)
    ensures Step(s, FreeStack(j)) == DoFreeStack(s, j)
  {
  }

  // ----- every run -----

  lemma StepSound(hash: nat -> nat, w: World, v: Move) returns (trace: seq<Action>)
    requires WInv(hash, w) && |w.chains| == T.BUCKETS && Orderly(hash, w, v)
    ensures WInv(hash, WStep(hash, w, v)) && WStep(hash, w, v).s == Run(w.s, trace)
  {
    RunNone(w.s);
    hide WInv, Step, Run, DoRegister, DoDelNext, DoStackAdd;
    match v
    case Own(a) =>
      if a.StackAdd? || a.FreeStack? { trace := []; } else { OwnKeepsWInv(hash, w, a); RunOne(w.s, a); trace := [a]; }
    case Register(i, id, j, tid) =>
      RegisterKeepsWInv(hash, w, i, id, j, tid);
      RegisterSteps(hash, w, i, id, j, tid);
      RunOne(w.s, StackAdd(i, id, j));
      trace := if DoRegister(hash, w, i, id, j, tid).s == w.s then [] else [StackAdd(i, id, j)];
    case DelNext =>
      DelNextKeepsWInv(hash, w);
      if DoDelNext(hash, w).s == w.s { trace := []; } else {
        var j :| DoDelNext(hash, w).s == Step(w.s, FreeStack(j));
        RunOne(w.s, FreeStack(j));
        trace := [FreeStack(j)];
      }
  }

  lemma RegisterSteps(hash: nat -> nat, w: World, i: nat, id: Stid, j: nat, tid: nat)
    ensures DoRegister(hash, w, i, id, j, tid).s == w.s || DoRegister(hash, w, i, id, j, tid).s == Step(w.s, StackAdd(i, id, j))
  {
    hide DoStackAdd;
    assert Step(w.s, StackAdd(i, id, j)) == DoStackAdd(w.s, i, id, j);
    hide Step;
  }

  lemma RunNone(s: State)
    ensures Run(s, []) == s
  {
  }

  lemma RunOne(s: State, a: Action)
    ensures Run(s, [a]) == Step(s, a)
  {
    hide Step;
    assert [a][..0] == [];
  }

  lemma {:induction false} RunConcat(s: State, a: seq<Action>, b: seq<Action>)
    ensures Run(s, a + b) == Run(Run(s, a), b)
  {
    hide Step;
    if b == [] {
      assert a + b == a;
    } else {
      RunConcat(s, a, b[..|b| - 1]);
      assert (a + b)[..|a + b| - 1] == a + b[..|b| - 1];
    }
  }

  /** If every logout begins with its array in order, the run is one in which each stack of the array is freed itself. */
  lemma {:induction false} RunOfPointers(hash: nat -> nat, w0: World, moves: seq<Move>) returns (trace: seq<Action>)
    requires NoStacks(w0) && Ordered(hash, w0, moves)
    ensures WInv(hash, WRun(hash, w0, moves)) && WRun(hash, w0, moves).s == Run(w0.s, trace)
  {
    hide WInv, WStep, Run, Orderly, NoStacks;
    if moves == [] {
      NothingWInv(hash, w0);
      RunNone(w0.s);
      trace := [];
    } else {
      var before := RunOfPointers(hash, w0, moves[..|moves| - 1]);
      var w := WRun(hash, w0, moves[..|moves| - 1]);
      var more := StepSound(hash, w, moves[|moves| - 1]);
      RunConcat(w0.s, before, more);
      trace := before + more;
    }
  }

  /** Grace period of deletion by thread id: if every logout begins with its array in order, no loop ever holds an instance or a
      stack that has been freed. */
  lemma GraceByThread(hash: nat -> nat, w0: World, moves: seq<Move>)
    requires NoStacks(w0) && Ordered(hash, w0, moves)
    ensures var s := WRun(hash, w0, moves).s;
            && s.rx.heldI !! s.freedI && s.tx.heldI !! s.freedI
            && s.rx.heldS !! s.freedS && s.tx.heldS !! s.freedS
  {
    var trace := RunOfPointers(hash, w0, moves);
    hide *;
    StartsInitial(w0);
    GracePeriod(w0.s, trace);
  }

  lemma StartsInitial(w: World)
    requires NoStacks(w)
    ensures Initial(w.s)
  {
  }

  // ----- a logout out of order -----

  lemma {:induction false} WRunConcat(hash: nat -> nat, w: World, a: seq<Move>, b: seq<Move>)
    ensures WRun(hash, w, a + b) == WRun(hash, WRun(hash, w, a), b)
  {
    hide WStep;
    if b == [] {
      assert a + b == a;
    } else {
      WRunConcat(hash, w, a, b[..|b| - 1]);
      assert (a + b)[..|a + b| - 1] == a + b[..|b| - 1];
    }
  }

  lemma WRunMore(hash: nat -> nat, w: World, v: Move, rest: seq<Move>)
    ensures WRun(hash, w, [v] + rest) == WRun(hash, WStep(hash, w, v), rest)
  {
    WRunConcat(hash, w, [v], rest);
    WRunOne(hash, w, v);
    hide *;
  }

  lemma WRunOne(hash: nat -> nat, w: World, v: Move)
    ensures WRun(hash, w, [v]) == WStep(hash, w, v)
  {
    hide WStep;
    assert [v][..0] == [];
    assert WRun(hash, w, []) == w;
  }

  /** An instance i registers in slot i, and a stack i of thread 5, which gets no answer. */
  function Joining(i: nat): seq<Move> {
    [Own(AddTick(i, i)), Own(Publish), Register(i, i, 0, 5), Own(SetRings), Own(SetPlace), Own(ThrdFails)]
  }

  predicate CanJoin(w: World, i: nat) {
    && i < |w.s.ticks| == |w.s.published| && |w.chains| == T.BUCKETS
    && w.s.ctl == Idle && w.s.published[i] == None && i !in w.s.insts && i !in w.s.stks
  }

  function Ticked(w: World, i: nat): World
    requires CanJoin(w, i)
  {
    w.(s := w.s.(ticks := w.s.ticks[i := w.s.ticks[i] + 1], insts := w.s.insts[i := Inst(i, w.s.ticks[i], map[])], ctl := Adding(i)))
  }

  function Shown(w: World, i: nat): World
    requires CanJoin(w, i)
  {
    Ticked(w, i).(s := Ticked(w, i).s.(published := w.s.published[i := Some(i)], ctl := Idle))
  }

  function Listed(hash: nat -> nat, w: World, i: nat): World
    requires CanJoin(w, i)
  {
    World(Shown(w, i).s.(stks := w.s.stks[i := Stk(i, false, false, 0, InitVal)], ctl := NewStack(i, 0)),
          w.chains[T.Home(hash, 5) := [T.Stack(i, 5)] + w.chains[T.Home(hash, 5)]], w.tids[i := 5])
  }

  function WithRings(hash: nat -> nat, w: World, i: nat): World
    requires CanJoin(w, i)
  {
    var t := Listed(hash, w, i);
    t.(s := t.s.(stks := w.s.stks[i := Stk(i, true, false, 0, InitVal)], ctl := Ringed(i, 0)))
  }

  function InPlace(hash: nat -> nat, w: World, i: nat, ctl: Ctl): World
    requires CanJoin(w, i)
  {
    var t := Listed(hash, w, i);
    t.(s := t.s.(insts := w.s.insts[i := Inst(i, w.s.ticks[i], map[0 := i])],
                 stks := w.s.stks[i := Stk(i, true, true, 0, InitVal)], ctl := ctl))
  }

  lemma Joins(hash: nat -> nat, w: World, i: nat)
    requires CanJoin(w, i)
    ensures WRun(hash, w, Joining(i)) == InPlace(hash, w, i, Idle)
  {
    JoinTick(hash, w, i);
    JoinPublish(hash, w, i);
    JoinRegister(hash, w, i);
    JoinRings(hash, w, i);
    JoinPlace(hash, w, i);
    JoinFails(hash, w, i);
    hide Ticked, Shown, Listed, WithRings, InPlace, WStep, WRun, CanJoin;
    SixSteps(hash, w, Joining(i));
  }

  lemma JoinTick(hash: nat -> nat, w: World, i: nat)
    requires CanJoin(w, i)
    ensures WStep(hash, w, Own(AddTick(i, i))) == Ticked(w, i)
  {
    assert Step(w.s, AddTick(i, i)) == DoAddTick(w.s, i, i);
    hide Step;
  }

  lemma JoinPublish(hash: nat -> nat, w: World, i: nat)
    requires CanJoin(w, i)
    ensures WStep(hash, Ticked(w, i), Own(Publish)) == Shown(w, i)
  {
    assert Step(Ticked(w, i).s, Publish) == DoPublish(Ticked(w, i).s);
    hide Step;
  }

  lemma JoinRegister(hash: nat -> nat, w: World, i: nat)
    requires CanJoin(w, i)
    ensures WStep(hash, Shown(w, i), Register(i, i, 0, 5)) == Listed(hash, w, i)
  {
    hide T.Home;
    assert DoStackAdd(Shown(w, i).s, i, i, 0) == Listed(hash, w, i).s;
  }

  lemma JoinRings(hash: nat -> nat, w: World, i: nat)
    requires CanJoin(w, i)
    ensures WStep(hash, Listed(hash, w, i), Own(SetRings)) == WithRings(hash, w, i)
  {
    var s := Listed(hash, w, i).s;
    assert s.stks[i := Stk(i, true, false, 0, InitVal)] == w.s.stks[i := Stk(i, true, false, 0, InitVal)];
    assert Step(s, SetRings) == DoSetRings(s);
    hide Step, T.Home;
  }

  lemma JoinPlace(hash: nat -> nat, w: World, i: nat)
    requires CanJoin(w, i)
    ensures WStep(hash, WithRings(hash, w, i), Own(SetPlace)) == InPlace(hash, w, i, Placed(i))
  {
    var s := WithRings(hash, w, i).s;
    assert map[][0 := i] == map[0 := i];
    assert s.stks[i := Stk(i, true, true, 0, InitVal)] == w.s.stks[i := Stk(i, true, true, 0, InitVal)];
    assert s.insts[i := Inst(i, w.s.ticks[i], map[0 := i])] == w.s.insts[i := Inst(i, w.s.ticks[i], map[0 := i])];
    assert Step(s, SetPlace) == DoSetPlace(s);
    hide Step, T.Home;
  }

  lemma JoinFails(hash: nat -> nat, w: World, i: nat)
    requires CanJoin(w, i)
    ensures WStep(hash, InPlace(hash, w, i, Placed(i)), Own(ThrdFails)) == InPlace(hash, w, i, Idle)
  {
    hide T.Home;
  }

  lemma SixSteps(hash: nat -> nat, w: World, v: seq<Move>)
    requires |v| == 6
    ensures WRun(hash, w, v) == WStep(hash, WStep(hash, WStep(hash, WStep(hash, WStep(hash, WStep(hash, w, v[0]), v[1]), v[2]), v[3]), v[4]), v[5])
  {
    hide WStep;
    assert v[..5][..4] == v[..4] && v[..4][..3] == v[..3] && v[..3][..2] == v[..2] && v[..2][..1] == v[..1] && v[..1][..0] == [];
    assert WRun(hash, w, v[..1]) == WStep(hash, w, v[0]);
    assert WRun(hash, w, v[..2]) == WStep(hash, WRun(hash, w, v[..1]), v[1]);
    assert WRun(hash, w, v[..3]) == WStep(hash, WRun(hash, w, v[..2]), v[2]);
    assert WRun(hash, w, v[..4]) == WStep(hash, WRun(hash, w, v[..3]), v[3]);
    assert WRun(hash, w, v[..5]) == WStep(hash, WRun(hash, w, v[..4]), v[4]);
  }

  const R0: Reader := Reader(0, {}, {}, Walking)
  const R1: Reader := Reader(1, {}, {}, Walking)

  /** Two instances, each with a stack of thread 5; the stack of the second is at the head of the chain. */
  function Two(hash: nat -> nat): World {
    World(State([1, 1], [Some(0), Some(1)], map[0 := Inst(0, 0, map[0 := 0]), 1 := Inst(1, 0, map[0 := 1])],
                map[0 := Stk(0, true, true, 0, InitVal), 1 := Stk(1, true, true, 0, InitVal)], map[], R0, R0, Idle, {}, {}, {}),
          seq(T.BUCKETS, b => if b == T.Home(hash, 5) then [T.Stack(1, 5), T.Stack(0, 5)] else []), map[0 := 5, 1 := 5])
  }

  function Empty(): World {
    World(State([0, 0], [None, None], map[], map[], map[], R0, R0, Idle, {}, {}, {}), seq(T.BUCKETS, b => []), map[])
  }

  lemma BothJoin(hash: nat -> nat)
    ensures WRun(hash, Empty(), Joining(0) + Joining(1)) == Two(hash)
  {
    var w := InPlace(hash, Empty(), 0, Idle);
    Joins(hash, Empty(), 0);
    Joins(hash, w, 1);
    hide WRun, Joining, T.Home;
    WRunConcat(hash, Empty(), Joining(0), Joining(1));
    SecondJoined(hash, w);
  }

  lemma SecondJoined(hash: nat -> nat, w: World)
    requires w == InPlace(hash, Empty(), 0, Idle)
    ensures InPlace(hash, w, 1, Idle) == Two(hash)
  {
    var b, t := T.Home(hash, 5), InPlace(hash, w, 1, Idle);
    hide T.Home;
    assert t.s.insts == Two(hash).s.insts && t.s.stks == Two(hash).s.stks && t.tids == Two(hash).tids;
    assert w.chains[b] == [T.Stack(0, 5)];
    assert t.chains[b] == [T.Stack(1, 5)] + [T.Stack(0, 5)] == [T.Stack(1, 5), T.Stack(0, 5)];
    assert t.chains == Two(hash).chains;
    assert t.s.ticks == [1, 1] && t.s.published == [Some(0), Some(1)];
  }

  /** The first instance logs out, and waits until both loops have finished an iteration; the receiving loop then takes the
      stack of the second instance. */
  const LOGOUT: seq<Action> := [LogoutTick(0), Unpublish, SnapRxCount, SnapTxCount, EndIter(Rx), EndIter(Tx)]
  const TAKES: seq<Action> := [LoadInst(Rx, 1), LoadStack(Rx, 1, 0), SeeTx, SeeRx]

  function Owns(acts: seq<Action>): seq<Move> { seq(|acts|, i requires 0 <= i < |acts| => Own(acts[i])) }

  lemma {:induction false} OwnsRun(hash: nat -> nat, w: World, acts: seq<Action>)
    requires forall i :: 0 <= i < |acts| ==> !acts[i].StackAdd? && !acts[i].FreeStack?
    ensures WRun(hash, w, Owns(acts)) == w.(s := Run(w.s, acts))
  {
    hide Step, DoRegister, DoDelNext;
    if acts != [] {
      var n := |acts| - 1;
      OwnsRun(hash, w, acts[..n]);
      assert Owns(acts)[..n] == Owns(acts[..n]);
    }
  }

  function Waiting(hash: nat -> nat): State {
    Two(hash).s.(ticks := [2, 1], published := [None, Some(1)], ctl := WaitTx(0, 0, 0), dead := {0}, rx := R1, tx := R1)
  }

  lemma LogsOut(hash: nat -> nat)
    ensures Run(Two(hash).s, LOGOUT) == Waiting(hash)
  {
    var s := Two(hash).s;
    var s1 := s.(ticks := [2, 1], ctl := Bumped(0), dead := {0});
    var s2 := s1.(published := [None, Some(1)], ctl := Unpublished(0));
    hide T.Home;
    LogoutFirst(s, s1, s2);
    LogoutWaits(s2);
    hide Step, Run, Two, Waiting;
    SixActions(s, LOGOUT);
  }

  lemma LogoutFirst(s: State, s1: State, s2: State)
    requires s.ctl == Idle && s.ticks == [1, 1] && s.published == [Some(0), Some(1)] && 0 in s.insts && s.insts[0].slot == 0 && s.dead == {}
    requires s1 == s.(ticks := [2, 1], ctl := Bumped(0), dead := {0})
    requires s2 == s1.(published := [None, Some(1)], ctl := Unpublished(0))
    ensures Step(s, LogoutTick(0)) == s1 && Step(s1, Unpublish) == s2
  {
    assert Step(s, LogoutTick(0)) == DoLogoutTick(s, 0);
    assert [1, 1][0 := 2] == [2, 1] && {} + {0 as nat} == {0};
    assert Step(s1, Unpublish) == DoUnpublish(s1);
    assert s1.published[0 := None] == [None, Some(1)];
    hide Step;
  }

  lemma LogoutWaits(s: State)
    requires s.ctl == Unpublished(0) && s.rx == R0 && s.tx == R0
    ensures Step(Step(Step(Step(s, SnapRxCount), SnapTxCount), EndIter(Rx)), EndIter(Tx)) ==
            s.(ctl := WaitTx(0, 0, 0), rx := R1, tx := R1)
  {
    var s1 := s.(ctl := SnapRx(0, 0));
    var s2 := s.(ctl := WaitTx(0, 0, 0));
    SnapsBoth(s, s1);
    var s3 := s2.(rx := R1);
    EndsIter(s2, Rx);
    EndsIter(s3, Tx);
    hide Step;
  }

  lemma SnapsBoth(s: State, s1: State)
    requires s.ctl == Unpublished(0) && s.rx == R0 && s.tx == R0 && s1 == s.(ctl := SnapRx(0, 0))
    ensures Step(s, SnapRxCount) == s1 && Step(s1, SnapTxCount) == s.(ctl := WaitTx(0, 0, 0))
  {
    assert Step(s, SnapRxCount) == StepCtl(s, SnapRxCount) && Step(s1, SnapTxCount) == StepCtl(s1, SnapTxCount);
    hide Step, DoAddTick, DoPublish, DoAttach, DoStackAdd, DoSetRings, DoSetPlace, DoSetReg, DoSetCur, DoLogoutTick, DoUnpublish, DoFreeStack;
  }

  lemma EndsIter(s: State, r: Side)
    ensures Step(s, EndIter(r)) == Set(s, r, Reader(Get(s, r).count + 1, {}, {}, Walking))
  {
  }

  lemma SixActions(s: State, v: seq<Action>)
    requires |v| == 6
    ensures Run(s, v) == Step(Step(Step(Step(Step(Step(s, v[0]), v[1]), v[2]), v[3]), v[4]), v[5])
  {
    hide Step;
    assert v[..4] + [v[4], v[5]] == v && v[..4][..3] == v[..3] && v[..3][..2] == v[..2] && v[..2][..1] == v[..1] && v[..1][..0] == [];
    assert v[..5][..4] == v[..4];
    assert Run(s, v[..1]) == Step(s, v[0]);
    assert Run(s, v[..2]) == Step(Run(s, v[..1]), v[1]);
    assert Run(s, v[..3]) == Step(Run(s, v[..2]), v[2]);
    assert Run(s, v[..4]) == Step(Run(s, v[..3]), v[3]);
    assert Run(s, v[..5]) == Step(Run(s, v[..4]), v[4]);
  }

  function Beginning(hash: nat -> nat): State {
    Waiting(hash).(ctl := Freeing(0), rx := Reader(1, {1}, {1}, Walking))
  }

  lemma LoopTakes(hash: nat -> nat)
    ensures Run(Waiting(hash), TAKES) == Beginning(hash)
  {
    var s := Waiting(hash);
    var s1 := s.(rx := Reader(1, {1}, {}, Walking));
    var s2 := s1.(rx := Reader(1, {1}, {1}, Walking));
    hide T.Home;
    LoadsInst(s);
    LoadsStack(s1);
    SeesBoth(s2);
    hide Step, Run;
    FourActions(s, TAKES);
  }

  lemma LoadsInst(s: State)
    requires PublishedAt(s, 1) && s.published[1] == Some(1) && s.rx == R1
    ensures Step(s, LoadInst(Rx, 1)) == s.(rx := Reader(1, {1}, {}, Walking))
  {
    assert {} + {1 as nat} == {1};
    assert StepReader(s, LoadInst(Rx, 1), s.rx) == Reader(1, {1}, {}, Walking);
    hide StepReader, PublishedAt;
    assert NewEntry(s, LoadInst(Rx, 1)) == s.entries;
  }

  lemma LoadsStack(s: State)
    requires s.rx == Reader(1, {1}, {}, Walking) && 1 in s.insts && s.insts[1].stacks == map[0 := 1]
    ensures Step(s, LoadStack(Rx, 1, 0)) == s.(rx := Reader(1, {1}, {1}, Walking))
  {
    assert {} + {1 as nat} == {1};
    assert StepReader(s, LoadStack(Rx, 1, 0), s.rx) == Reader(1, {1}, {1}, Walking);
    hide StepReader;
    assert NewEntry(s, LoadStack(Rx, 1, 0)) == s.entries;
  }

  lemma SeesBoth(s: State)
    requires s.ctl == WaitTx(0, 0, 0) && s.rx.count == 1 && s.tx.count == 1
    ensures Step(Step(s, SeeTx), SeeRx) == s.(ctl := Freeing(0))
  {
    assert Step(s, SeeTx) == s.(ctl := WaitRx(0, 0, 0));
    hide DoAddTick, DoPublish, DoAttach, DoStackAdd, DoSetRings, DoSetPlace, DoSetReg, DoSetCur, DoLogoutTick, DoUnpublish, DoFreeStack;
  }

  lemma FourActions(s: State, v: seq<Action>)
    requires |v| == 4
    ensures Run(s, v) == Step(Step(Step(Step(s, v[0]), v[1]), v[2]), v[3])
  {
    hide Step;
    assert v[..3][..2] == v[..2] && v[..2][..1] == v[..1] && v[..1][..0] == [];
    assert Run(s, v[..1]) == Step(s, v[0]);
    assert Run(s, v[..2]) == Step(Run(s, v[..1]), v[1]);
    assert Run(s, v[..3]) == Step(Run(s, v[..2]), v[2]);
  }

  lemma DeletesOther(hash: nat -> nat, w: World)
    requires w == Two(hash).(s := Beginning(hash))
    ensures var t := DoDelNext(hash, w).s;
            && t.freedS == {1} && t.rx.heldS == {1} && t.dead == {0} && 1 in t.stks && t.stks[1].owner == 1
            && t.published == [None, Some(1)]
  {
    hide T.Home, T.Drop;
    var chain := T.Chain(hash, w.chains, 5);
    assert chain == [T.Stack(1, 5), T.Stack(0, 5)];
    assert T.Hit(chain, 5) == T.Some(T.Stack(1, 5));
    hide T.Chain, T.Hit;
    assert FirstIndex(w.s.insts[0].stacks, 0) == 0;
    assert Named(w.tids, 0) == T.Stack(0, 5);
    assert {} + {1 as nat} == {1};
  }

  /** An instance logs out whose thread id is that of a stack registered later by another instance: that stack is freed, which
      is not logged out and which the receiving loop holds. */
  lemma FreedWhileHeld(hash: nat -> nat) returns (moves: seq<Move>)
    ensures NoStacks(Empty())
    ensures var s := WRun(hash, Empty(), moves).s;
            && 1 in s.rx.heldS && 1 in s.freedS
            && 1 in s.stks && s.stks[1].owner == 1 && 1 !in s.dead && |s.published| == 2 && s.published[1] == Some(1)
  {
    moves := LeadsThere(hash);
    hide *;
    EmptyNoStacks();
    DeletesOther(hash, Two(hash).(s := Beginning(hash)));
  }

  lemma LeadsThere(hash: nat -> nat) returns (moves: seq<Move>)
    ensures WRun(hash, Empty(), moves) == DoDelNext(hash, Two(hash).(s := Beginning(hash)))
  {
    hide WRun, Run, Two, Waiting, Beginning, DoDelNext, Owns, Joining, Empty;
    BothJoin(hash);
    LogsOut(hash);
    LoopTakes(hash);
    var w1, w2, w3 := Two(hash), Two(hash).(s := Waiting(hash)), Two(hash).(s := Beginning(hash));
    OwnsRun(hash, w1, LOGOUT);
    OwnsRun(hash, w2, TAKES);
    hide *;
    moves := Joining(0) + Joining(1) + Owns(LOGOUT) + Owns(TAKES) + [DelNext];
    Glue(hash, Empty(), w1, w2, w3, Joining(0) + Joining(1), Owns(LOGOUT), Owns(TAKES));
  }

  lemma EmptyNoStacks()
    ensures NoStacks(Empty())
  {
  }

  lemma Glue(hash: nat -> nat, w0: World, w1: World, w2: World, w3: World, a: seq<Move>, b: seq<Move>, c: seq<Move>)
    requires WRun(hash, w0, a) == w1 && WRun(hash, w1, b) == w2 && WRun(hash, w2, c) == w3
    ensures WRun(hash, w0, a + b + c + [DelNext]) == DoDelNext(hash, w3)
  {
    hide WRun, DoDelNext;
    WRunConcat(hash, w0, a, b);
    WRunConcat(hash, w0, a + b, c);
    WRunConcat(hash, w0, a + b + c, [DelNext]);
    WRunOne(hash, w3, DelNext);
  }
}
