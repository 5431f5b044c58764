/** How long the forwarder's objects live.  A control thread registers instances and stacks and logs them out; the two
    forwarding loops walk over them without locks.  An instance slot has a tick; an object is on while the tick it was
    registered at is the current one.  Logging out moves the tick on, unpublishes the instance, waits until both loops
    have finished an iteration, and frees.  One action is one access to shared memory. */
module Lifetime {

  type Iid = nat
  type Stid = nat
  type Eid = nat

  const MAX_STACKS: nat := 32   // GAZELLE_MAX_STACK_ARRAY_SIZE

  datatype Option<T> = None | Some(value: T)

  /** Where instance_cur_tick points. */
  datatype Tick = InitVal | Slot(i: nat)

  datatype Inst = Inst(slot: nat, reg: int, stacks: map<nat, Stid>)

  /** `placed`: it is in the stack array of its instance. */
  datatype Stk = Stk(owner: Iid, rings: bool, placed: bool, reg: int, tick: Tick)

  /** A connection or a sock, with the ticks copied from its stack. */
  datatype Entry = Entry(stack: Stid, reg: int, tick: Tick)

  /** INSTANCE_IS_ON in separate loads, of the two fields in either order, and the copying of the two fields. */
  datatype ReaderPc = Walking
    | Checking(s: Stid, reg: Option<int>, cur: Option<Tick>, val: Option<int>)
    | Using(s: Stid)
    | CopyReg(s: Stid, copied: int)

  datatype Reader = Reader(count: nat, heldI: set<Iid>, heldS: set<Stid>, pc: ReaderPc)

  datatype Ctl = Idle
    | Adding(x: Iid)                                    // the tick was moved, the instance is not published
    | NewStack(s: Stid, j: nat) | Ringed(s: Stid, j: nat) | Placed(s: Stid) | Regged(s: Stid)
    | Bumped(x: Iid) | Unpublished(x: Iid)
    | SnapRx(x: Iid, rx: nat)
    | WaitTx(x: Iid, rx: nat, tx: nat) | WaitRx(x: Iid, rx: nat, tx: nat)
    | Freeing(x: Iid)

  datatype State = State(ticks: seq<nat>, published: seq<Option<Iid>>, insts: map<Iid, Inst>, stks: map<Stid, Stk>,
                         entries: map<Eid, Entry>, rx: Reader, tx: Reader, ctl: Ctl,
                         dead: set<Iid>, freedI: set<Iid>, freedS: set<Stid>)  // history: logged out, freed

  datatype Side = Rx | Tx

  datatype Action =
    | AddTick(i: nat, x: Iid) | Publish | Attach(i: nat)
    | StackAdd(i: nat, s: Stid, j: nat) | SetRings | SetPlace | SetReg | SetCur | ThrdFails
    | LogoutTick(i: nat) | Unpublish | SnapRxCount | SnapTxCount | SeeTx | SeeRx | FreeStack(j: nat) | FreeInst
    | LoadInst(r: Side, i: nat) | LoadStack(r: Side, x: Iid, j: nat)
    | CheckBegin(r: Side, s: Stid) | CheckReg(r: Side) | CheckCur(r: Side) | CheckVal(r: Side) | Judge(r: Side)
    | UseEntry(e: Eid) | EntryReg | EntryTick(e: Eid)
    | EndIter(r: Side)

  /** Nothing is registered and all ticks are zero. */
  ghost predicate Initial(s: State) {
    && |s.ticks| == |s.published|
    && (forall i :: 0 <= i < |s.ticks| ==> s.ticks[i] == 0)
    && (forall i :: 0 <= i < |s.published| ==> s.published[i] == None)
    && s.insts == map[] && s.stks == map[] && s.entries == map[] && s.ctl == Idle
    && s.dead == {} && s.freedI == {} && s.freedS == {}
    && s.rx == s.tx == Reader(0, {}, {}, Walking)
  }

  function Cur(ticks: seq<nat>, t: Tick): int {
    if t.Slot? && t.i < |ticks| then ticks[t.i] else -1
  }

  predicate IsOn(ticks: seq<nat>, t: Tick, reg: int) { reg == Cur(ticks, t) }

  function Get(s: State, r: Side): Reader { if r == Rx then s.rx else s.tx }
  function Set(s: State, r: Side, x: Reader): State { if r == Rx then s.(rx := x) else s.(tx := x) }

  predicate PublishedAt(s: State, i: nat) {
    i < |s.ticks| == |s.published| && s.published[i].Some? && s.published[i].value in s.insts
  }

  // ----- the control thread -----

  /** gazelle_instance_add_by_pid on a free slot: the new instance is one tick behind. */
  function DoAddTick(s: State, i: nat, x: Iid): State {
    if s.ctl != Idle || i >= |s.ticks| || i >= |s.published| || s.published[i].Some? || x in s.insts then s
    else s.(ticks := s.ticks[i := s.ticks[i] + 1], insts := s.insts[x := Inst(i, s.ticks[i], map[])], ctl := Adding(x))
  }

  function DoPublish(s: State): State {
    if !s.ctl.Adding? || s.ctl.x !in s.insts || s.insts[s.ctl.x].slot >= |s.published| then s
    else s.(published := s.published[s.insts[s.ctl.x].slot := Some(s.ctl.x)], ctl := Idle)
  }

  function DoAttach(s: State, i: nat): State {
    if s.ctl != Idle || !PublishedAt(s, i) then s
    else var x := s.published[i].value; s.(insts := s.insts[x := s.insts[x].(reg := s.ticks[i])])
  }

  /** gazelle_stack_add_by_tid: registration tick 0, and a current tick that is always -1. */
  function DoStackAdd(s: State, i: nat, id: Stid, j: nat): State {
    if s.ctl != Idle || !PublishedAt(s, i) || id in s.stks || j >= MAX_STACKS || j in s.insts[s.published[i].value].stacks then s
    else s.(stks := s.stks[id := Stk(s.published[i].value, false, false, 0, InitVal)], ctl := NewStack(id, j))
  }

  function DoSetRings(s: State): State {
    if !s.ctl.NewStack? || s.ctl.s !in s.stks then s
    else s.(stks := s.stks[s.ctl.s := s.stks[s.ctl.s].(rings := true)], ctl := Ringed(s.ctl.s, s.ctl.j))
  }

  function DoSetPlace(s: State): State {
    if !s.ctl.Ringed? || s.ctl.s !in s.stks || s.stks[s.ctl.s].owner !in s.insts then s
    else var k := s.stks[s.ctl.s];
         s.(insts := s.insts[k.owner := s.insts[k.owner].(stacks := s.insts[k.owner].stacks[s.ctl.j := s.ctl.s])],
            stks := s.stks[s.ctl.s := k.(placed := true)], ctl := Placed(s.ctl.s))
  }

  function DoSetReg(s: State): State {
    if !s.ctl.Placed? || s.ctl.s !in s.stks || s.stks[s.ctl.s].owner !in s.insts then s
    else var k := s.stks[s.ctl.s];
         s.(stks := s.stks[s.ctl.s := k.(reg := s.insts[k.owner].reg)], ctl := Regged(s.ctl.s))
  }

  function DoSetCur(s: State): State {
    if !s.ctl.Regged? || s.ctl.s !in s.stks || s.stks[s.ctl.s].owner !in s.insts then s
    else var k := s.stks[s.ctl.s];
         s.(stks := s.stks[s.ctl.s := k.(tick := Slot(s.insts[k.owner].slot))], ctl := Idle)
  }

  function DoLogoutTick(s: State, i: nat): State {
    if s.ctl != Idle || !PublishedAt(s, i) then s
    else s.(ticks := s.ticks[i := s.ticks[i] + 1], ctl := Bumped(s.published[i].value), dead := s.dead + {s.published[i].value})
  }

  function DoUnpublish(s: State): State {
    if !s.ctl.Bumped? || s.ctl.x !in s.insts || s.insts[s.ctl.x].slot >= |s.published| then s
    else s.(published := s.published[s.insts[s.ctl.x].slot := None], ctl := Unpublished(s.ctl.x))
  }

  function DoFreeStack(s: State, j: nat): State {
    if !s.ctl.Freeing? || s.ctl.x !in s.insts || j !in s.insts[s.ctl.x].stacks then s
    else var x := s.insts[s.ctl.x];
         s.(insts := s.insts[s.ctl.x := x.(stacks := x.stacks - {j})], freedS := s.freedS + {x.stacks[j]})
  }

  function StepCtl(s: State, a: Action): State {
    match a
    case AddTick(i, x) => DoAddTick(s, i, x)
    case Publish => DoPublish(s)
    case Attach(i) => DoAttach(s, i)
    case StackAdd(i, id, j) => DoStackAdd(s, i, id, j)
    case SetRings => DoSetRings(s)
    case SetPlace => DoSetPlace(s)
    case SetReg => DoSetReg(s)
    case SetCur => DoSetCur(s)
    case ThrdFails => if s.ctl.Placed? then s.(ctl := Idle) else s
    case LogoutTick(i) => DoLogoutTick(s, i)
    case Unpublish => DoUnpublish(s)
    case SnapRxCount => if !s.ctl.Unpublished? then s else s.(ctl := SnapRx(s.ctl.x, s.rx.count))
    case SnapTxCount => if !s.ctl.SnapRx? then s else s.(ctl := WaitTx(s.ctl.x, s.ctl.rx, s.tx.count))
    case SeeTx => if !s.ctl.WaitTx? || s.tx.count == s.ctl.tx then s else s.(ctl := WaitRx(s.ctl.x, s.ctl.rx, s.ctl.tx))
    case SeeRx =>
      if !s.ctl.WaitRx? then s
      else if s.rx.count == s.ctl.rx then s.(ctl := WaitTx(s.ctl.x, s.ctl.rx, s.ctl.tx))
      else s.(ctl := Freeing(s.ctl.x))
    case FreeStack(j) => DoFreeStack(s, j)
    case FreeInst => if !s.ctl.Freeing? then s else s.(freedI := s.freedI + {s.ctl.x}, ctl := Idle)
    case _ => s
  }

  // ----- a forwarding loop -----

  function StepReader(s: State, a: Action, r: Reader): Reader {
    match a
    case LoadInst(_, i) => if !PublishedAt(s, i) then r else r.(heldI := r.heldI + {s.published[i].value})
    case LoadStack(_, x, j) =>
      if x !in r.heldI || x !in s.insts || j !in s.insts[x].stacks then r
      else r.(heldS := r.heldS + {s.insts[x].stacks[j]})
    case CheckBegin(_, k) => if k !in r.heldS then r else r.(pc := Checking(k, None, None, None))
    case CheckReg(_) =>
      if !r.pc.Checking? || r.pc.s !in s.stks then r else r.(pc := r.pc.(reg := Some(s.stks[r.pc.s].reg)))
    case CheckCur(_) =>
      if !r.pc.Checking? || r.pc.s !in s.stks || r.pc.val.Some? then r else r.(pc := r.pc.(cur := Some(s.stks[r.pc.s].tick)))
    case CheckVal(_) =>
      if !r.pc.Checking? || r.pc.cur.None? then r else r.(pc := r.pc.(val := Some(Cur(s.ticks, r.pc.cur.value))))
    case Judge(_) =>
      if !r.pc.Checking? || r.pc.reg.None? || r.pc.val.None? then r
      else r.(pc := if r.pc.reg == r.pc.val then Using(r.pc.s) else Walking)
    case UseEntry(e) =>
      if e !in s.entries || !IsOn(s.ticks, s.entries[e].tick, s.entries[e].reg) then r
      else r.(heldS := r.heldS + {s.entries[e].stack}, pc := Using(s.entries[e].stack))
    case EntryReg => if !r.pc.Using? || r.pc.s !in s.stks then r else r.(pc := CopyReg(r.pc.s, s.stks[r.pc.s].reg))
    case EntryTick(_) => if !r.pc.CopyReg? then r else r.(pc := Using(r.pc.s))
    case EndIter(_) => Reader(r.count + 1, {}, {}, Walking)
    case _ => r
  }

  function ReaderOf(a: Action): Option<Side> {
    match a
    case LoadInst(r, _) => Some(r)
    case LoadStack(r, _, _) => Some(r)
    case CheckBegin(r, _) => Some(r)
    case CheckReg(r) => Some(r)
    case CheckCur(r) => Some(r)
    case CheckVal(r) => Some(r)
    case Judge(r) => Some(r)
    case UseEntry(_) => Some(Rx)
    case EntryReg => Some(Rx)
    case EntryTick(_) => Some(Rx)
    case EndIter(r) => Some(r)
    case _ => None
  }

  /** The entry gets the tick pointer of the stack, with the registration tick copied before. */
  function NewEntry(s: State, a: Action): map<Eid, Entry> {
    if a.EntryTick? && s.rx.pc.CopyReg? && s.rx.pc.s in s.stks && a.e !in s.entries
    then s.entries[a.e := Entry(s.rx.pc.s, s.rx.pc.copied, s.stks[s.rx.pc.s].tick)]
    else s.entries
  }

  function Step(s: State, a: Action): State {
    if ReaderOf(a).None? then StepCtl(s, a)
    else Set(s, ReaderOf(a).value, StepReader(s, a, Get(s, ReaderOf(a).value))).(entries := NewEntry(s, a))
  }

  function Run(s: State, trace: seq<Action>): State {
    if trace == [] then s else Step(Run(s, trace[..|trace| - 1]), trace[|trace| - 1])
  }

  // ----- the invariant -----

  ghost predicate InstOk(ticks: seq<nat>, insts: map<Iid, Inst>, dead: set<Iid>) {
    forall x :: x in insts ==>
      && insts[x].slot < |ticks| && 0 <= insts[x].reg <= ticks[insts[x].slot] && ticks[insts[x].slot] >= 1
      && (x in dead ==> insts[x].reg < ticks[insts[x].slot])
  }

  ghost predicate PublishedOk(published: seq<Option<Iid>>, insts: map<Iid, Inst>, dead: set<Iid>, ctl: Ctl) {
    && (forall i :: 0 <= i < |published| && published[i].Some? ==>
          var x := published[i].value;
          x in insts && insts[x].slot == i && (x in dead ==> ctl == Bumped(x)))
    && (ctl.Adding? ==> ctl.x in insts && ctl.x !in dead)
  }

  /** The arrays hold stacks of their instance that are not freed and fully set up but for their ticks. */
  ghost predicate ArraysOk(insts: map<Iid, Inst>, stks: map<Stid, Stk>, freedS: set<Stid>) {
    && (forall x, j :: x in insts && j in insts[x].stacks ==>
          var s := insts[x].stacks[j];
          j < MAX_STACKS && s in stks && stks[s].owner == x && stks[s].placed && stks[s].rings && s !in freedS)
    && (forall x, j, k :: x in insts && j in insts[x].stacks && k in insts[x].stacks && j != k ==>
          insts[x].stacks[j] != insts[x].stacks[k])
  }

  /** A registration tick is never ahead of the one of the instance; one that is in force belongs to a stack that is set up. */
  ghost predicate StksOk(insts: map<Iid, Inst>, stks: map<Stid, Stk>) {
    forall s :: s in stks ==>
      var k := stks[s];
      && k.owner in insts && 0 <= k.reg <= insts[k.owner].reg
      && (k.tick.Slot? ==> k.tick.i == insts[k.owner].slot && k.rings && k.placed)
  }

  ghost predicate EntriesOk(insts: map<Iid, Inst>, stks: map<Stid, Stk>, entries: map<Eid, Entry>) {
    forall e :: e in entries ==>
      var n := entries[e];
      && n.stack in stks && stks[n.stack].owner in insts && 0 <= n.reg <= insts[stks[n.stack].owner].reg
      && (n.tick.Slot? ==> n.tick.i == insts[stks[n.stack].owner].slot && stks[n.stack].tick.Slot?)
  }

  ghost predicate FreedOk(stks: map<Stid, Stk>, insts: map<Iid, Inst>, dead: set<Iid>, freedI: set<Iid>, freedS: set<Stid>,
                          ctl: Ctl) {
    && freedI <= dead <= insts.Keys
    && (forall s :: s in freedS ==> s in stks && stks[s].owner in dead)
    && (LoggingOut(ctl).Some? ==> LoggingOut(ctl).value in dead && LoggingOut(ctl).value !in freedI)
  }

  function LoggingOut(ctl: Ctl): Option<Iid> {
    match ctl
    case Bumped(x) => Some(x)
    case Unpublished(x) => Some(x)
    case SnapRx(x, _) => Some(x)
    case WaitTx(x, _, _) => Some(x)
    case WaitRx(x, _, _) => Some(x)
    case Freeing(x) => Some(x)
    case _ => None
  }

  /** The stack being registered is not yet in an array. */
  ghost predicate CtlOk(ctl: Ctl, insts: map<Iid, Inst>, stks: map<Stid, Stk>, freedS: set<Stid>) {
    match ctl
    case NewStack(s, j) => NotPlaced(s, j, insts, stks, freedS)
    case Ringed(s, j) => NotPlaced(s, j, insts, stks, freedS) && stks[s].rings
    case Placed(s) => s in stks && stks[s].rings && stks[s].placed && stks[s].tick == InitVal
    case Regged(s) => s in stks && stks[s].rings && stks[s].placed && stks[s].tick == InitVal
    case _ => true
  }

  ghost predicate NotPlaced(s: Stid, j: nat, insts: map<Iid, Inst>, stks: map<Stid, Stk>, freedS: set<Stid>) {
    && j < MAX_STACKS && s in stks && stks[s].owner in insts && j !in insts[stks[s].owner].stacks
    && stks[s].tick == InitVal && !stks[s].placed
    && s !in freedS
  }

  /** What a loop holds exists and is not freed; what it has loaded for a check is what can be there. */
  ghost predicate ReaderOk(r: Reader, insts: map<Iid, Inst>, stks: map<Stid, Stk>, freedI: set<Iid>, freedS: set<Stid>) {
    && (forall x :: x in r.heldI ==> x in insts && x !in freedI)
    && (forall s :: s in r.heldS ==> s in stks && s !in freedS)
    && match r.pc
       case Walking => true
       case Using(s) => s in r.heldS && stks[s].rings && stks[s].placed
       case CopyReg(s, reg) => s in r.heldS && stks[s].rings && stks[s].placed
                               && stks[s].owner in insts && 0 <= reg <= insts[stks[s].owner].reg
       case Checking(s, reg, cur, val) =>
         && s in r.heldS
         && (reg.Some? ==> reg.value >= 0)
         && (cur.Some? && cur.value.Slot? ==> stks[s].tick.Slot?)
         && (val.Some? ==> cur.Some? && (cur.value == InitVal ==> val.value == -1))
  }

  /** The loop holds nothing of instance x. */
  ghost predicate Clear(r: Reader, x: Iid, stks: map<Stid, Stk>) {
    x !in r.heldI && forall s :: s in r.heldS && s in stks ==> stks[s].owner != x
  }

  /** A loop whose counter has moved on since the snapshot holds nothing of the instance that logs out. */
  ghost predicate Grace(ctl: Ctl, rx: Reader, tx: Reader, stks: map<Stid, Stk>) {
    match ctl
    case SnapRx(x, n) => n <= rx.count && (rx.count > n ==> Clear(rx, x, stks))
    case WaitTx(x, n, m) => n <= rx.count && m <= tx.count && (rx.count > n ==> Clear(rx, x, stks)) && (tx.count > m ==> Clear(tx, x, stks))
    case WaitRx(x, n, m) => n <= rx.count && m < tx.count && (rx.count > n ==> Clear(rx, x, stks)) && Clear(tx, x, stks)
    case Freeing(x) => Clear(rx, x, stks) && Clear(tx, x, stks)
    case _ => true
  }

  ghost predicate Inv(s: State) {
    && |s.ticks| == |s.published|
    && InstOk(s.ticks, s.insts, s.dead)
    && PublishedOk(s.published, s.insts, s.dead, s.ctl)
    && ArraysOk(s.insts, s.stks, s.freedS)
    && StksOk(s.insts, s.stks)
    && EntriesOk(s.insts, s.stks, s.entries)
    && FreedOk(s.stks, s.insts, s.dead, s.freedI, s.freedS, s.ctl)
    && CtlOk(s.ctl, s.insts, s.stks, s.freedS)
    && ReaderOk(s.rx, s.insts, s.stks, s.freedI, s.freedS)
    && ReaderOk(s.tx, s.insts, s.stks, s.freedI, s.freedS)
    && Grace(s.ctl, s.rx, s.tx, s.stks)
  }

  lemma InitInv(s: State)
    requires Initial(s)
    ensures Inv(s)
  {
  }

  // ----- the steps of a loop -----

  /** What a loop gets hold of is there: its own counter moves at the end of an iteration only. */
  lemma ReaderSteps(s: State, a: Action, r: Reader)
    requires Inv(s) && ReaderOk(r, s.insts, s.stks, s.freedI, s.freedS)
    ensures ReaderOk(StepReader(s, a, r), s.insts, s.stks, s.freedI, s.freedS)
    ensures StepReader(s, a, r).count == r.count + if a.EndIter? then 1 else 0
  {
    hide Grace, CtlOk, ArraysOk;
    if a.UseEntry? {
      if a.e in s.entries && IsOn(s.ticks, s.entries[a.e].tick, s.entries[a.e].reg) { LiveEntry(s, a.e); }
      hide InstOk, PublishedOk, StksOk, EntriesOk, FreedOk, IsOn;
    } else if a.LoadInst? {
      hide StksOk, EntriesOk, InstOk;
    } else if a.LoadStack? {
      StackOfArray(s, a.x, a.j);
      hide InstOk, PublishedOk, StksOk, EntriesOk, FreedOk;
    } else {
      hide InstOk, PublishedOk, EntriesOk, FreedOk;
      CheckSteps(s, a, r);
      hide StepReader;
    }
  }

  lemma CheckSteps(s: State, a: Action, r: Reader)
    requires StksOk(s.insts, s.stks) && ReaderOk(r, s.insts, s.stks, s.freedI, s.freedS)
    requires !a.UseEntry? && !a.LoadInst? && !a.LoadStack?
    ensures ReaderOk(StepReader(s, a, r), s.insts, s.stks, s.freedI, s.freedS)
    ensures StepReader(s, a, r).count == r.count + if a.EndIter? then 1 else 0
  {
    match a
    case CheckReg(_) => hide PublishedAt, IsOn, Cur;
    case CheckCur(_) => hide PublishedAt, IsOn, Cur, StksOk;
    case CheckVal(_) => hide PublishedAt, IsOn, StksOk;
    case Judge(_) => hide PublishedAt, IsOn, Cur;
    case EntryReg => hide PublishedAt, IsOn, Cur;
    case EntryTick(_) => hide PublishedAt, IsOn, Cur, StksOk;
    case _ => hide PublishedAt, IsOn, Cur, StksOk;
  }

  lemma StackOfArray(s: State, x: Iid, j: nat)
    requires ArraysOk(s.insts, s.stks, s.freedS)
    ensures x in s.insts && j in s.insts[x].stacks ==>
              var q := s.insts[x].stacks[j]; q in s.stks && q !in s.freedS && s.stks[q].owner == x
  {
  }

  /** An entry that is on has a stack that is set up and not freed, of an instance that is not logged out. */
  lemma LiveEntry(s: State, e: Eid)
    requires Inv(s) && e in s.entries && IsOn(s.ticks, s.entries[e].tick, s.entries[e].reg)
    ensures s.entries[e].stack in s.stks && s.entries[e].stack !in s.freedS
    ensures s.stks[s.entries[e].stack].rings && s.stks[s.entries[e].stack].placed
    ensures s.stks[s.entries[e].stack].owner !in s.dead
  {
    hide Grace, CtlOk, ReaderOk, ArraysOk, PublishedOk;
  }

  lemma StaysClear(s: State, a: Action, r: Reader, x: Iid)
    requires Inv(s) && Clear(r, x, s.stks) && x in s.dead && s.ctl != Bumped(x) && ReaderOk(r, s.insts, s.stks, s.freedI, s.freedS)
    ensures Clear(StepReader(s, a, r), x, s.stks)
  {
    hide Grace, CtlOk, ArraysOk, InstOk, StksOk, EntriesOk, FreedOk;
    match a
    case UseEntry(e) =>
      if e in s.entries && IsOn(s.ticks, s.entries[e].tick, s.entries[e].reg) { LiveEntry(s, e); }
      hide PublishedOk, IsOn, ReaderOk;
    case LoadInst(_, i) => hide ReaderOk;
    case LoadStack(_, y, j) => StackOfArray(s, y, j); hide PublishedOk, ReaderOk;
    case _ => hide PublishedOk, ReaderOk;
  }

  lemma EntryKeeps(s: State, a: Action)
    requires Inv(s)
    ensures EntriesOk(s.insts, s.stks, NewEntry(s, a))
  {
    hide Grace, CtlOk, ArraysOk, PublishedOk, InstOk;
  }

  lemma ReaderStep(s: State, a: Action)
    requires ReaderOf(a).Some?
    ensures var r := ReaderOf(a).value; var q := StepReader(s, a, Get(s, r));
            Step(s, a) == if r == Rx then s.(rx := q, entries := NewEntry(s, a)) else s.(tx := q, entries := NewEntry(s, a))
  {
    hide StepReader, NewEntry;
  }

  lemma ReaderKeepsInv(s: State, a: Action)
    requires Inv(s) && ReaderOf(a).Some?
    ensures Inv(Step(s, a))
  {
    var r := Get(s, ReaderOf(a).value);
    ReaderStep(s, a);
    ReaderSteps(s, a, r);
    EntryKeeps(s, a);
    GraceKeeps(s, a);
    hide Grace, CtlOk, ArraysOk, PublishedOk, InstOk, StksOk, EntriesOk, FreedOk, ReaderOk, StepReader, NewEntry, Step, StepCtl;
  }

  lemma GraceKeeps(s: State, a: Action)
    requires Inv(s) && ReaderOf(a).Some?
    ensures var t := Set(s, ReaderOf(a).value, StepReader(s, a, Get(s, ReaderOf(a).value)));
            Grace(t.ctl, t.rx, t.tx, t.stks)
  {
    var r := Get(s, ReaderOf(a).value);
    ReaderSteps(s, a, r);
    assert a.EndIter? ==> forall x :: Clear(StepReader(s, a, r), x, s.stks);
    if LoggingOut(s.ctl).Some? && !s.ctl.Bumped? && Clear(r, LoggingOut(s.ctl).value, s.stks) {
      StaysClear(s, a, r, LoggingOut(s.ctl).value);
    }
    hide CtlOk, ArraysOk, PublishedOk, InstOk, StksOk, EntriesOk, FreedOk, ReaderOk, StepReader, Clear;
  }

  // ----- the steps of the control thread -----

  /** Instances are added without stacks, and registration ticks only grow. */
  ghost predicate Grow(a: map<Iid, Inst>, b: map<Iid, Inst>) {
    && (forall x :: x in a ==> x in b && b[x].slot == a[x].slot && b[x].reg >= a[x].reg && b[x].stacks == a[x].stacks)
    && (forall x :: x in b && x !in a ==> b[x].stacks == map[])
  }

  lemma StksGrow(a: map<Iid, Inst>, b: map<Iid, Inst>, stks: map<Stid, Stk>)
    requires Grow(a, b) && StksOk(a, stks)
    ensures StksOk(b, stks)
  {
  }

  lemma EntriesGrow(a: map<Iid, Inst>, b: map<Iid, Inst>, stks: map<Stid, Stk>, entries: map<Eid, Entry>)
    requires Grow(a, b) && EntriesOk(a, stks, entries)
    ensures EntriesOk(b, stks, entries)
  {
  }

  lemma ArraysGrow(a: map<Iid, Inst>, b: map<Iid, Inst>, stks: map<Stid, Stk>, freedS: set<Stid>)
    requires Grow(a, b) && ArraysOk(a, stks, freedS)
    ensures ArraysOk(b, stks, freedS)
  {
    forall x, j | x in b && j in b[x].stacks
      ensures var s := b[x].stacks[j]; j < MAX_STACKS && s in stks && stks[s].owner == x && stks[s].placed && stks[s].rings && s !in freedS
    {
      assert x in a && j in a[x].stacks;
    }
    forall x, j, k | x in b && j in b[x].stacks && k in b[x].stacks && j != k ensures b[x].stacks[j] != b[x].stacks[k] {
      assert x in a && j in a[x].stacks && k in a[x].stacks;
    }
  }

  lemma ReaderGrows(r: Reader, a: map<Iid, Inst>, b: map<Iid, Inst>, stks: map<Stid, Stk>, freedI: set<Iid>, freedS: set<Stid>)
    requires Grow(a, b) && ReaderOk(r, a, stks, freedI, freedS)
    ensures ReaderOk(r, b, stks, freedI, freedS)
  {
  }

  lemma AddTickKeepsInv(s: State, i: nat, x: Iid)
    requires Inv(s)
    ensures Inv(DoAddTick(s, i, x))
  {
    hide ArraysOk, StksOk, EntriesOk, ReaderOk;
    if s.ctl == Idle && i < |s.ticks| && s.published[i].None? && x !in s.insts {
      var insts := s.insts[x := Inst(i, s.ticks[i], map[])];
      AddTickInst(s, i, x);
      GrowAll(s, insts);
      hide InstOk, PublishedOk, FreedOk, Grow;
    }
  }

  lemma GrowAll(s: State, insts: map<Iid, Inst>)
    requires Inv(s) && Grow(s.insts, insts)
    ensures ArraysOk(insts, s.stks, s.freedS) && StksOk(insts, s.stks) && EntriesOk(insts, s.stks, s.entries)
    ensures ReaderOk(s.rx, insts, s.stks, s.freedI, s.freedS) && ReaderOk(s.tx, insts, s.stks, s.freedI, s.freedS)
  {
    hide Grow, ArraysOk, StksOk, EntriesOk, ReaderOk, InstOk, PublishedOk, FreedOk, CtlOk, Grace;
    ArraysGrow(s.insts, insts, s.stks, s.freedS);
    StksGrow(s.insts, insts, s.stks);
    EntriesGrow(s.insts, insts, s.stks, s.entries);
    ReaderGrows(s.rx, s.insts, insts, s.stks, s.freedI, s.freedS);
    ReaderGrows(s.tx, s.insts, insts, s.stks, s.freedI, s.freedS);
  }

  lemma AddTickInst(s: State, i: nat, x: Iid)
    requires Inv(s) && s.ctl == Idle && i < |s.ticks| && s.published[i].None? && x !in s.insts
    ensures var insts := s.insts[x := Inst(i, s.ticks[i], map[])];
            && InstOk(s.ticks[i := s.ticks[i] + 1], insts, s.dead) && Grow(s.insts, insts)
            && PublishedOk(s.published, insts, s.dead, Adding(x))
            && FreedOk(s.stks, insts, s.dead, s.freedI, s.freedS, Adding(x))
  {
    hide ReaderOk, Grace, CtlOk, ArraysOk, StksOk, EntriesOk;
  }

  lemma PublishKeepsInv(s: State)
    requires Inv(s)
    ensures Inv(DoPublish(s))
  {
    hide InstOk, ArraysOk, StksOk, EntriesOk, ReaderOk, Clear;
  }

  lemma AttachKeepsInv(s: State, i: nat)
    requires Inv(s)
    ensures Inv(DoAttach(s, i))
  {
    hide ArraysOk, StksOk, EntriesOk, ReaderOk;
    if s.ctl == Idle && PublishedAt(s, i) {
      var x := s.published[i].value;
      AttachInst(s, i);
      GrowAll(s, s.insts[x := s.insts[x].(reg := s.ticks[i])]);
      hide InstOk, PublishedOk, FreedOk, Grow;
    }
  }

  lemma AttachInst(s: State, i: nat)
    requires Inv(s) && s.ctl == Idle && PublishedAt(s, i)
    ensures var x := s.published[i].value;
            var insts := s.insts[x := s.insts[x].(reg := s.ticks[i])];
            && InstOk(s.ticks, insts, s.dead) && Grow(s.insts, insts)
            && PublishedOk(s.published, insts, s.dead, s.ctl)
            && FreedOk(s.stks, insts, s.dead, s.freedI, s.freedS, s.ctl)
  {
    hide ReaderOk, Grace, CtlOk, ArraysOk, StksOk, EntriesOk;
  }

  lemma StackAddKeepsInv(s: State, i: nat, id: Stid, j: nat)
    requires Inv(s)
    ensures Inv(DoStackAdd(s, i, id, j))
  {
    if s.ctl == Idle && PublishedAt(s, i) && id !in s.stks && j < MAX_STACKS && j !in s.insts[s.published[i].value].stacks {
      StackAddParts(s, i, id, j);
      hide InstOk, PublishedOk, ArraysOk, StksOk, EntriesOk, FreedOk, ReaderOk, CtlOk;
    } else {
      hide InstOk, PublishedOk, ArraysOk, StksOk, EntriesOk, FreedOk, ReaderOk, CtlOk, Grace;
    }
  }

  lemma StackAddParts(s: State, i: nat, id: Stid, j: nat)
    requires Inv(s) && s.ctl == Idle && PublishedAt(s, i) && id !in s.stks && j < MAX_STACKS && j !in s.insts[s.published[i].value].stacks
    ensures var stks := s.stks[id := Stk(s.published[i].value, false, false, 0, InitVal)];
            && ArraysOk(s.insts, stks, s.freedS) && StksOk(s.insts, stks) && EntriesOk(s.insts, stks, s.entries)
            && FreedOk(stks, s.insts, s.dead, s.freedI, s.freedS, NewStack(id, j))
            && PublishedOk(s.published, s.insts, s.dead, NewStack(id, j)) && CtlOk(NewStack(id, j), s.insts, stks, s.freedS)
            && ReaderOk(s.rx, s.insts, stks, s.freedI, s.freedS) && ReaderOk(s.tx, s.insts, stks, s.freedI, s.freedS)
  {
    hide Grace;
    var stks := s.stks[id := Stk(s.published[i].value, false, false, 0, InitVal)];
    assert ArraysOk(s.insts, stks, s.freedS) by { hide StksOk, EntriesOk, ReaderOk, InstOk, FreedOk; }
    hide ArraysOk;
    assert ReaderOk(s.rx, s.insts, stks, s.freedI, s.freedS) && ReaderOk(s.tx, s.insts, stks, s.freedI, s.freedS) by {
      hide StksOk, EntriesOk, InstOk, FreedOk, PublishedOk;
    }
    hide ReaderOk;
    assert EntriesOk(s.insts, stks, s.entries) by { hide StksOk, InstOk, FreedOk, PublishedOk; }
    hide EntriesOk;
  }

  /** The stack that is being registered changes, but keeps its owner, and gains no tick that is ahead. */
  ghost predicate Registers(a: map<Stid, Stk>, b: map<Stid, Stk>, id: Stid, insts: map<Iid, Inst>) {
    && id in a && id in b && b == a[id := b[id]] && b[id].owner == a[id].owner && a[id].owner in insts
    && (a[id].rings ==> b[id].rings) && b[id].placed == a[id].placed && a[id].tick == InitVal
    && 0 <= b[id].reg <= insts[a[id].owner].reg
    && (b[id].tick.Slot? ==> b[id].tick.i == insts[b[id].owner].slot && b[id].rings && b[id].placed)
  }

  lemma RegisterParts(s: State, stks: map<Stid, Stk>, id: Stid)
    requires Inv(s) && id in stks && Registers(s.stks, stks, id, s.insts)
    ensures ArraysOk(s.insts, stks, s.freedS) && StksOk(s.insts, stks) && EntriesOk(s.insts, stks, s.entries)
    ensures ReaderOk(s.rx, s.insts, stks, s.freedI, s.freedS) && ReaderOk(s.tx, s.insts, stks, s.freedI, s.freedS)
  {
    hide InstOk, PublishedOk, FreedOk, CtlOk, Grace;
    assert ArraysOk(s.insts, stks, s.freedS) by { hide StksOk, EntriesOk, ReaderOk; }
    hide ArraysOk;
    assert StksOk(s.insts, stks) && EntriesOk(s.insts, stks, s.entries) by { hide ReaderOk; }
    hide StksOk, EntriesOk;
  }

  lemma SetRingsKeepsInv(s: State)
    requires Inv(s)
    ensures Inv(DoSetRings(s))
  {
    if s.ctl.NewStack? {
      RegisteringStack(s);
      var k := s.ctl.s;
      RegisterParts(s, s.stks[k := s.stks[k].(rings := true)], k);
    }
    hide ArraysOk, StksOk, EntriesOk, ReaderOk, InstOk, Registers;
  }

  lemma SetRegKeepsInv(s: State)
    requires Inv(s)
    ensures Inv(DoSetReg(s))
  {
    if s.ctl.Placed? {
      RegisteringStack(s);
      OwnerReg(s, s.ctl.s);
      var k := s.ctl.s;
      RegisterParts(s, s.stks[k := s.stks[k].(reg := s.insts[s.stks[k].owner].reg)], k);
    }
    hide ArraysOk, StksOk, EntriesOk, ReaderOk, InstOk, Registers;
  }

  lemma OwnerReg(s: State, k: Stid)
    requires Inv(s) && k in s.stks
    ensures s.stks[k].owner in s.insts && s.insts[s.stks[k].owner].reg >= 0
  {
    hide ArraysOk, EntriesOk, ReaderOk, InstOk, FreedOk, PublishedOk, Grace, CtlOk;
  }

  lemma SetCurKeepsInv(s: State)
    requires Inv(s)
    ensures Inv(DoSetCur(s))
  {
    if s.ctl.Regged? {
      RegisteringStack(s);
      var k := s.ctl.s;
      RegisterParts(s, s.stks[k := s.stks[k].(tick := Slot(s.insts[s.stks[k].owner].slot))], k);
    }
    hide ArraysOk, StksOk, EntriesOk, ReaderOk, InstOk, Registers;
  }

  lemma ThrdFailsKeepsInv(s: State)
    requires Inv(s)
    ensures Inv(StepCtl(s, ThrdFails))
  {
    hide ArraysOk, StksOk, EntriesOk, ReaderOk, InstOk;
  }

  /** What is known of the stack being registered and of its owner. */
  lemma RegisteringStack(s: State)
    requires Inv(s) && (s.ctl.NewStack? || s.ctl.Ringed? || s.ctl.Placed? || s.ctl.Regged?)
    ensures s.ctl.s in s.stks && s.stks[s.ctl.s].tick == InitVal && s.stks[s.ctl.s].owner in s.insts
    ensures 0 <= s.stks[s.ctl.s].reg <= s.insts[s.stks[s.ctl.s].owner].reg
    ensures s.ctl.Placed? || s.ctl.Regged? ==> s.stks[s.ctl.s].rings && s.stks[s.ctl.s].placed
  {
    hide ArraysOk, EntriesOk, ReaderOk, InstOk, FreedOk, PublishedOk, Grace;
  }

  lemma PlaceKeepsInv(s: State)
    requires Inv(s)
    ensures Inv(DoSetPlace(s))
  {
    if s.ctl.Ringed? {
      assert CtlOk(s.ctl, s.insts, s.stks, s.freedS);
      PlaceParts(s, s.ctl.s, s.ctl.j);
      PlaceReader(s, s.ctl.s, s.ctl.j, s.rx);
      PlaceReader(s, s.ctl.s, s.ctl.j, s.tx);
      hide InstOk, ArraysOk, StksOk, EntriesOk, ReaderOk, FreedOk, PublishedOk;
    } else {
      hide InstOk, ArraysOk, StksOk, EntriesOk, ReaderOk, FreedOk, PublishedOk, CtlOk, Grace;
    }
  }

  /** The maps after the stack was put into the array. */
  function InstsPlaced(s: State, id: Stid, j: nat): map<Iid, Inst>
    requires id in s.stks && s.stks[id].owner in s.insts
  {
    s.insts[s.stks[id].owner := s.insts[s.stks[id].owner].(stacks := s.insts[s.stks[id].owner].stacks[j := id])]
  }

  lemma PlaceParts(s: State, id: Stid, j: nat)
    requires Inv(s) && s.ctl == Ringed(id, j) && id in s.stks && s.stks[id].owner in s.insts
    ensures var insts, stks := InstsPlaced(s, id, j), s.stks[id := s.stks[id].(placed := true)];
            && InstOk(s.ticks, insts, s.dead) && PublishedOk(s.published, insts, s.dead, Placed(id))
            && ArraysOk(insts, stks, s.freedS) && StksOk(insts, stks) && EntriesOk(insts, stks, s.entries)
            && FreedOk(stks, insts, s.dead, s.freedI, s.freedS, Placed(id))
  {
    hide ReaderOk, Grace;
    PlaceArrays(s, id, j);
    hide ArraysOk;
    var insts, stks := InstsPlaced(s, id, j), s.stks[id := s.stks[id].(placed := true)];
    PlaceStks(s, id, j);
    assert FreedOk(stks, insts, s.dead, s.freedI, s.freedS, Placed(id)) by { hide InstOk, PublishedOk, StksOk, EntriesOk; }
    hide StksOk, EntriesOk, FreedOk, CtlOk;
  }

  lemma PlaceStks(s: State, id: Stid, j: nat)
    requires Inv(s) && s.ctl == Ringed(id, j) && id in s.stks && s.stks[id].owner in s.insts
    ensures StksOk(InstsPlaced(s, id, j), s.stks[id := s.stks[id].(placed := true)])
    ensures EntriesOk(InstsPlaced(s, id, j), s.stks[id := s.stks[id].(placed := true)], s.entries)
  {
    hide ReaderOk, Grace, InstOk, PublishedOk, FreedOk, ArraysOk;
    assert StksOk(InstsPlaced(s, id, j), s.stks[id := s.stks[id].(placed := true)]) by { hide EntriesOk; }
    hide StksOk;
  }

  lemma PlaceArrays(s: State, id: Stid, j: nat)
    requires Inv(s) && s.ctl == Ringed(id, j) && id in s.stks && s.stks[id].owner in s.insts
    ensures ArraysOk(InstsPlaced(s, id, j), s.stks[id := s.stks[id].(placed := true)], s.freedS)
  {
    hide ReaderOk, Grace, InstOk, PublishedOk, StksOk, EntriesOk, FreedOk;
    var insts, stks, o := InstsPlaced(s, id, j), s.stks[id := s.stks[id].(placed := true)], s.stks[id].owner;
    forall x, k | x in insts && k in insts[x].stacks
      ensures var q := insts[x].stacks[k];
              && k < MAX_STACKS && q in stks && stks[q].owner == x && stks[q].placed && stks[q].rings && q !in s.freedS
              && (q == id <==> x == o && k == j)
    {
      if !(x == o && k == j) { assert k in s.insts[x].stacks; }
    }
    forall x, k, l | x in insts && k in insts[x].stacks && l in insts[x].stacks && k != l
      ensures insts[x].stacks[k] != insts[x].stacks[l]
    {
      if !(x == o && (k == j || l == j)) { assert k in s.insts[x].stacks && l in s.insts[x].stacks; }
    }
  }

  lemma PlaceReader(s: State, id: Stid, j: nat, r: Reader)
    requires ReaderOk(r, s.insts, s.stks, s.freedI, s.freedS) && id in s.stks && s.stks[id].owner in s.insts
    ensures ReaderOk(r, InstsPlaced(s, id, j), s.stks[id := s.stks[id].(placed := true)], s.freedI, s.freedS)
  {
  }

  lemma LogoutKeepsInv(s: State, i: nat)
    requires Inv(s)
    ensures Inv(DoLogoutTick(s, i))
  {
    hide Clear, ArraysOk, StksOk, EntriesOk, ReaderOk;
  }

  lemma UnpublishKeepsInv(s: State)
    requires Inv(s)
    ensures Inv(DoUnpublish(s))
  {
    hide Clear, ArraysOk, StksOk, EntriesOk, ReaderOk, InstOk;
  }

  lemma WaitKeepsInv(s: State, a: Action)
    requires Inv(s) && (a.SnapRxCount? || a.SnapTxCount? || a.SeeTx? || a.SeeRx?)
    ensures Inv(StepCtl(s, a))
  {
    hide Clear, ArraysOk, StksOk, EntriesOk, ReaderOk, InstOk;
  }

  lemma FreeInstKeepsInv(s: State)
    requires Inv(s)
    ensures Inv(StepCtl(s, FreeInst))
  {
    hide ArraysOk, StksOk, EntriesOk, InstOk;
  }

  lemma FreeStackKeepsInv(s: State, j: nat)
    requires Inv(s)
    ensures Inv(DoFreeStack(s, j))
  {
    if s.ctl.Freeing? && s.ctl.x in s.insts && j in s.insts[s.ctl.x].stacks {
      FreeStackParts(s, s.ctl.x, j);
      FreeStackReader(s, s.ctl.x, j, s.rx);
      FreeStackReader(s, s.ctl.x, j, s.tx);
      hide InstOk, ArraysOk, StksOk, EntriesOk, ReaderOk, FreedOk, PublishedOk, Clear;
    } else {
      hide InstOk, ArraysOk, StksOk, EntriesOk, ReaderOk, FreedOk, PublishedOk, CtlOk, Grace;
    }
  }

  function InstsFreed(s: State, x: Iid, j: nat): map<Iid, Inst>
    requires x in s.insts
  {
    s.insts[x := s.insts[x].(stacks := s.insts[x].stacks - {j})]
  }

  lemma FreeStackParts(s: State, x: Iid, j: nat)
    requires Inv(s) && s.ctl == Freeing(x) && x in s.insts && j in s.insts[x].stacks
    ensures var insts, freedS := InstsFreed(s, x, j), s.freedS + {s.insts[x].stacks[j]};
            && InstOk(s.ticks, insts, s.dead) && PublishedOk(s.published, insts, s.dead, s.ctl)
            && ArraysOk(insts, s.stks, freedS) && StksOk(insts, s.stks) && EntriesOk(insts, s.stks, s.entries)
            && FreedOk(s.stks, insts, s.dead, s.freedI, freedS, s.ctl)
  {
    hide ReaderOk, Grace, CtlOk;
    FreeStackArrays(s, x, j);
    StackOfArray(s, x, j);
    hide ArraysOk;
  }

  lemma FreeStackArrays(s: State, x: Iid, j: nat)
    requires ArraysOk(s.insts, s.stks, s.freedS) && x in s.insts && j in s.insts[x].stacks
    ensures ArraysOk(InstsFreed(s, x, j), s.stks, s.freedS + {s.insts[x].stacks[j]})
  {
    var insts, freedS := InstsFreed(s, x, j), s.freedS + {s.insts[x].stacks[j]};
    forall y, k | y in insts && k in insts[y].stacks
      ensures var q := insts[y].stacks[k];
              k < MAX_STACKS && q in s.stks && s.stks[q].owner == y && s.stks[q].placed && s.stks[q].rings && q !in freedS
    {
      assert k in s.insts[y].stacks;
    }
    forall y, k, l | y in insts && k in insts[y].stacks && l in insts[y].stacks && k != l
      ensures insts[y].stacks[k] != insts[y].stacks[l]
    {
      assert k in s.insts[y].stacks && l in s.insts[y].stacks;
    }
  }

  lemma FreeStackReader(s: State, x: Iid, j: nat, r: Reader)
    requires ReaderOk(r, s.insts, s.stks, s.freedI, s.freedS) && Clear(r, x, s.stks) && ArraysOk(s.insts, s.stks, s.freedS)
    requires x in s.insts && j in s.insts[x].stacks
    ensures ReaderOk(r, InstsFreed(s, x, j), s.stks, s.freedI, s.freedS + {s.insts[x].stacks[j]})
  {
    assert s.stks[s.insts[x].stacks[j]].owner == x;
    hide ArraysOk;
  }

  lemma StepKeepsInv(s: State, a: Action)
    requires Inv(s)
    ensures Inv(Step(s, a))
  {
    hide Inv, DoAddTick, DoPublish, DoAttach, DoStackAdd, DoSetRings, DoSetPlace, DoSetReg, DoSetCur, DoLogoutTick,
         DoUnpublish, DoFreeStack;
    if ReaderOf(a).Some? { ReaderKeepsInv(s, a); hide Step; } else {
      match a
      case AddTick(i, x) => AddTickKeepsInv(s, i, x);
      case Publish => PublishKeepsInv(s);
      case Attach(i) => AttachKeepsInv(s, i);
      case StackAdd(i, id, j) => StackAddKeepsInv(s, i, id, j);
      case SetPlace => PlaceKeepsInv(s);
      case LogoutTick(i) => LogoutKeepsInv(s, i);
      case Unpublish => UnpublishKeepsInv(s);
      case FreeStack(j) => FreeStackKeepsInv(s, j);
      case FreeInst => FreeInstKeepsInv(s);
      case SetRings => SetRingsKeepsInv(s);
      case SetReg => SetRegKeepsInv(s);
      case SetCur => SetCurKeepsInv(s);
      case ThrdFails => ThrdFailsKeepsInv(s);
      case _ => WaitKeepsInv(s, a);
    }
  }

  lemma {:induction false} RunKeepsInv(s: State, trace: seq<Action>)
    requires Inv(s)
    ensures Inv(Run(s, trace))
  {
    hide Inv, Step;
    if trace != [] {
      RunKeepsInv(s, trace[..|trace| - 1]);
      StepKeepsInv(Run(s, trace[..|trace| - 1]), trace[|trace| - 1]);
    }
  }

  // ----- the promises -----

  /** Grace period: on every run no loop ever holds an instance or a stack that has been freed. */
  lemma {:induction false} GracePeriod(s0: State, trace: seq<Action>)
    requires Initial(s0)
    ensures var s := Run(s0, trace);
            && s.rx.heldI !! s.freedI && s.tx.heldI !! s.freedI
            && s.rx.heldS !! s.freedS && s.tx.heldS !! s.freedS
  {
    InitInv(s0);
    RunKeepsInv(s0, trace);
    hide InstOk, PublishedOk, ArraysOk, StksOk, EntriesOk, FreedOk, CtlOk, Grace;
  }

  /** A connection or sock that is on has a stack that is not freed, in the array of an instance that is not logged out. */
  lemma {:induction false} LiveEntryHasItsStack(s0: State, trace: seq<Action>, e: Eid)
    requires Initial(s0)
    requires var s := Run(s0, trace); e in s.entries && IsOn(s.ticks, s.entries[e].tick, s.entries[e].reg)
    ensures var s := Run(s0, trace);
            && s.entries[e].stack in s.stks && s.entries[e].stack !in s.freedS
            && s.stks[s.entries[e].stack].owner !in s.dead
            && s.stks[s.entries[e].stack].rings && s.stks[s.entries[e].stack].placed
  {
    InitInv(s0);
    RunKeepsInv(s0, trace);
    LiveEntry(Run(s0, trace), e);
  }

  /** A stack that is on, or that a loop has taken for on although it loads the two ticks one after the other, has its
      rings and its place in the array. */
  lemma {:induction false} OnMeansReady(s0: State, trace: seq<Action>)
    requires Initial(s0)
    ensures var s := Run(s0, trace);
            && (forall k :: k in s.stks && IsOn(s.ticks, s.stks[k].tick, s.stks[k].reg) ==> s.stks[k].rings && s.stks[k].placed)
            && (s.rx.pc.Using? ==> s.rx.pc.s in s.stks && s.stks[s.rx.pc.s].rings && s.stks[s.rx.pc.s].placed)
            && (s.tx.pc.Using? ==> s.tx.pc.s in s.stks && s.stks[s.tx.pc.s].rings && s.stks[s.tx.pc.s].placed)
  {
    InitInv(s0);
    RunKeepsInv(s0, trace);
    hide InstOk, PublishedOk, ArraysOk, EntriesOk, FreedOk, CtlOk, Grace;
  }

  // ----- off is for ever -----

  ghost predicate TicksGrow(a: seq<nat>, b: seq<nat>) {
    |a| == |b| && forall i :: 0 <= i < |a| ==> a[i] <= b[i]
  }

  /** Entries keep their ticks; a stack that is set up stays so, and with its tick set keeps its registration; a dead
      instance keeps its own. */
  ghost predicate Settled(s: State, t: State) {
    && TicksGrow(s.ticks, t.ticks) && s.dead <= t.dead
    && (forall e :: e in s.entries ==> e in t.entries && t.entries[e] == s.entries[e])
    && (forall k :: k in s.stks ==> k in t.stks && (s.stks[k].tick.Slot? ==>
                                                     t.stks[k].tick == s.stks[k].tick && t.stks[k].reg == s.stks[k].reg)
                                    && (s.stks[k].rings ==> t.stks[k].rings) && (s.stks[k].placed ==> t.stks[k].placed))
    && (forall x :: x in s.insts ==> x in t.insts && t.insts[x].slot == s.insts[x].slot && t.insts[x].reg >= s.insts[x].reg
                                     && (x in s.dead ==> t.insts[x].reg == s.insts[x].reg))
  }

  /** A step that leaves all this alone, but for new entries. */
  lemma SameSettles(s: State, t: State)
    requires t.ticks == s.ticks && t.dead == s.dead && t.stks == s.stks && t.insts == s.insts
    requires forall e :: e in s.entries ==> e in t.entries && t.entries[e] == s.entries[e]
    ensures Settled(s, t)
  {
  }

  lemma ReaderLeaves(s: State, a: Action)
    requires ReaderOf(a).Some?
    ensures var t := Step(s, a); t.ticks == s.ticks && t.dead == s.dead && t.stks == s.stks && t.insts == s.insts
    ensures forall e :: e in s.entries ==> e in Step(s, a).entries && Step(s, a).entries[e] == s.entries[e]
  {
    hide StepReader, StepCtl;
  }

  lemma StepSettles(s: State, a: Action)
    requires Inv(s)
    ensures Settled(s, Step(s, a))
  {
    hide Inv, StepReader, StepCtl, Settled, NewEntry, Get, Set;
    if ReaderOf(a).Some? {
      ReaderLeaves(s, a);
      hide Step;
      SameSettles(s, Step(s, a));
    } else {
      CtlSettles(s, a);
    }
  }

  lemma CtlSettles(s: State, a: Action)
    requires Inv(s)
    ensures Settled(s, StepCtl(s, a)) && StepCtl(s, a).entries == s.entries
  {
    hide Inv, Settled, DoAddTick, DoPublish, DoAttach, DoStackAdd, DoSetRings, DoSetPlace, DoSetReg, DoSetCur, DoLogoutTick,
         DoUnpublish, DoFreeStack;
    match a
    case AddTick(i, x) => TicksSettle(s, i, x);
    case LogoutTick(i) => TicksSettle(s, i, 0);
    case Attach(i) => InstsSettle(s, i, 0);
    case SetPlace => InstsSettle(s, 0, 0);
    case FreeStack(j) => InstsSettle(s, 0, j);
    case StackAdd(i, k, j) => NewStackSettles(s, i, k, j);
    case SetRings => RingsSettle(s);
    case SetReg => RegSettles(s);
    case SetCur => CurSettles(s);
    case _ => RestSettles(s, a); hide StepCtl;
  }

  lemma TicksSettle(s: State, i: nat, x: Iid)
    requires Inv(s)
    ensures Settled(s, DoAddTick(s, i, x)) && DoAddTick(s, i, x).entries == s.entries
    ensures Settled(s, DoLogoutTick(s, i)) && DoLogoutTick(s, i).entries == s.entries
  {
    hide InstOk, StksOk, PublishedOk, ArraysOk, EntriesOk, FreedOk, ReaderOk, Grace, CtlOk;
    SettledSelf(s);
    if s.ctl == Idle && i < |s.ticks| && s.published[i].None? && x !in s.insts { assert Settled(s, DoAddTick(s, i, x)); }
    else { assert DoAddTick(s, i, x) == s; }
    hide DoAddTick;
    if s.ctl == Idle && PublishedAt(s, i) { assert Settled(s, DoLogoutTick(s, i)); } else { assert DoLogoutTick(s, i) == s; }
    hide DoLogoutTick;
  }

  lemma InstsSettle(s: State, i: nat, j: nat)
    requires Inv(s)
    ensures Settled(s, DoAttach(s, i)) && DoAttach(s, i).entries == s.entries
    ensures Settled(s, DoSetPlace(s)) && DoSetPlace(s).entries == s.entries
    ensures Settled(s, DoFreeStack(s, j)) && DoFreeStack(s, j).entries == s.entries
  {
    hide StksOk, ArraysOk, EntriesOk, FreedOk, ReaderOk, Grace, CtlOk;
    SettledSelf(s);
    if s.ctl == Idle && PublishedAt(s, i) { assert Settled(s, DoAttach(s, i)); } else { assert DoAttach(s, i) == s; }
    hide DoAttach, InstOk, PublishedOk;
    if s.ctl.Ringed? && s.ctl.s in s.stks && s.stks[s.ctl.s].owner in s.insts { assert Settled(s, DoSetPlace(s)); }
    else { assert DoSetPlace(s) == s; }
    hide DoSetPlace;
  }

  lemma NewStackSettles(s: State, i: nat, k: Stid, j: nat)
    ensures Settled(s, DoStackAdd(s, i, k, j)) && DoStackAdd(s, i, k, j).entries == s.entries
  {
    SettledSelf(s);
    if s.ctl == Idle && PublishedAt(s, i) && k !in s.stks && j < MAX_STACKS && j !in s.insts[s.published[i].value].stacks {
      assert Settled(s, DoStackAdd(s, i, k, j));
    } else {
      assert DoStackAdd(s, i, k, j) == s;
    }
    hide DoStackAdd;
  }

  lemma RingsSettle(s: State)
    requires Inv(s)
    ensures Settled(s, DoSetRings(s)) && DoSetRings(s).entries == s.entries
  {
    if s.ctl.NewStack? { RegisteringStack(s); }
    hide Inv;
    SettledSelf(s);
    if s.ctl.NewStack? { assert Settled(s, DoSetRings(s)); } else { assert DoSetRings(s) == s; }
    hide DoSetRings;
  }

  lemma RegSettles(s: State)
    requires Inv(s)
    ensures Settled(s, DoSetReg(s)) && DoSetReg(s).entries == s.entries
  {
    if s.ctl.Placed? { RegisteringStack(s); }
    hide Inv;
    SettledSelf(s);
    if s.ctl.Placed? { assert Settled(s, DoSetReg(s)); } else { assert DoSetReg(s) == s; }
    hide DoSetReg;
  }

  lemma CurSettles(s: State)
    requires Inv(s)
    ensures Settled(s, DoSetCur(s)) && DoSetCur(s).entries == s.entries
  {
    if s.ctl.Regged? { RegisteringStack(s); }
    hide Inv;
    SettledSelf(s);
    if s.ctl.Regged? { assert Settled(s, DoSetCur(s)); } else { assert DoSetCur(s) == s; }
    hide DoSetCur;
  }

  lemma RestSettles(s: State, a: Action)
    requires a.Publish? || a.ThrdFails? || a.Unpublish? || a.SnapRxCount? || a.SnapTxCount? || a.SeeTx? || a.SeeRx? || a.FreeInst?
             || ReaderOf(a).Some?
    ensures Settled(s, StepCtl(s, a)) && StepCtl(s, a).entries == s.entries
  {
    RestLeaves(s, a);
    hide StepCtl;
    SameSettles(s, StepCtl(s, a));
  }

  lemma RestLeaves(s: State, a: Action)
    requires a.Publish? || a.ThrdFails? || a.Unpublish? || a.SnapRxCount? || a.SnapTxCount? || a.SeeTx? || a.SeeRx? || a.FreeInst?
             || ReaderOf(a).Some?
    ensures var t := StepCtl(s, a);
            t.ticks == s.ticks && t.dead == s.dead && t.entries == s.entries && t.stks == s.stks && t.insts == s.insts
  {
    hide DoAddTick, DoAttach, DoStackAdd, DoSetRings, DoSetPlace, DoSetReg, DoSetCur, DoLogoutTick, DoFreeStack;
  }

  lemma SettledTrans(a: State, b: State, c: State)
    requires Settled(a, b) && Settled(b, c)
    ensures Settled(a, c)
  {
  }

  lemma {:induction false} RunSettles(s: State, trace: seq<Action>)
    requires Inv(s)
    ensures Settled(s, Run(s, trace))
  {
    hide Inv, Step, Settled;
    if trace == [] {
      SettledSelf(s);
    } else {
      var u := Run(s, trace[..|trace| - 1]);
      RunKeepsInv(s, trace[..|trace| - 1]);
      RunSettles(s, trace[..|trace| - 1]);
      StepSettles(u, trace[|trace| - 1]);
      SettledTrans(s, u, Run(s, trace));
    }
  }

  lemma SettledSelf(s: State)
    ensures Settled(s, s)
  {
  }

  /** An entry that is off stays off, whatever happens, the reuse of its instance's slot included. */
  lemma {:induction false} EntryOffForEver(s0: State, before: seq<Action>, after: seq<Action>, e: Eid)
    requires Initial(s0)
    requires var s := Run(s0, before); e in s.entries && !IsOn(s.ticks, s.entries[e].tick, s.entries[e].reg)
    ensures var t := Run(Run(s0, before), after); e in t.entries && !IsOn(t.ticks, t.entries[e].tick, t.entries[e].reg)
  {
    InitInv(s0);
    RunKeepsInv(s0, before);
    RunSettles(Run(s0, before), after);
    EntryTicks(Run(s0, before), e);
    hide Inv, Run;
  }

  lemma EntryTicks(s: State, e: Eid)
    requires Inv(s) && e in s.entries
    ensures 0 <= s.entries[e].reg
    ensures s.entries[e].tick.Slot? ==> s.entries[e].tick.i < |s.ticks| && s.entries[e].reg <= s.ticks[s.entries[e].tick.i]
  {
    hide PublishedOk, ArraysOk, StksOk, FreedOk, CtlOk, Grace, ReaderOk;
  }

  /** A stack that was on and has gone off stays off. */
  lemma {:induction false} StackOffForEver(s0: State, first: seq<Action>, before: seq<Action>, after: seq<Action>, k: Stid)
    requires Initial(s0)
    requires var s := Run(s0, first); k in s.stks && IsOn(s.ticks, s.stks[k].tick, s.stks[k].reg)
    requires var s := Run(Run(s0, first), before); k in s.stks && !IsOn(s.ticks, s.stks[k].tick, s.stks[k].reg)
    ensures var t := Run(Run(Run(s0, first), before), after); k in t.stks && !IsOn(t.ticks, t.stks[k].tick, t.stks[k].reg)
  {
    InitInv(s0);
    RunKeepsInv(s0, first);
    RunKeepsInv(Run(s0, first), before);
    RunSettles(Run(s0, first), before);
    RunSettles(Run(Run(s0, first), before), after);
    StkTicks(Run(s0, first), k);
    StkTicks(Run(Run(s0, first), before), k);
    hide Inv, Run;
  }

  lemma StkTicks(s: State, k: Stid)
    requires Inv(s) && k in s.stks
    ensures 0 <= s.stks[k].reg
    ensures s.stks[k].tick.Slot? ==> s.stks[k].tick.i < |s.ticks| && s.stks[k].reg <= s.ticks[s.stks[k].tick.i]
  {
    hide PublishedOk, ArraysOk, EntriesOk, FreedOk, CtlOk, Grace, ReaderOk;
  }

  /** An instance that was logged out stays off. */
  lemma {:induction false} InstanceOffForEver(s0: State, before: seq<Action>, after: seq<Action>, x: Iid)
    requires Initial(s0)
    requires x in Run(s0, before).dead
    ensures var t := Run(Run(s0, before), after); x in t.insts && t.insts[x].reg != Cur(t.ticks, Slot(t.insts[x].slot))
  {
    InitInv(s0);
    RunKeepsInv(s0, before);
    RunSettles(Run(s0, before), after);
    RunKeepsInv(Run(s0, before), after);
    DeadIsOff(Run(Run(s0, before), after), x);
    hide Inv, Run;
  }

  lemma DeadIsOff(s: State, x: Iid)
    requires Inv(s) && x in s.dead
    ensures x in s.insts && s.insts[x].reg != Cur(s.ticks, Slot(s.insts[x].slot))
  {
    hide PublishedOk, ArraysOk, EntriesOk, StksOk, CtlOk, Grace, ReaderOk;
  }
}
