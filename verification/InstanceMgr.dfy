/** The control thread's operations on instances and stacks, and the walk of a forwarding loop, as the code has them.
    `env` is what the other threads do in between. */
module InstanceMgrCode {
  import opened Lifetime

  lemma RunSnoc(s: State, trace: seq<Action>, a: Action)
    ensures Run(s, trace + [a]) == Step(Run(s, trace), a)
  {
    assert (trace + [a])[..|trace|] == trace;
  }

  /** What the forwarding loops leave alone. */
  ghost predicate CtlView(s: State, t: State) {
    && t.ctl == s.ctl && t.ticks == s.ticks && t.published == s.published && t.insts == s.insts && t.stks == s.stks
    && t.dead == s.dead && t.freedI == s.freedI && t.freedS == s.freedS
  }

  lemma LoopsLeaveCtl(s: State, a: Action)
    requires ReaderOf(a).Some?
    ensures CtlView(s, Step(s, a))
  {
    hide StepReader, NewEntry;
  }

  /** What everybody but the loop r leaves alone. */
  lemma OthersLeaveLoop(s: State, a: Action, r: Side)
    requires ReaderOf(a) != Some(r)
    ensures Get(Step(s, a), r) == Get(s, r)
  {
    hide StepReader, NewEntry;
    if ReaderOf(a).None? { CtlLeavesLoops(s, a); hide StepCtl; }
  }

  lemma CtlLeavesLoops(s: State, a: Action)
    ensures StepCtl(s, a).rx == s.rx && StepCtl(s, a).tx == s.tx
  {
    match a
    case AddTick(i, x) =>
    case _ =>
  }

  ghost predicate NoInstance(s: State, pids: map<Iid, nat>, pid: nat) {
    forall i: nat :: PublishedAt(s, i) && s.published[i].value in pids ==> pids[s.published[i].value] != pid
  }

  // ----- the control thread's accesses, one by one -----

  lemma LogoutSteps(s: State, i: nat)
    requires Inv(s) && s.ctl == Idle && PublishedAt(s, i)
    ensures var x := s.published[i].value;
            var t := Step(s, LogoutTick(i));
            t.ctl == Bumped(x) && t.insts == s.insts && t.freedI == s.freedI && t.freedS == s.freedS && t.ticks[i] == s.ticks[i] + 1
  {
    hide Inv;
  }

  lemma UnpublishSteps(s: State)
    requires Inv(s) && s.ctl.Bumped?
    ensures var t := Step(s, Unpublish);
            t.ctl == Unpublished(s.ctl.x) && t.insts == s.insts && t.freedI == s.freedI && t.freedS == s.freedS
  {
    DeadIsOff(s, s.ctl.x);
    SlotInRange(s, s.ctl.x);
    hide Inv;
  }

  lemma SlotInRange(s: State, x: Iid)
    requires Inv(s) && x in s.insts
    ensures s.insts[x].slot < |s.published|
  {
    hide PublishedOk, ArraysOk, EntriesOk, StksOk, CtlOk, Grace, ReaderOk, FreedOk;
  }

  lemma SnapSteps(s: State)
    ensures s.ctl.Unpublished? ==> Step(s, SnapRxCount) == s.(ctl := SnapRx(s.ctl.x, s.rx.count))
    ensures s.ctl.SnapRx? ==> Step(s, SnapTxCount) == s.(ctl := WaitTx(s.ctl.x, s.ctl.rx, s.tx.count))
    ensures s.ctl.WaitTx? ==> Step(s, SeeTx) == if s.tx.count == s.ctl.tx then s else s.(ctl := WaitRx(s.ctl.x, s.ctl.rx, s.ctl.tx))
    ensures s.ctl.WaitRx? ==> Step(s, SeeRx) == if s.rx.count == s.ctl.rx then s.(ctl := WaitTx(s.ctl.x, s.ctl.rx, s.ctl.tx))
                                                 else s.(ctl := Freeing(s.ctl.x))
  {
  }

  lemma FreeSteps(s: State, j: nat)
    requires s.ctl.Freeing? && s.ctl.x in s.insts
    ensures var x, t := s.ctl.x, Step(s, FreeStack(j));
            && t.ctl == s.ctl && t.freedI == s.freedI && x in t.insts && s.freedS <= t.freedS
            && t.insts[x].stacks == s.insts[x].stacks - {j}
            && (j in s.insts[x].stacks ==> s.insts[x].stacks[j] in t.freedS)
    ensures Step(s, FreeInst) == s.(freedI := s.freedI + {s.ctl.x}, ctl := Idle)
  {
  }

  function Nothing(slots: nat): (s: State)
    ensures Initial(s) && |s.ticks| == slots
  {
    State(seq(slots, i => 0), seq(slots, i => None), map[], map[], map[], Reader(0, {}, {}, Walking), Reader(0, {}, {}, Walking),
          Idle, {}, {}, {})
  }

  lemma EmptyRun(s: State)
    ensures Run(s, []) == s
  {
  }

  /** What the loops do before the access number k, and nothing once the list is at its end. */
  function Turn(env: seq<seq<Action>>, k: nat): seq<Action> { if k < |env| then env[k] else [] }

  /** A live stack of the thread is in the table. */
  predicate IsLive(s: State, tids: map<Stid, nat>, id: Stid, tid: nat) {
    id in tids && tids[id] == tid && id in s.stks && IsOn(s.ticks, s.stks[id].tick, s.stks[id].reg)
  }

  predicate InstanceOn(s: State, i: nat) {
    PublishedAt(s, i) && IsOn(s.ticks, Slot(i), s.insts[s.published[i].value].reg)
  }

  /** The instance has no free place in its array. */
  predicate IsFull(s: State, x: Iid) {
    x in s.insts && forall j :: 0 <= j < MAX_STACKS ==> j in s.insts[x].stacks
  }

  function Without(table: seq<Stid>, id: Stid): (r: seq<Stid>)
    ensures forall k :: k in r <==> k in table && k != id
  {
    if table == [] then [] else (if table[0] == id then [] else [table[0]]) + Without(table[1..], id)
  }

  /** Of the array `stacks` those below j are freed and out of the table, and the others are left. */
  ghost predicate FreedUpTo(stacks: map<nat, Stid>, left: map<nat, Stid>, j: nat, freedS: set<Stid>, table: seq<Stid>) {
    && (forall k :: k in left <==> k in stacks && k >= j)
    && (forall k :: k in left ==> left[k] == stacks[k])
    && (forall k :: k in stacks && k < j ==> stacks[k] in freedS && stacks[k] !in table)
  }

  lemma FreedNone(stacks: map<nat, Stid>, freedS: set<Stid>, table: seq<Stid>)
    ensures FreedUpTo(stacks, stacks, 0, freedS, table)
  {
  }

  lemma FreedNext(stacks: map<nat, Stid>, left: map<nat, Stid>, j: nat, freedS: set<Stid>, table: seq<Stid>,
                  left': map<nat, Stid>, freedS': set<Stid>, table': seq<Stid>)
    requires FreedUpTo(stacks, left, j, freedS, table) && left' == left - {j} && freedS <= freedS'
    requires forall k :: k in table' ==> k in table
    requires j in left ==> left[j] in freedS' && left[j] !in table'
    ensures FreedUpTo(stacks, left', j + 1, freedS', table')
  {
  }

  lemma FreedAll(stacks: map<nat, Stid>, left: map<nat, Stid>, freedS: set<Stid>, table: seq<Stid>)
    requires FreedUpTo(stacks, left, MAX_STACKS, freedS, table) && forall j :: j in stacks ==> j < MAX_STACKS
    ensures forall j :: j in stacks ==> stacks[j] in freedS && stacks[j] !in table
  {
  }

  datatype Answer = Existing(id: Stid) | Added(id: Stid) | Refused

  class InstanceMgr {
    var st: State
    var pids: map<Iid, nat>
    const maxStacks: nat
    var table: seq<Stid>         // the stack table, newest first, and the thread ids of the stacks
    var tids: map<Stid, nat>
    ghost var first: State
    ghost var history: seq<Action>

    ghost predicate Valid()
      reads this
    {
      Inv(st) && Initial(first) && st == Run(first, history)
    }

    constructor (slots: nat, maxStacks: nat)
      ensures Valid() && Initial(st) && |st.ticks| == slots && this.maxStacks == maxStacks
    {
      this.maxStacks := maxStacks;
      st := Nothing(slots);
      first, history, pids, table, tids := st, [], map[], [], map[];
      new;
      hide Inv, Run;
      InitInv(st);
      EmptyRun(st);
    }

    method Access(a: Action)
      requires Valid()
      modifies `st, `history
      ensures Valid() && st == Step(old(st), a) && history == old(history) + [a]
    {
      hide Inv, Run, Step, Initial;
      StepKeepsInv(st, a);
      RunSnoc(first, history, a);
      st := Step(st, a);
      history := history + [a];
    }

    /** The forwarding loops run. */
    method Loops(acts: seq<Action>)
      requires Valid()
      modifies `st, `history
      ensures Valid() && CtlView(old(st), st) && old(history) <= history
    {
      hide Inv, Run, Step, Initial, ReaderOf;
      for k := 0 to |acts|
        invariant Valid() && CtlView(old(st), st) && old(history) <= history
      {
        if ReaderOf(acts[k]).Some? {
          LoopsLeaveCtl(st, acts[k]);
          Access(acts[k]);
        }
      }
    }

    /** gazelle_instance_get_by_pid */
    method GetByPid(pid: nat) returns (slot: Option<nat>)
      ensures slot.Some? ==> PublishedAt(st, slot.value) && st.published[slot.value].value in pids
                             && pids[st.published[slot.value].value] == pid
      ensures slot.None? ==> NoInstance(st, pids, pid)
    {
      for i := 0 to |st.published|
        invariant forall k: nat :: k < i && PublishedAt(st, k) && st.published[k].value in pids ==> pids[st.published[k].value] != pid
      {
        if PublishedAt(st, i) && st.published[i].value in pids && pids[st.published[i].value] == pid {
          return Some(i);
        }
      }
      return None;
    }

    /** wait_forward_done: both counters are loaded, and then watched until both have changed; `env` is what the loops do
        before each load.  If they stop before that, nothing is freed. */
    method WaitForwardDone(env: seq<seq<Action>>) returns (done: bool)
      requires Valid() && st.ctl.Unpublished?
      modifies `st, `history
      ensures Valid() && old(history) <= history && st.insts == old(st.insts) && st.freedI == old(st.freedI) && st.freedS == old(st.freedS)
      ensures if done then st.ctl == Freeing(old(st.ctl).x)
              else st.ctl.WaitTx? && st.ctl.x == old(st.ctl).x && (st.tx.count == st.ctl.tx || st.rx.count == st.ctl.rx)
    {
      hide Inv, Run, Step, Initial;
      ghost var x := old(st.ctl).x;
      Loops(Turn(env, 0));
      SnapSteps(st);
      Access(SnapRxCount);
      Loops(Turn(env, 1));
      SnapSteps(st);
      Access(SnapTxCount);
      var k: nat := 2;
      while true
        invariant Valid() && old(history) <= history && st.insts == old(st.insts)
        invariant st.freedI == old(st.freedI) && st.freedS == old(st.freedS)
        invariant st.ctl.WaitTx? && st.ctl.x == x
        decreases |env| - k
      {
        done := BothChanged(Turn(env, k), Turn(env, k + 1));
        if done || k + 1 >= |env| {
          return;
        }
        k := k + 2;
      }
    }

    /** The condition of the loop, with its two loads. */
    method BothChanged(before: seq<Action>, between: seq<Action>) returns (done: bool)
      requires Valid() && st.ctl.WaitTx?
      modifies `st, `history
      ensures Valid() && old(history) <= history && st.insts == old(st.insts) && st.freedI == old(st.freedI) && st.freedS == old(st.freedS)
      ensures if done then st.ctl == Freeing(old(st.ctl).x) else st.ctl == old(st.ctl)
      ensures !done && between == [] ==> st.tx.count == st.ctl.tx || st.rx.count == st.ctl.rx
    {
      hide Inv, Run, Step, Initial;
      Loops(before);
      SnapSteps(st);
      Access(SeeTx);
      if st.ctl.WaitTx? {
        return false;
      }
      Loops(between);
      SnapSteps(st);
      Access(SeeRx);
      return st.ctl.Freeing?;
    }

    /** The stacks in the array of the instance are freed, then the instance. */
    method FreeAll(env: nat -> seq<Action>)
      requires Valid() && st.ctl.Freeing? && st.ctl.x in st.insts
      modifies `st, `history, `table
      ensures Valid() && old(history) <= history && st.ctl == Idle
      ensures st.freedI == old(st.freedI) + {old(st.ctl).x}
      ensures forall j :: j in old(st.insts[st.ctl.x].stacks) ==>
                var k := old(st.insts[st.ctl.x].stacks)[j]; k in st.freedS && k !in table
      ensures forall k :: k in table ==> k in old(table)
    {
      hide Inv, Run, Step, Initial, FreedUpTo;
      ghost var x, stacks := st.ctl.x, st.insts[st.ctl.x].stacks;
      ArraysFit(st, x);
      FreedNone(stacks, st.freedS, table);
      for j := 0 to MAX_STACKS
        invariant Valid() && old(history) <= history && st.ctl == Freeing(x) && st.freedI == old(st.freedI) && x in st.insts
        invariant FreedUpTo(stacks, st.insts[x].stacks, j, st.freedS, table)
        invariant forall k :: k in table ==> k in old(table)
      {
        Loops(env(j));
        ghost var left, freedS, was := st.insts[x].stacks, st.freedS, table;
        FreeOne(j);
        FreedNext(stacks, left, j, freedS, was, st.insts[x].stacks, st.freedS, table);
      }
      Loops(env(MAX_STACKS));
      FreeSteps(st, 0);
      FreedAll(stacks, st.insts[x].stacks, st.freedS, table);
      Access(FreeInst);
    }

    method FreeOne(j: nat)
      requires Valid() && st.ctl.Freeing? && st.ctl.x in st.insts
      modifies `st, `history, `table
      ensures Valid() && old(history) <= history && st.ctl == old(st.ctl) && st.freedI == old(st.freedI) && st.ctl.x in st.insts
      ensures old(st.freedS) <= st.freedS && st.insts[st.ctl.x].stacks == old(st.insts)[st.ctl.x].stacks - {j}
      ensures j in old(st.insts)[st.ctl.x].stacks ==>
                var k := old(st.insts)[st.ctl.x].stacks[j]; k in st.freedS && k !in table
      ensures forall k :: k in table ==> k in old(table)
    {
      hide Inv, Run, Step, Initial;
      if j in st.insts[st.ctl.x].stacks {
        table := Without(table, st.insts[st.ctl.x].stacks[j]);
      }
      FreeSteps(st, j);
      Access(FreeStack(j));
    }

    /** handle_instance_logout.  When it frees, both loops have finished an iteration since the instance was unpublished. */
    method HandleInstanceLogout(pid: nat, env: seq<seq<Action>>, last: nat -> seq<Action>) returns (freed: Option<Iid>)
      requires Valid() && st.ctl == Idle
      modifies `st, `history, `table
      ensures Valid() && old(history) <= history
      ensures freed.Some? ==>
                var x := freed.value;
                && x in pids && pids[x] == pid && x in old(st.insts) && st.ctl == Idle && st.freedI == old(st.freedI) + {x}
                && forall j :: j in old(st.insts)[x].stacks ==> old(st.insts)[x].stacks[j] in st.freedS
      ensures freed.None? ==> st.freedI == old(st.freedI) && st.freedS == old(st.freedS)
                              && (NoInstance(old(st), pids, pid) || LoggingOut(st.ctl).Some?)
    {
      hide Inv, Run, Step, Initial;
      var slot := GetByPid(pid);
      if slot.None? {
        return None;
      }
      var x := st.published[slot.value].value;
      LogoutSteps(st, slot.value);
      Access(LogoutTick(slot.value));
      Loops(Turn(env, 0));
      UnpublishSteps(st);
      Access(Unpublish);
      var done := WaitForwardDone(if |env| > 0 then env[1..] else []);
      if !done {
        return None;
      }
      FreeAll(last);
      return Some(x);
    }

    /** gazelle_instance_add_by_pid, with the memory `x` the allocator hands out if it does. */
    method AddByPid(pid: nat, x: Iid, alloc: bool, acts: seq<Action>) returns (slot: Option<nat>)
      requires Valid() && st.ctl == Idle && x !in st.insts && x !in pids
      modifies `st, `history, `pids
      ensures Valid() && st.ctl == Idle && old(history) <= history && |st.ticks| == |old(st).ticks|
      ensures slot.Some? ==> PublishedAt(st, slot.value) && st.published[slot.value].value in pids
                             && pids[st.published[slot.value].value] == pid
      ensures slot.Some? && !PublishedAt(old(st), slot.value) ==>
                st.published[slot.value] == Some(x) && st.ticks[slot.value] == old(st.ticks)[slot.value] + 1
                && st.insts[x].reg == st.ticks[slot.value] - 1
      ensures slot.None? ==> st == old(st) && (!alloc || None !in st.published)
    {
      SameLength(st);
      hide Inv, Run, Initial, Step;
      slot := GetByPid(pid);
      if slot.Some? {
        return;
      }
      var i := FreeSlot();
      if i >= |st.published| {
        assert st.published[..i] == st.published;
        return None;
      }
      if !alloc {
        return None;
      }
      AddAt(i, x, acts);
      pids := pids[x := pid];
      return Some(i);
    }

    /** The first free slot, or the number of slots. */
    method FreeSlot() returns (i: nat)
      ensures i <= |st.published| && None !in st.published[..i] && (i < |st.published| ==> st.published[i].None?)
    {
      i := 0;
      while i < |st.published| && st.published[i].Some?
        invariant i <= |st.published| && None !in st.published[..i]
      {
        i := i + 1;
      }
    }

    /** The tick moves on, the loops run, and then the instance is published. */
    method AddAt(i: nat, x: Iid, acts: seq<Action>)
      requires Valid() && st.ctl == Idle && i < |st.ticks| == |st.published| && st.published[i].None? && x !in st.insts
      modifies `st, `history
      ensures Valid() && st.ctl == Idle && old(history) <= history && |st.ticks| == |old(st).ticks|
      ensures PublishedAt(st, i) && st.published[i] == Some(x) && st.ticks[i] == old(st.ticks)[i] + 1
      ensures st.insts[x].reg == st.ticks[i] - 1
    {
      hide Inv, Run, Initial, Step;
      AddSteps(st, i, x);
      Access(AddTick(i, x));
      Loops(acts);
      PublishSteps(st, i, x);
      Access(Publish);
    }

    /** handle_reg_msg_proc_att: the instance is on if attaching its memory and the answer succeed, and otherwise it is what
        it was. */
    method ProcAtt(pid: nat, attached: bool, answered: bool, acts: seq<Action>) returns (slot: Option<nat>)
      requires Valid() && st.ctl == Idle
      modifies `st, `history
      ensures Valid() && st.ctl == Idle && old(history) <= history
      ensures match slot
              case Some(i) => InstanceOn(st, i) && attached && answered
              case None => st == old(st) && (attached && answered ==> NoInstance(st, pids, pid))
    {
      hide Inv, Run, Initial, Step;
      slot := GetByPid(pid);
      if slot.None? || !attached || !answered {
        return None;
      }
      Loops(acts);
      AttachSteps(st, slot.value);
      Access(Attach(slot.value));
    }

    /** gazelle_stack_get_by_tid: a live stack of the thread. */
    method GetByTid(tid: nat) returns (r: Option<Stid>)
      ensures r.Some? ==> r.value in table && IsLive(st, tids, r.value, tid)
      ensures r.None? ==> forall id :: id in table ==> !IsLive(st, tids, id, tid)
    {
      for i := 0 to |table|
        invariant forall k :: 0 <= k < i ==> !IsLive(st, tids, table[k], tid)
      {
        if IsLive(st, tids, table[i], tid) {
          return Some(table[i]);
        }
      }
      return None;
    }

    method FreePlace(x: Iid) returns (j: nat)
      requires x in st.insts
      ensures j <= MAX_STACKS && if j == MAX_STACKS then IsFull(st, x) else j !in st.insts[x].stacks
    {
      j := 0;
      while j < MAX_STACKS && j in st.insts[x].stacks
        invariant j <= MAX_STACKS && forall k :: 0 <= k < j ==> k in st.insts[x].stacks
      {
        j := j + 1;
      }
    }

    /** handle_reg_msg_thrd_ring: a thread with a live stack keeps it.  Otherwise a new stack gets its rings, its place and
        its two ticks, one after the other, with the loops running in between. */
    method HandleThrdRing(pid: nat, tid: nat, id: Stid, alloc: bool, answered: bool, env: nat -> seq<Action>) returns (r: Answer)
      requires Valid() && st.ctl == Idle && id !in st.stks && id !in table
      modifies `st, `history, `table, `tids
      ensures Valid() && st.ctl == Idle && old(history) <= history
      ensures r.Existing? <==> exists k :: k in old(table) && IsLive(old(st), old(tids), k, tid)
      ensures r.Existing? ==> st == old(st) && table == old(table) && r.id in table && IsLive(st, tids, r.id, tid)
      ensures r.Added? ==> r.id == id && table == [id] + old(table) && tids == old(tids)[id := tid] && id in st.stks
                           && st.stks[id].rings && st.stks[id].placed && st.stks[id].tick.Slot?
                           && st.stks[id].owner in st.insts && st.stks[id].reg == st.insts[st.stks[id].owner].reg
      ensures r.Refused? ==> !answered || !alloc || |old(table)| == maxStacks || NoInstance(old(st), pids, pid)
                             || exists x :: IsFull(old(st), x)
      ensures r.Refused? && table != old(table) ==>
                !answered && table == [id] + old(table) && id in st.stks && !IsOn(st.ticks, st.stks[id].tick, st.stks[id].reg)
    {
      hide Inv, Run, Initial, Step, IsOn;
      var exist := GetByTid(tid);
      if exist.Some? {
        return Existing(exist.value);
      }
      var slot := GetByPid(pid);
      if slot.None? {
        return Refused;
      }
      var j := FreePlace(st.published[slot.value].value);
      if j >= MAX_STACKS {
        return Refused;
      }
      if |table| == maxStacks || !alloc {
        return Refused;
      }
      table, tids := [id] + table, tids[id := tid];
      var ok := Register(slot.value, j, id, answered, env);
      return if ok then Added(id) else Refused;
    }

    /** The registration of a new stack; one that could not be answered stays off. */
    method Register(i: nat, j: nat, id: Stid, answered: bool, env: nat -> seq<Action>) returns (ok: bool)
      requires Valid() && st.ctl == Idle && PublishedAt(st, i) && id !in st.stks && j < MAX_STACKS
      requires j !in st.insts[st.published[i].value].stacks
      modifies `st, `history
      ensures Valid() && st.ctl == Idle && old(history) <= history && ok == answered && id in st.stks
      ensures ok ==> st.stks[id].rings && st.stks[id].placed && st.stks[id].tick.Slot?
                     && st.stks[id].owner in st.insts && st.stks[id].reg == st.insts[st.stks[id].owner].reg
      ensures !ok ==> !IsOn(st.ticks, st.stks[id].tick, st.stks[id].reg)
    {
      hide Inv, Run, Initial, Step;
      ThrdSteps1(st, i, id, j);
      Access(StackAdd(i, id, j));
      Loops(env(0));
      Place(env);
      if !answered {
        ThrdSteps2(st);
        Access(ThrdFails);
        InitIsOff(st, id);
        return false;
      }
      SetTicks(env);
      return true;
    }

    /** The rings, and the place in the array. */
    method Place(env: nat -> seq<Action>)
      requires Valid() && st.ctl.NewStack?
      modifies `st, `history
      ensures Valid() && old(history) <= history && st.ctl == Placed(old(st.ctl).s)
    {
      hide Inv, Run, Initial, Step;
      ThrdSteps2(st);
      Access(SetRings);
      Loops(env(1));
      ThrdSteps2(st);
      Access(SetPlace);
      Loops(env(2));
    }

    /** The registration tick, and then the pointer to the current one. */
    method SetTicks(env: nat -> seq<Action>)
      requires Valid() && st.ctl.Placed?
      modifies `st, `history
      ensures Valid() && old(history) <= history && st.ctl == Idle
      ensures var id := old(st.ctl).s;
              && id in st.stks && st.stks[id].rings && st.stks[id].placed && st.stks[id].tick.Slot?
              && st.stks[id].owner in st.insts && st.stks[id].reg == st.insts[st.stks[id].owner].reg
    {
      hide Inv, Run, Initial, Step;
      ThrdSteps2(st);
      Access(SetReg);
      Loops(env(3));
      ThrdSteps2(st);
      Access(SetCur);
    }

    // ----- a forwarding loop -----

    /** Everybody but the loop r. */
    method Others(r: Side, acts: seq<Action>)
      requires Valid()
      modifies `st, `history
      ensures Valid() && old(history) <= history && Get(st, r) == Get(old(st), r) && Settled(old(st), st)
    {
      hide Inv, Run, Step, Initial, ReaderOf, Settled;
      SettledSelf(st);
      for k := 0 to |acts|
        invariant Valid() && old(history) <= history && Get(st, r) == Get(old(st), r) && Settled(old(st), st)
      {
        if ReaderOf(acts[k]) != Some(r) {
          OthersLeaveLoop(st, acts[k], r);
          StepSettles(st, acts[k]);
          SettledTrans(old(st), st, Step(st, acts[k]));
          Access(acts[k]);
        }
      }
    }

    /** One access of the loop r. */
    method LoopAct(r: Side, a: Action)
      requires Valid() && ReaderOf(a) == Some(r)
      modifies `st, `history
      ensures Valid() && st == Step(old(st), a) && old(history) <= history && Settled(old(st), st)
    {
      hide Inv, Run, Step, Initial, Settled;
      StepSettles(st, a);
      Access(a);
    }

    /** INSTANCE_IS_ON on a stack the loop holds, its fields loaded in this order or in the other. */
    method CheckOn(r: Side, k: Stid, regFirst: bool, env: nat -> seq<Action>) returns (on: bool)
      requires Valid() && k in Get(st, r).heldS
      modifies `st, `history
      ensures Valid() && old(history) <= history && SameHolds(Get(old(st), r), Get(st, r)) && Settled(old(st), st)
      ensures on ==> k in st.stks && st.stks[k].rings && st.stks[k].placed && k !in st.freedS
      ensures if on then Get(st, r).pc == Using(k) else Get(st, r).pc != Using(k)
    {
      hide Inv, Run, Step, Initial, StepReader, Get, SameHolds, Settled;
      LoadStep(st, CheckBegin(r, k), r);
      LoopAct(r, CheckBegin(r, k));
      ghost var begun := st;
      LoadAll(r, regFirst, env);
      ghost var loaded := st;
      LoadStep(st, Judge(r), r);
      LoopAct(r, Judge(r));
      HoldsTrans(Get(old(st), r), Get(begun, r), Get(loaded, r));
      HoldsTrans(Get(old(st), r), Get(loaded, r), Get(st, r));
      SettledTrans(old(st), begun, loaded);
      SettledTrans(old(st), loaded, st);
      on := Get(st, r).pc == Using(k);
      UsingIsReady(st, r);
    }

    method LoadAll(r: Side, regFirst: bool, env: nat -> seq<Action>)
      requires Valid() && Get(st, r).pc.Checking?
      modifies `st, `history
      ensures Valid() && old(history) <= history && Loaded(old(st), st, r)
    {
      hide Inv, Run, Step, Initial, StepReader, Get, Settled, SameHolds;
      if regFirst {
        LoadField(r, CheckReg(r), env(0));
      } else {
        LoadedSelf(st, r);
      }
      ghost var a := st;
      LoadField(r, CheckCur(r), env(1));
      ghost var b := st;
      LoadField(r, CheckVal(r), env(2));
      LoadedTrans(old(st), a, b, r);
      LoadedTrans(old(st), b, st, r);
      if !regFirst {
        ghost var c := st;
        LoadField(r, CheckReg(r), env(3));
        LoadedTrans(old(st), c, st, r);
      }
    }

    method LoadField(r: Side, a: Action, acts: seq<Action>)
      requires Valid() && ReaderOf(a) == Some(r) && (a.CheckReg? || a.CheckCur? || a.CheckVal?) && Get(st, r).pc.Checking?
      modifies `st, `history
      ensures Valid() && old(history) <= history && Loaded(old(st), st, r)
    {
      hide Inv, Run, Step, Initial, StepReader, Settled;
      Others(r, acts);
      ghost var s := st;
      LoadStep(st, a, r);
      LoopAct(r, a);
      SettledTrans(old(st), s, st);
    }

    /** The walk of flush_all_stack and downstream_forward_loop over the instances and their stacks, to the end of the
        iteration.  Every stack it takes for on is set up, and is not freed before the iteration is over. */
    method ForwardLoop(r: Side, env: nat -> nat -> nat -> seq<Action>) returns (used: seq<Stid>)
      requires Valid() && Get(st, r) == Reader(Get(st, r).count, {}, {}, Walking)
      modifies `st, `history
      ensures Valid() && old(history) <= history
      ensures Get(st, r) == Reader(Get(old(st), r).count + 1, {}, {}, Walking)
      ensures AllReady(st, used)
    {
      hide Inv, Run, Step, Initial, AllReady, AllHeld;
      used := [];
      NoneUsed(st, r);
      var n := |st.published|;
      for i := 0 to n
        invariant Valid() && old(history) <= history && Get(st, r).count == Get(old(st), r).count
        invariant AllHeld(Get(st, r), used) && AllReady(st, used)
      {
        ghost var s := st;
        Others(r, env(i)(0)(0));
        StayReady(s, st, r, used);
        if PublishedAt(st, i) {
          used := UseInst(r, i, used, env(i));
        }
      }
      CheckStep(st, EndIter(r), r);
      ghost var s := st;
      Access(EndIter(r));
      SameReady(s, st, used);
    }

    method UseInst(r: Side, i: nat, before: seq<Stid>, env: nat -> nat -> seq<Action>) returns (used: seq<Stid>)
      requires Valid() && PublishedAt(st, i) && AllHeld(Get(st, r), before) && AllReady(st, before)
      modifies `st, `history
      ensures Valid() && old(history) <= history && Get(st, r).count == Get(old(st), r).count
      ensures AllHeld(Get(st, r), used) && AllReady(st, used)
    {
      hide Inv, Run, Step, Initial, AllReady;
      var x := st.published[i].value;
      ghost var s := st;
      CheckStep(st, LoadInst(r, i), r);
      Access(LoadInst(r, i));
      SameReady(s, st, before);
      used := WalkStacks(r, x, before, env);
    }

    method WalkStacks(r: Side, x: Iid, before: seq<Stid>, env: nat -> nat -> seq<Action>) returns (used: seq<Stid>)
      requires Valid() && x in Get(st, r).heldI && AllHeld(Get(st, r), before) && AllReady(st, before)
      modifies `st, `history
      ensures Valid() && old(history) <= history && Get(st, r).count == Get(old(st), r).count
      ensures AllHeld(Get(st, r), used) && AllReady(st, used)
    {
      hide Inv, Run, Step, Initial, AllReady, AllHeld;
      used := before;
      for j := 0 to MAX_STACKS
        invariant Valid() && old(history) <= history && Get(st, r).count == Get(old(st), r).count && x in Get(st, r).heldI
        invariant AllHeld(Get(st, r), used) && AllReady(st, used)
      {
        ghost var s := st;
        Others(r, env(j + 1)(0));
        StayReady(s, st, r, used);
        HeldIsThere(st, r, x);
        if j in st.insts[x].stacks {
          used := UseStack(r, x, j, used, env(j + 1));
        }
      }
    }

    method UseStack(r: Side, x: Iid, j: nat, before: seq<Stid>, env: nat -> seq<Action>) returns (used: seq<Stid>)
      requires Valid() && x in Get(st, r).heldI && x in st.insts && j in st.insts[x].stacks
      requires AllHeld(Get(st, r), before) && AllReady(st, before)
      modifies `st, `history
      ensures Valid() && old(history) <= history && Get(st, r).count == Get(old(st), r).count && x in Get(st, r).heldI
      ensures AllHeld(Get(st, r), used) && AllReady(st, used)
    {
      hide Inv, Run, Step, Initial, AllReady;
      var k := st.insts[x].stacks[j];
      ghost var s := st;
      CheckStep(st, LoadStack(r, x, j), r);
      Access(LoadStack(r, x, j));
      SameReady(s, st, before);
      s := st;
      var on := CheckOn(r, k, j % 2 == 0, env);
      StayReady(s, st, r, before);
      used := before;
      if on {
        used := before + [k];
        OneMoreReady(st, before, k);
      }
    }
  }

  /** The loop holds them all. */
  ghost predicate AllHeld(r: Reader, used: seq<Stid>) {
    forall i :: 0 <= i < |used| ==> used[i] in r.heldS
  }

  /** They are all set up and not freed. */
  ghost predicate AllReady(s: State, used: seq<Stid>) {
    forall i :: 0 <= i < |used| ==>
      used[i] in s.stks && s.stks[used[i]].rings && s.stks[used[i]].placed && used[i] !in s.freedS
  }

  lemma NoneUsed(s: State, r: Side)
    ensures AllHeld(Get(s, r), []) && AllReady(s, [])
  {
  }

  lemma OneMoreReady(s: State, used: seq<Stid>, k: Stid)
    requires AllReady(s, used) && k in s.stks && s.stks[k].rings && s.stks[k].placed && k !in s.freedS
    ensures AllReady(s, used + [k])
  {
  }

  lemma SameReady(s: State, t: State, used: seq<Stid>)
    requires AllReady(s, used) && t.stks == s.stks && t.freedS == s.freedS
    ensures AllReady(t, used)
  {
  }

  /** What a loop holds stays set up, and is not freed. */
  lemma StayReady(s: State, t: State, r: Side, used: seq<Stid>)
    requires Inv(t) && Settled(s, t) && AllReady(s, used) && AllHeld(Get(t, r), used)
    ensures AllReady(t, used)
  {
    HeldNotFreed(t, r);
    hide Inv;
  }

  lemma HeldNotFreed(s: State, r: Side)
    requires Inv(s)
    ensures forall k :: k in Get(s, r).heldS ==> k !in s.freedS
  {
    hide InstOk, PublishedOk, ArraysOk, StksOk, EntriesOk, FreedOk, CtlOk, Grace;
  }

  /** One access of a loop, seen from the loop. */
  lemma CheckStep(s: State, a: Action, r: Side)
    requires ReaderOf(a) == Some(r)
    ensures Get(Step(s, a), r) == StepReader(s, a, Get(s, r)) && Step(s, a).stks == s.stks && Step(s, a).insts == s.insts
    ensures Step(s, a).freedS == s.freedS && Step(s, a).published == s.published
  {
    hide StepReader, NewEntry;
  }

  ghost predicate SameHolds(a: Reader, b: Reader) {
    b.heldI == a.heldI && b.heldS == a.heldS && b.count == a.count
  }

  /** The loop has gone on with its check. */
  ghost predicate Loaded(s: State, t: State, r: Side) {
    && SameHolds(Get(s, r), Get(t, r)) && Settled(s, t)
    && (Get(s, r).pc.Checking? ==> Get(t, r).pc.Checking? && Get(t, r).pc.s == Get(s, r).pc.s)
  }

  lemma LoadedSelf(s: State, r: Side)
    ensures Loaded(s, s, r)
  {
    SettledSelf(s);
    hide Settled;
  }

  lemma LoadedTrans(s: State, t: State, u: State, r: Side)
    requires Loaded(s, t, r) && Loaded(t, u, r)
    ensures Loaded(s, u, r)
  {
    SettledTrans(s, t, u);
    hide Settled;
  }

  lemma HoldsTrans(a: Reader, b: Reader, c: Reader)
    requires SameHolds(a, b) && SameHolds(b, c)
    ensures SameHolds(a, c)
  {
  }

  /** A load of the check changes only what the loop remembers of the stack it looks at. */
  lemma LoadStep(s: State, a: Action, r: Side)
    requires ReaderOf(a) == Some(r)
    requires a.CheckBegin? || a.CheckReg? || a.CheckCur? || a.CheckVal? || a.Judge?
    ensures SameHolds(Get(s, r), Get(Step(s, a), r))
    ensures a.CheckBegin? && a.s in Get(s, r).heldS ==> Get(Step(s, a), r).pc == Checking(a.s, None, None, None)
    ensures (a.CheckReg? || a.CheckCur? || a.CheckVal?) && Get(s, r).pc.Checking? ==>
              Get(Step(s, a), r).pc.Checking? && Get(Step(s, a), r).pc.s == Get(s, r).pc.s
  {
    CheckStep(s, a, r);
    hide Step, Get;
  }

  lemma UsingIsReady(s: State, r: Side)
    requires Inv(s)
    ensures var p := Get(s, r).pc; p.Using? ==> p.s in s.stks && s.stks[p.s].rings && s.stks[p.s].placed && p.s !in s.freedS
  {
    hide InstOk, PublishedOk, ArraysOk, StksOk, EntriesOk, FreedOk, CtlOk, Grace;
  }

  lemma HeldIsThere(s: State, r: Side, x: Iid)
    requires Inv(s) && x in Get(s, r).heldI
    ensures x in s.insts && x !in s.freedI
  {
    hide InstOk, PublishedOk, ArraysOk, StksOk, EntriesOk, FreedOk, CtlOk, Grace;
  }

  lemma ArraysFit(s: State, x: Iid)
    requires Inv(s) && x in s.insts
    ensures forall j :: j in s.insts[x].stacks ==> j < MAX_STACKS
  {
    hide InstOk, PublishedOk, StksOk, EntriesOk, FreedOk, CtlOk, Grace, ReaderOk;
  }

  lemma SameLength(s: State)
    requires Inv(s)
    ensures |s.ticks| == |s.published|
  {
  }

  lemma AddSteps(s: State, i: nat, x: Iid)
    requires s.ctl == Idle && i < |s.ticks| == |s.published| && s.published[i].None? && x !in s.insts
    ensures Step(s, AddTick(i, x)) ==
            s.(ticks := s.ticks[i := s.ticks[i] + 1], insts := s.insts[x := Inst(i, s.ticks[i], map[])], ctl := Adding(x))
    ensures var t := Step(Step(s, AddTick(i, x)), Publish);
            && t.ctl == Idle && |t.ticks| == |s.ticks| && PublishedAt(t, i) && t.published[i] == Some(x)
            && t.ticks[i] == s.ticks[i] + 1 && t.insts[x].reg == t.ticks[i] - 1
  {
    var u := s.(ticks := s.ticks[i := s.ticks[i] + 1], insts := s.insts[x := Inst(i, s.ticks[i], map[])], ctl := Adding(x));
    assert Step(s, AddTick(i, x)) == u;
    PublishSteps(u, i, x);
    hide Step;
  }

  lemma PublishSteps(u: State, i: nat, x: Iid)
    requires u.ctl == Adding(x) && x in u.insts && u.insts[x].slot == i < |u.published|
    ensures Step(u, Publish) == u.(published := u.published[i := Some(x)], ctl := Idle)
  {
  }

  lemma AttachSteps(s: State, i: nat)
    requires s.ctl == Idle && PublishedAt(s, i)
    ensures Step(s, Attach(i)).ctl == Idle && InstanceOn(Step(s, Attach(i)), i)
  {
  }

  lemma ThrdSteps1(s: State, i: nat, id: Stid, j: nat)
    requires s.ctl == Idle && PublishedAt(s, i) && id !in s.stks && j < MAX_STACKS && j !in s.insts[s.published[i].value].stacks
    ensures var t := Step(s, StackAdd(i, id, j));
            t.ctl == NewStack(id, j) && id in t.stks && t.stks[id].tick == InitVal && t.stks[id].owner in t.insts
  {
  }

  /** The registration goes on with the same stack. */
  lemma ThrdSteps2(s: State)
    requires Inv(s)
    ensures s.ctl.NewStack? ==> Step(s, SetRings).ctl == Ringed(s.ctl.s, s.ctl.j)
    ensures s.ctl.Ringed? ==> Step(s, SetPlace).ctl == Placed(s.ctl.s)
    ensures s.ctl.Placed? ==>
              && s.ctl.s in s.stks && s.stks[s.ctl.s].owner in s.insts && s.stks[s.ctl.s].tick == InitVal
              && Step(s, SetReg) == s.(stks := s.stks[s.ctl.s := s.stks[s.ctl.s].(reg := s.insts[s.stks[s.ctl.s].owner].reg)],
                                       ctl := Regged(s.ctl.s))
              && Step(s, ThrdFails) == s.(ctl := Idle)
    ensures s.ctl.Regged? ==>
              && s.ctl.s in s.stks && s.stks[s.ctl.s].owner in s.insts && s.stks[s.ctl.s].rings && s.stks[s.ctl.s].placed
              && Step(s, SetCur) == s.(stks := s.stks[s.ctl.s := s.stks[s.ctl.s].(tick := Slot(s.insts[s.stks[s.ctl.s].owner].slot))],
                                       ctl := Idle)
  {
    if s.ctl.NewStack? || s.ctl.Ringed? || s.ctl.Placed? || s.ctl.Regged? { RegisteringStack(s); }
    hide Inv;
  }

  lemma InitIsOff(s: State, id: Stid)
    requires Inv(s)
    ensures id in s.stks && s.stks[id].tick == InitVal ==> !IsOn(s.ticks, s.stks[id].tick, s.stks[id].reg)
  {
    if id in s.stks { StkTicks(s, id); }
    hide Inv;
  }
}
