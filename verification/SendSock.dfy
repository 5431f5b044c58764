/** The application's side of the send path as the code has it: write_stack_data and its helpers on the socket.
    `env(k)` is what the stack thread, lwip and the other users of the buffer pool do before the access that carries
    the number k. */
module SendSockCode {
  import opened SendPath
  import opened SendInvariant
  import opened SendPathProof
  import opened SendFrames
  import opened SendRecycle

  predicate ByOthers(v: Move) {
    v.Free? || v.Reuse? || v.Elsewhere? || ByStack(v.a)
  }

  /** What the others leave alone. */
  ghost predicate OthersView(m: Memory, t: Memory) {
    AppView(m.s, t.s) && t.on == m.on && t.taken == m.taken
  }

  lemma OthersLeaveApp(m: Memory, v: Move)
    requires ByOthers(v)
    ensures OthersView(m, MStep(m, v)) && !Crosses(m, v)
  {
    hide AppView, Step, DoReplenish, Fresh, Confirmed, MayReuse, AppMove;
    NoChange(m.s);
    match v
    case Own(a) => StackLeavesApp(m.s, a); StackMove(m, a); hide MStep;
    case Reuse(ids, _) => ReplenishLeavesApp(m.s, ids);
    case _ =>
  }

  lemma NoChange(s: State)
    ensures AppView(s, s)
  {
  }

  lemma ViewsChain(m: Memory, t: Memory, u: Memory)
    requires OthersView(m, t) && OthersView(t, u)
    ensures OthersView(m, u)
  {
  }

  /** The state after the first k moves. */
  ghost function Reached(cap: nat, history: seq<Move>, k: nat): Memory
    requires k <= |history|
  {
    MRun(MInit(cap), history[..k])
  }

  lemma ReachedNow(cap: nat, history: seq<Move>)
    ensures Reached(cap, history, |history|) == MRun(MInit(cap), history)
  {
    hide MRun, MInit;
    assert history[..|history|] == history;
  }

  lemma ReachedBefore(cap: nat, h: seq<Move>, more: seq<Move>, k: nat)
    requires h <= more && k <= |h|
    ensures Reached(cap, h, k) == Reached(cap, more, k)
  {
    hide MRun, MInit;
    assert h[..k] == more[..k];
  }

  lemma {:induction false} MRunSnoc(cap: nat, moves: seq<Move>, v: Move)
    ensures MRun(MInit(cap), moves + [v]) == MStep(MRun(MInit(cap), moves), v)
    ensures Uncrossed(cap, moves + [v]) <==> Uncrossed(cap, moves) && !Crosses(MRun(MInit(cap), moves), v)
  {
    hide MStep, Crosses;
    assert (moves + [v])[..|moves|] == moves;
  }

  lemma {:induction false} RunKeepsPositive(s: State, trace: seq<Action>)
    requires Inv(s) && Positive(s.len)
    ensures Positive(Run(s, trace).len)
  {
    hide Inv, Step, Positive;
    if trace != [] {
      RunKeepsPositive(s, trace[..|trace| - 1]);
      RunKeepsInv(s, trace[..|trace| - 1]);
      StepKeepsPositive(Run(s, trace[..|trace| - 1]), trace[|trace| - 1]);
    }
  }

  lemma MoveKeepsPositive(m: Memory, v: Move)
    requires Sound(m) && Positive(m.s.len) && !Crosses(m, v)
    ensures Sound(MStep(m, v)) && Positive(MStep(m, v).s.len)
  {
    var trace := Projects(m, v);
    RunKeepsPositive(m.s, trace);
    StepKeepsSound(m, v);
    hide *;
  }

  // ----- single moves of the application -----

  /** A step among the allocations that accepts `bytes`. */
  lemma Takes(m: Memory, a: Action, bytes: seq<Byte>)
    requires !m.on && a != App && Step(m.s, a).accepted == m.s.accepted + bytes
    ensures var t := MStep(m, Own(a)); t.s == Step(m.s, a) && t.on == m.on && t.taken == m.taken + bytes
    ensures !Crosses(m, Own(a))
  {
    hide Step, AppMove;
  }

  lemma AppTakesBytes(m: Memory, bytes: seq<Byte>)
    requires !m.on && (m.tenant.Itself? || !m.s.apc.LastLocked?) && !(m.s.apc.DirectLast? && m.tenant.Idle?)
    requires Step(m.s, App).accepted == m.s.accepted + bytes
    ensures var t := MStep(m, Own(App)); t.s == Step(m.s, App) && !t.on && t.taken == m.taken + bytes
    ensures !Crosses(m, Own(App))
  {
    AmongAllocations(m);
    TookBytes(m, Step(m.s, App), bytes);
    hide *;
  }

  lemma AmongAllocations(m: Memory)
    requires !m.on && (m.tenant.Itself? || !m.s.apc.LastLocked?) && !(m.s.apc.DirectLast? && m.tenant.Idle?)
    ensures MStep(m, Own(App)) == Take(m, Step(m.s, App)) && !Crosses(m, Own(App))
  {
    assert Step(m.s, App) == StepApp(m.s);
    hide Step, StepApp, Take, UseTenant, OpenAt, Allocates;
  }

  lemma TookBytes(m: Memory, t: State, bytes: seq<Byte>)
    requires t.accepted == m.s.accepted + bytes
    ensures Take(m, t).s == t && Take(m, t).on == m.on && Take(m, t).taken == m.taken + bytes
  {
  }

  /** The look at allow_in. */
  lemma Looks(m: Memory)
    requires Sound(m) && m.s.apc.LastLocked? && !m.on
    ensures var t := MStep(m, Own(App));
            && (if OpenAt(m, m.s.apc.p) then LetIn(t) && t.s.apc.job == m.s.apc.job else t.s.apc == AppIdle && !t.on)
            && t.taken == m.taken && t.s.prodHead == m.s.prodHead && t.s.prodTail == m.s.prodTail && t.s.ring == m.s.ring
    ensures !Crosses(m, Own(App))
  {
    if m.tenant.Itself? {
      ChecksOpen(m.s);
      hide Inv, Step, StepApp, LinkedAt, LenAt, UseTenant;
      assert Step(m.s, App).accepted == m.s.accepted + [];
      AppTakesBytes(m, []);
    } else {
      hide Inv, Step, StepApp, LinkedAt, LenAt, UseTenant, OpenAt;
    }
  }

  lemma RefusesMerge(m: Memory, bytes: seq<Byte>)
    requires Sound(m) && LetIn(m) && m.s.apc.job == Merge(bytes)
    requires LinkedAt(m, m.s.apc.p) || LenAt(m, m.s.apc.p) >= MAX
    ensures var t := MStep(m, Own(App));
            t.s == UnlockApp(m.s) && !t.on && t.taken == m.taken && !Crosses(m, Own(App))
  {
    SoundMeans(m);
    hide Inv, Sound, Owners, Step, StepApp;
    if !m.on {
      MergeRefused(m.s, m.s.apc.p, bytes);
      assert Step(m.s, App).accepted == m.s.accepted + [];
      AppTakesBytes(m, []);
    }
  }

  /** Into somebody else's buffer. */
  lemma MergesElsewhere(m: Memory, bytes: seq<Byte>, k: nat)
    requires Sound(m) && m.on && m.s.apc.LastLocked? && m.s.apc.job == Merge(bytes)
    requires !LinkedAt(m, m.s.apc.p) && LenAt(m, m.s.apc.p) < MAX && k == Min(MAX - LenAt(m, m.s.apc.p), |bytes|)
    ensures var t := MStep(m, Own(App));
            t.s == UnlockApp(m.s) && !t.on && t.taken == m.taken + bytes[..k] && !Crosses(m, Own(App))
  {
    hide Inv, Step, StepApp, Owners;
  }

  lemma HasLength(m: Memory)
    requires Sound(m) && Positive(m.s.len) && LetIn(m)
    ensures LenAt(m, m.s.apc.p) > 0
  {
    SoundMeans(m);
    if !m.on { PositiveLen(m.s); }
    hide Inv;
  }

  /** With the chain filled: it is linked, or the allocation has failed. */
  lemma AttachesAt(m: Memory, ids: seq<Id>, payloads: seq<seq<Byte>>)
    requires Sound(m) && LetIn(m) && m.s.apc.job == Attach(ids, payloads) && Payloads(payloads)
    ensures var t := MStep(m, Own(App));
            if Fresh(m.s, ids) && |ids| == |payloads| then
              && t.taken == m.taken + Flat(payloads) && !t.on
              && (t.s.apc == AppIdle <==> m.tenant.Foreign?) && (!m.tenant.Foreign? ==> t.s.apc.AttachLast?)
              && (Crosses(m, Own(App)) <==> m.tenant.Idle?)
            else t.s.apc == AppIdle && !t.on && t.taken == m.taken && !Crosses(m, Own(App))
  {
    SoundMeans(m);
    hide Inv, Sound, Owners, Step, StepApp, Fresh, Payloads, Flat, MStep, Crosses;
    if m.on {
      AttachesTenant(m, ids, payloads);
    } else {
      Attaches(m.s, ids, payloads);
      assert m.s.accepted == m.s.accepted + [];
      AppTakesBytes(m, if Fresh(m.s, ids) && |ids| == |payloads| then Flat(payloads) else []);
      hide Allocates;
    }
  }

  lemma AttachesTenant(m: Memory, ids: seq<Id>, payloads: seq<seq<Byte>>)
    requires m.on && !m.tenant.Itself? && m.s.apc.LastLocked? && m.s.apc.job == Attach(ids, payloads) && Payloads(payloads)
    ensures var t := MStep(m, Own(App));
            if Fresh(m.s, ids) && |ids| == |payloads| then
              && t.taken == m.taken + Flat(payloads) && !t.on
              && (t.s.apc == AppIdle <==> m.tenant.Foreign?) && (!m.tenant.Foreign? ==> t.s.apc.AttachLast?)
              && (Crosses(m, Own(App)) <==> m.tenant.Idle?)
            else t.s.apc == AppIdle && !t.on && t.taken == m.taken && !Crosses(m, Own(App))
  {
    hide Step, StepApp, Fresh, Payloads, SetData, SetLen, Link, Flat, LastOf;
    if Fresh(m.s, ids) && |ids| == |payloads| { assert Allocates(m.s, m.s.apc.job); } else { assert !Allocates(m.s, m.s.apc.job); }
  }

  lemma MovesOn(m: Memory)
    requires !m.on && (m.s.apc.AttachLast? || m.s.apc.Holding? || m.s.apc.DirectLast?)
    ensures var t := MStep(m, Own(App));
            && !t.on && t.taken == m.taken
            && (if m.s.apc.AttachLast? then t.s.apc.Holding? else t.s.apc == AppIdle)
            && (Crosses(m, Own(App)) <==> m.s.apc.DirectLast? && m.tenant.Idle?)
  {
    if m.s.apc.Holding? { Unlocks(m.s); } else { LastMoves(m.s); }
    hide Step, StepApp;
    if !(m.s.apc.DirectLast? && m.tenant.Idle?) {
      assert m.s.accepted == m.s.accepted + [];
      AppTakesBytes(m, []);
    }
  }

  // ----- the room left in the last buffer -----

  /** MBUF_MAX_DATA_LEN minus the length found in the buffer released last, in 16 bits. */
  function RoomLeft(m: Memory): nat
    requires 0 < m.s.prodTail <= |m.s.ring|
  {
    (U16 + MAX - LenAt(m, m.s.ring[m.s.prodTail - 1])) % U16
  }

  lemma FilledLast(s: State)
    requires Inv(s) && s.apc.BuffFilled?
    ensures 0 < s.prodHead <= |s.ring| && s.apc.payloads != []
    ensures Len(s, s.ring[s.prodHead - 1]) == |s.apc.payloads[|s.apc.payloads| - 1]|
  {
    AppKnows(s);
    hide Inv;
    assert s.ring[s.prodTail..s.prodHead][|s.apc.payloads| - 1] == s.ring[s.prodHead - 1];
  }

  lemma Nothing(bytes: seq<Byte>)
    ensures bytes + [] == bytes
  {
  }

  lemma OnIsLocked(m: Memory)
    requires Sound(m) && m.on
    ensures m.s.apc.LastLocked?
  {
    SoundMeans(m);
    hide *;
  }

  lemma IdleIsOff(m: Memory)
    requires Sound(m) && !m.s.apc.LastLocked?
    ensures !m.on
  {
    SoundMeans(m);
    hide *;
  }

  /** `avail` full buffers hold the merged bytes and some more, but not all. */
  lemma Cut(rest: nat, done: nat, num: nat, avail: nat)
    requires Needs(rest, num) && 0 < avail < num && done < MAX
    ensures done < avail * MAX < done + rest && Needs(avail * MAX - done, avail)
  {
    assert avail * MAX <= (num - 1) * MAX;
    assert (avail - 1) * MAX == avail * MAX - MAX;
    assert avail * MAX >= MAX;
  }

  lemma SameOthers(m: Memory)
    ensures OthersView(m, m)
  {
  }

  /** allow_in is set in what the slot before prod.tail leads to. */
  predicate LastIsOpenAt(m: Memory) {
    0 < m.s.prodTail <= |m.s.ring| && OpenAt(m, m.s.ring[m.s.prodTail - 1])
  }

  lemma OwnBuffer(m: Memory)
    requires Sound(m) && m.s.apc.LastAllowed?
    ensures m.tenant.Itself?
    ensures LinkedAt(m, m.s.apc.p) <==> m.s.apc.p in m.s.next
    ensures LenAt(m, m.s.apc.p) == Len(m.s, m.s.apc.p)
  {
    SoundMeans(m);
    hide Inv;
  }

  /** While the application has the last buffer locked, with allow_in seen set in itself, the others leave it as it is. */
  lemma LastKeeps(m: Memory, t: Memory)
    requires Sound(m) && Sound(t) && OthersView(m, t) && LetIn(m) && !m.on
    ensures LetIn(t) && !t.on && t.s.apc == m.s.apc && var p := m.s.apc.p;
            && (LinkedAt(t, p) <==> LinkedAt(m, p)) && LenAt(t, p) == LenAt(m, p) && LastOf(t.s, p) == LastOf(m.s, p)
  {
    LastStays(m.s, t.s);
    OwnBuffer(m);
    OwnBuffer(t);
    hide Inv, LinkedAt, LenAt, LastOf, Len, Owners;
  }

  lemma Cursors(m: Memory)
    requires Sound(m)
    ensures m.s.prodTail <= m.s.prodHead <= |m.s.ring|
  {
    AppKnows(m.s);
    hide Inv;
  }

  lemma ReleasedLength(m: Memory)
    requires Sound(m) && m.s.apc.BuffFilled?
    ensures var t, payloads := Step(m.s, App), m.s.apc.payloads;
            && payloads != [] && 0 < t.prodTail <= |t.ring|
            && Len(t, t.ring[t.prodTail - 1]) == |payloads[|payloads| - 1]|
  {
    FilledLast(m.s);
    AppKnows(m.s);
    hide Inv;
    ReleasedFields(m.s);
    hide Step;
  }

  lemma ReleasedFields(s: State)
    requires s.apc.BuffFilled? && s.prodTail <= s.prodHead <= |s.ring|
    ensures var t := Step(s, App); t.prodTail == s.prodHead && t.ring == s.ring && t.len == s.len
  {
    hide TakeAppLock, BeginMerge, BeginAttach, DoDirectOver, Flat;
    assert Step(s, App) == StepApp(s) == DoBuffOver(s, s.apc.payloads);
    hide Step, StepApp;
  }

  lemma LengthStays(m: Memory, t: Memory, n: nat)
    requires OthersView(m, t) && 0 < m.s.prodTail <= |m.s.ring| && Len(m.s, m.s.ring[m.s.prodTail - 1]) == n <= MAX
    ensures 0 < t.s.prodTail <= |t.s.ring|
    ensures match t.tenant
            case Itself => RoomLeft(t) == MAX - n
            case Idle(_) => RoomLeft(t) == 0
            case Foreign(_, _, len) => RoomLeft(t) == (U16 + MAX - len) % U16
  {
    assert t.s.ring[t.s.prodTail - 1] == m.s.ring[m.s.prodTail - 1];
  }

  class SendSock {
    const expand: bool         // expand_send_ring
    var errevent: nat
    var attached: bool         // sock->stack != NULL
    var remainLen: nat
    var mem: Memory            // the memory shared with the others
    ghost var cap: nat
    ghost var history: seq<Move>

    /** Up to the first write into a buffer that waits to be filled, the invariants hold. */
    ghost predicate Valid()
      reads `mem, `cap, `history
    {
      mem == MRun(MInit(cap), history) && (Uncrossed(cap, history) ==> Sound(mem) && Positive(mem.s.len))
    }

    ghost predicate Safe()
      reads `mem, `cap, `history
    {
      Valid() && Uncrossed(cap, history) && Sound(mem) && Positive(mem.s.len)
    }

    constructor (cap: nat, expand: bool)
      ensures Safe() && mem == MInit(cap) && remainLen == 0 && this.expand == expand
    {
      this.expand, this.cap, this.history := expand, cap, [];
      errevent, attached, remainLen := 0, true, 0;
      mem := MInit(cap);
      new;
      InitSound(cap);
    }

    method Access(v: Move)
      requires Valid()
      modifies `mem, `history
      ensures Valid() && mem == MStep(old(mem), v) && history == old(history) + [v]
      ensures Uncrossed(cap, history) <==> Uncrossed(cap, old(history)) && !Crosses(old(mem), v)
    {
      hide Sound, MRun, MStep, MInit, Positive, Crosses, Uncrossed;
      MRunSnoc(cap, history, v);
      if Uncrossed(cap, history) && !Crosses(mem, v) { MoveKeepsPositive(mem, v); }
      mem := MStep(mem, v);
      history := history + [v];
    }

    /** The turn of the others. */
    method Others(moves: seq<Move>)
      requires Valid()
      modifies `mem, `history
      ensures Valid() && OthersView(old(mem), mem) && old(history) <= history
      ensures Uncrossed(cap, history) <==> Uncrossed(cap, old(history))
    {
      hide Sound, MRun, MStep, MInit, Positive, Crosses, Uncrossed, ByOthers, OthersView;
      SameOthers(mem);
      for k := 0 to |moves|
        invariant Valid() && OthersView(old(mem), mem) && old(history) <= history
        invariant Uncrossed(cap, history) <==> Uncrossed(cap, old(history))
      {
        if ByOthers(moves[k]) {
          OthersLeaveApp(mem, moves[k]);
          ViewsChain(old(mem), mem, MStep(mem, moves[k]));
          Access(moves[k]);
        }
      }
    }

    /** The turn of the others while the invariants hold. */
    method Turn(moves: seq<Move>)
      requires Safe()
      modifies `mem, `history
      ensures Safe() && OthersView(old(mem), mem) && old(history) <= history
    {
      hide Sound, MRun, MStep, MInit, Positive, Uncrossed, OthersView;
      Others(moves);
    }

    lemma TurnedNow()
      requires Valid()
      ensures Reached(cap, history, |history|) == mem
    {
      ReachedNow(cap, history);
      hide Sound, MRun, MStep, MInit, Positive, Uncrossed;
    }

    /** A step of the application among the allocations, which accepts `bytes`. */
    method Go(a: Action, ghost bytes: seq<Byte>)
      requires Safe() && !mem.on && Step(mem.s, a).accepted == mem.s.accepted + bytes
      requires a == App ==> (mem.tenant.Itself? || !mem.s.apc.LastLocked?) && !(mem.s.apc.DirectLast? && mem.tenant.Idle?)
      modifies `mem, `history
      ensures Safe() && mem.s == Step(old(mem.s), a) && !mem.on && mem.taken == old(mem.taken) + bytes
      ensures history == old(history) + [Own(a)]
    {
      hide Sound, MRun, MStep, MInit, Positive, Uncrossed, Crosses, Step;
      if a == App { AppTakesBytes(mem, bytes); } else { Takes(mem, a, bytes); }
      Access(Own(a));
    }

    /** gazelle_ring_readlast.  A buffer is found exactly if the tail loaded first was behind the last one, its lock was free at
        step `locked`, and allow_in was set at step `checked` in what the slot led to. */
    method ReadLast(job: Job, env: nat -> seq<Move>) returns (found: bool, ghost locked: nat, ghost checked: nat)
      requires Safe() && mem.s.apc == AppIdle
      modifies `mem, `history
      ensures Safe() && old(history) <= history && mem.taken == old(mem.taken)
      ensures mem.s.prodHead == old(mem.s.prodHead) && mem.s.prodTail == old(mem.s.prodTail) && old(mem.s.ring) <= mem.s.ring
      ensures |old(history)| < locked <= checked <= |history|
      ensures found <==> LastIsFree(Reached(cap, history, locked).s, old(mem.s.consTail)) && LastIsOpenAt(Reached(cap, history, checked))
      ensures if found then LetIn(mem) && mem.s.apc.job == job else mem.s.apc == AppIdle
    {
      hide Sound, MRun, MStep, MInit, Positive, Reached, LastIsFree, Uncrossed, Crosses, Step, LastIsOpenAt, Valid;
      IdleIsOff(mem);
      Loads(mem.s, job);
      Nothing(mem.s.accepted);
      Go(LoadTail(job), []);
      Turn(env(0));
      locked, checked := |history|, |history|;
      ghost var was := history;
      TurnedNow();
      Locks(mem.s);
      Nothing(mem.s.accepted);
      Go(App, []);
      ReachedBefore(cap, was, history, locked);
      if mem.s.apc == AppIdle {
        return false, locked, checked;
      }
      found, checked := CheckOpen(env);
      ReachedBefore(cap, was, history, locked);
    }

    method CheckOpen(env: nat -> seq<Move>) returns (found: bool, ghost checked: nat)
      requires Safe() && mem.s.apc.LastLocked? && !mem.on
      requires 0 < mem.s.prodTail <= |mem.s.ring| && mem.s.apc.p == mem.s.ring[mem.s.prodTail - 1]
      modifies `mem, `history
      ensures Safe() && old(history) <= history && mem.taken == old(mem.taken)
      ensures mem.s.prodHead == old(mem.s.prodHead) && mem.s.prodTail == old(mem.s.prodTail) && old(mem.s.ring) <= mem.s.ring
      ensures |old(history)| <= checked <= |history| && (found <==> LastIsOpenAt(Reached(cap, history, checked)))
      ensures if found then LetIn(mem) && mem.s.apc.job == old(mem).s.apc.job else mem.s.apc == AppIdle
    {
      hide Sound, MRun, MStep, MInit, Positive, Reached, Uncrossed, Crosses, Step, OpenAt;
      Others(env(1));
      checked := |history|;
      ghost var was := history;
      ReachedNow(cap, was);
      found := OpenAt(mem, mem.s.apc.p);
      Looks(mem);
      Access(Own(App));
      ReachedBefore(cap, was, history, checked);
    }

    /** merge_data_lastpbuf. */
    method MergeDataLastPbuf(buf: seq<Byte>, env: nat -> seq<Move>) returns (sendLen: nat)
      requires Safe() && mem.s.apc == AppIdle && buf != []
      modifies `mem, `history, `remainLen
      ensures Safe() && old(history) <= history && mem.s.apc == AppIdle
      ensures sendLen <= |buf| && mem.taken == old(mem.taken) + buf[..sendLen]
      ensures sendLen < MAX
      ensures sendLen < |buf| ==> remainLen == 0
      ensures mem.s.prodHead == old(mem.s.prodHead) && |mem.s.ring| >= |old(mem.s.ring)|
    {
      hide Sound, MRun, MStep, Positive, Uncrossed;
      var found, _, _ := ReadLast(Merge(buf), env);
      if !found {
        remainLen := 0;
        return 0;
      }
      sendLen := MergeAllowed(buf, env);
    }

    /** The rest of it, with the lock held and allow_in seen set.  The others move before the test, before the length is stored,
        before the bytes are copied and before the lock is dropped; of somebody else's buffer test, store and copy are one step. */
    method MergeAllowed(buf: seq<Byte>, env: nat -> seq<Move>) returns (sendLen: nat)
      requires Safe() && LetIn(mem) && mem.s.apc.job == Merge(buf) && buf != []
      modifies `mem, `history, `remainLen
      ensures Safe() && old(history) <= history && mem.s.apc == AppIdle
      ensures sendLen <= |buf| && mem.taken == old(mem.taken) + buf[..sendLen]
      ensures sendLen < MAX
      ensures sendLen < |buf| ==> remainLen == 0
      ensures mem.s.prodHead == old(mem.s.prodHead) && |mem.s.ring| >= |old(mem.s.ring)|
    {
      hide Sound, MRun, MStep, Positive, MInit, Uncrossed, Crosses, LinkedAt, LenAt;
      Others(env(2));
      var p := mem.s.apc.p;
      if LinkedAt(mem, p) || LenAt(mem, p) >= MAX {
        remainLen := 0;
        RefuseMerge(buf, env);
        return 0;
      }
      HasLength(mem);
      sendLen := MAX - LenAt(mem, p);
      if sendLen >= |buf| {
        remainLen := sendLen - |buf|;
        sendLen := |buf|;
      } else {
        remainLen := 0;
      }
      MergeStore(buf, sendLen, env);
    }

    method RefuseMerge(buf: seq<Byte>, env: nat -> seq<Move>)
      requires Safe() && LetIn(mem) && mem.s.apc.job == Merge(buf)
      requires LinkedAt(mem, mem.s.apc.p) || LenAt(mem, mem.s.apc.p) >= MAX
      modifies `mem, `history
      ensures Safe() && old(history) <= history && mem.s.apc == AppIdle && mem.taken == old(mem.taken)
      ensures mem.s.prodHead == old(mem.s.prodHead) && |mem.s.ring| >= |old(mem.s.ring)|
    {
      hide Sound, MRun, MStep, Positive, MInit, Uncrossed, Crosses, LinkedAt, LenAt;
      if !mem.on {
        Turn(env(3));
        LastKeeps(old(mem), mem);
      }
      RefusesMerge(mem, buf);
      Access(Own(App));
    }

    /** Nobody else changes the length that was tested. */
    method MergeStore(buf: seq<Byte>, sendLen: nat, env: nat -> seq<Move>)
      requires Safe() && LetIn(mem) && mem.s.apc.job == Merge(buf) && !LinkedAt(mem, mem.s.apc.p)
      requires LenAt(mem, mem.s.apc.p) < MAX && sendLen == Min(MAX - LenAt(mem, mem.s.apc.p), |buf|)
      modifies `mem, `history
      ensures Safe() && old(history) <= history && mem.s.apc == AppIdle
      ensures mem.taken == old(mem.taken) + buf[..sendLen]
      ensures mem.s.prodHead == old(mem.s.prodHead) && |mem.s.ring| >= |old(mem.s.ring)|
    {
      hide Sound, MRun, MStep, Positive, MInit, Uncrossed, Crosses, LinkedAt, LenAt, Step, Valid;
      if mem.on {
        MergeElsewhere(buf, sendLen);
        return;
      }
      Turn(env(3));
      LastKeeps(old(mem), mem);
      StoreOwn(buf, sendLen, env);
    }

    method MergeElsewhere(buf: seq<Byte>, sendLen: nat)
      requires Safe() && mem.on && LetIn(mem) && mem.s.apc.job == Merge(buf) && !LinkedAt(mem, mem.s.apc.p)
      requires LenAt(mem, mem.s.apc.p) < MAX && sendLen == Min(MAX - LenAt(mem, mem.s.apc.p), |buf|)
      modifies `mem, `history
      ensures Safe() && old(history) <= history && mem.s.apc == AppIdle
      ensures mem.taken == old(mem.taken) + buf[..sendLen]
      ensures mem.s.prodHead == old(mem.s.prodHead) && |mem.s.ring| >= |old(mem.s.ring)|
    {
      hide Sound, MRun, MStep, Positive, MInit, Uncrossed, Crosses, LinkedAt, LenAt, Step;
      OnIsLocked(mem);
      MergesElsewhere(mem, buf, sendLen);
      Access(Own(App));
    }

    method StoreOwn(buf: seq<Byte>, sendLen: nat, env: nat -> seq<Move>)
      requires Safe() && LetIn(mem) && !mem.on && mem.s.apc.job == Merge(buf) && !LinkedAt(mem, mem.s.apc.p)
      requires LenAt(mem, mem.s.apc.p) < MAX && sendLen == Min(MAX - LenAt(mem, mem.s.apc.p), |buf|)
      modifies `mem, `history
      ensures Safe() && old(history) <= history && mem.s.apc == AppIdle
      ensures mem.taken == old(mem.taken) + buf[..sendLen]
      ensures mem.s.prodHead == old(mem.s.prodHead) && |mem.s.ring| >= |old(mem.s.ring)|
    {
      hide Sound, MRun, MStep, Positive, MInit, Uncrossed, Crosses, LinkedAt, LenAt, Step, Valid;
      OwnBuffer(mem);
      MergeStarts(mem.s, mem.s.apc.p, buf, sendLen);
      Nothing(mem.s.accepted);
      Go(App, []);
      Turn(env(4));
      MergeCopies(mem.s);
      Go(App, buf[..sendLen]);
      Turn(env(5));
      Unlocks(mem.s);
      Nothing(mem.s.accepted);
      Go(App, []);
    }

    /** do_app_write: full pieces, and what is left in the last one. */
    method DoAppWrite(buf: seq<Byte>, writeNum: nat) returns (payloads: seq<seq<Byte>>)
      requires Needs(|buf|, writeNum)
      ensures |payloads| == writeNum && Flat(payloads) == buf && Payloads(payloads)
      ensures forall i :: 0 <= i < writeNum - 1 ==> |payloads[i]| == MAX
    {
      hide Flat;
      payloads := [];
      var sendLen := 0;
      EmptyFlat();
      for i := 0 to writeNum - 1
        invariant sendLen == i * MAX && |payloads| == i && sendLen <= |buf|
        invariant Flat(payloads) == buf[..sendLen]
        invariant forall k :: 0 <= k < i ==> |payloads[k]| == MAX
      {
        assert (i + 1) * MAX <= (writeNum - 1) * MAX;
        FlatSnoc(payloads, buf[sendLen..sendLen + MAX]);
        assert buf[..sendLen + MAX] == buf[..sendLen] + buf[sendLen..sendLen + MAX];
        payloads := payloads + [buf[sendLen..sendLen + MAX]];
        sendLen := sendLen + MAX;
      }
      FlatSnoc(payloads, buf[sendLen..]);
      assert buf == buf[..sendLen] + buf[sendLen..];
      payloads := payloads + [buf[sendLen..]];
    }

    /** app_buff_write: fill idle ring buffers and release them.  The length of the last one is read at step `at`. */
    method AppBuffWrite(buf: seq<Byte>, writeNum: nat, env: nat -> seq<Move>) returns (sendLen: nat, ghost at: nat)
      requires Safe() && mem.s.apc == AppIdle && Needs(|buf|, writeNum) && mem.s.prodHead + writeNum <= |mem.s.ring|
      modifies `mem, `history, `remainLen
      ensures Safe() && old(history) <= history && mem.s.apc == AppIdle && |old(history)| < at <= |history|
      ensures sendLen == |buf| && mem.taken == old(mem.taken) + buf
      ensures match Reached(cap, history, at).tenant
              case Itself => remainLen == writeNum * MAX - |buf|
              case Idle(_) => remainLen == 0
              case Foreign(_, _, len) => remainLen == (U16 + MAX - len) % U16
    {
      hide Sound, MRun, MStep, Flat, Payloads, MInit, Needs, Uncrossed, Crosses, Positive, Step, Reached, LenAt, RoomLeft, Valid;
      var payloads := DoAppWrite(buf, writeNum);
      LastPiece(payloads, |buf|, writeNum);
      FillAndRelease(payloads, env);
      ghost var released := mem;
      Turn(env(8));
      at := |history|;
      TurnedNow();
      LengthStays(released, mem, |payloads[writeNum - 1]|);
      remainLen := RoomLeft(mem);
      sendLen := |buf|;
    }

    method FillAndRelease(payloads: seq<seq<Byte>>, env: nat -> seq<Move>)
      requires Safe() && mem.s.apc == AppIdle && Payloads(payloads) && mem.s.prodHead + |payloads| <= |mem.s.ring|
      modifies `mem, `history
      ensures Safe() && mem.s.apc == AppIdle && mem.taken == old(mem.taken) + Flat(payloads)
      ensures payloads != [] && 0 < mem.s.prodTail <= |mem.s.ring|
      ensures Len(mem.s, mem.s.ring[mem.s.prodTail - 1]) == |payloads[|payloads| - 1]|
      ensures old(history) < history
    {
      hide Sound, MRun, MStep, Flat, Payloads, MInit, Uncrossed, Crosses, Positive, Step, Valid;
      Turn(env(6));
      IdleIsOff(mem);
      BuffFills(mem.s, payloads);
      Nothing(mem.s.accepted);
      Go(BuffFill(payloads), []);
      Turn(env(7));
      Releases(payloads);
    }

    method Releases(payloads: seq<seq<Byte>>)
      requires Safe() && mem.s.apc == BuffFilled(payloads)
      modifies `mem, `history
      ensures Safe() && mem.s.apc == AppIdle && mem.taken == old(mem.taken) + Flat(payloads)
      ensures payloads != [] && 0 < mem.s.prodTail <= |mem.s.ring|
      ensures Len(mem.s, mem.s.ring[mem.s.prodTail - 1]) == |payloads[|payloads| - 1]|
      ensures history == old(history) + [Own(App)]
    {
      hide Sound, MRun, MStep, Flat, MInit, Uncrossed, Crosses, Positive, Step, Valid;
      IdleIsOff(mem);
      SoundIsInv(mem);
      BuffReleases(mem.s, payloads);
      ReleasedLength(mem);
      Go(App, Flat(payloads));
    }

    /** app_direct_write: one idle ring buffer with a chain of new ones behind it.  The allocator gives new buffers, which
        the stack thread has not been given up to step `at` either, or it fails.  `last` of the first one is stored at step
        `stored`, and goes to a buffer that waits to be filled exactly if its memory is that of one. */
    method AppDirectWrite(buf: seq<Byte>, writeNum: nat, alloc: seq<Id>, env: nat -> seq<Move>)
      returns (sendLen: nat, ghost at: nat, ghost stored: nat)
      requires Safe() && mem.s.apc == AppIdle && Needs(|buf|, writeNum) && writeNum > 1 && mem.s.prodHead < |mem.s.ring|
      modifies `mem, `history, `remainLen
      ensures Valid() && old(history) <= history && mem.s.apc == AppIdle && |old(history)| <= at <= stored <= |history|
      ensures sendLen == if Fresh(Reached(cap, history, at).s, alloc) && |alloc| == writeNum - 1 then |buf| else 0
      ensures mem.taken == old(mem.taken) + buf[..sendLen]
      ensures remainLen == if sendLen > 0 then 0 else old(remainLen)
      ensures Uncrossed(cap, history) <==> sendLen == 0 || !Reached(cap, history, stored).tenant.Idle?
    {
      hide Sound, MRun, MStep, Flat, Payloads, MInit, Fresh, Reached, Uncrossed, Crosses, Positive, Step, Valid;
      Turn(env(6));
      at, stored := |history|, |history|;
      ghost var was := history;
      TurnedNow();
      if !Fresh(mem.s, alloc) || |alloc| != writeNum - 1 {
        return 0, at, stored;
      }
      var payloads := DoAppWrite(buf, writeNum);
      FillAndChain(alloc, payloads, env);
      stored := StoreLast();
      remainLen := 0;
      sendLen := |buf|;
      assert buf[..sendLen] == buf && sendLen > 0;
      ReachedBefore(cap, was, history, at);
    }

    method FillAndChain(alloc: seq<Id>, payloads: seq<seq<Byte>>, env: nat -> seq<Move>)
      requires Safe() && mem.s.apc == AppIdle && Payloads(payloads) && mem.s.prodHead < |mem.s.ring| && Fresh(mem.s, alloc)
      requires alloc != [] && |alloc| + 1 == |payloads|
      modifies `mem, `history
      ensures Safe() && mem.s.apc.DirectLast? && !mem.on && mem.taken == old(mem.taken) + Flat(payloads)
      ensures old(history) <= history
    {
      hide Sound, MRun, MStep, Flat, Payloads, MInit, Fresh, Uncrossed, Crosses, Positive, Step, Valid;
      IdleIsOff(mem);
      DirectFills(mem.s, alloc, payloads);
      Nothing(mem.s.accepted);
      Go(DirectFill(alloc, payloads), []);
      Turn(env(7));
      DirectReleases(mem.s);
      IdleIsOff(mem);
      Go(App, Flat(payloads));
      Turn(env(8));
    }

    /** pbufs[0]->last = pbufs[write_num - 1]. */
    method StoreLast() returns (ghost stored: nat)
      requires Safe() && mem.s.apc.DirectLast? && !mem.on
      modifies `mem, `history
      ensures Valid() && old(history) <= history && mem.s.apc == AppIdle && mem.taken == old(mem.taken)
      ensures stored == |old(history)| <= |history|
      ensures Uncrossed(cap, history) <==> !Reached(cap, history, stored).tenant.Idle?
    {
      hide Sound, MRun, MStep, MInit, Reached, Uncrossed, Crosses, Positive;
      stored := |history|;
      ghost var was := history;
      ReachedNow(cap, was);
      MovesOn(mem);
      Access(Own(App));
      ReachedBefore(cap, was, history, stored);
    }

    /** app_direct_attach and gazelle_ring_lastover: a chain of new buffers behind the last released one, which the others
        leave as it is until the chain is linked at step `at` - or behind what the slot leads to by then. */
    method AppDirectAttach(buf: seq<Byte>, writeNum: nat, alloc: seq<Id>, env: nat -> seq<Move>, ghost payloads: seq<seq<Byte>>)
      returns (sendLen: nat, ghost at: nat)
      requires Safe() && LetIn(mem) && mem.s.apc.job == Attach(alloc, payloads) && Payloads(payloads)
      requires |payloads| == writeNum && Flat(payloads) == buf
      modifies `mem, `history
      ensures Valid() && old(history) <= history && mem.s.apc == AppIdle && |old(history)| <= at <= |history|
      ensures sendLen == if Fresh(Reached(cap, history, at).s, alloc) && |alloc| == writeNum then |buf| else 0
      ensures !old(mem.on) ==> LastOf(Reached(cap, history, at).s, old(mem).s.apc.p) == LastOf(old(mem).s, old(mem).s.apc.p)
      ensures mem.taken == old(mem.taken) + buf[..sendLen]
      ensures Uncrossed(cap, history) <==> sendLen == 0 || !Reached(cap, history, at).tenant.Idle?
    {
      hide Sound, MRun, MStep, Flat, Payloads, MInit, Fresh, Positive, Reached, LastOf, Uncrossed, Crosses, Step, Valid;
      Turn(env(2));
      if !old(mem.on) { LastKeeps(old(mem), mem); }
      at := |history|;
      ghost var was := history;
      TurnedNow();
      if !Fresh(mem.s, alloc) || |alloc| != writeNum {
        AttachesAt(mem, alloc, payloads);
        Access(Own(App));
        ReachedBefore(cap, was, history, at);
        return 0, at;
      }
      FlatIsPositive(payloads);
      LinkChain(alloc, env, payloads);
      sendLen := |buf|;
      assert buf[..sendLen] == buf;
      ReachedBefore(cap, was, history, at);
    }

    /** attach_pbuf->last->next = pbufs[0], then attach_pbuf->last = pbufs[write_num - 1], and the lock is dropped.  Of somebody
        else's buffer this is one step. */
    method LinkChain(alloc: seq<Id>, env: nat -> seq<Move>, ghost payloads: seq<seq<Byte>>)
      requires Safe() && LetIn(mem) && mem.s.apc.job == Attach(alloc, payloads) && Payloads(payloads)
      requires Fresh(mem.s, alloc) && |alloc| == |payloads|
      modifies `mem, `history
      ensures Valid() && old(history) <= history && mem.s.apc == AppIdle && mem.taken == old(mem.taken) + Flat(payloads)
      ensures Uncrossed(cap, history) <==> !old(mem).tenant.Idle?
    {
      hide Sound, MRun, MStep, Flat, Payloads, MInit, Fresh, Positive, Uncrossed, Crosses;
      AttachesAt(mem, alloc, payloads);
      Access(Own(App));
      if mem.s.apc != AppIdle {
        Others(env(3));
        MovesOn(mem);
        Access(Own(App));
        Others(env(4));
        MovesOn(mem);
        Access(Own(App));
      }
    }

    /** write_stack_data, up to its bookkeeping of events and statistics.  `alloc` is what the allocator hands out
        in this call; anything but the wanted number of new buffers is a failed allocation. */
    method WriteStackData(buf: seq<Byte>, alloc: seq<Id>, env: nat -> seq<Move>) returns (r: int)
      requires Safe() && mem.s.apc == AppIdle
      modifies this
      ensures Valid() && mem.s.apc == AppIdle && old(history) <= history
      ensures !expand ==> Safe()
      ensures r <= |buf| && mem.taken == old(mem.taken) + if r > 0 then buf[..r] else []
      ensures r == 0 <==> old(errevent) == 0 && (!old(attached) || buf == [])
      ensures old(errevent) == 0 && old(attached) && buf != [] && BuffersFor(|buf|) <= |old(mem.s.ring)| - old(mem.s.prodHead)
              ==> r == |buf|
      ensures old(errevent) == 0 && old(attached) && buf != [] && !expand && |old(mem.s.ring)| > old(mem.s.prodHead)
              ==> r >= Min(|buf|, (|old(mem.s.ring)| - old(mem.s.prodHead)) * MAX)
    {
      hide Sound, MRun, MStep, MInit, Flat, Payloads, Fresh, Uncrossed, Positive;
      if errevent > 0 {
        return -1;
      }
      if !attached || |buf| == 0 {
        return 0;
      }
      Cursors(mem);
      var sendLen := 0;
      if remainLen != 0 {
        sendLen := MergeDataLastPbuf(buf, env);
        if sendLen >= |buf| {
          assert buf[..sendLen] == buf;
          return sendLen;
        }
      }
      Cursors(mem);
      r := WriteRest(buf, sendLen, alloc, env);
    }

    /** With no idle ring buffer left, the data is chained behind the last released one. */
    method AttachRest(rest: seq<Byte>, writeNum: nat, alloc: seq<Id>, env: nat -> seq<Move>) returns (sendLen: nat)
      requires Safe() && mem.s.apc == AppIdle && Needs(|rest|, writeNum)
      modifies `mem, `history
      ensures Valid() && mem.s.apc == AppIdle && old(history) <= history
      ensures (sendLen == 0 || sendLen == |rest|) && mem.taken == old(mem.taken) + rest[..sendLen]
    {
      hide Sound, MRun, MStep, MInit, Flat, Payloads, Fresh, Needs, Reached, Positive, Uncrossed;
      var payloads := DoAppWrite(rest, writeNum);
      Others(env(15));
      var found, _, _ := ReadLast(Attach(alloc, payloads), (k: nat) => env(k + 10));
      sendLen := 0;
      if found {
        ghost var at;
        sendLen, at := AppDirectAttach(rest, writeNum, alloc, (k: nat) => env(k + 10), payloads);
      }
    }

    /** With idle ring buffers left: fill them, or one with a chain behind it, or as many as there are. */
    method WriteRing(buf: seq<Byte>, done: nat, writeNum: nat, avail: nat, alloc: seq<Id>, env: nat -> seq<Move>) returns (n: nat)
      requires Safe() && mem.s.apc == AppIdle && done < |buf| && done < MAX && Needs(|buf| - done, writeNum)
      requires 0 < avail == |mem.s.ring| - mem.s.prodHead
      modifies this
      ensures Valid() && mem.s.apc == AppIdle && old(history) <= history
      ensures !expand ==> Safe()
      ensures done + n <= |buf| && mem.taken == old(mem.taken) + buf[done..done + n]
      ensures writeNum <= avail ==> done + n == |buf|
      ensures !expand && writeNum > avail ==> done + n == avail * MAX
    {
      hide Sound, MRun, MStep, MInit, Flat, Payloads, Fresh, Uncrossed, Positive, Reached, Valid;
      ghost var at, stored;
      var rest := buf[done..];
      if expand {
        if writeNum <= avail {
          n, at := AppBuffWrite(rest, writeNum, env);
        } else {
          n, at, stored := AppDirectWrite(rest, writeNum, alloc, env);
        }
        assert rest[..n] == buf[done..done + n];
      } else {
        var len := |buf|;
        var num := writeNum;
        if num > avail {
          num := avail;
          len := num * MAX;
          Cut(|buf| - done, done, writeNum, avail);
        }
        n, at := AppBuffWrite(buf[done..len], num, env);
      }
    }

    /** The rest of the call, once `done` bytes were merged. */
    method WriteRest(buf: seq<Byte>, done: nat, alloc: seq<Id>, env: nat -> seq<Move>) returns (r: int)
      requires Safe() && mem.s.apc == AppIdle && done < |buf| && done < MAX && mem.s.prodHead <= |mem.s.ring|
      modifies this
      ensures Valid() && mem.s.apc == AppIdle && old(history) <= history
      ensures !expand ==> Safe()
      ensures r != 0 && done <= (if r > 0 then r else 0) <= |buf|
      ensures mem.taken == old(mem.taken) + buf[done..if r > 0 then r else 0]
      ensures BuffersFor(|buf|) <= |old(mem.s.ring)| - old(mem.s.prodHead) ==> r == |buf|
      ensures !expand && |old(mem.s.ring)| > old(mem.s.prodHead) ==> r >= Min(|buf|, (|old(mem.s.ring)| - old(mem.s.prodHead)) * MAX)
    {
      hide Sound, MRun, MStep, MInit, Flat, Payloads, Fresh, Uncrossed, Positive, Reached, Needs;
      var sendLen := done;
      var rest := buf[done..];
      var writeNum := BuffersFor(|rest|);
      BuffersForNeeds(|rest|);
      Others(env(9));
      Cursors(mem);
      var avail := |mem.s.ring| - mem.s.prodHead;
      if avail == 0 {
        if expand {
          var n := AttachRest(rest, writeNum, alloc, env);
          sendLen := sendLen + n;
          remainLen := 0;
        }
      } else {
        var n := WriteRing(buf, done, writeNum, avail, alloc, env);
        sendLen := sendLen + n;
      }
      if sendLen == 0 {
        return -1;
      }
      return sendLen;
    }
  }
}
