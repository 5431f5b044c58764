/** What single accesses of the send path change and what they leave alone. */
module SendFrames {
  import opened SendPath
  import opened SendInvariant
  import opened SendPathProof

  predicate ByStack(a: Action) {
    a.CallWrite? || a.Stack? || a.WriteOver? || a.Replenish?
  }

  /** What a step of the stack thread leaves alone. */
  ghost predicate AppView(s: State, t: State) {
    && t.apc == s.apc && t.accepted == s.accepted && t.prodTail == s.prodTail && t.prodHead == s.prodHead
    && s.ring <= t.ring && t.len == s.len && t.last == s.last && t.stream == s.stream && t.start == s.start
    && t.appLock == s.appLock && t.cap == s.cap && s.done <= t.done
  }

  lemma StackLeavesApp(s: State, a: Action)
    requires ByStack(a)
    ensures AppView(s, Step(s, a))
  {
    hide Fresh, Data, AppView, StepStack, DoCallWrite, DoWriteOver, DoReplenish;
    match a
    case CallWrite(r) => CallLeavesApp(s, r);
    case Stack => StepStackLeavesApp(s);
    case WriteOver => OverLeavesApp(s);
    case Replenish(ids) => ReplenishLeavesApp(s, ids);
  }

  lemma CallLeavesApp(s: State, r: nat)
    ensures AppView(s, DoCallWrite(s, r))
  {
  }

  lemma OverLeavesApp(s: State)
    ensures AppView(s, DoWriteOver(s))
  {
  }

  lemma ReplenishLeavesApp(s: State, ids: seq<Id>)
    ensures AppView(s, DoReplenish(s, ids))
  {
    hide Fresh;
  }

  lemma StepStackLeavesApp(s: State)
    ensures AppView(s, StepStack(s))
  {
    hide AppView, Dequeue, TakeLastData, StepPre;
    match s.spc
    case StackIdle => SameView(s, s);
    case DeqLoad(r) => SameView(s, ReturnNull(s)); SameView(s, s.(spc := DeqStore(r)));
    case DeqStore(r) => DequeueLeavesApp(s, r);
    case TakeLast(r) => SameView(s, s); if s.lastData.To? { TakeLeavesApp(s, s.lastData.id, r); }
    case _ => SameView(s, s); if s.preDel.To? { StepPreLeavesApp(s, s.preDel.id); }
  }

  lemma SameView(s: State, t: State)
    requires t == s.(spc := t.spc)
    ensures AppView(s, t)
  {
  }

  lemma DequeueLeavesApp(s: State, r: nat)
    ensures AppView(s, Dequeue(s, r))
  {
    if s.consTail >= |s.ring| || s.consTail + 1 >= |s.start| { assert Dequeue(s, r) == s; }
    else {
      assert Dequeue(s, r) ==
             s.(consTail := s.consTail + 1, preDel := To(s.ring[s.consTail]), spc := CountOver(r),
                preEnd := s.start[s.consTail + 1], lastEnd := s.start[s.consTail + 1]);
    }
    hide Dequeue;
  }

  lemma TakeLeavesApp(s: State, p: Id, r: nat)
    ensures AppView(s, TakeLastData(s, p, r))
  {
    hide Data;
    if Len(s, p) > r { assert TakeLastData(s, p, r) == ReturnNull(s); }
    else { assert TakeLastData(s, p, r) == Return(s.(preDel := To(p), lastData := NextOf(s.next, p)), p); }
    hide TakeLastData, Len, NextOf;
  }

  lemma StepPreLeavesApp(s: State, p: Id)
    ensures AppView(s, StepPre(s, p))
  {
    hide AppView, TakeStackLock, TryClose, Return, Len;
    match s.spc
    case PreLock(r) => LocksLeaveApp(s, p, r, PreLocked(r));
    case PreLocked(r) => LocksLeaveApp(s, p, r, PreMove);
    case PreMove => ReturnLeavesApp(s, p, s.lastData); ReturnLeavesApp(s, p, NextOf(s.next, p));
    case CountOver(r) => SameView(s, StepPre(s, p));
    case RingLock(r) => LocksLeaveApp(s, p, r, RingLocked(r));
    case RingLocked(r) => LocksLeaveApp(s, p, r, RingMove);
    case RingOpen(r) => SameView(s, ReturnNull(s)); SameView(s, s.(spc := RingMove));
    case RingMove => ReturnLeavesApp(s, p, NextOf(s.next, p));
    case _ => SameView(s, s);
  }

  lemma LocksLeaveApp(s: State, p: Id, r: nat, next: StackPc)
    ensures AppView(s, TakeStackLock(s, p, next)) && AppView(s, TryClose(s, p, r, next))
  {
    LockLeavesApp(s, p, next);
    CloseLeavesApp(s, p, r, next);
    hide *;
  }

  lemma LockLeavesApp(s: State, p: Id, next: StackPc)
    ensures AppView(s, TakeStackLock(s, p, next))
  {
    if s.appLock == To(p) { assert AppView(s, TakeStackLock(s, p, next)); }
    else { assert AppView(s, TakeStackLock(s, p, next)); }
    hide *;
  }

  lemma CloseLeavesApp(s: State, p: Id, r: nat, next: StackPc)
    ensures AppView(s, TryClose(s, p, r, next))
  {
    if Len(s, p) <= r { assert AppView(s, TryClose(s, p, r, next)); }
    else { assert AppView(s, TryClose(s, p, r, next)); }
    hide *;
  }

  lemma ReturnLeavesApp(s: State, p: Id, lastData: Ptr)
    ensures AppView(s, Return(s.(lastData := lastData), p))
  {
    hide Data;
  }

  /** What a step of the application leaves alone. */
  ghost predicate Appends(s: State, t: State) {
    t.done == s.done && t.ring == s.ring && t.consTail == s.consTail && s.stream <= t.stream && s.accepted <= t.accepted
  }

  lemma AppAppends(s: State, a: Action)
    requires !ByStack(a)
    ensures Appends(s, Step(s, a))
  {
    hide Appends, StepApp, DoBuffFill, DoDirectFill;
    match a
    case App => StepAppAppends(s);
    case LoadTail(job) => LoadAppends(s, job);
    case AllocFails => FailAppends(s);
    case BuffFill(payloads) => FillAppends(s, [], payloads);
    case DirectFill(ids, payloads) => FillAppends(s, ids, payloads);
    hide Step;
  }

  lemma LoadAppends(s: State, job: Job)
    ensures Appends(s, Step(s, LoadTail(job)))
  {
    if s.apc == AppIdle { assert Step(s, LoadTail(job)) == s.(apc := LastLoaded(s.consTail, job)); }
    else { assert Step(s, LoadTail(job)) == s; }
    hide Step;
  }

  lemma FailAppends(s: State)
    ensures Appends(s, Step(s, AllocFails))
  {
    if s.apc.LastAllowed? && s.apc.job.Attach? { assert Step(s, AllocFails) == UnlockApp(s); }
    else { assert Step(s, AllocFails) == s; }
    hide Step;
  }

  lemma FillAppends(s: State, ids: seq<Id>, payloads: seq<seq<Byte>>)
    ensures Appends(s, DoBuffFill(s, payloads)) && Appends(s, DoDirectFill(s, ids, payloads))
  {
    hide SetData, SetLen, Link, Fresh, Payloads;
    assert Appends(s, DoBuffFill(s, payloads));
    hide DoBuffFill;
  }

  lemma StepAppAppends(s: State)
    ensures Appends(s, StepApp(s))
  {
    hide Appends, TakeAppLock, BeginMerge, BeginAttach, DoBuffOver, DoDirectOver, Data;
    match s.apc
    case AppIdle => SameAppends(s, s);
    case LastLoaded(tail, job) => LockAppends(s, tail, job);
    case LastLocked(p, job) => SameAppends(s, UnlockApp(s)); SameAppends(s, s.(apc := LastAllowed(p, job)));
    case LastAllowed(p, Merge(bytes)) => MergeAppends(s, p, bytes);
    case LastAllowed(p, Attach(ids, payloads)) => AttachAppends(s, p, ids, payloads);
    case MergeCopy(p, chunk) => CopyAppends(s, Data(s, p) + chunk, chunk);
    case AttachLast(p, l) => LastAppends(s, p, l, Holding(p));
    case Holding(p) => SameAppends(s, UnlockApp(s));
    case BuffFilled(payloads) => SameAppends(s, s); if s.prodTail <= s.prodHead <= |s.ring| { BuffOverAppends(s, payloads); }
    case DirectFilled(ids, payloads) => SameAppends(s, s); if ids != [] { DirectOverAppends(s, ids, payloads); }
    case DirectLast(p, l) => LastAppends(s, p, l, AppIdle);
  }

  lemma SameAppends(s: State, t: State)
    requires t == s.(apc := t.apc, appLock := t.appLock)
    ensures Appends(s, t)
  {
  }

  lemma LockAppends(s: State, tail: nat, job: Job)
    ensures Appends(s, TakeAppLock(s, tail, job))
  {
  }

  lemma MergeAppends(s: State, p: Id, bytes: seq<Byte>)
    ensures Appends(s, BeginMerge(s, p, bytes))
  {
  }

  lemma AttachAppends(s: State, p: Id, ids: seq<Id>, payloads: seq<seq<Byte>>)
    ensures Appends(s, BeginAttach(s, p, ids, payloads))
  {
    hide SetData, SetLen, Link, Flat, ButLast, Fresh, Payloads;
  }

  lemma CopyAppends(s: State, bytes: seq<Byte>, chunk: seq<Byte>)
    requires s.apc.MergeCopy?
    ensures Appends(s, s.(data := s.data[s.apc.p := bytes], accepted := s.accepted + chunk, apc := Holding(s.apc.p)))
  {
  }

  lemma LastAppends(s: State, p: Id, l: Id, apc: AppPc)
    ensures Appends(s, s.(last := s.last[p := l], apc := apc))
  {
  }

  lemma BuffOverAppends(s: State, payloads: seq<seq<Byte>>)
    requires s.prodTail <= s.prodHead <= |s.ring|
    ensures Appends(s, DoBuffOver(s, payloads))
  {
    hide Flat;
  }

  lemma DirectOverAppends(s: State, ids: seq<Id>, payloads: seq<seq<Byte>>)
    requires ids != []
    ensures Appends(s, DoDirectOver(s, ids, payloads))
  {
    hide Flat;
  }

  /** The last released buffer under the lock, with allow_in seen set: it is open, and its link is fixed by the stream. */
  lemma LastFacts(s: State)
    requires Inv(s) && s.apc.LastAllowed?
    ensures var p := s.apc.p;
            && 0 < s.prodTail <= |s.ring| && p == s.ring[s.prodTail - 1] && s.appLock == To(p) && p !in s.closed
            && s.prodTail <= |s.start| && NextOf(s.next, p) == After(s.stream, s.start[s.prodTail - 1], |s.stream|)
  {
    AppKnows(s);
    LastChain(s, s.apc.p);
    hide Inv;
    FirstLink(s.next, s.stream, s.start[s.prodTail - 1]);
  }

  /** Meanwhile the stack thread changes neither its link, nor its length, nor its `last`, and cannot close it. */
  lemma LastStays(s: State, t: State)
    requires Inv(s) && Inv(t) && AppView(s, t) && s.apc.LastAllowed?
    ensures var p := s.apc.p;
            && NextOf(t.next, p) == NextOf(s.next, p) && Len(t, p) == Len(s, p) && LastOf(t, p) == LastOf(s, p)
            && p !in t.closed
  {
    LastFacts(s);
    LastFacts(t);
    hide Inv, NextOf, After;
  }

  lemma FirstLink(next: map<Id, Id>, stream: seq<Id>, a: nat)
    requires a < |stream| && Seg(next, stream, a, |stream|)
    ensures NextOf(next, stream[a]) == After(stream, a, |stream|)
  {
  }

  lemma {:induction false} RunSnoc(s: State, trace: seq<Action>, a: Action)
    ensures Run(s, trace + [a]) == Step(Run(s, trace), a)
  {
    hide Step;
    assert (trace + [a])[..|trace|] == trace;
  }

  lemma {:induction false} FlatSnoc(payloads: seq<seq<Byte>>, x: seq<Byte>)
    ensures Flat(payloads + [x]) == Flat(payloads) + x
  {
    assert (payloads + [x])[..|payloads|] == payloads;
  }

  /** `len` bytes need exactly `num` buffers. */
  predicate Needs(len: nat, num: nat) {
    0 < num && (num - 1) * MAX < len <= num * MAX
  }

  function BuffersFor(len: nat): nat { (len + MAX - 1) / MAX }

  lemma BuffersForNeeds(len: nat)
    requires len > 0
    ensures Needs(len, BuffersFor(len))
  {
  }

  lemma EmptyFlat()
    ensures Flat([]) == []
  {
  }

  lemma {:induction false} FlatLength(payloads: seq<seq<Byte>>)
    requires forall i :: 0 <= i < |payloads| - 1 ==> |payloads[i]| == MAX
    ensures payloads != [] ==> |Flat(payloads)| == (|payloads| - 1) * MAX + |payloads[|payloads| - 1]|
  {
    if payloads != [] {
      var n := |payloads| - 1;
      FlatLength(payloads[..n]);
      if n > 0 { assert payloads[..n][n - 1] == payloads[n - 1]; }
    }
  }

  lemma LastPiece(payloads: seq<seq<Byte>>, len: nat, num: nat)
    requires |payloads| == num && Needs(len, num) && |Flat(payloads)| == len
    requires forall i :: 0 <= i < num - 1 ==> |payloads[i]| == MAX
    ensures 0 < num && |payloads[num - 1]| <= MAX && MAX - |payloads[num - 1]| == num * MAX - len
  {
    FlatLength(payloads);
    assert (num - 1) * MAX == num * MAX - MAX;
  }

  // ----- what the application's own accesses do, one by one -----

  lemma Loads(s: State, job: Job)
    requires s.apc == AppIdle
    ensures Step(s, LoadTail(job)) == s.(apc := LastLoaded(s.consTail, job))
  {
  }

  /** The cursor test of gazelle_ring_readlast on a tail loaded before, and the trylock. */
  predicate LastIsFree(s: State, tail: nat) {
    tail < s.prodTail <= |s.ring| && s.prodTail - tail <= s.cap && s.stackLock != To(s.ring[s.prodTail - 1])
  }

  predicate LastIsOpen(s: State) {
    0 < s.prodTail <= |s.ring| && s.ring[s.prodTail - 1] !in s.closed
  }

  lemma Locks(s: State)
    requires s.apc.LastLoaded?
    ensures var t := Step(s, App);
            && t.accepted == s.accepted && t.prodHead == s.prodHead && t.ring == s.ring && t.prodTail == s.prodTail
            && (if LastIsFree(s, s.apc.tail) then t.apc == LastLocked(s.ring[s.prodTail - 1], s.apc.job) else t.apc == AppIdle)
            && (t.apc.LastLocked? ==> 0 < t.prodTail <= |t.ring| && t.apc.p == t.ring[t.prodTail - 1])
  {
    LoadedSteps(s);
    hide Step, TakeAppLock, LastIsFree;
    if LastIsFree(s, s.apc.tail) { LockTaken(s, s.apc.tail, s.apc.job); } else { LockNotTaken(s, s.apc.tail, s.apc.job); }
  }

  lemma LoadedSteps(s: State)
    requires s.apc.LastLoaded?
    ensures Step(s, App) == StepApp(s) == TakeAppLock(s, s.apc.tail, s.apc.job)
  {
    hide TakeAppLock;
  }

  lemma LockTaken(s: State, tail: nat, job: Job)
    requires LastIsFree(s, tail)
    ensures 0 < s.prodTail <= |s.ring|
    ensures var p := s.ring[s.prodTail - 1];
            TakeAppLock(s, tail, job) == s.(appLock := To(p), apc := LastLocked(p, job))
  {
  }

  lemma LockNotTaken(s: State, tail: nat, job: Job)
    requires !LastIsFree(s, tail)
    ensures TakeAppLock(s, tail, job) == s.(apc := AppIdle)
  {
  }

  lemma ChecksOpen(s: State)
    requires s.apc.LastLocked?
    ensures var t := Step(s, App);
            && t.accepted == s.accepted && t.prodHead == s.prodHead && t.ring == s.ring && t.prodTail == s.prodTail
            && t.apc == if s.apc.p in s.closed then AppIdle else LastAllowed(s.apc.p, s.apc.job)
  {
    hide TakeAppLock, BeginMerge, BeginAttach, DoBuffOver, DoDirectOver;
    if s.apc.p in s.closed { assert Step(s, App) == UnlockApp(s); }
    else { assert Step(s, App) == s.(apc := LastAllowed(s.apc.p, s.apc.job)); }
    hide StepApp;
  }

  lemma MergeRefused(s: State, p: Id, bytes: seq<Byte>)
    requires s.apc == LastAllowed(p, Merge(bytes)) && (p in s.next || Len(s, p) >= MAX)
    ensures Step(s, App) == UnlockApp(s)
  {
  }

  lemma MergeStarts(s: State, p: Id, bytes: seq<Byte>, k: nat)
    requires s.apc == LastAllowed(p, Merge(bytes)) && p !in s.next && Len(s, p) < MAX
    requires k == Min(MAX - Len(s, p), |bytes|)
    ensures var t := Step(s, App);
            && t.apc == MergeCopy(p, bytes[..k]) && t.accepted == s.accepted
            && t.prodTail == s.prodTail && t.prodHead == s.prodHead && t.ring == s.ring
  {
  }

  lemma MergeCopies(s: State)
    requires s.apc.MergeCopy?
    ensures var t := Step(s, App);
            && t.apc == Holding(s.apc.p) && t.accepted == s.accepted + s.apc.chunk
            && t.prodHead == s.prodHead && t.ring == s.ring
  {
  }

  lemma Unlocks(s: State)
    requires s.apc.Holding?
    ensures Step(s, App) == UnlockApp(s)
  {
  }

  lemma BuffFills(s: State, payloads: seq<seq<Byte>>)
    requires s.apc == AppIdle && Payloads(payloads) && s.prodHead + |payloads| <= |s.ring|
    ensures var t := Step(s, BuffFill(payloads)); t.apc == BuffFilled(payloads) && t.accepted == s.accepted
  {
    hide SetData, SetLen, Payloads;
  }

  lemma BuffReleases(s: State, payloads: seq<seq<Byte>>)
    requires Inv(s) && s.apc == BuffFilled(payloads)
    ensures Step(s, App).apc == AppIdle && Step(s, App).accepted == s.accepted + Flat(payloads)
  {
    AppKnows(s);
    hide Inv;
  }

  lemma DirectFills(s: State, ids: seq<Id>, payloads: seq<seq<Byte>>)
    requires s.apc == AppIdle && Payloads(payloads) && s.prodHead < |s.ring| && Fresh(s, ids)
    requires ids != [] && |ids| + 1 == |payloads|
    ensures var t := Step(s, DirectFill(ids, payloads));
            t.apc.DirectFilled? && t.apc.payloads == payloads && t.apc.ids != [] && t.accepted == s.accepted
  {
    hide SetData, SetLen, Link, Payloads, Fresh;
  }

  lemma DirectReleases(s: State)
    requires s.apc.DirectFilled? && s.apc.ids != []
    ensures Step(s, App).apc.DirectLast? && Step(s, App).accepted == s.accepted + Flat(s.apc.payloads)
  {
  }

  lemma LastMoves(s: State)
    requires s.apc.DirectLast? || s.apc.AttachLast?
    ensures var t := Step(s, App); t.accepted == s.accepted && if s.apc.DirectLast? then t.apc == AppIdle else t.apc.Holding?
  {
  }

  lemma Attaches(s: State, ids: seq<Id>, payloads: seq<seq<Byte>>)
    requires s.apc.LastAllowed? && s.apc.job == Attach(ids, payloads) && Payloads(payloads)
    ensures var t := Step(s, App);
            if Fresh(s, ids) && |ids| == |payloads| then t.apc.AttachLast? && t.accepted == s.accepted + Flat(payloads)
            else t == UnlockApp(s)
  {
    hide SetData, SetLen, Link, Fresh;
  }

  // ----- no buffer is ever released empty -----

  ghost predicate Positive(len: map<Id, nat>) {
    forall p :: p in len ==> len[p] > 0
  }

  lemma {:induction false} SetLenPositive(len: map<Id, nat>, ids: seq<Id>, payloads: seq<seq<Byte>>)
    requires |ids| == |payloads| && Positive(len) && forall i :: 0 <= i < |payloads| ==> 0 < |payloads[i]|
    ensures Positive(SetLen(len, ids, payloads))
  {
    if ids != [] { SetLenPositive(len, ids[..|ids| - 1], payloads[..|ids| - 1]); }
  }

  lemma LastHasLength(s: State)
    requires Inv(s) && s.apc.LastAllowed?
    ensures s.apc.p in s.len
  {
    AppKnows(s);
    hide Seg, RingChains, Content, Given, Clean, LastIsEnd, LetsIn, Front, Pointers, AppFacts, StackFacts;
    var k := s.start[s.prodTail - 1];
    assert k < s.start[s.prodTail];
    assert s.stream[k] == s.apc.p;
  }

  lemma PositiveLen(s: State)
    requires Inv(s) && s.apc.LastAllowed? && Positive(s.len)
    ensures Len(s, s.apc.p) > 0
  {
    LastHasLength(s);
    hide Inv;
  }

  lemma MergeKeepsPositive(s: State, p: Id, bytes: seq<Byte>)
    requires p in s.len && Positive(s.len)
    ensures Positive(BeginMerge(s, p, bytes).len)
  {
    if p in s.next || Len(s, p) >= MAX { assert BeginMerge(s, p, bytes).len == s.len; }
    else { assert BeginMerge(s, p, bytes).len == s.len[p := Len(s, p) + Min(MAX - Len(s, p), |bytes|)]; }
    hide BeginMerge;
  }

  lemma AttachKeepsPositive(s: State, p: Id, ids: seq<Id>, payloads: seq<seq<Byte>>)
    requires Positive(s.len)
    ensures Positive(BeginAttach(s, p, ids, payloads).len)
  {
    hide SetLen, SetData, Link, Fresh, Positive;
    if Fresh(s, ids) && |ids| == |payloads| && Payloads(payloads) {
      SetLenPositive(s.len, ids, payloads);
      assert BeginAttach(s, p, ids, payloads).len == SetLen(s.len, ids, payloads);
    } else {
      assert BeginAttach(s, p, ids, payloads).len == s.len;
    }
    hide BeginAttach;
  }

  lemma LoadedKeepsLen(s: State)
    requires s.apc.LastLoaded?
    ensures StepApp(s).len == s.len
  {
    LoadedSteps(s);
    hide StepApp, Step, TakeAppLock, LastIsFree;
    if LastIsFree(s, s.apc.tail) { LockTaken(s, s.apc.tail, s.apc.job); } else { LockNotTaken(s, s.apc.tail, s.apc.job); }
  }

  lemma LockedKeepsLen(s: State)
    requires s.apc.LastLocked?
    ensures StepApp(s).len == s.len
  {
    hide TakeAppLock, BeginMerge, BeginAttach, DoBuffOver, DoDirectOver;
    if s.apc.p in s.closed { assert StepApp(s) == UnlockApp(s); }
    else { assert StepApp(s) == s.(apc := LastAllowed(s.apc.p, s.apc.job)); }
    hide StepApp;
  }

  lemma ReleaseKeepsLen(s: State)
    requires s.apc.BuffFilled? || s.apc.DirectFilled?
    ensures StepApp(s).len == s.len
  {
    hide TakeAppLock, BeginMerge, BeginAttach, Flat;
    if s.apc.BuffFilled? {
      if s.prodTail <= s.prodHead <= |s.ring| { assert StepApp(s) == DoBuffOver(s, s.apc.payloads); } else { assert StepApp(s) == s; }
    } else if s.apc.ids == [] { assert StepApp(s) == s; }
    else { assert StepApp(s) == DoDirectOver(s, s.apc.ids, s.apc.payloads); }
    hide StepApp;
  }

  lemma OthersKeepLen(s: State)
    requires !s.apc.LastAllowed?
    ensures StepApp(s).len == s.len
  {
    if s.apc.LastLoaded? { LoadedKeepsLen(s); }
    else if s.apc.LastLocked? { LockedKeepsLen(s); }
    else if s.apc.BuffFilled? || s.apc.DirectFilled? { ReleaseKeepsLen(s); }
    else { RestKeepsLen(s); }
    hide *;
  }

  lemma RestKeepsLen(s: State)
    requires s.apc.AppIdle? || s.apc.MergeCopy? || s.apc.AttachLast? || s.apc.Holding? || s.apc.DirectLast?
    ensures StepApp(s).len == s.len
  {
    hide TakeAppLock, BeginMerge, BeginAttach, DoBuffOver, DoDirectOver, Data;
  }

  lemma AppKeepsPositive(s: State)
    requires Inv(s) && Positive(s.len)
    ensures Positive(StepApp(s).len)
  {
    if s.apc.LastAllowed? {
      LastHasLength(s);
      hide Inv, BeginMerge, BeginAttach, Positive;
      if s.apc.job.Merge? { MergeKeepsPositive(s, s.apc.p, s.apc.job.bytes); assert StepApp(s) == BeginMerge(s, s.apc.p, s.apc.job.bytes); }
      else {
        AttachKeepsPositive(s, s.apc.p, s.apc.job.ids, s.apc.job.payloads);
        assert StepApp(s) == BeginAttach(s, s.apc.p, s.apc.job.ids, s.apc.job.payloads);
      }
      hide StepApp;
    } else {
      OthersKeepLen(s);
      hide *;
    }
  }

  lemma BuffFillKeepsPositive(s: State, payloads: seq<seq<Byte>>)
    requires Positive(s.len)
    ensures Positive(DoBuffFill(s, payloads).len)
  {
    hide SetLen, SetData, Positive;
    var h := s.prodHead + |payloads|;
    if s.apc != AppIdle || !Payloads(payloads) || h > |s.ring| {
      assert DoBuffFill(s, payloads) == s;
    } else {
      SetLenPositive(s.len, s.ring[s.prodHead..h], payloads);
      assert DoBuffFill(s, payloads).len == SetLen(s.len, s.ring[s.prodHead..h], payloads);
    }
    hide DoBuffFill;
  }

  lemma DirectFillKeepsPositive(s: State, ids: seq<Id>, payloads: seq<seq<Byte>>)
    requires Positive(s.len)
    ensures Positive(DoDirectFill(s, ids, payloads).len)
  {
    hide SetLen, SetData, Link, Fresh, Positive;
    if s.apc != AppIdle || !Payloads(payloads) || s.prodHead >= |s.ring| || !Fresh(s, ids)
       || ids == [] || |ids| + 1 != |payloads| {
      assert DoDirectFill(s, ids, payloads) == s;
    } else {
      var all := [s.ring[s.prodHead]] + ids;
      SetLenPositive(s.len, all, payloads);
      assert DoDirectFill(s, ids, payloads).len == SetLen(s.len, all, payloads);
    }
    hide DoDirectFill;
  }

  lemma StepKeepsPositive(s: State, a: Action)
    requires Inv(s) && Positive(s.len)
    ensures Positive(Step(s, a).len)
  {
    hide Inv, Positive, StepApp, StepStack, DoBuffFill, DoDirectFill, DoCallWrite, DoWriteOver, DoReplenish;
    match a
    case LoadTail(_) => if s.apc == AppIdle { assert Step(s, a).len == s.len; } else { assert Step(s, a).len == s.len; }
    case App => AppKeepsPositive(s);
    case AllocFails =>
      if s.apc.LastAllowed? && s.apc.job.Attach? { assert Step(s, a).len == s.len; } else { assert Step(s, a).len == s.len; }
    case BuffFill(payloads) => BuffFillKeepsPositive(s, payloads);
    case DirectFill(ids, payloads) => DirectFillKeepsPositive(s, ids, payloads);
    case _ => StackLeavesApp(s, a); hide Step;
  }
}
