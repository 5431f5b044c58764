/** The send path when the memory of freed packet buffers is allocated anew.

    SendPath names buffers by allocation.  Almost every pointer leads to the allocation it was stored for
    (TouchesLive).  The exception is the slot before prod.tail: once the buffer released last is confirmed and
    freed, its memory may be allocated again while the application still stands inside gazelle_ring_readlast or
    before the last store of app_direct_write, and is then a different buffer with a new lock and allow_in set. */
module SendRecycle {
  import opened SendPath
  import opened SendInvariant
  import opened SendPathProof
  import opened SendFrames

  const U16: nat := 0x1_0000

  /** What the slot before prod.tail leads to: the buffer that was released there, a buffer that replenish has put
      into this ring and that waits to be filled, or a buffer that somebody else uses. */
  datatype Tenant = Itself | Idle(q: Id) | Foreign(open: bool, linked: bool, len: nat)

  datatype Memory = Memory(
    s: State,
    freed: set<Id>,     // the buffers that lwip has freed
    tenant: Tenant,
    on: bool,           // the application has seen allow_in of the tenant set
    taken: seq<Byte>)   // the bytes accepted from the application, wherever they went

  datatype Move = Own(a: Action)
    | Free(p: Id)                                      // lwip frees a confirmed buffer
    | Reuse(ids: seq<Id>, k: nat)                      // replenish; ids[k] is in the memory of the last buffer
    | Elsewhere(open: bool, linked: bool, len: nat)    // somebody else uses the memory of the last buffer

  function MInit(cap: nat): Memory { Memory(Init(cap), {}, Itself, false, []) }

  predicate Confirmed(s: State, p: Id) {
    s.done <= |s.stream| && p in s.stream[..s.done]
  }

  /** The memory of the last released buffer is free, or in use elsewhere and can become free. */
  predicate MayReuse(m: Memory) {
    0 < m.s.prodTail <= |m.s.ring| && m.s.ring[m.s.prodTail - 1] in m.freed && !m.tenant.Idle?
  }

  /** The application attaches a chain: its buffers are allocated. */
  predicate Allocates(s: State, job: Job) {
    job.Attach? && Fresh(s, job.ids) && |job.ids| == |job.payloads| && Payloads(job.payloads)
  }

  function Grown(a: seq<Byte>, b: seq<Byte>): seq<Byte> {
    if |a| <= |b| then b[|a|..] else []
  }

  /** A step among the allocations.  The slot before prod.tail is another one when prod.tail has moved. */
  function Take(m: Memory, t: State): Memory {
    m.(s := t, tenant := if t.prodTail == m.s.prodTail then m.tenant else Itself,
       taken := m.taken + Grown(m.s.accepted, t.accepted))
  }

  function Leave(m: Memory): Memory { m.(s := UnlockApp(m.s), on := false) }

  /** Bytes go into, or are chained behind, a buffer that is not this socket's. */
  function Lose(m: Memory, bytes: seq<Byte>): Memory { Leave(m).(taken := m.taken + bytes) }

  /** attach_pbuf is a buffer that waits to be filled. */
  function AttachToIdle(m: Memory, q: Id, ids: seq<Id>, payloads: seq<seq<Byte>>): Memory
    requires |ids| == |payloads| > 0
  {
    m.(s := m.s.(data := SetData(m.s.data, ids, payloads), len := SetLen(m.s.len, ids, payloads),
                 next := Link(m.s.next, ids)[LastOf(m.s, q) := ids[0]], used := m.s.used + (set i | i in ids),
                 apc := AttachLast(q, ids[|ids| - 1])),
       on := false, taken := m.taken + Flat(payloads))
  }

  /** The link and the length found through the pointer to the last buffer p.  The length of a fresh buffer is MAX. */
  predicate LinkedAt(m: Memory, p: Id) {
    match m.tenant
    case Itself => p in m.s.next
    case Idle(q) => q in m.s.next
    case Foreign(_, linked, _) => linked
  }

  function LenAt(m: Memory, p: Id): nat {
    match m.tenant
    case Itself => Len(m.s, p)
    case Idle(_) => MAX
    case Foreign(_, _, len) => len
  }

  predicate OpenAt(m: Memory, p: Id) {
    match m.tenant
    case Itself => p !in m.s.closed
    case Idle(_) => true
    case Foreign(open, _, _) => open
  }

  /** With allow_in of the tenant seen set. */
  function UseTenant(m: Memory, p: Id, job: Job): Memory {
    match job
    case Merge(bytes) =>
      if LinkedAt(m, p) || LenAt(m, p) >= MAX then Leave(m) else Lose(m, bytes[..Min(MAX - LenAt(m, p), |bytes|)])
    case Attach(ids, payloads) =>
      if !Allocates(m.s, job) then Leave(m)
      else if m.tenant.Idle? then AttachToIdle(m, m.tenant.q, ids, payloads)
      else Lose(m, Flat(payloads))
  }

  function AppMove(m: Memory): Memory {
    match m.s.apc
    case LastLocked(p, job) =>
      if m.on then UseTenant(m, p, job)
      else if m.tenant.Itself? then Take(m, StepApp(m.s))
      else if OpenAt(m, p) then m.(on := true)
      else Leave(m)
    case DirectLast(_, l) =>
      if m.tenant.Idle? then m.(s := m.s.(last := m.s.last[m.tenant.q := l], apc := AppIdle)) else Take(m, StepApp(m.s))
    case _ => Take(m, StepApp(m.s))
  }

  function MStep(m: Memory, v: Move): Memory {
    match v
    case Own(App) => AppMove(m)
    case Own(AllocFails) =>
      if m.on && m.s.apc.LastLocked? && m.s.apc.job.Attach? then Leave(m) else Take(m, Step(m.s, AllocFails))
    case Own(a) => Take(m, Step(m.s, a))
    case Free(p) => if Confirmed(m.s, p) then m.(freed := m.freed + {p}) else m
    case Reuse(ids, k) =>
      if !MayReuse(m) || k >= |ids| || m.s.spc != StackIdle || !Fresh(m.s, ids) || |m.s.ring| + |ids| > m.s.consTail + m.s.cap
      then m
      else m.(s := DoReplenish(m.s, ids), tenant := Idle(ids[k]))
    case Elsewhere(open, linked, len) =>
      if MayReuse(m) && 0 < len < U16 then m.(tenant := Foreign(open, linked, len)) else m
  }

  function MRun(m: Memory, moves: seq<Move>): Memory {
    if moves == [] then m else MStep(MRun(m, moves[..|moves| - 1]), moves[|moves| - 1])
  }

  // ----- the two ways in which a buffer that waits to be filled is written through the slot before prod.tail -----

  predicate Crosses(m: Memory, v: Move) {
    v == Own(App) && m.tenant.Idle?
    && ((m.on && m.s.apc.LastLocked? && Allocates(m.s, m.s.apc.job)) || m.s.apc.DirectLast?)
  }

  /** No step of the run does. */
  predicate Uncrossed(cap: nat, moves: seq<Move>) {
    moves == [] || (Uncrossed(cap, moves[..|moves| - 1])
                    && !Crosses(MRun(MInit(cap), moves[..|moves| - 1]), moves[|moves| - 1]))
  }

  /** The application's bytes go to somebody else's buffer. */
  predicate Loses(m: Memory, v: Move) {
    && v == Own(App) && m.on && m.tenant.Foreign? && m.s.apc.LastLocked?
    && match m.s.apc.job
       case Merge(bytes) => !m.tenant.linked && m.tenant.len < MAX && bytes != []
       case Attach(_, _) => Allocates(m.s, m.s.apc.job)
  }

  predicate LosesSome(cap: nat, moves: seq<Move>) {
    moves != [] && (LosesSome(cap, moves[..|moves| - 1])
                    || Loses(MRun(MInit(cap), moves[..|moves| - 1]), moves[|moves| - 1]))
  }

  /** allow_in was seen set: in the last buffer itself, or in the tenant of its memory. */
  predicate LetIn(m: Memory) {
    m.s.apc.LastAllowed? || (m.s.apc.LastLocked? && m.on)
  }

  // ----- who owns the memory behind that slot -----

  ghost predicate Owners(m: Memory) {
    && (forall p :: p in m.freed ==> Confirmed(m.s, p))
    && (!m.tenant.Itself? ==> 0 < m.s.prodTail <= |m.s.ring| && m.s.ring[m.s.prodTail - 1] in m.freed)
    && (m.tenant.Idle? ==> m.tenant.q in m.s.ring[m.s.prodTail..])
    && (m.tenant.Foreign? ==> 0 < m.tenant.len < U16)
    && (m.on ==> m.s.apc.LastLocked? && !m.tenant.Itself?)
  }

  ghost predicate Sound(m: Memory) {
    Inv(m.s) && Owners(m)
  }

  lemma InitSound(cap: nat)
    ensures Sound(MInit(cap))
  {
    InitInv(cap);
  }

  /** A buffer released last that lets data in is not confirmed. */
  lemma OpenIsUnconfirmed(s: State)
    requires Inv(s) && 0 < s.prodTail <= |s.ring| && s.ring[s.prodTail - 1] !in s.closed
    ensures !Confirmed(s, s.ring[s.prodTail - 1])
  {
    LastChain(s, s.ring[s.prodTail - 1]);
    StreamDistinct(s);
    hide Inv;
    NotBefore(s.stream, s.done, s.start[s.prodTail - 1]);
  }

  lemma NotBefore(ids: seq<Id>, n: nat, k: nat)
    requires Distinct(ids) && n <= k < |ids|
    ensures ids[k] !in ids[..n]
  {
  }

  lemma StreamDistinct(s: State)
    requires Inv(s)
    ensures Distinct(s.stream) && s.done <= |s.stream|
  {
    hide Seg, RingChains, Content, Lengths, Given, Clean, LastIsEnd, AppFacts, LetsIn, Front, Pointers, StackFacts;
  }

  lemma RunOne(s: State, a: Action)
    ensures Run(s, [a]) == Step(s, a) && Run(s, []) == s
  {
    hide Step;
    assert [a][..0] == [];
  }

  /** While the slot leads to a tenant, the buffer that was released there is closed. */
  lemma TenantClosed(m: Memory)
    requires Sound(m) && !m.tenant.Itself?
    ensures 0 < m.s.prodTail <= |m.s.ring| && m.s.ring[m.s.prodTail - 1] in m.s.closed
    ensures m.s.apc.LastLocked? || m.s.apc.LastAllowed? ==> m.s.apc.p == m.s.ring[m.s.prodTail - 1]
    ensures !m.s.apc.LastAllowed? && !m.s.apc.MergeCopy? && !m.s.apc.AttachLast? && !m.s.apc.Holding?
  {
    AppKnows(m.s);
    hide Inv;
    if m.s.ring[m.s.prodTail - 1] !in m.s.closed { OpenIsUnconfirmed(m.s); }
  }

  lemma Unlocking(s: State)
    requires s.apc.LastLocked? && s.apc.p in s.closed
    ensures Step(s, App) == StepApp(s) == UnlockApp(s)
  {
  }

  lemma SoundIsInv(m: Memory)
    requires Sound(m)
    ensures Inv(m.s)
  {
  }

  lemma SoundMeans(m: Memory)
    requires Sound(m)
    ensures Inv(m.s) && Owners(m)
    ensures m.on ==> m.s.apc.LastLocked? && !m.tenant.Itself?
    ensures m.s.apc.LastAllowed? ==> m.tenant.Itself? && !m.on
  {
    if !m.tenant.Itself? { TenantClosed(m); }
    hide Inv;
  }

  lemma StackMove(m: Memory, a: Action)
    requires ByStack(a)
    ensures MStep(m, Own(a)) == m.(s := Step(m.s, a))
  {
    StackLeavesApp(m.s, a);
    hide Step;
  }

  /** Among the allocations a move that does not cross is no step or one step. */
  lemma Projects(m: Memory, v: Move) returns (trace: seq<Action>)
    requires Sound(m) && !Crosses(m, v)
    ensures MStep(m, v).s == Run(m.s, trace)
  {
    hide Inv, Fresh, Payloads, Run, DoReplenish, StepApp, Step;
    match v
    case Own(App) => trace := AppProjects(m);
    case Own(AllocFails) =>
      trace := [AllocFails];
      RunOne(m.s, AllocFails);
      if m.on && m.s.apc.LastLocked? && m.s.apc.job.Attach? { trace := OnProjects(m); }
    case Own(a) => trace := [a]; RunOne(m.s, a);
    case Reuse(ids, _) => trace := ReuseProjects(m, v);
    case _ => trace := []; RunOne(m.s, App);
  }

  lemma OnProjects(m: Memory) returns (trace: seq<Action>)
    requires Sound(m) && m.s.apc.LastLocked? && !m.tenant.Itself?
    ensures Leave(m).s == Run(m.s, trace)
  {
    TenantClosed(m);
    Unlocking(m.s);
    trace := [App];
    RunOne(m.s, App);
    hide *;
  }

  lemma ReuseProjects(m: Memory, v: Move) returns (trace: seq<Action>)
    requires v.Reuse?
    ensures MStep(m, v).s == Run(m.s, trace)
  {
    hide Run, Fresh, DoReplenish, MayReuse;
    RunOne(m.s, Replenish(v.ids));
    trace := if MStep(m, v).s == m.s then [] else [Replenish(v.ids)];
    hide MStep;
  }

  lemma AppProjects(m: Memory) returns (trace: seq<Action>)
    requires Sound(m) && !Crosses(m, Own(App))
    ensures MStep(m, Own(App)).s == Run(m.s, trace)
  {
    hide Run, Fresh, Payloads, StepApp, Step, Inv, AppMove, Crosses, Owners;
    if m.s.apc.LastLocked? && !m.tenant.Itself? {
      trace := TenantProjects(m);
    } else {
      AppTakes(m);
      RunOne(m.s, App);
      trace := [App];
    }
  }

  lemma TenantProjects(m: Memory) returns (trace: seq<Action>)
    requires Sound(m) && !Crosses(m, Own(App)) && m.s.apc.LastLocked? && !m.tenant.Itself?
    ensures AppMove(m).s == Run(m.s, trace)
  {
    hide Run, Fresh, Payloads, StepApp, Step, Inv, Link, SetData, SetLen, Flat, LinkedAt, LenAt, OpenAt, Owners, UnlockApp;
    if m.on || !OpenAt(m, m.s.apc.p) {
      trace := OnProjects(m);
      assert AppMove(m).s == Leave(m).s;
    } else {
      trace := [];
      RunOne(m.s, App);
    }
    hide AppMove;
  }

  /** With the memory of the last buffer in its own hands a step of the application is the one among the allocations. */
  lemma AppTakes(m: Memory)
    requires Owners(m) && !Crosses(m, Own(App)) && (m.tenant.Itself? || !m.s.apc.LastLocked?)
    ensures AppMove(m) == Take(m, Step(m.s, App))
  {
    assert Step(m.s, App) == StepApp(m.s);
    hide StepApp, Step, Take;
  }

  // ----- the moves keep track of the owners -----

  /** Confirmed buffers stay confirmed, and the ring only grows. */
  ghost predicate Extends(s: State, t: State) {
    s.stream <= t.stream && s.done <= t.done <= |t.stream| && s.ring <= t.ring
  }

  lemma StaysConfirmed(s: State, t: State, p: Id)
    requires Extends(s, t) && Confirmed(s, p)
    ensures Confirmed(t, p)
  {
    var k :| 0 <= k < s.done && s.stream[..s.done][k] == p;
    assert t.stream[..t.done][k] == p;
  }

  lemma StepExtends(s: State, a: Action)
    requires Inv(s)
    ensures Extends(s, Step(s, a)) && s.accepted <= Step(s, a).accepted
  {
    StepKeepsInv(s, a);
    StreamDistinct(Step(s, a));
    hide Inv, Step;
    if ByStack(a) {
      StackLeavesApp(s, a);
    } else {
      AppAppends(s, a);
    }
  }

  /** The owners after a step among the allocations that leaves the application where it stood if it looked at a tenant. */
  lemma TakeKeepsOwners(m: Memory, t: State)
    requires Owners(m) && Extends(m.s, t) && t.prodTail <= |t.ring| && m.s.prodTail <= |m.s.ring|
    requires m.on ==> t.apc == m.s.apc && t.prodTail == m.s.prodTail
    ensures Owners(Take(m, t))
  {
    hide Confirmed, Grown;
    forall p | p in m.freed ensures Confirmed(t, p) {
      StaysConfirmed(m.s, t, p);
    }
    if t.prodTail == m.s.prodTail && m.tenant.Idle? {
      var i :| m.s.prodTail <= i < |m.s.ring| && m.s.ring[i] == m.tenant.q;
      assert t.ring[t.prodTail..][i - t.prodTail] == m.tenant.q;
    }
  }

  lemma StepKeepsOwners(m: Memory, a: Action)
    requires Sound(m) && (m.on ==> Step(m.s, a).apc == m.s.apc && Step(m.s, a).prodTail == m.s.prodTail)
    ensures Owners(Take(m, Step(m.s, a)))
  {
    StepExtends(m.s, a);
    StepKeepsInv(m.s, a);
    AppKnows(m.s);
    AppKnows(Step(m.s, a));
    hide Inv, Owners, Step, Extends, Take;
    TakeKeepsOwners(m, Step(m.s, a));
  }

  /** While it stands at the lock the application can only look at allow_in. */
  lemma LockedStands(s: State, a: Action)
    requires s.apc.LastLocked? && a != App
    ensures Step(s, a).apc == s.apc && Step(s, a).prodTail == s.prodTail
  {
    hide Fresh, Payloads, StepStack, DoCallWrite, DoWriteOver, DoReplenish, AppView;
    if ByStack(a) {
      StackLeavesApp(s, a);
      assert AppView(s, Step(s, a)) ==> Step(s, a).apc == s.apc && Step(s, a).prodTail == s.prodTail by { Views(s, Step(s, a)); }
      hide Step;
    }
  }

  lemma Views(s: State, t: State)
    ensures AppView(s, t) ==> t.apc == s.apc && t.prodTail == s.prodTail
  {
  }

  lemma LeaveKeepsOwners(m: Memory)
    requires Owners(m) && m.s.apc.LastLocked?
    ensures Owners(Leave(m))
  {
  }

  lemma AppKeepsOwners(m: Memory)
    requires Sound(m) && !Crosses(m, Own(App))
    ensures Owners(AppMove(m))
  {
    hide Inv, Fresh, Payloads, StepApp, Step, Owners, AppMove, Crosses;
    if m.s.apc.LastLocked? && !m.tenant.Itself? {
      TenantKeepsOwners(m);
    } else {
      OnMeansTenant(m);
      AppTakes(m);
      StepKeepsOwners(m, App);
    }
  }

  lemma OnMeansTenant(m: Memory)
    requires Owners(m)
    ensures m.on ==> m.s.apc.LastLocked? && !m.tenant.Itself?
  {
  }

  lemma TenantKeepsOwners(m: Memory)
    requires Owners(m) && !Crosses(m, Own(App)) && m.s.apc.LastLocked? && !m.tenant.Itself?
    ensures Owners(AppMove(m))
  {
    LeaveKeepsOwners(m);
    hide Allocates, Link, SetData, SetLen, Flat, LinkedAt, LenAt, OpenAt;
    if m.on {
      LoseKeepsOwners(m);
      hide Owners, Leave;
    } else {
      hide UseTenant, Leave;
    }
  }

  lemma LoseKeepsOwners(m: Memory)
    requires Owners(Leave(m))
    ensures forall bytes :: Owners(Lose(m, bytes))
  {
  }

  lemma StepKeepsSound(m: Memory, v: Move)
    requires Sound(m) && !Crosses(m, v)
    ensures Sound(MStep(m, v))
  {
    var trace := Projects(m, v);
    RunKeepsInv(m.s, trace);
    hide Inv, Run;
    MoveKeepsOwners(m, v);
  }

  lemma MoveKeepsOwners(m: Memory, v: Move)
    requires Sound(m) && !Crosses(m, v)
    ensures Owners(MStep(m, v))
  {
    hide Inv, Owners, AppMove, Take, Leave, Step, Crosses, Confirmed, Fresh;
    OnMeansTenant(m);
    match v
    case Own(App) => AppKeepsOwners(m);
    case Own(AllocFails) =>
      if m.on && m.s.apc.job.Attach? { LeaveKeepsOwners(m); }
      else { if m.on { LockedStands(m.s, AllocFails); } StepKeepsOwners(m, AllocFails); }
    case Own(a) => if m.on { LockedStands(m.s, a); } StepKeepsOwners(m, a);
    case Free(p) => FreeKeepsOwners(m, p);
    case Reuse(ids, k) => ReuseKeepsOwners(m, ids, k);
    case Elsewhere(open, linked, len) => ElsewhereKeepsOwners(m, v);
  }

  lemma FreeKeepsOwners(m: Memory, p: Id)
    requires Owners(m)
    ensures Owners(MStep(m, Free(p)))
  {
    hide Confirmed;
  }

  lemma ElsewhereKeepsOwners(m: Memory, v: Move)
    requires Owners(m) && v.Elsewhere?
    ensures Owners(MStep(m, v))
  {
    hide Confirmed;
  }

  lemma ReuseKeepsOwners(m: Memory, ids: seq<Id>, k: nat)
    requires Owners(m)
    ensures Owners(MStep(m, Reuse(ids, k)))
  {
    hide Fresh;
    var t := MStep(m, Reuse(ids, k));
    if t != m {
      assert t.s == m.s.(ring := m.s.ring + ids, used := m.s.used + (set i | i in ids));
      assert t.s.ring[m.s.prodTail..][|m.s.ring| - m.s.prodTail + k] == ids[k];
    }
  }

  // ----- every run -----

  /** A run that does not cross is a run among the allocations. */
  lemma {:induction false} RunOfAllocations(cap: nat, moves: seq<Move>) returns (trace: seq<Action>)
    requires Uncrossed(cap, moves)
    ensures MRun(MInit(cap), moves).s == Run(Init(cap), trace) && Sound(MRun(MInit(cap), moves))
  {
    hide Sound, MStep, Crosses, Run;
    if moves == [] {
      trace := [];
      InitSound(cap);
      RunOne(Init(cap), App);
    } else {
      var before, v := moves[..|moves| - 1], moves[|moves| - 1];
      var m := MRun(MInit(cap), before);
      var t := RunOfAllocations(cap, before);
      StepKeepsSound(m, v);
      var more := ProjectsSound(m, v);
      RunConcat(Init(cap), t, more);
      trace := t + more;
    }
  }

  lemma ProjectsSound(m: Memory, v: Move) returns (trace: seq<Action>)
    requires Sound(m) && !Crosses(m, v)
    ensures MStep(m, v).s == Run(m.s, trace)
  {
    trace := Projects(m, v);
    hide *;
  }

  lemma {:induction false} RunConcat(s: State, a: seq<Action>, b: seq<Action>)
    ensures Run(s, a + b) == Run(Run(s, a), b)
  {
    hide Step;
    if b == [] {
      assert a + b == a;
    } else {
      RunConcat(s, a, b[..|b| - 1]);
      assert (a + b)[..|a + b| - 1] == a + b[..|b| - 1];
    }
  }

  // ----- where the accepted bytes are -----

  /** How many of the bytes taken are not in the stream, and what a move does to that. */
  ghost predicate Behind(m: Memory, t: Memory, lost: bool) {
    && |t.taken| - |t.s.accepted| >= |m.taken| - |m.s.accepted|
    && (lost ==> |t.taken| - |t.s.accepted| > |m.taken| - |m.s.accepted|)
    && (!lost && m.taken == m.s.accepted ==> t.taken == t.s.accepted)
  }

  lemma TakeKeepsBehind(m: Memory, t: State)
    requires m.s.accepted <= t.accepted
    ensures Behind(m, Take(m, t), false)
  {
  }

  lemma StepKeepsBehind(m: Memory, a: Action)
    requires Inv(m.s)
    ensures Behind(m, Take(m, Step(m.s, a)), false)
  {
    StepExtends(m.s, a);
    hide Inv, Step;
    TakeKeepsBehind(m, Step(m.s, a));
  }

  lemma LeaveKeepsBehind(m: Memory)
    ensures Behind(m, Leave(m), false) && Behind(m, m.(on := true), false)
  {
  }

  lemma LosesBehind(m: Memory, bytes: seq<Byte>)
    requires bytes != []
    ensures Behind(m, Lose(m, bytes), true)
  {
  }

  /** The bytes of a chain that is attached. */
  lemma {:induction false} FlatIsPositive(payloads: seq<seq<Byte>>)
    requires Payloads(payloads)
    ensures Flat(payloads) != []
  {
    assert |payloads[|payloads| - 1]| > 0;
  }

  lemma TenantBehind(m: Memory)
    requires Owners(m) && !Crosses(m, Own(App)) && m.s.apc.LastLocked? && !m.tenant.Itself?
    ensures Behind(m, AppMove(m), Loses(m, Own(App)))
  {
    hide Owners, Behind, Leave, Lose, Link, SetData, SetLen, Flat, Fresh;
    LeaveKeepsBehind(m);
    if m.on {
      UseBehind(m);
      hide UseTenant;
    } else {
      hide UseTenant, Allocates, OpenAt;
    }
  }

  lemma UseBehind(m: Memory)
    requires Owners(m) && !Crosses(m, Own(App)) && m.s.apc.LastLocked? && !m.tenant.Itself? && m.on
    ensures Behind(m, UseTenant(m, m.s.apc.p, m.s.apc.job), Loses(m, Own(App)))
  {
    hide Owners, Behind, Leave, Lose, Link, SetData, SetLen, Flat, Fresh, Payloads;
    LeaveKeepsBehind(m);
    LoseNothing(m);
    match m.s.apc.job
    case Merge(bytes) =>
      if !LinkedAt(m, m.s.apc.p) && LenAt(m, m.s.apc.p) < MAX && bytes != [] {
        LosesBehind(m, bytes[..Min(MAX - LenAt(m, m.s.apc.p), |bytes|)]);
      }
    case Attach(ids, payloads) =>
      if Allocates(m.s, m.s.apc.job) {
        FlatIsPositive(payloads);
        LosesBehind(m, Flat(payloads));
      }
  }

  lemma LoseNothing(m: Memory)
    ensures Behind(m, Lose(m, []), false)
  {
  }

  lemma MoveBehind(m: Memory, v: Move)
    requires Sound(m) && !Crosses(m, v)
    ensures Behind(m, MStep(m, v), Loses(m, v))
  {
    hide Inv, AppMove, Take, Leave, Step, Crosses, Confirmed, Fresh, Allocates, Behind, DoReplenish, MayReuse;
    match v
    case Own(App) => AppBehind(m);
    case Own(AllocFails) => LeaveKeepsBehind(m); StepKeepsBehind(m, AllocFails);
    case Own(a) => StepKeepsBehind(m, a);
    case Reuse(ids, k) => ReuseBehind(m, v);
    case _ => SameBehind(m, MStep(m, v));
  }

  lemma ReuseBehind(m: Memory, v: Move)
    requires v.Reuse?
    ensures Behind(m, MStep(m, v), false)
  {
    hide Fresh, Behind, MayReuse;
    SameBehind(m, MStep(m, v));
  }

  lemma AppBehind(m: Memory)
    requires Sound(m) && !Crosses(m, Own(App))
    ensures Behind(m, AppMove(m), Loses(m, Own(App)))
  {
    hide Inv, Behind, AppMove, Crosses, Step, Take, Owners, Allocates;
    if m.s.apc.LastLocked? && !m.tenant.Itself? {
      TenantBehind(m);
    } else {
      OnMeansTenant(m);
      AppTakes(m);
      StepKeepsBehind(m, App);
    }
  }

  lemma SameBehind(m: Memory, t: Memory)
    requires t.taken == m.taken && t.s.accepted == m.s.accepted
    ensures Behind(m, t, false)
  {
  }

  /** On a run that does not cross the bytes taken are the stream exactly if none went to somebody else's buffer. */
  lemma {:induction false} TakenOnEveryRun(cap: nat, moves: seq<Move>)
    requires Uncrossed(cap, moves)
    ensures var m := MRun(MInit(cap), moves);
            |m.s.accepted| <= |m.taken| && (m.taken == m.s.accepted <==> !LosesSome(cap, moves))
    ensures var m := MRun(MInit(cap), moves); LosesSome(cap, moves) ==> |m.s.accepted| < |m.taken|
  {
    if moves != [] {
      hide MStep, Crosses, Loses, Sound;
      var before, v := moves[..|moves| - 1], moves[|moves| - 1];
      var m := MRun(MInit(cap), before);
      TakenOnEveryRun(cap, before);
      var trace := RunOfAllocations(cap, before);
      MoveBehind(m, v);
    }
  }

  /** On every run in which no buffer waiting to be filled is written through the slot before prod.tail: the bytes in the
      stream are the bytes confirmed to lwip, then those of the chains of send_pre_del, of send_lastdata and of the released
      ring buffers; and these are the bytes accepted from the application, in order, exactly if none of them went to
      somebody else's buffer. */
  lemma StreamOnEveryRun(cap: nat, moves: seq<Move>) returns (pre: seq<Id>, last: seq<Id>, rel: seq<seq<Id>>)
    requires Uncrossed(cap, moves)
    ensures var m := MRun(MInit(cap), moves);
            && ChainsOfSocket(m.s, pre, last, rel)
            && (m.taken == m.s.confirmed + Bytes(m.s.data, pre + last + Concat(rel)) <==> !LosesSome(cap, moves))
  {
    var trace := RunOfAllocations(cap, moves);
    TakenOnEveryRun(cap, moves);
    pre, last, rel := StreamOf(MRun(MInit(cap), moves));
    hide *;
  }

  lemma StreamOf(m: Memory) returns (pre: seq<Id>, last: seq<Id>, rel: seq<seq<Id>>)
    requires Sound(m)
    ensures ChainsOfSocket(m.s, pre, last, rel)
    ensures m.s.accepted == m.s.confirmed + Bytes(m.s.data, pre + last + Concat(rel))
    ensures m.s.done <= |m.s.stream| && pre + last + Concat(rel) == m.s.stream[m.s.done..]
  {
    pre, last, rel := SendStream(m.s);
    hide *;
  }
}
