/** Two runs of the send path in which the memory of the last released buffer is allocated anew too early. */
module SendReuseRuns {
  import opened SendPath
  import opened SendInvariant
  import opened SendPathProof
  import opened SendFrames
  import opened SendRecycle

  // ----- runs step by step -----

  lemma {:induction false} MRunConcat(m: Memory, a: seq<Move>, b: seq<Move>)
    ensures MRun(m, a + b) == MRun(MRun(m, a), b)
  {
    hide MStep;
    if b == [] {
      assert a + b == a;
    } else {
      MRunConcat(m, a, b[..|b| - 1]);
      assert (a + b)[..|a + b| - 1] == a + b[..|b| - 1];
    }
  }

  lemma MRunOne(m: Memory, v: Move)
    ensures MRun(m, [v]) == MStep(m, v)
  {
    hide MStep;
    assert [v][..0] == [];
    assert MRun(m, []) == m;
  }

  lemma MRunMore(m: Memory, v: Move, rest: seq<Move>)
    ensures MRun(m, [v] + rest) == MRun(MStep(m, v), rest)
  {
    MRunConcat(m, [v], rest);
    MRunOne(m, v);
    hide *;
  }

  function Owns(acts: seq<Action>): seq<Move> { seq(|acts|, i requires 0 <= i < |acts| => Own(acts[i])) }

  lemma {:induction false} StackMoves(m: Memory, acts: seq<Action>)
    requires forall i :: 0 <= i < |acts| ==> ByStack(acts[i])
    ensures MRun(m, Owns(acts)) == m.(s := Run(m.s, acts))
  {
    hide Step, MStep;
    if acts != [] {
      var n := |acts| - 1;
      StackMoves(m, acts[..n]);
      assert Owns(acts)[..n] == Owns(acts[..n]);
      StackMove(MRun(m, Owns(acts[..n])), acts[n]);
    }
  }

  // ----- the stack thread sends the only released ring buffer -----

  const DEQUEUES: seq<Action> := [CallWrite(9), Stack, Stack, Stack, Stack, Stack, Stack]

  lemma {:induction false} RunMore(s: State, a: Action, rest: seq<Action>)
    ensures Run(s, [a] + rest) == Run(Step(s, a), rest)
  {
    RunConcat(s, [a], rest);
    RunOne(s, a);
    hide *;
  }

  predicate OneReleased(s: State, p: Id) {
    && s.spc == StackIdle && s.preDel == Null && s.lastData == Null && s.appLock != To(p)
    && s.consTail + 1 == s.prodTail <= |s.ring| && |s.start| == s.prodTail + 1 && s.ring[s.consTail] == p
    && Len(s, p) <= 9
  }

  function Sent(s: State, p: Id): State
    requires s.consTail + 1 < |s.start|
  {
    s.(consTail := s.consTail + 1, preDel := To(p), closed := s.closed + {p}, lastData := NextOf(s.next, p),
       next := s.next - {p}, lastEnd := s.start[s.consTail + 1], preEnd := s.done + 1, inHand := true, stackLock := Null,
       given := s.given[p := Data(s, p)])
  }

  lemma AtIdle(s: State)
    requires s.spc == StackIdle && s.preDel == Null && s.lastData == Null
    ensures Step(s, CallWrite(9)) == s.(inHand := false, spc := DeqLoad(9))
  {
  }

  lemma AtLoad(s: State)
    requires s.spc == DeqLoad(9) && s.consTail < s.prodTail
    ensures Step(s, Stack) == s.(spc := DeqStore(9))
  {
    assert Step(s, Stack) == StepStack(s);
    hide Step;
  }

  lemma AtStore(s: State)
    requires s.spc == DeqStore(9) && s.consTail < |s.ring| && s.consTail + 1 < |s.start|
    ensures Step(s, Stack) ==
            s.(consTail := s.consTail + 1, preDel := To(s.ring[s.consTail]), spc := CountOver(9),
               preEnd := s.start[s.consTail + 1], lastEnd := s.start[s.consTail + 1])
  {
    assert Step(s, Stack) == Dequeue(s, 9);
    hide Step, StepStack;
  }

  lemma AtPre(s: State, p: Id)
    requires s.preDel == To(p) && OnRing(s.spc)
    ensures Step(s, Stack) == StepPre(s, p)
  {
    assert Step(s, Stack) == StepStack(s);
    hide Step, StepPre;
  }

  lemma AtCount(s: State, p: Id)
    requires s.preDel == To(p) && s.spc == CountOver(9) && s.prodTail == s.consTail
    ensures Step(s, Stack) == s.(spc := RingLock(9))
  {
    AtPre(s, p);
    hide Step;
    hide Return, TryClose, TakeStackLock;
  }

  lemma AtLock(s: State, p: Id)
    requires s.preDel == To(p) && s.spc == RingLock(9) && s.appLock != To(p)
    ensures Step(s, Stack) == s.(stackLock := To(p), spc := RingLocked(9))
  {
    AtPre(s, p);
    hide Step, Return, TryClose;
    assert StepPre(s, p) == TakeStackLock(s, p, RingLocked(9));
    hide StepPre;
  }

  lemma AtLocked(s: State, p: Id)
    requires s.preDel == To(p) && s.spc == RingLocked(9) && Len(s, p) <= 9
    ensures Step(s, Stack) == s.(closed := s.closed + {p}, stackLock := Null, spc := RingMove)
  {
    AtPre(s, p);
    hide Step, Return, TakeStackLock;
    assert StepPre(s, p) == TryClose(s, p, 9, RingMove);
    hide StepPre;
  }

  lemma AtMove(s: State, p: Id)
    requires s.preDel == To(p) && s.spc == RingMove
    ensures Step(s, Stack) ==
            s.(lastData := NextOf(s.next, p), next := s.next - {p}, preEnd := s.done + 1, spc := StackIdle, inHand := true,
               given := s.given[p := Data(s, p)])
  {
    AtPre(s, p);
    hide Step, TryClose, TakeStackLock;
    assert StepPre(s, p) == Return(s.(lastData := NextOf(s.next, p)), p);
    hide StepPre, NextOf;
  }

  lemma SendsOne(s: State, p: Id)
    requires OneReleased(s, p)
    ensures Run(s, DEQUEUES) == Sent(s, p)
  {
    hide Step, Run, NextOf, Data;
    AtIdle(s);
    var s1 := s.(inHand := false, spc := DeqLoad(9));
    AtLoad(s1);
    var s2 := s1.(spc := DeqStore(9));
    AtStore(s2);
    var s3 := Step(s2, Stack);
    AtCount(s3, p);
    var s4 := s3.(spc := RingLock(9));
    SameBytes(s, s4, s4, p);
    LastThree(s4, p);
    SevenSteps(s);
  }

  lemma SevenSteps(s: State)
    ensures Run(s, DEQUEUES) ==
            Run(Step(Step(Step(Step(s, CallWrite(9)), Stack), Stack), Stack), [Stack, Stack, Stack])
  {
    hide Step, Run;
    var s1 := Step(s, CallWrite(9));
    assert [CallWrite(9)] + [Stack, Stack, Stack, Stack, Stack, Stack] == DEQUEUES;
    assert [Stack] + [Stack, Stack, Stack, Stack, Stack] == [Stack, Stack, Stack, Stack, Stack, Stack];
    assert [Stack] + [Stack, Stack, Stack, Stack] == [Stack, Stack, Stack, Stack, Stack];
    assert [Stack] + [Stack, Stack, Stack] == [Stack, Stack, Stack, Stack];
    RunMore(s, CallWrite(9), [Stack, Stack, Stack, Stack, Stack, Stack]);
    RunMore(s1, Stack, [Stack, Stack, Stack, Stack, Stack]);
    RunMore(Step(s1, Stack), Stack, [Stack, Stack, Stack, Stack]);
    RunMore(Step(Step(s1, Stack), Stack), Stack, [Stack, Stack, Stack]);
  }

  lemma LastThree(s: State, p: Id)
    requires s.spc == RingLock(9) && s.preDel == To(p) && s.appLock != To(p) && Len(s, p) <= 9
    ensures Run(s, [Stack, Stack, Stack]) ==
            s.(closed := s.closed + {p}, lastData := NextOf(s.next, p), next := s.next - {p}, preEnd := s.done + 1,
               inHand := true, stackLock := Null, spc := StackIdle, given := s.given[p := Data(s, p)])
  {
    hide Step, Run, NextOf, Data;
    var s1 := s.(stackLock := To(p), spc := RingLocked(9));
    var s2 := s1.(closed := s.closed + {p}, stackLock := Null, spc := RingMove);
    AtLock(s, p);
    SameBytes(s, s1, s2, p);
    AtLocked(s1, p);
    AtMove(s2, p);
    assert [Stack] + [Stack, Stack] == [Stack, Stack, Stack] && [Stack] + [Stack] == [Stack, Stack];
    RunMore(s, Stack, [Stack, Stack]);
    RunMore(s1, Stack, [Stack]);
    RunOne(s2, Stack);
  }

  lemma SameBytes(s: State, s1: State, s2: State, p: Id)
    requires s1.data == s.data == s2.data && s1.len == s.len
    ensures Data(s2, p) == Data(s, p) && Len(s1, p) == Len(s, p)
  {
  }

  /** Sending the only released ring buffer, and confirming it. */
  const SENDS: seq<Action> := DEQUEUES + [WriteOver]

  lemma SendsAndConfirms(m: Memory, p: Id)
    requires OneReleased(m.s, p)
    ensures m.s.consTail + 1 < |m.s.start| && MRun(m, Owns(SENDS)) ==
            m.(s := Sent(m.s, p).(preDel := Null, inHand := false, done := m.s.done + 1,
                                  confirmed := m.s.confirmed + Data(m.s, p)))
  {
    hide Data, NextOf, Run, MRun, Owns, Sent, Len;
    StackMoves(m, SENDS);
    SendsOne(m.s, p);
    RunConcat(m.s, DEQUEUES, [WriteOver]);
    RunOne(Sent(m.s, p), WriteOver);
    SentConfirms(m.s, p);
    hide *;
  }

  lemma SentConfirms(s: State, p: Id)
    requires s.consTail + 1 < |s.start| && s.spc == StackIdle
    ensures Step(Sent(s, p), WriteOver) ==
            Sent(s, p).(preDel := Null, inHand := false, done := s.done + 1, confirmed := s.confirmed + Data(s, p))
  {
    SameBytes(s, Sent(s, p), Sent(s, p), p);
    hide Data, NextOf;
    ConfirmsNow(Sent(s, p), p);
    hide Step;
  }

  lemma ConfirmsNow(s: State, p: Id)
    requires s.spc == StackIdle && s.inHand && s.preDel == To(p)
    ensures Step(s, WriteOver) == s.(preDel := Null, inHand := false, done := s.done + 1, confirmed := s.confirmed + Data(s, p))
  {
    hide Data;
  }

  // ----- the application writes one byte into an idle ring buffer -----

  function Wrote(m: Memory, p: Id, x: Byte): Memory {
    m.(s := m.s.(data := m.s.data[p := [x]], len := m.s.len[p := 1], prodHead := m.s.prodHead + 1, prodTail := m.s.prodTail + 1,
                 stream := m.s.stream + [p], start := m.s.start + [|m.s.stream| + 1], accepted := m.s.accepted + [x]),
       tenant := Itself, taken := m.taken + [x])
  }

  lemma WritesOne(m: Memory, p: Id, x: Byte)
    requires m.s.apc == AppIdle && m.s.prodHead == m.s.prodTail < |m.s.ring| && m.s.ring[m.s.prodTail] == p
    ensures MRun(m, [Own(BuffFill([[x]])), Own(App)]) == Wrote(m, p, x)
  {
    var s := m.s.(data := m.s.data[p := [x]], len := m.s.len[p := 1], prodHead := m.s.prodHead + 1, apc := BuffFilled([[x]]));
    var t := m.(s := s);
    FillMove(m, s, p, x);
    OverWrote(m, t, p, x);
    assert [Own(BuffFill([[x]]))] + [Own(App)] == [Own(BuffFill([[x]])), Own(App)];
    hide *;
    MRunMore(m, Own(BuffFill([[x]])), [Own(App)]);
    MRunOne(t, Own(App));
  }

  lemma OverWrote(m: Memory, t: Memory, p: Id, x: Byte)
    requires m.s.apc == AppIdle && m.s.prodHead == m.s.prodTail < |m.s.ring| && m.s.ring[m.s.prodTail] == p
    requires t == m.(s := m.s.(data := m.s.data[p := [x]], len := m.s.len[p := 1], prodHead := m.s.prodHead + 1,
                               apc := BuffFilled([[x]])))
    ensures MStep(t, Own(App)) == Wrote(m, p, x)
  {
    hide MStep;
    OverMove(t, p, x);
  }

  lemma FillMove(m: Memory, s: State, p: Id, x: Byte)
    requires m.s.apc == AppIdle && m.s.prodHead == m.s.prodTail < |m.s.ring| && m.s.ring[m.s.prodTail] == p
    requires s == m.s.(data := m.s.data[p := [x]], len := m.s.len[p := 1], prodHead := m.s.prodHead + 1, apc := BuffFilled([[x]]))
    ensures MStep(m, Own(BuffFill([[x]]))) == m.(s := s)
  {
    FillsOne(m.s, p, x);
    hide Step, AppMove;
    assert MStep(m, Own(BuffFill([[x]]))) == Take(m, s);
    hide MStep;
    assert m.taken + [] == m.taken;
  }

  lemma OverMove(t: Memory, p: Id, x: Byte)
    requires t.s.apc == BuffFilled([[x]]) && t.s.prodHead == t.s.prodTail + 1 <= |t.s.ring| && t.s.ring[t.s.prodTail] == p
    ensures MStep(t, Own(App)) ==
            t.(s := t.s.(prodTail := t.s.prodHead, apc := AppIdle, stream := t.s.stream + [p],
                         start := t.s.start + [|t.s.stream| + 1], accepted := t.s.accepted + [x]),
               tenant := Itself, taken := t.taken + [x])
  {
    ReleasesOne(t.s, p, x);
    hide StepApp, UseTenant, OpenAt;
    assert MStep(t, Own(App)) == Take(t, StepApp(t.s));
    hide MStep;
  }

  lemma FillsOne(s: State, p: Id, x: Byte)
    requires s.apc == AppIdle && s.prodHead == s.prodTail < |s.ring| && s.ring[s.prodTail] == p
    ensures Step(s, BuffFill([[x]])) ==
            s.(data := s.data[p := [x]], len := s.len[p := 1], prodHead := s.prodHead + 1, apc := BuffFilled([[x]]))
  {
    var ids, payloads: seq<seq<Byte>> := s.ring[s.prodHead..s.prodHead + 1], [[x]];
    assert ids == [p] && ids[..0] == [] && payloads[..0] == [];
    assert SetData(s.data, ids, payloads) == s.data[p := [x]];
    assert SetLen(s.len, ids, payloads) == s.len[p := 1];
  }

  lemma ReleasesOne(s: State, p: Id, x: Byte)
    requires s.apc == BuffFilled([[x]]) && s.prodHead == s.prodTail + 1 <= |s.ring| && s.ring[s.prodTail] == p
    ensures StepApp(s) == s.(prodTail := s.prodHead, apc := AppIdle, stream := s.stream + [p],
                             start := s.start + [|s.stream| + 1], accepted := s.accepted + [x])
  {
    assert s.ring[s.prodTail..s.prodHead] == [p];
    FlatOne([x]);
    hide Flat;
    assert StepApp(s) == DoBuffOver(s, [[x]]);
    hide StepApp;
    assert seq(s.prodHead - s.prodTail, i requires 0 <= i => |s.stream| + i + 1) == [|s.stream| + 1];
  }

  lemma FlatOne(bytes: seq<Byte>)
    ensures Flat([bytes]) == bytes
  {
    assert [bytes][..0] == [];
  }

  // ----- a chain attached behind a buffer that waits to be filled -----

  const JOB: Job := Attach([1], [[8]])

  lemma ReplenishesOne(m: Memory, p: Id)
    requires m.s.spc == StackIdle && p !in m.s.used && |m.s.ring| + 1 <= m.s.consTail + m.s.cap
    ensures MRun(m, [Own(Replenish([p]))]) == m.(s := m.s.(ring := m.s.ring + [p], used := m.s.used + {p}))
  {
    MRunOne(m, Own(Replenish([p])));
    StackMove(m, Replenish([p]));
    ReplenishesState(m.s, p);
    hide MRun, MStep, DoReplenish;
    ReplenishStep(m.s, [p]);
    hide Step;
  }

  lemma ReplenishStep(s: State, ids: seq<Id>)
    ensures Step(s, Replenish(ids)) == DoReplenish(s, ids)
  {
    hide DoReplenish;
  }

  lemma ReplenishesState(s: State, p: Id)
    requires s.spc == StackIdle && p !in s.used && |s.ring| + 1 <= s.consTail + s.cap
    ensures Fresh(s, [p]) && DoReplenish(s, [p]) == s.(ring := s.ring + [p], used := s.used + {p})
  {
    assert (set i | i in [p]) == {p};
    assert Fresh(s, [p]);
    hide Fresh;
  }

  /** lwip frees the last released buffer, and replenish gets its memory for q. */
  lemma FreesAndReuses(m: Memory, p: Id, q: Id)
    requires Confirmed(m.s, p) && 0 < m.s.prodTail <= |m.s.ring| && p == m.s.ring[m.s.prodTail - 1] && m.tenant == Itself
    requires m.s.spc == StackIdle && q !in m.s.used && |m.s.ring| + 1 <= m.s.consTail + m.s.cap
    ensures MRun(m, [Free(p), Reuse([q], 0)]) ==
            m.(s := m.s.(ring := m.s.ring + [q], used := m.s.used + {q}), freed := m.freed + {p}, tenant := Idle(q))
  {
    hide Confirmed, DoReplenish, Fresh, MRun;
    var t := m.(freed := m.freed + {p});
    ReplenishesState(m.s, q);
    assert MStep(m, Free(p)) == t;
    assert MStep(t, Reuse([q], 0)) == t.(s := DoReplenish(t.s, [q]), tenant := Idle(q));
    hide MStep;
    assert [Free(p)] + [Reuse([q], 0)] == [Free(p), Reuse([q], 0)];
    MRunMore(m, Free(p), [Reuse([q], 0)]);
    MRunOne(t, Reuse([q], 0));
  }

  /** The application has loaded cons.tail; then the stack thread sends buffer 0 and replenish gets its memory again. */
  function Recycled(): Memory {
    Memory(State(1, [0, 2], 1, 1, 1, map[0 := [7]], map[0 := 1], map[], map[], {0}, Null, Null, Null, Null, false,
                 LastLoaded(0, JOB), StackIdle, {0, 2}, [0], [0, 1], 1, 1, 1, [7], [7], map[0 := [7]]),
           {0}, Idle(2), false, [7])
  }

  /** Before the stack thread sends it. */
  function Loaded(): Memory {
    Memory(State(1, [0], 0, 1, 1, map[0 := [7]], map[0 := 1], map[], map[], {}, Null, Null, Null, Null, false,
                 LastLoaded(0, JOB), StackIdle, {0}, [0], [0, 1], 0, 0, 0, [7], [], map[]),
           {}, Itself, false, [7])
  }

  function Opening(): seq<Move> {
    [Own(Replenish([0]))] + [Own(BuffFill([[7]])), Own(App)] + [Own(LoadTail(JOB))]
  }

  lemma Opens()
    ensures MRun(MInit(1), Opening()) == Loaded()
  {
    hide MRun, MStep;
    var m1 := MInit(1).(s := Init(1).(ring := [0], used := {0}));
    ReplenishesOne(MInit(1), 0);
    assert Init(1).ring + [0] == [0] && Init(1).used + {0} == {0};
    WritesOne(m1, 0, 7);
    LoadsTail(Wrote(m1, 0, 7), JOB);
    MRunConcat(MInit(1), [Own(Replenish([0]))], [Own(BuffFill([[7]])), Own(App)]);
    MRunConcat(MInit(1), [Own(Replenish([0]))] + [Own(BuffFill([[7]])), Own(App)], [Own(LoadTail(JOB))]);
    WroteFirst(m1);
  }

  lemma WroteFirst(m: Memory)
    requires m == MInit(1).(s := Init(1).(ring := [0], used := {0}))
    ensures var t := Wrote(m, 0, 7); t.(s := t.s.(apc := LastLoaded(t.s.consTail, JOB))) == Loaded()
  {
    assert m.s.data[0 := [7]] == map[0 := [7]] && m.s.len[0 := 1] == map[0 := 1];
    assert m.s.stream + [0] == [0] && m.s.start + [1] == [0, 1] && m.s.accepted + [7] == [7];
  }

  function SentFirst(): Memory {
    var m := Loaded();
    m.(s := m.s.(consTail := 1, closed := {0}, preEnd := 1, lastEnd := 1, done := 1, confirmed := [7], given := map[0 := [7]]))
  }

  lemma SendsFirst()
    ensures MRun(Loaded(), Owns(SENDS)) == SentFirst()
  {
    hide MRun, MStep, Owns, SENDS, Sent, Data;
    OneLoaded();
    hide OneReleased;
    SendsAndConfirms(Loaded(), 0);
    SentFields(Loaded().s);
    hide *;
  }

  lemma OneLoaded()
    ensures OneReleased(Loaded().s, 0)
  {
  }

  lemma SentFields(s: State)
    requires s == Loaded().s
    ensures Sent(s, 0).(preDel := Null, inHand := false, done := s.done + 1, confirmed := s.confirmed + Data(s, 0)) == SentFirst().s
    ensures SentFirst() == Loaded().(s := SentFirst().s)
  {
    assert s.next - {0} == s.next && NextOf(s.next, 0) == Null && Data(s, 0) == [7];
    assert s.closed + {0} == {0} && s.given[0 := [7]] == map[0 := [7]] && s.confirmed + [7] == [7];
  }

  lemma Recycles()
    ensures MRun(SentFirst(), [Free(0), Reuse([2], 0)]) == Recycled()
  {
    hide MRun, MStep;
    var m := SentFirst();
    assert m.s.stream[..1] == [0];
    FreesAndReuses(m, 0, 2);
    assert m.s.ring + [2] == [0, 2] && m.s.used + {2} == {0, 2} && m.freed + {0} == {0};
  }

  lemma LoadsTail(m: Memory, job: Job)
    requires m.s.apc == AppIdle
    ensures MRun(m, [Own(LoadTail(job))]) == m.(s := m.s.(apc := LastLoaded(m.s.consTail, job)))
  {
    MRunOne(m, Own(LoadTail(job)));
    hide MRun;
    assert Step(m.s, LoadTail(job)) == m.s.(apc := LastLoaded(m.s.consTail, job));
    hide Step, AppMove, StepApp;
  }

  /** Locked, and with allow_in of the new buffer seen set. */
  function Seen(): Memory {
    var m := Recycled();
    m.(s := m.s.(appLock := To(0), apc := LastLocked(0, JOB)), on := true)
  }

  function Misplaced(): Memory {
    var m := Recycled();
    m.(s := m.s.(data := map[0 := [7], 1 := [8]], len := map[0 := 1, 1 := 1], next := map[2 := 1], last := map[2 := 1],
                 used := {0, 1, 2}, apc := AppIdle),
       taken := [7, 8])
  }

  lemma LocksTenant()
    ensures MRun(Recycled(), [Own(App), Own(App)]) == Seen()
  {
    var m := Recycled();
    var t := m.(s := m.s.(appLock := To(0), apc := LastLocked(0, JOB)));
    assert StepApp(m.s) == t.s;
    assert MStep(m, Own(App)) == t by { hide StepApp; assert m.taken + [] == m.taken; }
    hide StepApp;
    assert MStep(t, Own(App)) == Seen();
    hide MStep, MRun;
    assert [Own(App)] + [Own(App)] == [Own(App), Own(App)];
    MRunMore(m, Own(App), [Own(App)]);
    MRunOne(t, Own(App));
  }

  lemma OneMisplaced(s: State)
    requires s == Seen().s
    ensures SetData(s.data, [1], [[8]]) == map[0 := [7], 1 := [8]] && SetLen(s.len, [1], [[8]]) == map[0 := 1, 1 := 1]
    ensures Link(s.next, [1]) == map[] && LastOf(s, 2) == 2 && s.used + (set i | i in [1]) == {0, 1, 2}
    ensures Allocates(s, JOB) && Flat([[8]]) == [8]
  {
    assert [1][..0] == [] && [[8]][..0] == [];
    FlatOne([8]);
    assert Fresh(s, [1]);
    assert (set i | i in [1]) == {1};
  }

  lemma Misplaces()
    ensures MRun(Seen(), [Own(App), Own(App), Own(App)]) == Misplaced()
  {
    var m := Seen();
    OneMisplaced(m.s);
    hide SetData, SetLen, Link, LastOf, Flat, Allocates, MRun, StepApp, Take;
    var m1 := AttachToIdle(m, 2, [1], [[8]]);
    assert MStep(m, Own(App)) == m1;
    AttachedIdle(m, m1);
    var m2 := m1.(s := m1.s.(last := map[2 := 1], apc := Holding(2)));
    LastStored(m1, m2);
    Released(m2, Misplaced());
    hide MStep, AttachToIdle, Misplaced, Seen;
    assert [Own(App)] + [Own(App), Own(App)] == [Own(App), Own(App), Own(App)] && [Own(App)] + [Own(App)] == [Own(App), Own(App)];
    MRunMore(m, Own(App), [Own(App), Own(App)]);
    MRunMore(m1, Own(App), [Own(App)]);
    MRunOne(m2, Own(App));
  }

  lemma AttachedIdle(m: Memory, t: Memory)
    requires m == Seen() && t == AttachToIdle(m, 2, [1], [[8]])
    ensures t == m.(s := m.s.(data := map[0 := [7], 1 := [8]], len := map[0 := 1, 1 := 1], next := map[2 := 1],
                              used := {0, 1, 2}, apc := AttachLast(2, 1)),
                    on := false, taken := [7, 8])
  {
    OneMisplaced(m.s);
    hide SetData, SetLen, Link, LastOf, Flat;
    assert map[][2 := 1] == map[2 := 1] && m.taken + [8] == [7, 8];
  }

  lemma LastStored(m: Memory, t: Memory)
    requires m.s.apc == AttachLast(2, 1) && m.s.last == map[] && t == m.(s := m.s.(last := map[2 := 1], apc := Holding(2)))
    ensures MStep(m, Own(App)) == t
  {
    assert map[][2 := 1] == map[2 := 1];
    assert StepApp(m.s) == t.s;
    hide StepApp;
    assert m.taken + [] == m.taken;
  }

  lemma Released(m: Memory, t: Memory)
    requires m.s.apc.Holding? && t == m.(s := UnlockApp(m.s))
    ensures MStep(m, Own(App)) == t
  {
    assert StepApp(m.s) == t.s;
    hide StepApp;
    assert m.taken + [] == m.taken;
  }

  /** The next write fills the buffer, and releases it with the chain behind it. */
  lemma WritesAndSends()
    ensures var m := MRun(MRun(Misplaced(), [Own(BuffFill([[9]])), Own(App)]), Owns(SENDS));
            && m.taken == [7, 8, 9] && m.s.confirmed == [7, 9] && m.s.lastData == To(1) && m.s.preDel == Null
            && m.s.spc == StackIdle && !m.s.inHand && Data(m.s, 1) == [8] && Len(m.s, 1) == 1 && m.s.next == map[]
            && m.s.consTail == m.s.prodTail == 2 && m.s.apc == AppIdle
  {
    hide MRun, Owns, SENDS;
    WritesOne(Misplaced(), 2, 9);
    var m := Wrote(Misplaced(), 2, 9);
    SendsAndConfirms(m, 2);
    assert m.s.next - {2} == map[];
  }

  lemma SendsLastData(m: Memory)
    requires m.s.lastData == To(1) && m.s.preDel == Null && m.s.spc == StackIdle && Len(m.s, 1) <= 9 && m.s.next == map[]
    ensures MRun(m, Owns([CallWrite(9), Stack, WriteOver])) ==
            m.(s := m.s.(lastData := Null, next := map[], preEnd := m.s.done + 1, inHand := false, done := m.s.done + 1,
                         given := m.s.given[1 := Data(m.s, 1)], confirmed := m.s.confirmed + Data(m.s, 1)))
  {
    var acts := [CallWrite(9), Stack, WriteOver];
    StackMoves(m, acts);
    hide MRun, Owns;
    var s1 := m.s.(inHand := false, spc := TakeLast(9));
    TakesLast(m.s, s1);
    var s2 := Step(s1, Stack);
    SameBytes(m.s, s1, s2, 1);
    assert m.s.next - {1} == map[];
    hide Data, Run, Step;
    ConfirmsNow(s2, 1);
    assert [CallWrite(9)] + [Stack, WriteOver] == acts && [Stack] + [WriteOver] == [Stack, WriteOver];
    RunMore(m.s, CallWrite(9), [Stack, WriteOver]);
    RunMore(s1, Stack, [WriteOver]);
    RunOne(s2, WriteOver);
  }

  lemma TakesLast(s: State, t: State)
    requires s.lastData == To(1) && s.preDel == Null && s.spc == StackIdle && Len(s, 1) <= 9 && s.next == map[]
    requires t == s.(inHand := false, spc := TakeLast(9))
    ensures Step(s, CallWrite(9)) == t
    ensures Step(t, Stack) == Return(t.(preDel := To(1), lastData := Null), 1)
  {
    assert Step(t, Stack) == TakeLastData(t, 1, 9);
    hide Step, Return, Data;
  }

  /** The application writes 7, 8 and 9, and the stack sends 7, 9 and 8: the buffer released last is sent, freed and allocated
      again for the same ring while the application, to attach 8, stands between its look at cons.tail and at allow_in. */
  lemma SentOutOfOrder() returns (moves: seq<Move>)
    ensures var m := MRun(MInit(1), moves);
            && m.taken == [7, 8, 9] && m.s.confirmed == [7, 9, 8]
            && m.s.preDel == Null && m.s.lastData == Null && m.s.consTail == m.s.prodTail
  {
    Opens();
    SendsFirst();
    Recycles();
    LocksTenant();
    Misplaces();
    WritesAndSends();
    hide *;
    var a := Opening() + Owns(SENDS) + [Free(0), Reuse([2], 0)];
    MRunConcat(MInit(1), Opening(), Owns(SENDS));
    MRunConcat(MInit(1), Opening() + Owns(SENDS), [Free(0), Reuse([2], 0)]);
    var b := a + [Own(App), Own(App)] + [Own(App), Own(App), Own(App)];
    MRunConcat(MInit(1), a, [Own(App), Own(App)]);
    MRunConcat(MInit(1), a + [Own(App), Own(App)], [Own(App), Own(App), Own(App)]);
    var c := b + [Own(BuffFill([[9]])), Own(App)] + Owns(SENDS);
    MRunConcat(MInit(1), b, [Own(BuffFill([[9]])), Own(App)]);
    MRunConcat(MInit(1), b + [Own(BuffFill([[9]])), Own(App)], Owns(SENDS));
    SendsLastData(MRun(MInit(1), c));
    moves := c + Owns([CallWrite(9), Stack, WriteOver]);
    MRunConcat(MInit(1), c, Owns([CallWrite(9), Stack, WriteOver]));
    assert [7, 9] + [8] == [7, 9, 8];
  }

  // ----- `last` stored into a buffer that waits to be filled -----

  const JOB3: Job := Attach([3], [[6]])

  /** app_direct_write has released buffer 0 with buffer 1 behind it, and has not stored its `last`. */
  function Direct(): Memory {
    Memory(State(1, [0], 0, 1, 1, map[0 := [7], 1 := [8]], map[0 := 1, 1 := 1], map[0 := 1], map[], {}, Null, Null, Null, Null,
                 false, DirectLast(0, 1), StackIdle, {0, 1}, [0, 1], [0, 2], 0, 0, 0, [7, 8], [], map[]),
           {}, Itself, false, [7, 8])
  }

  lemma DirectFillsTwo(s: State)
    requires s == Init(1).(ring := [0], used := {0})
    ensures Step(s, DirectFill([1], [[7], [8]])) ==
            s.(data := map[0 := [7], 1 := [8]], len := map[0 := 1, 1 := 1], next := map[0 := 1], used := {0, 1},
               prodHead := 1, apc := DirectFilled([0, 1], [[7], [8]]))
  {
    var ids, payloads: seq<seq<Byte>> := [0, 1], [[7], [8]];
    assert ids[..1] == [0] && payloads[..1] == [[7]] && ids[..1][..0] == [] && payloads[..1][..0] == [];
    assert SetData(s.data, ids[..1], payloads[..1]) == map[0 := [7]];
    assert SetLen(s.len, ids[..1], payloads[..1]) == map[0 := 1];
    assert SetData(s.data, ids, payloads) == map[0 := [7], 1 := [8]];
    assert SetLen(s.len, ids, payloads) == map[0 := 1, 1 := 1];
    assert Link(s.next, ids) == map[0 := 1];
    assert Fresh(s, [1]) && Payloads(payloads);
    hide SetData, SetLen, Link, Fresh, Payloads;
    assert (set i | i in [1]) == {1};
    assert s.used + {1} == {0, 1} && [0] + [1] == [0, 1];
    assert Step(s, DirectFill([1], payloads)) == DoDirectFill(s, [1], payloads);
    hide Step;
  }

  lemma DirectReleasesTwo(s: State)
    requires s.apc == DirectFilled([0, 1], [[7], [8]]) && s.stream == [] && s.start == [0] && s.accepted == []
    ensures StepApp(s) == s.(prodTail := s.prodHead, apc := DirectLast(0, 1), stream := [0, 1], start := [0, 2], accepted := [7, 8])
  {
    TwoBytes();
    hide Flat;
    OversTwo(s);
    assert DoDirectOver(s, [0, 1], [[7], [8]]).accepted == [7, 8] by { assert [] + [7, 8] == [7, 8]; }
    assert [] + [0, 1] == [0, 1] && [0] + [2] == [0, 2];
    hide StepApp;
  }

  lemma TwoBytes()
    ensures Flat([[7], [8]]) == [7, 8]
  {
    FlatOne([7]);
    assert [[7], [8]][..1] == [[7]];
    hide Flat;
    assert [7] + [8] == [7, 8];
    FlatLast([[7]], [8]);
    assert [[7]] + [[8]] == [[7], [8]];
  }

  lemma FlatLast(payloads: seq<seq<Byte>>, bytes: seq<Byte>)
    ensures Flat(payloads + [bytes]) == Flat(payloads) + bytes
  {
    assert (payloads + [bytes])[..|payloads|] == payloads;
  }

  lemma OversTwo(s: State)
    requires s.apc == DirectFilled([0, 1], [[7], [8]])
    ensures StepApp(s) == DoDirectOver(s, [0, 1], [[7], [8]])
  {
    hide DoDirectOver, TakeAppLock, BeginMerge, BeginAttach, DoBuffOver;
  }

  function DirectOpening(): seq<Move> {
    [Own(Replenish([0]))] + [Own(DirectFill([1], [[7], [8]])), Own(App)]
  }

  lemma DirectOpens()
    ensures MRun(MInit(1), DirectOpening()) == Direct()
  {
    hide MRun, StepApp, Step;
    var m1 := MInit(1).(s := Init(1).(ring := [0], used := {0}));
    ReplenishesOne(MInit(1), 0);
    assert Init(1).ring + [0] == [0] && Init(1).used + {0} == {0};
    DirectFillsTwo(m1.s);
    var m2 := m1.(s := Step(m1.s, DirectFill([1], [[7], [8]])));
    DirectReleasesTwo(m2.s);
    DirectMoves(m1, m2);
    MRunConcat(MInit(1), [Own(Replenish([0]))], [Own(DirectFill([1], [[7], [8]])), Own(App)]);
    assert [Own(DirectFill([1], [[7], [8]]))] + [Own(App)] == [Own(DirectFill([1], [[7], [8]])), Own(App)];
    hide MStep;
    MRunMore(m1, Own(DirectFill([1], [[7], [8]])), [Own(App)]);
    MRunOne(m2, Own(App));
  }

  lemma DirectMoves(m: Memory, t: Memory)
    requires m.taken == m.s.accepted == [] && m.tenant == Itself && t.s == Step(m.s, DirectFill([1], [[7], [8]]))
    requires t == m.(s := t.s) && t.s.accepted == [] && t.s.apc.DirectFilled? && StepApp(t.s).accepted == [7, 8]
    ensures MStep(m, Own(DirectFill([1], [[7], [8]]))) == t
    ensures MStep(t, Own(App)) == t.(s := StepApp(t.s), taken := [7, 8])
  {
    hide StepApp, Step;
    assert [] + [7, 8] == [7, 8];
  }

  /** Both buffers are sent, the first one is freed and its memory is in the ring again. */
  function DirectRecycled(): Memory {
    Memory(State(1, [0, 2], 1, 1, 1, map[0 := [7], 1 := [8]], map[0 := 1, 1 := 1], map[], map[], {0}, Null, Null, Null, Null,
                 false, DirectLast(0, 1), StackIdle, {0, 1, 2}, [0, 1], [0, 2], 2, 2, 2, [7, 8], [7, 8],
                 map[0 := [7], 1 := [8]]),
           {0}, Idle(2), false, [7, 8])
  }

  function DirectSent(): Memory {
    var m := Direct();
    m.(s := m.s.(consTail := 1, closed := {0}, lastData := To(1), next := map[], preEnd := 1, lastEnd := 2, done := 1,
                 confirmed := [7], given := map[0 := [7]]))
  }

  lemma DirectSends()
    ensures MRun(Direct(), Owns(SENDS)) == DirectSent()
  {
    hide MRun, Owns, SENDS, Sent, Data;
    OneDirect();
    hide OneReleased;
    SendsAndConfirms(Direct(), 0);
    DirectFields(Direct().s);
    hide *;
  }

  lemma OneDirect()
    ensures OneReleased(Direct().s, 0)
  {
  }

  lemma DirectFields(s: State)
    requires s == Direct().s
    ensures Sent(s, 0).(preDel := Null, inHand := false, done := s.done + 1, confirmed := s.confirmed + Data(s, 0)) == DirectSent().s
    ensures DirectSent() == Direct().(s := DirectSent().s)
  {
    assert s.next - {0} == map[] && NextOf(s.next, 0) == To(1) && Data(s, 0) == [7];
    assert s.closed + {0} == {0} && s.given[0 := [7]] == map[0 := [7]] && s.confirmed + [7] == [7];
  }

  lemma DirectRecycles()
    ensures MRun(MRun(DirectSent(), Owns([CallWrite(9), Stack, WriteOver])), [Free(0), Reuse([2], 0)]) == DirectRecycled()
  {
    hide MRun, Owns;
    var m := DirectSent();
    SendsLastData(m);
    var t := m.(s := m.s.(lastData := Null, next := map[], preEnd := 2, inHand := false, done := 2,
                          given := map[0 := [7], 1 := [8]], confirmed := [7, 8]));
    assert Data(m.s, 1) == [8] && [7] + [8] == [7, 8] && m.s.given[1 := [8]] == map[0 := [7], 1 := [8]];
    assert t.s.stream[..2] == [0, 1];
    FreesAndReuses(t, 0, 2);
    assert t.s.ring + [2] == [0, 2] && t.s.used + {2} == {0, 1, 2} && t.freed + {0} == {0};
  }

  /** The store, the next write of one byte, and the look at cons.tail to attach another. */
  function DirectLoaded(): Memory {
    Memory(State(1, [0, 2], 1, 2, 2, map[0 := [7], 1 := [8], 2 := [9]], map[0 := 1, 1 := 1, 2 := 1], map[], map[2 := 1], {0},
                 Null, Null, Null, Null, false, LastLoaded(1, JOB3), StackIdle, {0, 1, 2}, [0, 1, 2], [0, 2, 3], 2, 2, 2,
                 [7, 8, 9], [7, 8], map[0 := [7], 1 := [8]]),
           {0}, Itself, false, [7, 8, 9])
  }

  lemma DirectStores()
    ensures MRun(MRun(MRun(DirectRecycled(), [Own(App)]), [Own(BuffFill([[9]])), Own(App)]), [Own(LoadTail(JOB3))]) == DirectLoaded()
  {
    hide MRun;
    var m := DirectRecycled();
    var t := m.(s := m.s.(last := map[2 := 1], apc := AppIdle));
    MRunOne(m, Own(App));
    assert map[][2 := 1] == map[2 := 1];
    assert MStep(m, Own(App)) == t;
    hide MStep;
    WritesOne(t, 2, 9);
    LoadsTail(Wrote(t, 2, 9), JOB3);
    DirectWrote(t);
  }

  lemma DirectWrote(t: Memory)
    requires t == DirectRecycled().(s := DirectRecycled().s.(last := map[2 := 1], apc := AppIdle))
    ensures var w := Wrote(t, 2, 9); w.(s := w.s.(apc := LastLoaded(w.s.consTail, JOB3))) == DirectLoaded()
  {
    assert t.s.data[2 := [9]] == DirectLoaded().s.data && t.s.len[2 := 1] == DirectLoaded().s.len;
    assert [0, 1] + [2] == [0, 1, 2] && [0, 2] + [3] == [0, 2, 3] && [7, 8] + [9] == [7, 8, 9];
  }

  /** Buffer 3 hangs on buffer 1, which was sent long ago. */
  function DirectLost(): Memory {
    var m := DirectLoaded();
    m.(s := m.s.(apc := AppIdle, data := m.s.data[3 := [6]], len := m.s.len[3 := 1], next := map[1 := 3], last := map[2 := 3],
                 used := {0, 1, 2, 3}, stream := [0, 1, 2, 3], start := [0, 2, 4], accepted := [7, 8, 9, 6]),
       taken := [7, 8, 9, 6])
  }

  lemma FiveMoves(m: Memory, m1: Memory, m2: Memory, m3: Memory, m4: Memory, m5: Memory)
    requires MStep(m, Own(App)) == m1 && MStep(m1, Own(App)) == m2 && MStep(m2, Own(App)) == m3
    requires MStep(m3, Own(App)) == m4 && MStep(m4, Own(App)) == m5
    ensures MRun(m, [Own(App), Own(App), Own(App), Own(App), Own(App)]) == m5
  {
    hide *;
    var a := Own(App);
    assert [a] + [a, a, a, a] == [a, a, a, a, a] && [a] + [a, a, a] == [a, a, a, a];
    assert [a] + [a, a] == [a, a, a] && [a] + [a] == [a, a];
    MRunMore(m, a, [a, a, a, a]);
    MRunMore(m1, a, [a, a, a]);
    MRunMore(m2, a, [a, a]);
    MRunMore(m3, a, [a]);
    MRunOne(m4, a);
  }

  /** A step among the allocations that accepts `bytes`. */
  lemma TakesApp(m: Memory, s: State, bytes: seq<Byte>)
    requires StepApp(m.s) == s && s.prodTail == m.s.prodTail && s.accepted == m.s.accepted + bytes && m.tenant == Itself && !m.on
    ensures MStep(m, Own(App)) == m.(s := s, taken := m.taken + bytes)
  {
    hide StepApp;
    assert Grown(m.s.accepted, s.accepted) == bytes;
  }

  lemma AttachesToOld(s: State)
    requires s == DirectLoaded().s.(appLock := To(2), apc := LastAllowed(2, JOB3))
    ensures StepApp(s) == s.(data := s.data[3 := [6]], len := s.len[3 := 1], next := map[1 := 3], used := {0, 1, 2, 3},
                             apc := AttachLast(2, 3), stream := [0, 1, 2, 3], start := [0, 2, 4], preEnd := 2, lastEnd := 2,
                             accepted := [7, 8, 9, 6])
  {
    OldParts(s);
    hide SetData, SetLen, Link, Flat, Fresh, Payloads, LastOf;
    AttachesNow(s);
    hide StepApp;
    assert s.stream + [3] == [0, 1, 2, 3] && s.accepted + [6] == [7, 8, 9, 6];
    assert ButLast(s.start) + [4] == [0, 2, 4] && map[][1 := 3] == map[1 := 3];
  }

  lemma OldParts(s: State)
    requires s == DirectLoaded().s.(appLock := To(2), apc := LastAllowed(2, JOB3))
    ensures SetData(s.data, [3], [[6]]) == s.data[3 := [6]] && SetLen(s.len, [3], [[6]]) == s.len[3 := 1]
    ensures Link(s.next, [3]) == map[] && LastOf(s, 2) == 1 && s.used + (set i | i in [3]) == {0, 1, 2, 3}
    ensures Fresh(s, [3]) && Payloads([[6]]) && Flat([[6]]) == [6]
  {
    assert [3][..0] == [] && [[6]][..0] == [];
    FlatOne([6]);
    assert (set i | i in [3]) == {3};
  }

  lemma AttachesNow(s: State)
    requires s.apc == LastAllowed(2, JOB3) && Fresh(s, [3]) && Payloads([[6]])
    ensures StepApp(s) == DoAttach(s, 2, [3], [[6]])
  {
    hide DoAttach, Fresh, Payloads, TakeAppLock, DoBuffOver, DoDirectOver;
  }

  lemma DirectLoses()
    ensures MRun(DirectLoaded(), [Own(App), Own(App), Own(App), Own(App), Own(App)]) == DirectLost()
  {
    hide MRun, MStep, StepApp;
    var m := DirectLoaded();
    var s1 := m.s.(appLock := To(2), apc := LastLocked(2, JOB3));
    var s2 := s1.(apc := LastAllowed(2, JOB3));
    var s3 := s2.(data := s2.data[3 := [6]], len := s2.len[3 := 1], next := map[1 := 3], used := {0, 1, 2, 3},
                  apc := AttachLast(2, 3), stream := [0, 1, 2, 3], start := [0, 2, 4], preEnd := 2, lastEnd := 2,
                  accepted := [7, 8, 9, 6]);
    var s4 := s3.(last := map[2 := 3], apc := Holding(2));
    DirectLocks(m.s, s1, s2);
    AttachesToOld(s2);
    DirectUnlocks(s3, s4);
    assert [7, 8, 9] + [] == [7, 8, 9] && [7, 8, 9] + [6] == [7, 8, 9, 6] && [7, 8, 9, 6] + [] == [7, 8, 9, 6];
    var m1, m2, m3, m4 := m.(s := s1), m.(s := s2), m.(s := s3, taken := [7, 8, 9, 6]), m.(s := s4, taken := [7, 8, 9, 6]);
    TakesApp(m, s1, []);
    TakesApp(m1, s2, []);
    TakesApp(m2, s3, [6]);
    TakesApp(m3, s4, []);
    TakesApp(m4, UnlockApp(s4), []);
    FiveMoves(m, m1, m2, m3, m4, DirectLost());
  }

  lemma DirectLocks(s: State, s1: State, s2: State)
    requires s == DirectLoaded().s && s1 == s.(appLock := To(2), apc := LastLocked(2, JOB3))
    requires s2 == s1.(apc := LastAllowed(2, JOB3))
    ensures StepApp(s) == s1 && StepApp(s1) == s2
  {
    assert StepApp(s) == TakeAppLock(s, 1, JOB3);
    hide TakeAppLock, BeginMerge, BeginAttach, DoBuffOver, DoDirectOver;
  }

  lemma DirectUnlocks(s: State, t: State)
    requires s.apc == AttachLast(2, 3) && s.last == map[2 := 1] && t == s.(last := map[2 := 3], apc := Holding(2))
    ensures StepApp(s) == t && StepApp(t) == UnlockApp(t)
  {
    assert map[2 := 1][2 := 3] == map[2 := 3];
  }

  lemma DirectEnds()
    ensures var m := MRun(DirectLost(), Owns(SENDS));
            && m.taken == [7, 8, 9, 6] && m.s.confirmed == [7, 8, 9] && m.s.preDel == Null && m.s.lastData == Null
            && m.s.consTail == m.s.prodTail && m.s.next == map[1 := 3] && 1 in m.s.given
  {
    hide MRun, Owns, SENDS;
    SendsAndConfirms(DirectLost(), 2);
    assert map[1 := 3] - {2} == map[1 := 3] && [7, 8] + [9] == [7, 8, 9];
  }

  /** The application writes 7, 8, 9 and 6; the stack sends 7, 8 and 9, and 6 hangs on no pointer of the socket but on a buffer
      that lwip was given: buffer 0 is sent, freed and allocated again for the same ring before app_direct_write stores its
      `last`, and the next attach follows that `last`. */
  lemma LostBehindOldChain() returns (moves: seq<Move>)
    ensures var m := MRun(MInit(1), moves);
            && m.taken == [7, 8, 9, 6] && m.s.confirmed == [7, 8, 9] && m.s.preDel == Null && m.s.lastData == Null
            && m.s.consTail == m.s.prodTail && m.s.next == map[1 := 3] && 1 in m.s.given
  {
    DirectOpens();
    DirectSends();
    DirectRecycles();
    DirectStores();
    DirectLoses();
    DirectEnds();
    hide *;
    var sends, more, a := Owns(SENDS), Owns([CallWrite(9), Stack, WriteOver]), DirectOpening();
    MRunConcat(MInit(1), a, sends);
    MRunConcat(MInit(1), a + sends, more);
    MRunConcat(MInit(1), a + sends + more, [Free(0), Reuse([2], 0)]);
    var b := a + sends + more + [Free(0), Reuse([2], 0)];
    var write: seq<Move> := [Own(BuffFill([[9]])), Own(App)];
    MRunConcat(MInit(1), b, [Own(App)]);
    MRunConcat(MInit(1), b + [Own(App)], write);
    MRunConcat(MInit(1), b + [Own(App)] + write, [Own(LoadTail(JOB3))]);
    var c := b + [Own(App)] + write + [Own(LoadTail(JOB3))];
    MRunConcat(MInit(1), c, [Own(App), Own(App), Own(App), Own(App), Own(App)]);
    moves := c + [Own(App), Own(App), Own(App), Own(App), Own(App)] + sends;
    MRunConcat(MInit(1), c + [Own(App), Own(App), Own(App), Own(App), Own(App)], sends);
  }
}
