/** The intrusive multi-producer single-consumer queue as a transition system.

    One action is one access to a shared word.  Pushers are identified by the node they push.
    `chain`, `pushed`, `popped` and `raced` are history: they are written, never tested. */
module MpscQueue {

  type Node = nat

  /** The address of the stub node embedded in the queue. */
  const STUB: Node := 0

  datatype Ptr = Null | To(node: Node)

  /** What the last call of pop returned. */
  datatype Outcome = Running | Empty | Got(node: Node)

  /** The next shared access of the consumer inside pop. */
  datatype PopPc = Idle | LoadNext | LoadAfterStub | LoadHead | ExchangeStub | LinkStub | LoadAgain

  datatype State = State(
    head: Node, tail: Node, next: map<Node, Node>,
    pend: map<Node, Node>,  // pushes between exchange and link: node -> the old head it holds
    pc: PopPc, last: Outcome,
    chain: seq<Node>, pushed: seq<Node>, popped: seq<Node>, raced: bool)

  datatype Action = Exchange(node: Node) | Link(node: Node) | PopBegin | PopStep

  const Init := State(STUB, STUB, map[], map[], Idle, Running, [STUB], [], [], false)

  function Next(s: State, n: Node): Ptr {
    if n in s.next then To(s.next[n]) else Null
  }

  function Rest(chain: seq<Node>): seq<Node> {
    if chain == [] then [] else chain[1..]
  }

  function DoExchange(s: State, n: Node): State {
    s.(next := s.next - {n}, pend := s.pend[n := s.head], head := n, chain := s.chain + [n])
  }

  function DoLink(s: State, n: Node): State {
    if n in s.pend then s.(next := s.next[s.pend[n] := n], pend := s.pend - {n}) else s
  }

  function Return(s: State): State {
    s.(pc := Idle, last := Empty)
  }

  /** Take the tail out of the queue if its link is there, otherwise go on at `otherwise`. */
  function Advance(s: State, otherwise: State): State {
    match Next(s, s.tail)
    case To(n) => s.(tail := n, chain := Rest(s.chain), popped := s.popped + [s.tail], pc := Idle, last := Got(s.tail))
    case Null => otherwise
  }

  function StepPop(s: State): State {
    match s.pc
    case Idle => s
    case LoadNext =>
      if s.tail == STUB then
        match Next(s, STUB)
        case Null => Return(s)
        case To(n) => s.(tail := n, chain := Rest(s.chain), pc := LoadAfterStub)
      else
        Advance(s, s.(pc := LoadHead))
    case LoadAfterStub => Advance(s, s.(pc := LoadHead))
    case LoadHead => if s.tail != s.head then Return(s) else s.(pc := ExchangeStub)
    case ExchangeStub => DoExchange(s, STUB).(pc := LinkStub)
    case LinkStub => DoLink(s, STUB).(pc := LoadAgain)
    case LoadAgain => Advance(s, Return(s))
  }

  /** A pusher may start only with a node that is not in the queue; it may have been in it before. */
  function Step(s: State, a: Action): State {
    match a
    case Exchange(n) =>
      if n == STUB || n in s.chain then s
      else DoExchange(s, n).(pushed := s.pushed + [n], raced := true)
    case Link(n) => if n == STUB then s else DoLink(s, n)
    case PopBegin =>
      if s.pc != Idle then s else s.(pc := LoadNext, last := Running, raced := s.pend != map[])
    case PopStep => StepPop(s)
  }

  function Run(s: State, trace: seq<Action>): State {
    if trace == [] then s else Step(Run(s, trace[..|trace| - 1]), trace[|trace| - 1])
  }

  /** The abstract queue: the chain without the stub. */
  function Items(chain: seq<Node>): seq<Node> {
    if chain == [] then []
    else (if chain[0] == STUB then [] else [chain[0]]) + Items(chain[1..])
  }

  lemma {:induction false} ItemsAppend(c: seq<Node>, n: Node)
    ensures Items(c + [n]) == Items(c) + if n == STUB then [] else [n]
  {
    if c != [] {
      ItemsAppend(c[1..], n);
      assert (c + [n])[1..] == c[1..] + [n];
    } else {
      assert Items([n][1..]) == [];
    }
  }

  // ----- the invariant -----

  ghost predicate Distinct(c: seq<Node>) {
    forall i, j :: 0 <= i < j < |c| ==> c[i] != c[j]
  }

  /** Neighbours in the chain are linked, or a pusher still holds the first as its old head. */
  ghost predicate Join(next: map<Node, Node>, pend: map<Node, Node>, a: Node, b: Node) {
    if b in pend then pend[b] == a && a !in next
    else a in next && next[a] == b
  }

  ghost predicate Joined(s: State, a: Node, b: Node) {
    Join(s.next, s.pend, a, b)
  }

  ghost predicate Chained(head: Node, tail: Node, next: map<Node, Node>, pend: map<Node, Node>, chain: seq<Node>) {
    && chain != [] && Distinct(chain)
    && tail == chain[0] && head == chain[|chain| - 1]
    && head !in next
    && (forall i :: 0 <= i < |chain| - 1 ==> Join(next, pend, chain[i], chain[i + 1]))
    && (forall n :: n in pend ==> n in chain[1..])
  }

  ghost predicate Shape(s: State) {
    Chained(s.head, s.tail, s.next, s.pend, s.chain)
  }

  ghost predicate PcFacts(s: State) {
    && (STUB in s.pend <==> s.pc == LinkStub)
    && ((s.pc.LoadAfterStub? || s.pc.LoadHead? || s.pc.ExchangeStub? || s.pc.LinkStub? || s.pc.LoadAgain?) ==> s.tail != STUB)
    && ((s.pc.LoadAfterStub? || s.pc.ExchangeStub?) ==> STUB !in s.chain)
    && (s.pc == LoadHead ==> |s.chain| == 1 || s.raced)
    && (s.pc == LoadAgain ==> |s.chain| > 1)
    && (s.pc != Idle && s.pend - {STUB} != map[] ==> s.raced)
    && (s.pc != Idle ==> s.last == Running)
  }

  ghost predicate Inv(s: State) {
    Shape(s) && PcFacts(s) && s.pushed == s.popped + Items(s.chain)
  }

  lemma DistinctGrows(c: seq<Node>, n: Node)
    requires Distinct(c) && n !in c
    ensures Distinct(c + [n])
  {
  }

  lemma ExchangeKeepsShape(s: State, n: Node)
    requires Shape(s) && n !in s.chain
    ensures Shape(DoExchange(s, n))
    ensures Items(DoExchange(s, n).chain) == Items(s.chain) + if n == STUB then [] else [n]
  {
    hide Items, Distinct;
    DistinctGrows(s.chain, n);
    var t := DoExchange(s, n);
    var k := |s.chain| - 1;
    assert forall i :: 0 <= i <= k ==> t.chain[i] == s.chain[i];
    assert forall i :: 0 <= i <= k ==> s.chain[i] in s.chain;
    forall i | 0 <= i < |t.chain| - 1 ensures Joined(t, t.chain[i], t.chain[i + 1]) {
      if i < k { assert Joined(s, s.chain[i], s.chain[i + 1]); }
    }
    assert t.chain[1..] == s.chain[1..] + [n];
    ItemsAppend(s.chain, n);
  }

  lemma PendingHolds(s: State, n: Node) returns (i: nat)
    requires Shape(s) && n in s.pend
    ensures i + 1 < |s.chain| && s.chain[i + 1] == n && s.pend[n] == s.chain[i]
  {
    var j :| 0 <= j < |s.chain[1..]| && s.chain[1..][j] == n;
    i := j;
    assert Joined(s, s.chain[i], s.chain[i + 1]);
  }

  lemma LinkKeepsShape(s: State, n: Node)
    requires Shape(s) && n in s.pend
    ensures Shape(DoLink(s, n))
  {
    var t := DoLink(s, n);
    var k := PendingHolds(s, n);
    forall i | 0 <= i < |t.chain| - 1 ensures Joined(t, t.chain[i], t.chain[i + 1]) {
      assert Joined(s, s.chain[i], s.chain[i + 1]);
    }
  }

  /** Moving the tail along an existing link drops exactly the first node of the chain. */
  lemma TailMove(s: State, t: State)
    requires Shape(s) && s.tail in s.next
    requires t.head == s.head && t.next == s.next && t.pend == s.pend
    requires t.tail == s.next[s.tail] && t.chain == Rest(s.chain)
    ensures Shape(t)
    ensures s.tail !in t.chain && s.tail !in t.pend.Values
    ensures Items(s.chain) == (if s.tail == STUB then [] else [s.tail]) + Items(t.chain)
  {
    assert |s.chain| > 1;
    assert Joined(s, s.chain[0], s.chain[1]);
    assert forall i :: 0 <= i < |t.chain| ==> t.chain[i] == s.chain[i + 1];
    forall i | 0 <= i < |t.chain| - 1 ensures Joined(t, t.chain[i], t.chain[i + 1]) {
      assert Joined(s, s.chain[i + 1], s.chain[i + 2]);
    }
    forall n | n in t.pend ensures n in t.chain[1..] && t.pend[n] != s.tail {
      var k := PendingHolds(s, n);
      assert k != 0;
      assert t.chain[1..][k - 1] == n;
    }
  }

  lemma FreeNode(s: State, n: Node)
    requires Inv(s) && n !in s.chain
    ensures n !in s.pend && n !in s.pend.Values
  {
    assert n !in s.chain[1..];
    if n in s.pend.Values {
      var m :| m in s.pend && s.pend[m] == n;
      var k := PendingHolds(s, m);
    }
  }

  lemma TailMembers(s: State)
    requires Inv(s)
    ensures s.tail !in Rest(s.chain)
    ensures forall n :: n in s.chain <==> n == s.tail || n in Rest(s.chain)
  {
    forall n | n in s.chain ensures n == s.tail || n in Rest(s.chain) {
      var i :| 0 <= i < |s.chain| && s.chain[i] == n;
      if i > 0 { assert Rest(s.chain)[i - 1] == n; }
    }
  }

  lemma StubPushIsOwn(s: State)
    requires Inv(s)
    ensures STUB in s.pend <==> s.pc == LinkStub
    ensures (s.pc.LoadAfterStub? || s.pc.LoadHead? || s.pc.ExchangeStub? || s.pc.LinkStub? || s.pc.LoadAgain?) ==> s.tail != STUB
  {
  }

  lemma InitInv()
    ensures Inv(Init)
  {
    assert Items([STUB][1..]) == [];
  }

  lemma ExchangeKeepsInv(s: State, n: Node)
    requires Inv(s) && n != STUB && n !in s.chain
    ensures Inv(DoExchange(s, n).(pushed := s.pushed + [n], raced := true))
  {
    hide Chained, Items;
    ExchangeKeepsShape(s, n);
    assert s.pushed + [n] == s.popped + (Items(s.chain) + [n]);
  }

  lemma LinkKeepsInv(s: State, n: Node)
    requires Inv(s) && n != STUB && n in s.pend
    ensures Inv(DoLink(s, n))
  {
    hide Chained, Items;
    LinkKeepsShape(s, n);
    assert n in s.pend - {STUB};
  }

  lemma BeginKeepsInv(s: State)
    requires Inv(s) && s.pc == Idle
    ensures Inv(s.(pc := LoadNext, last := Running, raced := s.pend != map[]))
  {
    hide Chained, Items;
    if s.pend - {STUB} != map[] {
      var n :| n in s.pend - {STUB};
      assert n in s.pend;
    }
  }

  lemma StepKeepsInv(s: State, a: Action)
    requires Inv(s)
    ensures Inv(Step(s, a))
  {
    hide Inv;
    match a
    case Exchange(n) => if n != STUB && n !in s.chain { ExchangeKeepsInv(s, n); }
    case Link(n) => if n != STUB && n in s.pend { LinkKeepsInv(s, n); }
    case PopBegin => if s.pc == Idle { BeginKeepsInv(s); }
    case PopStep => PopStepKeepsInv(s);
  }

  /** The three loads of a link that may hand the tail to the caller. */
  lemma DeliverKeepsInv(s: State, otherwise: State)
    requires Inv(s) && s.tail != STUB && s.tail in s.next
    requires (s.pc.LoadNext? || s.pc.LoadAfterStub? || s.pc.LoadAgain?)
    ensures Inv(Advance(s, otherwise))
  {
    hide Chained, Items;
    var t := Advance(s, otherwise);
    TailMove(s, t);
    assert s.popped + Items(s.chain) == s.popped + [s.tail] + Items(t.chain);
  }

  lemma SkipStubKeepsInv(s: State)
    requires Inv(s) && s.pc == LoadNext && s.tail == STUB && STUB in s.next
    ensures Inv(s.(tail := s.next[STUB], chain := Rest(s.chain), pc := LoadAfterStub))
  {
    var t := s.(tail := s.next[STUB], chain := Rest(s.chain), pc := LoadAfterStub);
    TailMove(s, t);
    assert [] + Items(t.chain) == Items(t.chain);
  }

  /** A missing link means that the chain ends here or that a push is still to be linked. */
  lemma MissingLink(s: State)
    requires Inv(s) && s.tail !in s.next && (s.pc.LoadNext? || s.pc.LoadAfterStub?)
    ensures |s.chain| == 1 || s.raced
  {
    if |s.chain| > 1 {
      assert Joined(s, s.chain[0], s.chain[1]);
      assert s.chain[1] in s.pend - {STUB};
    }
  }

  lemma ExchangeStubKeepsInv(s: State)
    requires Inv(s) && s.pc == ExchangeStub
    ensures Inv(DoExchange(s, STUB).(pc := LinkStub))
  {
    hide Chained, Items;
    var t := DoExchange(s, STUB);
    ExchangeKeepsShape(s, STUB);
    assert s.popped + Items(s.chain) == s.popped + Items(t.chain);
    assert t.pend - {STUB} == s.pend - {STUB};
  }

  lemma LinkStubKeepsInv(s: State)
    requires Inv(s) && s.pc == LinkStub
    ensures Inv(DoLink(s, STUB).(pc := LoadAgain))
  {
    hide Chained, Items;
    LinkKeepsShape(s, STUB);
    assert DoLink(s, STUB).pend - {STUB} == s.pend - {STUB};
    var k := PendingHolds(s, STUB);
  }

  lemma LoadKeepsInv(s: State)
    requires Inv(s) && (s.pc.LoadNext? || s.pc.LoadAfterStub?)
    ensures Inv(StepPop(s))
  {
    hide Chained, Items;
    if s.tail !in s.next { MissingLink(s); }
    else if s.tail == STUB { SkipStubKeepsInv(s); }
    else { DeliverKeepsInv(s, s.(pc := LoadHead)); }
  }

  lemma LoadHeadKeepsInv(s: State)
    requires Inv(s) && s.pc == LoadHead
    ensures Inv(StepPop(s))
  {
    hide Items;
    assert |s.chain| > 1 ==> s.chain[0] != s.chain[|s.chain| - 1];
  }

  lemma LoadAgainKeepsInv(s: State)
    requires Inv(s) && s.pc == LoadAgain
    ensures Inv(StepPop(s))
  {
    hide Chained, Items;
    if s.tail in s.next { DeliverKeepsInv(s, Return(s)); }
  }

  lemma PopStepKeepsInv(s: State)
    requires Inv(s)
    ensures Inv(StepPop(s))
  {
    hide Inv;
    match s.pc
    case Idle =>
    case LoadNext => LoadKeepsInv(s);
    case LoadAfterStub => LoadKeepsInv(s);
    case LoadHead => LoadHeadKeepsInv(s);
    case ExchangeStub => ExchangeStubKeepsInv(s);
    case LinkStub => LinkStubKeepsInv(s);
    case LoadAgain => LoadAgainKeepsInv(s);
  }

  lemma {:induction false} RunKeepsInv(s: State, trace: seq<Action>)
    requires Inv(s)
    ensures Inv(Run(s, trace))
  {
    if trace != [] {
      RunKeepsInv(s, trace[..|trace| - 1]);
      StepKeepsInv(Run(s, trace[..|trace| - 1]), trace[|trace| - 1]);
    }
  }

  // ----- the promises -----

  /** Under every interleaving what pop has returned is a prefix, in exchange order, of what was pushed,
      and what is missing is exactly the chain; the stub is in the chain at most once. */
  lemma {:induction false} FifoOnEveryRun(trace: seq<Action>)
    ensures var s := Run(Init, trace);
            && s.popped <= s.pushed
            && s.pushed == s.popped + Items(s.chain)
            && STUB !in s.popped
            && Distinct(s.chain)
  {
    InitInv();
    RunKeepsInv(Init, trace);
    PushedHasNoStub(trace);
    var s := Run(Init, trace);
    assert forall i :: 0 <= i < |s.popped| ==> s.popped[i] == s.pushed[i];
  }

  lemma {:induction false} PushedHasNoStub(trace: seq<Action>)
    ensures STUB !in Run(Init, trace).pushed
  {
    if trace != [] { PushedHasNoStub(trace[..|trace| - 1]); }
  }

  /** A node that pop has just returned is out of the chain and no pusher will write its link any more:
      it may be pushed again at once. */
  lemma ReturnedNodeIsFree(s: State)
    requires Inv(s) && s.pc != Idle && StepPop(s).last.Got?
    ensures var t := StepPop(s); var n := t.last.node;
            && t.pc == Idle && n != STUB && n == s.tail
            && n !in t.chain && n !in t.pend && n !in t.pend.Values
            && t.popped == s.popped + [n]
            && Items(s.chain)[..1] == [n]
  {
    TailMove(s, StepPop(s));
    PopStepKeepsInv(s);
    FreeNode(StepPop(s), s.tail);
  }

  /** Pop answers NULL only if the abstract queue is empty at that moment, or a push was between its
      exchange and its link at some moment of this call.  A call that met no push answers exactly, and with no push
      pending at the answer it is wrong exactly when it is given because the head is not the tail. */
  lemma NullMeansEmptyOrRaced(s: State)
    requires Inv(s) && s.pc != Idle && StepPop(s).pc == Idle
    ensures StepPop(s).last == Empty ==> Items(s.chain) == [] || s.raced
    ensures StepPop(s).last == Empty ==> StepPop(s).chain == s.chain && StepPop(s).popped == s.popped
    ensures !s.raced ==> (StepPop(s).last == Empty <==> Items(s.chain) == [])
    ensures StepPop(s).last == Empty && s.pend == map[] ==> (Items(s.chain) != [] <==> s.pc == LoadHead)
  {
    if StepPop(s).last.Got? {
      ReturnedNodeIsFree(s);
    } else if |s.chain| > 1 {
      assert Joined(s, s.chain[0], s.chain[1]);
      if s.chain[1] in s.pend { assert s.chain[1] in s.pend - {STUB}; }
    } else {
      assert s.chain == [s.tail];
      assert Items(s.chain[1..]) == [];
    }
  }

  lemma RunSnoc(s: State, trace: seq<Action>, a: Action)
    ensures Run(s, trace + [a]) == Step(Run(s, trace), a)
  {
    hide Step;
    assert (trace + [a])[..|trace|] == trace;
  }

  lemma {:induction false} RunConcat(s: State, t: seq<Action>, u: seq<Action>)
    ensures Run(s, t + u) == Run(Run(s, t), u)
  {
    if u == [] {
      assert t + u == t;
      hide Step;
    } else {
      hide Step, Run;
      var v, a := u[..|u| - 1], u[|u| - 1];
      RunConcat(s, t, v);
      RunSnoc(s, t + v, a);
      RunSnoc(Run(s, t), v, a);
      assert v + [a] == u && t + v + [a] == t + u;
    }
  }

  /** The link of the tail is stored by the pusher that holds the tail as its old head. */
  ghost predicate StoresTailLink(s: State, a: Action) {
    a.Link? && a.node != STUB && a.node in s.pend && s.pend[a.node] == s.tail
  }

  ghost predicate StoredIn(trace: seq<Action>, k: nat, m: nat) {
    exists j: nat :: k < j < m <= |trace| && StoresTailLink(Run(Init, trace[..j]), trace[j])
  }

  /** At action k of the run the call of pop under way loads tail->next and finds nothing; the call makes no access
      from then on. */
  ghost predicate FindsNoLink(trace: seq<Action>, k: nat, m: nat) {
    && k < m <= |trace| && trace[k] == PopStep
    && Run(Init, trace[..k]).pc in {LoadNext, LoadAfterStub} && StepPop(Run(Init, trace[..k])).pc == LoadHead
    && forall i :: k < i < m ==> trace[i] != PopStep
  }

  lemma RunPrefix(trace: seq<Action>, m: nat)
    requires m < |trace|
    ensures Run(Init, trace[..m + 1]) == Step(Run(Init, trace[..m]), trace[m])
  {
    hide Step;
    assert trace[..m + 1][..m] == trace[..m];
  }

  lemma WaitsAtHead(s: State, a: Action)
    requires s.pc == LoadHead && a != PopStep
    ensures Step(s, a).pc == LoadHead && Step(s, a).tail == s.tail
    ensures s.tail in Step(s, a).next ==> s.tail in s.next || StoresTailLink(s, a)
  {
  }

  lemma NoLinkFound(s: State)
    requires s.pc in {LoadNext, LoadAfterStub} && StepPop(s).pc == LoadHead
    ensures StepPop(s).tail !in StepPop(s).next
  {
  }

  /** From then on the tail has a link exactly if one has been stored since. */
  lemma {:induction false} LinkedSince(trace: seq<Action>, k: nat, m: nat)
    requires FindsNoLink(trace, k, m)
    ensures var s := Run(Init, trace[..m]);
            s.pc == LoadHead && (s.tail in s.next ==> StoredIn(trace, k, m))
    decreases m
  {
    assert forall s :: Step(s, PopStep) == StepPop(s);
    hide Run, Step, StepPop, StoresTailLink;
    var n := m - 1;
    RunPrefix(trace, n);
    if n == k {
      NoLinkFound(Run(Init, trace[..k]));
    } else {
      LinkedSince(trace, k, n);
      WaitsAtHead(Run(Init, trace[..n]), trace[n]);
      if StoredIn(trace, k, n) { assert StoredIn(trace, k, m); }
    }
  }

  lemma ReachesLoadHead(s: State, a: Action)
    requires Step(s, a).pc == LoadHead
    ensures if a == PopStep then s.pc in {LoadNext, LoadAfterStub} && StepPop(s).pc == LoadHead else s.pc == LoadHead
  {
  }

  /** A call that is about to load the head has found no link before. */
  lemma {:induction false} LastLoad(trace: seq<Action>, m: nat) returns (k: nat)
    requires m <= |trace| && Run(Init, trace[..m]).pc == LoadHead
    ensures FindsNoLink(trace, k, m)
    decreases m
  {
    assert m > 0;
    hide Run, Step, StepPop;
    RunPrefix(trace, m - 1);
    ReachesLoadHead(Run(Init, trace[..m - 1]), trace[m - 1]);
    if trace[m - 1] == PopStep {
      k := m - 1;
    } else {
      k := LastLoad(trace, m - 1);
    }
  }

  /** The exact condition under which a call of pop answers NULL with items waiting and no push pending: it finds no
      link behind the tail, and the link is stored before it loads the head. */
  lemma WrongNullOnEveryRun(trace: seq<Action>)
    requires var s := Run(Init, trace);
             s.pc != Idle && StepPop(s).pc == Idle && StepPop(s).last == Empty && s.pend == map[]
    ensures Items(Run(Init, trace).chain) != [] <==>
            exists k: nat :: FindsNoLink(trace, k, |trace|) && StoredIn(trace, k, |trace|)
  {
    hide Run;
    var s := Run(Init, trace);
    InitInv();
    RunKeepsInv(Init, trace);
    NullMeansEmptyOrRaced(s);
    assert trace[..|trace|] == trace;
    if Items(s.chain) != [] {
      var k := LastLoad(trace, |trace|);
      LinkedSince(trace, k, |trace|);
      assert Joined(s, s.chain[0], s.chain[1]);
    }
    forall k: nat | FindsNoLink(trace, k, |trace|) ensures s.pc == LoadHead {
      LinkedSince(trace, k, |trace|);
    }
  }

  // ----- two runs that show where the simpler claims stop -----

  /** Node 1 is pushed and a pop gets as far as finding no link behind it. */
  const Opening: seq<Action> := [Exchange(1), Link(1), PopBegin, PopStep, PopStep]

  lemma FirstStep(s: State, t: seq<Action>)
    requires t != []
    ensures Run(s, t) == Run(Step(s, t[0]), t[1..])
  {
    RunSnoc(s, [], t[0]);
    RunConcat(s, [] + [t[0]], t[1..]);
    assert [] + [t[0]] + t[1..] == t;
  }

  lemma ThreeSteps(s: State, t: seq<Action>)
    requires |t| >= 3
    ensures Run(s, t) == Run(Step(Step(Step(s, t[0]), t[1]), t[2]), t[3..])
  {
    FirstStep(s, t);
    FirstStep(Step(s, t[0]), t[1..]);
    FirstStep(Step(Step(s, t[0]), t[1]), t[1..][1..]);
    assert t[1..][1..][1..] == t[3..];
  }

  lemma OpeningState()
    ensures Run(Init, Opening) == State(1, 1, map[STUB := 1], map[], LoadHead, Running, [1], [1], [], false)
  {
    var a := Step(Init, Exchange(1));
    assert a == State(1, STUB, map[], map[1 := STUB], Idle, Running, [STUB, 1], [1], [], true);
    var b := Step(a, Link(1));
    assert b == State(1, STUB, map[STUB := 1], map[], Idle, Running, [STUB, 1], [1], [], true);
    var c := Step(b, PopBegin);
    ThreeSteps(Init, Opening);
    assert Run(Init, Opening) == Run(c, [PopStep, PopStep]);
    var d := Step(c, PopStep);
    FirstStep(c, [PopStep, PopStep]);
    FirstStep(d, [PopStep, PopStep][1..]);
    assert d == State(1, 1, map[STUB := 1], map[], LoadAfterStub, Running, [1], [1], [], false);
  }

  /** At the moment pop answers NULL all pushes may have finished and two items may be waiting:
      the push it met can be over by then. */
  lemma NullWithFinishedPushes()
    ensures exists trace :: var s := Run(Init, trace);
              && s.pc != Idle && StepPop(s).last == Empty
              && s.pend == map[] && Items(s.chain) == [1, 2] && s.raced
  {
    OpeningState();
    RunSnoc(Init, Opening, Exchange(2));
    RunSnoc(Init, Opening + [Exchange(2)], Link(2));
    var a := Run(Init, Opening + [Exchange(2)]);
    assert a == State(2, 1, map[STUB := 1], map[2 := 1], LoadHead, Running, [1, 2], [1, 2], [], true);
    var s := Run(Init, Opening + [Exchange(2)] + [Link(2)]);
    assert s.pend == map[];
    assert [1, 2][1..] == [2] && [2][1..] == [];
  }

  /** A queue at rest can hold the stub behind real items: pop had re-inserted it and then met a push. */
  lemma {:induction false} StubInTheMiddle() returns (trace: seq<Action>)
    ensures var s := Run(Init, trace); Quiescent(s) && s.chain == [1, 2, STUB] && Items(s.chain) == [1, 2]
  {
    var middle := [PopStep, Exchange(2), PopStep, PopStep, PopStep, Link(2)];
    trace := Opening + middle;
    RunConcat(Init, Opening, middle);
    MiddleState();
    InitInv();
    RunKeepsInv(Init, trace);
    assert [1, 2, STUB][1..] == [2, STUB] && [2, STUB][1..] == [STUB] && [STUB][1..] == [];
  }

  lemma MiddleState()
    ensures Run(Run(Init, Opening), [PopStep, Exchange(2), PopStep, PopStep, PopStep, Link(2)]) ==
            State(STUB, 1, map[2 := STUB, 1 := 2], map[], Idle, Empty, [1, 2, STUB], [1, 2], [], true)
  {
    hide Step;
    var t := [PopStep, Exchange(2), PopStep, PopStep, PopStep, Link(2)];
    ThreeSteps(Run(Init, Opening), t);
    MiddleFirstHalf();
    var s2 := State(STUB, 1, map[], map[2 := 1, STUB := 2], LinkStub, Running, [1, 2, STUB], [1, 2], [], true);
    ThreeSteps(s2, t[3..]);
    MiddleSecondHalf(s2);
    assert t[3..][3..] == [];
  }

  lemma MiddleSecondHalf(s: State)
    requires s == State(STUB, 1, map[], map[2 := 1, STUB := 2], LinkStub, Running, [1, 2, STUB], [1, 2], [], true)
    ensures Step(Step(Step(s, PopStep), PopStep), Link(2)) ==
            State(STUB, 1, map[2 := STUB, 1 := 2], map[], Idle, Empty, [1, 2, STUB], [1, 2], [], true)
  {
    assert Step(Step(s, PopStep), PopStep) ==
           State(STUB, 1, map[2 := STUB], map[2 := 1], Idle, Empty, [1, 2, STUB], [1, 2], [], true);
  }

  lemma MiddleFirstHalf()
    ensures Step(Step(Step(Run(Init, Opening), PopStep), Exchange(2)), PopStep) ==
            State(STUB, 1, map[], map[2 := 1, STUB := 2], LinkStub, Running, [1, 2, STUB], [1, 2], [], true)
  {
    hide Run;
    OpeningState();
    var s0 := Run(Init, Opening);
    var s1 := Step(Step(s0, PopStep), Exchange(2));
    assert s1 == State(2, 1, map[STUB := 1], map[2 := 1], ExchangeStub, Running, [1, 2], [1, 2], [], true);
  }

  // ----- a call of pop that nobody disturbs -----

  function Quiet(s: State, steps: nat): State {
    if steps == 0 then s else StepPop(Quiet(s, steps - 1))
  }

  /** A whole call of pop takes at most seven accesses. */
  function PopAlone(s: State): State {
    Quiet(Step(s, PopBegin), 7)
  }

  lemma Unfold(s: State)
    ensures PopAlone(s) ==
            StepPop(StepPop(StepPop(StepPop(StepPop(StepPop(StepPop(Step(s, PopBegin))))))))
  {
    var b := Step(s, PopBegin);
    assert Quiet(b, 1) == StepPop(b);
    assert Quiet(b, 2) == StepPop(StepPop(b));
    assert Quiet(b, 3) == StepPop(Quiet(b, 2));
    assert Quiet(b, 4) == StepPop(Quiet(b, 3));
    assert Quiet(b, 5) == StepPop(Quiet(b, 4));
    assert Quiet(b, 6) == StepPop(Quiet(b, 5));
  }

  ghost predicate Quiescent(s: State) {
    Inv(s) && s.pend == map[] && s.pc == Idle
  }

  /** Once all pushes have finished, an undisturbed pop takes the first item if there is one. */
  lemma PopAloneTakesFirst(s: State)
    requires Quiescent(s)
    ensures var t := PopAlone(s);
            && Quiescent(t)
            && t.last == (if Items(s.chain) == [] then Empty else Got(Items(s.chain)[0]))
            && Items(t.chain) == (if Items(s.chain) == [] then [] else Items(s.chain)[1..])
  {
    Unfold(s);
    var b := Step(s, PopBegin);
    StepKeepsInv(s, PopBegin);
    if |s.chain| > 1 { assert Joined(s, s.chain[0], s.chain[1]); } else { assert Items(s.chain[1..]) == []; }
    if s.tail == STUB {
      if |s.chain| > 1 {
        var c := StepPop(b);
        PopStepKeepsInv(b);
        TailMove(b, c);
        PopFromLoad(c);
      } else {
        assert StepPop(b).last == Empty;
      }
    } else {
      PopFromLoad(b);
    }
  }

  /** The part of pop after the stub has been skipped. */
  lemma PopFromLoad(s: State)
    requires Inv(s) && s.pend == map[] && s.tail != STUB && (s.pc.LoadNext? || s.pc.LoadAfterStub?)
    ensures var t := StepPop(StepPop(StepPop(StepPop(StepPop(s)))));
            && Quiescent(t) && t.last == Got(s.tail)
            && Items(s.chain) == [s.tail] + Items(t.chain)
            && StepPop(t) == t
  {
    PopStepKeepsInv(s);
    var c := StepPop(s);
    if |s.chain| > 1 {
      assert Joined(s, s.chain[0], s.chain[1]);
      TailMove(s, c);
    } else {
      assert s.chain == [s.tail] && c.pc == LoadHead;
      PopStepKeepsInv(c);
      PopLast(StepPop(c));
    }
  }

  /** The only item is handed out by putting the stub behind it. */
  lemma PopLast(s: State)
    requires Inv(s) && s.pend == map[] && s.pc == ExchangeStub && s.chain == [s.tail]
    ensures var t := StepPop(StepPop(StepPop(s)));
            && Quiescent(t) && t.last == Got(s.tail)
            && Items(s.chain) == [s.tail] + Items(t.chain)
  {
    ExchangeKeepsShape(s, STUB);
    PopStepKeepsInv(s);
    var e := StepPop(s);
    PopStepKeepsInv(e);
    var f := StepPop(e);
    assert f.next[s.tail] == STUB;
    PopStepKeepsInv(f);
    TailMove(f, StepPop(f));
  }

  function PopAloneTimes(s: State, n: nat): State
    decreases n
  {
    if n == 0 then s else PopAloneTimes(PopAlone(s), n - 1)
  }

  /** Repeated undisturbed pops drain the queue completely and in order. */
  lemma {:induction false} DrainsInOrder(s: State)
    requires Quiescent(s)
    ensures var t := PopAloneTimes(s, |Items(s.chain)|);
            && Quiescent(t) && Items(t.chain) == []
            && t.popped == s.popped + Items(s.chain)
            && PopAlone(t).last == Empty
    decreases |Items(s.chain)|
  {
    hide Step, StepPop, Quiet, PopAlone, Items;
    PopAloneTakesFirst(s);
    if Items(s.chain) != [] {
      var t := PopAlone(s);
      DrainsInOrder(t);
      PopAlonePushes(s);
      assert PopAloneTimes(s, |Items(s.chain)|) == PopAloneTimes(t, |Items(t.chain)|);
      TookOne(s.popped, t.popped, s.pushed, Items(s.chain), Items(t.chain));
    }
  }

  lemma PopAlonePushes(s: State)
    ensures PopAlone(s).pushed == s.pushed
  {
    PushedUnchanged(Step(s, PopBegin), 7);
  }

  lemma TookOne(before: seq<Node>, after: seq<Node>, pushed: seq<Node>, items: seq<Node>, left: seq<Node>)
    requires items != [] && left == items[1..]
    requires pushed == before + items && pushed == after + left
    ensures after + left == before + items
    ensures after == before + [items[0]]
  {
    assert |after| == |before| + 1;
    assert after == pushed[..|after|];
  }

  lemma PushedUnchanged(s: State, steps: nat)
    ensures Quiet(s, steps).pushed == s.pushed
  {
    if steps > 0 {
      PushedUnchanged(s, steps - 1);
      PopPushesNothing(Quiet(s, steps - 1));
      hide StepPop;
    }
  }

  lemma PopPushesNothing(s: State)
    ensures StepPop(s).pushed == s.pushed
  {
  }
}
