/** The sleep and wake-up protocol of epoll_wait: one application thread waits, several stack threads add events and
    wake it.  The mutex `wait` starts out taken and works as one token.  One action is one access to in_wait, to the
    mutex, to a wake-up list, or one critical section on the event list. */
module EpollProtocol {

  type Sid = nat

  datatype Event = In | Out | Err

  /** want is epoll_events, has is events. */
  datatype Sock = Sock(want: set<Event>, has: set<Event>, et: bool, oneshot: bool)

  datatype AppPc = Away      // not in epoll_wait
    | Top                    // about to store in_wait = true
    | Check                  // about to look at the event list
    | Sleep                  // found nothing: about to lock the mutex, or blocked in it
    | Leave                  // about to store in_wait = false

  datatype StackPc = Idle
    | Added                  // the event is on the list, the wake-up node is not yet
    | AtNode                 // about to load in_wait
    | Saw                    // loaded true
    | Stored                 // stored false, about to unlock
    | Done                   // about to take the node off

  datatype State = State(list: seq<Sid>, socks: map<Sid, Sock>, inWait: bool, token: bool, app: AppPc,
                         stacks: seq<StackPc>, onList: seq<bool>)

  datatype Action = AppEnter | AppStore | AppCheck(max: nat) | AppLock | AppQuit | AppLeave
    | AppClear(s: Sid, gone: set<Event>)
    | StackAdd(i: nat, s: Sid, ev: Event) | StackNode(i: nat) | StackWake(i: nat)
    | StackLoad(i: nat) | StackStore(i: nat) | StackUnlock(i: nat) | StackDelete(i: nat)

  function Fresh(n: nat, socks: map<Sid, Sock>): State {
    State([], socks, false, false, Away, seq(n, i => Idle), seq(n, i => false))
  }

  function Wanted(socks: map<Sid, Sock>, s: Sid): set<Event> {
    if s in socks then socks[s].want * socks[s].has else {}
  }

  // ----- the event list -----

  datatype Scanned = Scanned(list: seq<Sid>, socks: map<Sid, Sock>, reported: seq<(Sid, set<Event>)>)

  /** What reporting s does to it: one-shot events are disarmed. */
  function Disarm(socks: map<Sid, Sock>, s: Sid): map<Sid, Sock> {
    if s in socks && socks[s].oneshot then socks[s := socks[s].(want := {})] else socks
  }

  predicate Stays(socks: map<Sid, Sock>, s: Sid) {
    s in socks && !socks[s].et && !socks[s].oneshot
  }

  /** epoll_lwip_event: from the front of the list until `max` socks are reported.  The events of a sock are read after
      it was disarmed. */
  function Scan(list: seq<Sid>, socks: map<Sid, Sock>, max: nat): Scanned {
    if list == [] then Scanned([], socks, [])
    else
      var s, ev := list[0], Wanted(socks, list[0]);
      if ev == {} then Scan(list[1..], socks, max)
      else
        var rest := if max <= 1 then Scanned(list[1..], Disarm(socks, s), []) else Scan(list[1..], Disarm(socks, s), max - 1);
        Scanned((if Stays(socks, s) then [s] else []) + rest.list, rest.socks, [(s, Wanted(Disarm(socks, s), s))] + rest.reported)
  }

  predicate Distinct(list: seq<Sid>) {
    forall i, j :: 0 <= i < j < |list| ==> list[i] != list[j]
  }

  predicate IsReported(r: Scanned, s: Sid) {
    exists k :: 0 <= k < |r.reported| && r.reported[k].0 == s
  }

  lemma {:induction false} DisarmOther(socks: map<Sid, Sock>, s: Sid, t: Sid)
    requires s != t
    ensures Wanted(Disarm(socks, s), t) == Wanted(socks, t) && (Stays(Disarm(socks, s), t) <==> Stays(socks, t))
    ensures t in socks ==> t in Disarm(socks, s) && Disarm(socks, s)[t] == socks[t]
  {
  }

  /** Nothing is reported exactly when no listed sock has an event it waits for, and then the list is left empty. */
  lemma {:induction false} NothingReported(list: seq<Sid>, socks: map<Sid, Sock>, max: nat)
    ensures var r := Scan(list, socks, max);
            && (r.reported == [] <==> forall k :: 0 <= k < |list| ==> Wanted(socks, list[k]) == {})
            && (r.reported == [] ==> r.list == [] && r.socks == socks)
  {
    if list != [] {
      NothingReported(list[1..], socks, max);
      assert forall k :: 1 <= k < |list| ==> list[k] == list[1..][k - 1];
    }
  }

  /** A ready sock is reported or stays on the list; a reported level-triggered one stays too.  It is reported with the
      events it waits for if and only if it is not one-shot: then it is reported with none. */
  lemma {:induction false} NoEventIsDropped(list: seq<Sid>, socks: map<Sid, Sock>, max: nat, s: Sid)
    requires Distinct(list) && s in list && Wanted(socks, s) != {}
    ensures var r := Scan(list, socks, max);
            && (IsReported(r, s) || s in r.list)
            && (Stays(socks, s) ==> s in r.list)
            && forall k :: 0 <= k < |r.reported| && r.reported[k].0 == s ==>
                 && (r.reported[k].1 == Wanted(socks, s) <==> !socks[s].oneshot)
                 && (socks[s].oneshot ==> r.reported[k].1 == {})
  {
    var r := Scan(list, socks, max);
    var h := list[0];
    if s == h {
      ReportedAreListed(list[1..], Disarm(socks, h), max - if max <= 1 then 0 else 1);
      assert r.reported[0].0 == s;
    } else {
      DisarmOther(socks, h, s);
      if Wanted(socks, h) == {} {
        NoEventIsDropped(list[1..], socks, max, s);
      } else if max > 1 {
        NoEventIsDropped(list[1..], Disarm(socks, h), max - 1, s);
        var q := Scan(list[1..], Disarm(socks, h), max - 1);
        assert r.reported == [(h, Wanted(Disarm(socks, h), h))] + q.reported;
        if IsReported(q, s) {
          var k :| 0 <= k < |q.reported| && q.reported[k].0 == s;
          assert r.reported[k + 1].0 == s;
        }
        forall k | 0 <= k < |r.reported| && r.reported[k].0 == s
          ensures (r.reported[k].1 == Wanted(socks, s) <==> !socks[s].oneshot) && (socks[s].oneshot ==> r.reported[k].1 == {})
        {
          assert r.reported[k] == q.reported[k - 1];
        }
      }
    }
  }

  lemma {:induction false} ReportedAreListed(list: seq<Sid>, socks: map<Sid, Sock>, max: nat)
    ensures var r := Scan(list, socks, max);
            && (forall k :: 0 <= k < |r.reported| ==> r.reported[k].0 in list)
            && (forall k :: 0 <= k < |r.list| ==> r.list[k] in list)
            && |r.reported| <= (if max == 0 then 1 else max)
  {
    if list != [] {
      ReportedAreListed(list[1..], socks, max);
      if max > 1 { ReportedAreListed(list[1..], Disarm(socks, list[0]), max - 1); }
    }
  }

  lemma {:induction false} ScanKeepsDistinct(list: seq<Sid>, socks: map<Sid, Sock>, max: nat)
    requires Distinct(list)
    ensures Distinct(Scan(list, socks, max).list)
  {
    if list != [] {
      ScanKeepsDistinct(list[1..], socks, max);
      if max > 1 {
        ScanKeepsDistinct(list[1..], Disarm(socks, list[0]), max - 1);
        ReportedAreListed(list[1..], Disarm(socks, list[0]), max - 1);
      }
    }
  }

  // ----- the steps -----

  function Remove(list: seq<Sid>, s: Sid): seq<Sid> {
    if list == [] then [] else if list[0] == s then list[1..] else [list[0]] + Remove(list[1..], s)
  }

  /** del_data_in_event and del_data_out_event. */
  function DoClear(s: State, x: Sid, ev: set<Event>): State {
    if x !in s.socks then s
    else var k := s.socks[x].(has := s.socks[x].has - ev);
         s.(socks := s.socks[x := k], list := if k.has == {} then Remove(s.list, x) else s.list)
  }

  /** EPOLLERR is raised together with EPOLLIN, whatever is waited for. */
  function Raised(k: Sock, ev: Event): set<Event> {
    if ev == Err then {In, Err} else {ev} * k.want
  }

  function DoCheck(s: State, max: nat): State {
    var r := Scan(s.list, s.socks, max);
    s.(list := r.list, socks := r.socks, app := if r.reported == [] then Sleep else Leave)
  }

  /** The critical section of add_sock_event. */
  function DoAdd(s: State, i: nat, x: Sid, ev: Event): State
    requires i < |s.stacks|
  {
    if s.stacks[i] != Idle || x !in s.socks then s
    else s.(socks := s.socks[x := s.socks[x].(has := s.socks[x].has + Raised(s.socks[x], ev))],
            list := if x in s.list then s.list else s.list + [x], stacks := s.stacks[i := Added])
  }

  function StepApp(s: State, a: Action): State {
    match a
    case AppEnter => if s.app != Away then s else s.(app := Top)
    case AppStore => if s.app != Top then s else s.(inWait := true, app := Check)
    case AppCheck(max) => if s.app != Check then s else DoCheck(s, max)
    case AppLock => if s.app != Sleep || !s.token then s else s.(token := false, app := Top)
    case AppQuit => if s.app != Sleep then s else s.(app := Leave)
    case AppLeave => if s.app != Leave then s else s.(inWait := false, app := Away)
    case AppClear(x, ev) => DoClear(s, x, ev)
    case _ => s
  }

  function StepStack(s: State, a: Action, i: nat): State
    requires i < |s.stacks| == |s.onList|
  {
    match a
    case StackAdd(_, x, ev) => DoAdd(s, i, x, ev)
    case StackNode(_) => if s.stacks[i] != Added then s else s.(onList := s.onList[i := true], stacks := s.stacks[i := Idle])
    case StackWake(_) => if s.stacks[i] != Idle || !s.onList[i] then s else s.(stacks := s.stacks[i := AtNode])
    case StackLoad(_) => if s.stacks[i] != AtNode then s else s.(stacks := s.stacks[i := if s.inWait then Saw else Done])
    case StackStore(_) => if s.stacks[i] != Saw then s else s.(inWait := false, stacks := s.stacks[i := Stored])
    case StackUnlock(_) => if s.stacks[i] != Stored then s else s.(token := true, stacks := s.stacks[i := Done])
    case StackDelete(_) => if s.stacks[i] != Done then s else s.(onList := s.onList[i := false], stacks := s.stacks[i := Idle])
    case _ => s
  }

  predicate ByStack(a: Action) {
    a.StackAdd? || a.StackNode? || a.StackWake? || a.StackLoad? || a.StackStore? || a.StackUnlock? || a.StackDelete?
  }

  function Step(s: State, a: Action): State {
    if !ByStack(a) then StepApp(s, a)
    else if a.i < |s.stacks| == |s.onList| then StepStack(s, a, a.i) else s
  }

  function Run(s: State, trace: seq<Action>): State {
    if trace == [] then s else Step(Run(s, trace[..|trace| - 1]), trace[|trace| - 1])
  }

  // ----- the invariant -----

  /** The stack is about to unlock the mutex. */
  predicate Waking(stacks: seq<StackPc>, i: nat) { i < |stacks| && (stacks[i] == Saw || stacks[i] == Stored) }

  /** The stack will still look at in_wait. */
  predicate WillLook(stacks: seq<StackPc>, onList: seq<bool>, i: nat) {
    i < |stacks| == |onList| && (stacks[i] == Added || stacks[i] == AtNode || (stacks[i] == Idle && onList[i]))
  }

  ghost predicate SomeStored(stacks: seq<StackPc>) { exists i :: 0 <= i < |stacks| && stacks[i] == Stored }

  ghost predicate SomePending(stacks: seq<StackPc>, onList: seq<bool>) {
    exists i: nat :: Waking(stacks, i) || WillLook(stacks, onList, i)
  }

  ghost predicate Nodes(stacks: seq<StackPc>, onList: seq<bool>) {
    && |stacks| == |onList|
    && forall i :: 0 <= i < |stacks| && stacks[i] != Idle && stacks[i] != Added ==> onList[i]
  }

  /** Once in_wait was stored it is true until a stack has taken over to free the token. */
  ghost predicate Armed(app: AppPc, inWait: bool, token: bool, stacks: seq<StackPc>) {
    app == Check || app == Sleep ==> inWait || token || SomeStored(stacks)
  }

  ghost predicate Covered(app: AppPc, list: seq<Sid>, token: bool, stacks: seq<StackPc>, onList: seq<bool>) {
    app == Sleep && list != [] ==> token || SomePending(stacks, onList)
  }

  ghost predicate Inv(s: State) {
    && Distinct(s.list)
    && Nodes(s.stacks, s.onList)
    && Armed(s.app, s.inWait, s.token, s.stacks)
    && Covered(s.app, s.list, s.token, s.stacks, s.onList)
  }

  lemma {:induction false} RemoveFacts(list: seq<Sid>, s: Sid)
    requires Distinct(list)
    ensures Distinct(Remove(list, s)) && (forall x :: x in Remove(list, s) ==> x in list)
  {
    if list != [] {
      RemoveFacts(list[1..], s);
      var r := Remove(list[1..], s);
      if list[0] != s {
        forall i, j | 0 <= i < j < |r| + 1 ensures ([list[0]] + r)[i] != ([list[0]] + r)[j] {
          if i == 0 { assert r[j - 1] in list[1..]; }
        }
      }
    }
  }

  lemma CheckKeepsInv(s: State, max: nat)
    requires Inv(s) && s.app == Check
    ensures Inv(DoCheck(s, max))
  {
    NothingReported(s.list, s.socks, max);
    ScanKeepsDistinct(s.list, s.socks, max);
    hide Scan, Distinct;
  }

  lemma ClearKeepsInv(s: State, x: Sid, ev: set<Event>)
    requires Inv(s)
    ensures Inv(DoClear(s, x, ev))
  {
    RemoveFacts(s.list, x);
    hide Remove, Distinct, SomePending;
    if s.list == [] { RemoveEmpty(x); }
  }

  lemma RemoveEmpty(x: Sid)
    ensures Remove([], x) == []
  {
  }

  lemma AppKeepsInv(s: State, a: Action)
    requires Inv(s) && !ByStack(a)
    ensures Inv(StepApp(s, a))
  {
    match a
    case AppCheck(max) => if s.app == Check { CheckKeepsInv(s, max); } hide Inv, DoCheck;
    case AppClear(x, ev) => ClearKeepsInv(s, x, ev); hide Inv, DoClear;
    case _ => hide Distinct, SomePending, SomeStored, DoCheck, DoClear;
  }

  /** What a stack's step at i means for the others. */
  lemma StackFrame(s: State, t: State, i: nat)
    requires Inv(s) && i < |s.stacks| && |t.stacks| == |s.stacks| && |t.onList| == |s.onList|
    requires forall j :: 0 <= j < |s.stacks| && j != i ==> t.stacks[j] == s.stacks[j] && t.onList[j] == s.onList[j]
    ensures SomeStored(s.stacks) && s.stacks[i] != Stored ==> SomeStored(t.stacks)
    ensures SomePending(s.stacks, s.onList) && !Waking(s.stacks, i) && !WillLook(s.stacks, s.onList, i)
            ==> SomePending(t.stacks, t.onList)
    ensures t.stacks[i] == Stored ==> SomeStored(t.stacks)
    ensures Waking(t.stacks, i) || WillLook(t.stacks, t.onList, i) ==> SomePending(t.stacks, t.onList)
  {
    if SomeStored(s.stacks) && s.stacks[i] != Stored {
      var j :| 0 <= j < |s.stacks| && s.stacks[j] == Stored;
      assert t.stacks[j] == Stored;
    }
    if SomePending(s.stacks, s.onList) && !Waking(s.stacks, i) && !WillLook(s.stacks, s.onList, i) {
      var j: nat :| Waking(s.stacks, j) || WillLook(s.stacks, s.onList, j);
      assert Waking(t.stacks, j) || WillLook(t.stacks, t.onList, j);
    }
  }

  lemma StoredIsPending(s: State)
    requires SomeStored(s.stacks)
    ensures SomePending(s.stacks, s.onList)
  {
    var j :| 0 <= j < |s.stacks| && s.stacks[j] == Stored;
    assert Waking(s.stacks, j);
  }

  lemma StackStaysInFrame(s: State, a: Action, i: nat)
    requires Nodes(s.stacks, s.onList) && ByStack(a) && i < |s.stacks|
    ensures var t := StepStack(s, a, i);
            && |t.stacks| == |s.stacks| && |t.onList| == |s.onList| && t.app == s.app
            && (forall j :: 0 <= j < |s.stacks| && j != i ==> t.stacks[j] == s.stacks[j] && t.onList[j] == s.onList[j])
            && (t.stacks[i] != Idle && t.stacks[i] != Added ==> t.onList[i])
  {
  }

  lemma StackKeepsDistinct(s: State, a: Action, i: nat)
    requires Distinct(s.list) && ByStack(a) && i < |s.stacks| == |s.onList|
    ensures Distinct(StepStack(s, a, i).list)
  {
  }

  /** in_wait goes down only when the stack is about to unlock, and unlocking frees the token. */
  lemma StackArms(s: State, a: Action, i: nat)
    requires ByStack(a) && i < |s.stacks| == |s.onList|
    ensures var t := StepStack(s, a, i);
            && (s.inWait || s.token || s.stacks[i] == Stored ==> t.inWait || t.token || t.stacks[i] == Stored)
            && (s.stacks[i] == Stored && t.stacks[i] != Stored ==> t.token)
  {
  }

  /** A stack that was to wake the waiter still is, or has freed the token; one that has added an event now is. */
  lemma StackCovers(s: State, a: Action, i: nat)
    requires ByStack(a) && i < |s.stacks| == |s.onList|
    ensures var t := StepStack(s, a, i);
            && (s.token ==> t.token)
            && (Waking(s.stacks, i) || (WillLook(s.stacks, s.onList, i) && s.inWait) ==>
                  t.token || Waking(t.stacks, i) || WillLook(t.stacks, t.onList, i))
            && (t.list != s.list ==> t.stacks[i] == Added)
            && (WillLook(s.stacks, s.onList, i) && !WillLook(t.stacks, t.onList, i) && !Waking(t.stacks, i) ==> !s.inWait)
  {
  }

  lemma StackKeepsInv(s: State, a: Action, i: nat)
    requires Inv(s) && ByStack(a) && i < |s.stacks|
    ensures Inv(StepStack(s, a, i))
  {
    StackStaysInFrame(s, a, i);
    StackKeepsDistinct(s, a, i);
    StackArms(s, a, i);
    StackCovers(s, a, i);
    hide StepStack, Distinct;
    var t := StepStack(s, a, i);
    StackFrame(s, t, i);
    if SomeStored(s.stacks) { StoredIsPending(s); }
    if SomeStored(t.stacks) { StoredIsPending(t); }
    hide SomePending, SomeStored;
  }

  lemma StepKeepsInv(s: State, a: Action)
    requires Inv(s)
    ensures Inv(Step(s, a))
  {
    hide Inv, StepApp, StepStack;
    if !ByStack(a) {
      AppKeepsInv(s, a);
    } else if a.i < |s.stacks| == |s.onList| {
      StackKeepsInv(s, a, a.i);
    }
  }

  lemma {:induction false} RunKeepsInv(s: State, trace: seq<Action>)
    requires Inv(s)
    ensures Inv(Run(s, trace))
  {
    hide Inv, Step;
    if trace != [] {
      RunKeepsInv(s, trace[..|trace| - 1]);
      StepKeepsInv(Run(s, trace[..|trace| - 1]), trace[|trace| - 1]);
    }
  }

  lemma FreshInv(n: nat, socks: map<Sid, Sock>)
    ensures Inv(Fresh(n, socks))
  {
  }

  // ----- the promises -----

  /** No lost wake-up.  On every run, if the application sleeps while an event is on its list and no stack is in the
      middle of add_sock_event, then the token is free, or a stack is between seeing in_wait and unlocking, or the
      application is still on some stack's wake-up list with in_wait true. */
  lemma {:induction false} NoLostWakeup(n: nat, socks: map<Sid, Sock>, trace: seq<Action>)
    ensures var s := Run(Fresh(n, socks), trace);
            && |s.stacks| == |s.onList|
            && (s.app == Sleep && s.list != [] && Added !in s.stacks ==>
                  || s.token
                  || (exists i: nat :: Waking(s.stacks, i))
                  || (s.inWait && exists i :: 0 <= i < |s.onList| && s.onList[i] && (s.stacks[i] == Idle || s.stacks[i] == AtNode)))
  {
    FreshInv(n, socks);
    RunKeepsInv(Fresh(n, socks), trace);
    PendingKinds(Run(Fresh(n, socks), trace));
    hide Inv, Run;
  }

  lemma PendingKinds(s: State)
    requires Inv(s)
    ensures |s.stacks| == |s.onList|
    ensures s.app == Sleep && s.list != [] && Added !in s.stacks && !s.token ==>
              || (exists i: nat :: Waking(s.stacks, i))
              || (s.inWait && exists i :: 0 <= i < |s.onList| && s.onList[i] && (s.stacks[i] == Idle || s.stacks[i] == AtNode))
  {
    if s.app == Sleep && s.list != [] && Added !in s.stacks && !s.token {
      var i: nat :| Waking(s.stacks, i) || WillLook(s.stacks, s.onList, i);
      if !Waking(s.stacks, i) && !s.inWait {
        var j :| 0 <= j < |s.stacks| && s.stacks[j] == Stored;
        assert Waking(s.stacks, j);
      }
    }
  }

  /** So when all stacks are idle and have emptied their wake-up lists, nobody sleeps on an event. */
  lemma {:induction false} QuietMeansAwake(n: nat, socks: map<Sid, Sock>, trace: seq<Action>)
    requires var s := Run(Fresh(n, socks), trace);
             s.app == Sleep && s.list != [] && forall i :: 0 <= i < |s.stacks| ==> s.stacks[i] == Idle && !(i < |s.onList| && s.onList[i])
    ensures Run(Fresh(n, socks), trace).token
  {
    NoLostWakeup(n, socks, trace);
  }

  /** And as long as one sleeps on an event, the remaining steps of a single stack set the token free. */
  lemma {:induction false} WakerExists(n: nat, socks: map<Sid, Sock>, trace: seq<Action>) returns (i: nat, more: seq<Action>)
    requires Run(Fresh(n, socks), trace).app == Sleep && Run(Fresh(n, socks), trace).list != []
    ensures Run(Run(Fresh(n, socks), trace), more).token
    ensures |more| <= 5 && forall k :: 0 <= k < |more| ==> ByStack(more[k]) && more[k].i == i
  {
    FreshInv(n, socks);
    RunKeepsInv(Fresh(n, socks), trace);
    i, more := Waker(Run(Fresh(n, socks), trace));
  }

  lemma RunCons(s: State, a: Action, rest: seq<Action>)
    ensures Run(s, [a] + rest) == Run(Step(s, a), rest)
    decreases rest
  {
    hide Step;
    if rest == [] {
      assert [a] + rest == [a] && [a][..0] == [];
    } else {
      RunCons(s, a, rest[..|rest| - 1]);
      assert ([a] + rest)[..|rest|] == [a] + rest[..|rest| - 1];
    }
  }

  function Left(pc: StackPc): nat {
    match pc case Added => 5 case Idle => 4 case AtNode => 3 case Saw => 2 case _ => 1
  }

  /** The steps a stack has left to go until it has unlocked the mutex. */
  function Rest(pc: StackPc, i: nat): seq<Action>
    decreases Left(pc)
  {
    match pc
    case Added => [StackNode(i)] + Rest(Idle, i)
    case Idle => [StackWake(i)] + Rest(AtNode, i)
    case AtNode => [StackLoad(i)] + Rest(Saw, i)
    case Saw => [StackStore(i)] + Rest(Stored, i)
    case _ => [StackUnlock(i)]
  }

  lemma Waker(s: State) returns (i: nat, more: seq<Action>)
    requires Inv(s) && s.app == Sleep && s.list != []
    ensures Run(s, more).token
    ensures |more| <= 5 && forall k :: 0 <= k < |more| ==> ByStack(more[k]) && more[k].i == i
  {
    if s.token {
      i, more := 0, [];
    } else if SomeStored(s.stacks) {
      var j :| 0 <= j < |s.stacks| && s.stacks[j] == Stored;
      i, more := j, Rest(Stored, j);
      RestUnlocks(s, j);
    } else {
      i :| Waking(s.stacks, i) || WillLook(s.stacks, s.onList, i);
      more := Rest(s.stacks[i], i);
      RestUnlocks(s, i);
    }
  }

  lemma OneStepNearer(s: State, i: nat)
    requires |s.stacks| == |s.onList| && (Waking(s.stacks, i) || (s.inWait && WillLook(s.stacks, s.onList, i)))
    ensures var r := Rest(s.stacks[i], i); var t := Step(s, r[0]);
            && ByStack(r[0]) && r[0].i == i && |r| == Left(s.stacks[i])
            && if s.stacks[i] == Stored then t.token && r == [r[0]] + []
               else |t.stacks| == |t.onList| && i < |t.stacks| && Left(t.stacks[i]) < Left(s.stacks[i])
                    && (Waking(t.stacks, i) || (t.inWait && WillLook(t.stacks, t.onList, i)))
                    && r == [r[0]] + Rest(t.stacks[i], i)
  {
  }

  lemma {:induction false} RestUnlocks(s: State, i: nat)
    requires |s.stacks| == |s.onList| && (Waking(s.stacks, i) || (s.inWait && WillLook(s.stacks, s.onList, i)))
    ensures var r := Rest(s.stacks[i], i);
            && Run(s, r).token && |r| == Left(s.stacks[i])
            && forall k :: 0 <= k < |r| ==> ByStack(r[k]) && r[k].i == i
    decreases Left(s.stacks[i])
  {
    OneStepNearer(s, i);
    var r := Rest(s.stacks[i], i);
    var t := Step(s, r[0]);
    assert Run(t, []) == t;
    hide Run, Step, Left, Rest, ByStack, WillLook;
    if s.stacks[i] == Stored {
      RunCons(s, r[0], []);
    } else {
      RestUnlocks(t, i);
      RunCons(s, r[0], Rest(t.stacks[i], i));
    }
  }

  // ----- a run that shows where the simpler claim stops -----

  lemma RunSnoc(s: State, trace: seq<Action>, a: Action)
    ensures Run(s, trace + [a]) == Step(Run(s, trace), a)
  {
    hide Step;
    assert (trace + [a])[..|trace|] == trace;
  }

  /** A stack raises the event a one-shot sock waits for, and epoll_wait is about to look: it reports the sock with no
      event, and takes it off the list. */
  lemma OneShotReportedEmpty()
    ensures exists trace: seq<Action> ::
              var s := Run(Fresh(1, map[0 := Sock({In}, {}, false, true)]), trace);
              && s.app == Check && s.list == [0] && Wanted(s.socks, 0) == {In}
              && Scan(s.list, s.socks, 1).reported == [(0, {})] && Scan(s.list, s.socks, 1).list == []
  {
    AddOneShot();
    ScanOneShot(map[0 := Sock({In}, {In}, false, true)]);
    var s0, t := Fresh(1, map[0 := Sock({In}, {}, false, true)]), [StackAdd(0, 0, In)];
    assert Run(s0, []) == s0;
    hide Run, Fresh, Scan, Wanted, Disarm;
    RunSnoc(s0, [], StackAdd(0, 0, In));
    assert [] + t == t;
    RunSnoc(s0, t, AppEnter);
    RunSnoc(s0, t + [AppEnter], AppStore);
    assert Run(s0, t + [AppEnter] + [AppStore]) ==
           State([0], map[0 := Sock({In}, {In}, false, true)], true, false, Check, [Added], [false]);
  }

  lemma AddOneShot()
    ensures Step(Fresh(1, map[0 := Sock({In}, {}, false, true)]), StackAdd(0, 0, In)) ==
            State([0], map[0 := Sock({In}, {In}, false, true)], false, false, Away, [Added], [false])
  {
    var k := Sock({In}, {}, false, true);
    var s := Fresh(1, map[0 := k]);
    assert k.has + Raised(k, In) == {In};
    assert s == State([], map[0 := k], false, false, Away, [Idle], [false]);
  }

  lemma ScanOneShot(socks: map<Sid, Sock>)
    requires socks == map[0 := Sock({In}, {In}, false, true)]
    ensures Wanted(socks, 0) == {In} && Scan([0], socks, 1) == Scanned([], Disarm(socks, 0), [(0, {})])
  {
    assert Wanted(socks, 0) == {In};
    assert Wanted(Disarm(socks, 0), 0) == {};
    assert [0][1..] == [];
  }
}
