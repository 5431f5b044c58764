/** The two sides of the protocol as the code has them: the loop of lstack_epoll_wait, add_sock_event and
    wakeup_stack_epoll.  `env(k)` is what the other threads do before the k-th access. */
module EpollWaitCode {
  import opened EpollProtocol

  type Reported = seq<(Sid, set<Event>)>

  datatype Outcome = Returned(events: Reported) | StillAsleep

  predicate ByApp(a: Action) { !ByStack(a) && !a.AppClear? }

  lemma StackLeavesApp(s: State, a: Action)
    requires !ByApp(a)
    ensures Step(s, a).app == s.app && |Step(s, a).stacks| == |s.stacks| && |Step(s, a).onList| == |s.onList|
  {
  }

  lemma OthersLeaveStack(s: State, a: Action, i: nat)
    requires !ByStack(a) || a.i != i
    ensures |Step(s, a).stacks| == |s.stacks| && |Step(s, a).onList| == |s.onList|
    ensures i < |s.stacks| == |s.onList| ==> Step(s, a).stacks[i] == s.stacks[i] && Step(s, a).onList[i] == s.onList[i]
  {
  }

  lemma TokenKept(s: State, max: nat)
    ensures DoCheck(s, max).token == s.token
  {
  }

  /** The steps of the waiting loop, but for the look at the list. */
  lemma WaitSteps(s: State)
    ensures s.app == Away ==> Step(s, AppEnter) == s.(app := Top)
    ensures s.app == Top ==> Step(s, AppStore) == s.(inWait := true, app := Check)
    ensures s.app == Sleep ==> Step(s, AppQuit) == s.(app := Leave)
    ensures s.app == Sleep && s.token ==> Step(s, AppLock) == s.(token := false, app := Top)
    ensures s.app == Leave ==> Step(s, AppLeave) == s.(inWait := false, app := Away)
  {
  }

  lemma SleepIsCovered(s: State)
    requires Inv(s) && s.app == Sleep && !s.token
    ensures s.list != [] ==> SomePending(s.stacks, s.onList)
  {
  }

  lemma SameLengths(s: State)
    requires Inv(s)
    ensures |s.stacks| == |s.onList|
  {
  }

  /** One step of stack i, seen at i only. */
  lemma WakeStep(s: State, a: Action, i: nat)
    requires i < |s.stacks| == |s.onList| && ByStack(a) && a.i == i && !a.StackAdd?
    ensures var t := Step(s, a);
            && |t.stacks| == |t.onList| == |s.stacks|
            && t.stacks[i] == After(s.stacks[i], s.onList[i], s.inWait, a)
            && (a.StackDelete? && s.stacks[i] == Done ==> !t.onList[i])
  {
    hide Inv;
  }

  function After(pc: StackPc, listed: bool, inWait: bool, a: Action): StackPc {
    match a
    case StackNode(_) => if pc == Added then Idle else pc
    case StackWake(_) => if pc == Idle && listed then AtNode else pc
    case StackLoad(_) => if pc == AtNode then if inWait then Saw else Done else pc
    case StackStore(_) => if pc == Saw then Stored else pc
    case StackUnlock(_) => if pc == Stored then Done else pc
    case StackDelete(_) => if pc == Done then Idle else pc
    case _ => pc
  }

  function Turn(env: seq<seq<Action>>, k: nat): seq<Action> { if k < |env| then env[k] else [] }
  function Next(env: seq<seq<Action>>, k: nat): nat { if k < |env| then k + 1 else k }

  /** The look at the list that is action `at` of the run reports `events`. */
  ghost predicate Seen(first: State, history: seq<Action>, at: nat, max: nat, events: Reported) {
    && at < |history| && history[at] == AppCheck(max)
    && var s := Run(first, history[..at]); events == Scan(s.list, s.socks, max).reported
  }

  lemma NowSeen(first: State, history: seq<Action>, max: nat, s: State)
    requires s == Run(first, history)
    ensures Seen(first, history + [AppCheck(max)], |history|, max, Scan(s.list, s.socks, max).reported)
  {
    assert (history + [AppCheck(max)])[..|history|] == history;
  }

  lemma SeenLater(first: State, a: seq<Action>, b: seq<Action>, at: nat, max: nat, events: Reported)
    requires Seen(first, a, at, max, events) && a <= b
    ensures Seen(first, b, at, max, events)
  {
    assert b[..at] == a[..at];
  }

  /** What is scanned so far, followed by the rest. */
  function Joined(kept: seq<Sid>, reported: Reported, r: Scanned): Scanned {
    Scanned(kept + r.list, r.socks, reported + r.reported)
  }

  lemma ScanNothing(r: Scanned)
    ensures Joined([], [], r) == r
  {
    assert [] + r.list == r.list && [] + r.reported == r.reported;
  }

  lemma ScanEmpty(socks: map<Sid, Sock>, max: nat)
    ensures Scan([], socks, max) == Scanned([], socks, [])
  {
  }

  lemma ScanHead(list: seq<Sid>, socks: map<Sid, Sock>, max: nat)
    requires list != []
    ensures var s, rest := list[0], list[1..];
            && (Wanted(socks, s) == {} ==> Scan(list, socks, max) == Scan(rest, socks, max))
            && (Wanted(socks, s) != {} ==>
                  Scan(list, socks, max) ==
                  Joined(if Stays(socks, s) then [s] else [], [(s, Wanted(Disarm(socks, s), s))],
                         if max <= 1 then Scanned(rest, Disarm(socks, s), []) else Scan(rest, Disarm(socks, s), max - 1)))
  {
  }

  lemma JoinHead(kept0: seq<Sid>, kept: seq<Sid>, reported0: Reported, reported: Reported, r: Scanned)
    requires |kept0| <= |kept| && kept == kept0 + kept[|kept0|..] && |reported0| <= |reported|
    requires reported == reported0 + reported[|reported0|..]
    ensures Joined(kept, reported, r) == Joined(kept0, reported0, Joined(kept[|kept0|..], reported[|reported0|..], r))
  {
  }

  lemma JoinEnd(kept: seq<Sid>, rest: seq<Sid>, socks: map<Sid, Sock>, reported: Reported)
    ensures Joined(kept, reported, Scanned(rest, socks, [])) == Scanned(kept + rest, socks, reported)
  {
    assert reported + [] == reported;
  }

  lemma CheckStep(s: State, max: nat)
    requires s.app == Check
    ensures Step(s, AppCheck(max)) == DoCheck(s, max)
  {
  }

  /** The loop of epoll_lwip_event. */
  method ScanList(list: seq<Sid>, socks0: map<Sid, Sock>, max: nat) returns (r: Scanned)
    ensures r == Scan(list, socks0, max)
  {
    hide Disarm, Wanted, Stays, Scan;
    var rest, socks, kept := list, socks0, [];
    var reported: Reported := [];
    var full := false;
    ghost var all := Scan(list, socks0, max);
    ScanNothing(all);
    while rest != [] && !full
      invariant !full ==> |reported| < max || (max == 0 && reported == [])
      invariant full ==> all == Joined(kept, reported, Scanned(rest, socks, []))
      invariant !full ==> all == Joined(kept, reported, Scan(rest, socks, max - |reported|))
      decreases |rest|
    {
      var s, ev := rest[0], Wanted(socks, rest[0]);
      ScanHead(rest, socks, max - |reported|);
      rest := rest[1..];
      if ev != {} {
        ghost var kept0, reported0 := kept, reported;
        if Stays(socks, s) {
          kept := kept + [s];
        }
        socks := Disarm(socks, s);
        reported := reported + [(s, Wanted(socks, s))];
        full := |reported| >= max;
        JoinHead(kept0, kept, reported0, reported, if full then Scanned(rest, socks, []) else Scan(rest, socks, max - |reported|));
      }
    }
    if !full { ScanEmpty(socks, max - |reported|); }
    JoinEnd(kept, rest, socks, reported);
    return Scanned(kept + rest, socks, reported);
  }

  class Waiter {
    var st: State
    ghost var first: State
    ghost var history: seq<Action>

    ghost predicate Valid()
      reads this
    {
      Inv(st) && st == Run(first, history)
    }

    constructor (n: nat, socks: map<Sid, Sock>)
      ensures Valid() && st == Fresh(n, socks) && first == st
    {
      st, first, history := Fresh(n, socks), Fresh(n, socks), [];
      new;
      FreshInv(n, socks);
    }

    method Access(a: Action)
      requires Valid()
      modifies `st, `history
      ensures Valid() && st == Step(old(st), a) && history == old(history) + [a]
    {
      hide Inv, Run, Step;
      StepKeepsInv(st, a);
      RunSnoc(first, history, a);
      st := Step(st, a);
      history := history + [a];
    }

    /** The stack threads, and other application threads that read or write. */
    method StacksTurn(acts: seq<Action>)
      requires Valid()
      modifies `st, `history
      ensures Valid() && st.app == old(st.app) && old(history) <= history && (acts == [] ==> st == old(st))
    {
      hide Inv, Run, Step, ByApp;
      for k := 0 to |acts|
        invariant Valid() && st.app == old(st.app) && old(history) <= history && (k == 0 ==> st == old(st))
      {
        if !ByApp(acts[k]) {
          StackLeavesApp(st, acts[k]);
          Access(acts[k]);
        }
      }
    }

    /** Everybody but stack i. */
    method OthersTurn(i: nat, acts: seq<Action>)
      requires Valid() && i < |st.stacks|
      modifies `st, `history
      ensures Valid() && old(history) <= history && |st.stacks| == |old(st.stacks)| == |st.onList|
      ensures st.stacks[i] == old(st.stacks)[i] && st.onList[i] == old(st.onList)[i]
    {
      for k := 0 to |acts|
        invariant Valid() && old(history) <= history && |st.stacks| == |old(st.stacks)| == |st.onList|
        invariant st.stacks[i] == old(st.stacks)[i] && st.onList[i] == old(st.onList)[i]
      {
        hide Inv, Run, Step, ByStack;
        if !ByStack(acts[k]) || acts[k].i != i {
          OthersLeaveStack(st, acts[k], i);
          Access(acts[k]);
        }
      }
    }

    /** epoll_lwip_event, under the lock of the list. */
    method EpollLwipEvent(max: nat) returns (reported: Reported)
      requires Valid() && st.app == Check
      modifies `st, `history
      ensures Valid() && history == old(history) + [AppCheck(max)]
      ensures st == DoCheck(old(st), max) && reported == Scan(old(st.list), old(st.socks), max).reported
      ensures st.app == if reported == [] then Sleep else Leave
    {
      hide Inv, Run, Step, Scan;
      var r := ScanList(st.list, st.socks, max);
      CheckStep(st, max);
      Access(AppCheck(max));
      assert st.list == r.list && st.socks == r.socks;
      return r.reported;
    }

    /** lstack_epoll_wait without kernel events.  The other threads do what is in `env`, one entry at a time, and `after`
        on the way out; then a lock that waits with a time limit gives up.  A call that returns reports what the list
        held at its last look; one that sleeps on (timeout < 0) has forgotten nothing on its list. */
    method LstackEpollWait(max: nat, timeout: int, env: seq<seq<Action>>, after: seq<Action>) returns (r: Outcome, ghost at: nat)
      requires Valid() && st.app == Away
      modifies `st, `history
      ensures Valid() && old(history) <= history
      ensures r.Returned? ==> st.app == Away && |old(history)| <= at && Seen(first, history, at, max, r.events)
      ensures r.Returned? && r.events == [] ==> timeout >= 0
      ensures r.StillAsleep? ==> timeout < 0 && st.app == Sleep && !st.token
      ensures r.StillAsleep? && st.list != [] ==> SomePending(st.stacks, st.onList)
    {
      hide Inv, Run, Step, DoCheck, Scan, SomePending, Seen;
      WaitSteps(st);
      Access(AppEnter);
      var k := 0;
      while true
        invariant Valid() && st.app == Top && old(history) <= history && k <= |env|
        decreases |env| - k, st.token
      {
        StacksTurn(Turn(env, k));
        k := Next(env, k);
        WaitSteps(st);
        Access(AppStore);
        StacksTurn(Turn(env, k));
        k := Next(env, k);
        TokenKept(st, max);
        at := |history|;
        NowSeen(first, history, max, st);
        var reported := EpollLwipEvent(max);
        ghost var looked := history;
        if reported != [] {
          Leaves(after);
          SeenLater(first, looked, history, at, max, reported);
          return Returned(reported), at;
        }
        if timeout == 0 {
          GiveUp(after);
          SeenLater(first, looked, history, at, max, reported);
          return Returned([]), at;
        }
        k := Sleeps(env, k);
        if !st.token {
          if timeout < 0 {
            SleepIsCovered(st);
            return StillAsleep, at;
          }
          GiveUp(after);
          SeenLater(first, looked, history, at, max, reported);
          return Returned([]), at;
        }
        WaitSteps(st);
        Access(AppLock);
      }
    }

    /** Blocked in the lock until the token is free or the others have nothing left to do. */
    method Sleeps(env: seq<seq<Action>>, k0: nat) returns (k: nat)
      requires Valid() && st.app == Sleep && k0 <= |env|
      modifies `st, `history
      ensures Valid() && st.app == Sleep && old(history) <= history && k0 <= k <= |env|
      ensures k == k0 ==> st.token == old(st.token)
      ensures !st.token ==> k == |env|
    {
      hide Inv, Run;
      k := k0;
      while !st.token && k < |env|
        invariant Valid() && st.app == Sleep && old(history) <= history && k0 <= k <= |env|
        invariant k == k0 ==> st.token == old(st.token)
      {
        StacksTurn(env[k]);
        k := k + 1;
      }
    }

    method GiveUp(after: seq<Action>)
      requires Valid() && st.app == Sleep
      modifies `st, `history
      ensures Valid() && st.app == Away && old(history) <= history
    {
      hide Inv, Run, Step;
      WaitSteps(st);
      Access(AppQuit);
      Leaves(after);
    }

    /** add_sock_event on stack i; `outdated` is the test that the application has caught up meanwhile. */
    method AddSockEvent(i: nat, x: Sid, ev: Event, outdated: bool, env: nat -> seq<Action>) returns (added: bool)
      requires Valid() && i < |st.stacks| && st.stacks[i] == Idle
      modifies `st, `history
      ensures Valid() && old(history) <= history && i < |st.stacks| == |st.onList| && st.stacks[i] == Idle
      ensures added ==> st.onList[i] && StackAdd(i, x, ev) in history[|old(history)|..]
      ensures !added ==> outdated || x !in old(st.socks) || ev !in old(st.socks)[x].want || x !in st.socks
    {
      hide Inv, Run;
      if x !in st.socks || ev !in st.socks[x].want {
        SameLengths(st);
        return false;
      }
      OthersTurn(i, env(0));
      if outdated || x !in st.socks {
        return false;
      }
      Access(StackAdd(i, x, ev));
      ghost var at := |history| - 1;
      OthersTurn(i, env(1));
      Access(StackNode(i));
      assert history[at] == StackAdd(i, x, ev);
      return true;
    }

    /** The other threads have their turn, then stack i makes one access. */
    method StackAccess(i: nat, a: Action, acts: seq<Action>)
      requires Valid() && i < |st.stacks| && ByStack(a) && a.i == i && !a.StackAdd?
      modifies `st, `history
      ensures Valid() && i < |st.stacks| == |st.onList| && i < |old(st.onList)|
      ensures old(history) < history && history[|history| - 1] == a
      ensures st.stacks[i] == After(old(st.stacks)[i], old(st.onList)[i], true, a)
              || (a.StackLoad? && st.stacks[i] == After(old(st.stacks)[i], old(st.onList)[i], false, a))
      ensures a.StackDelete? && old(st.stacks)[i] == Done ==> !st.onList[i]
    {
      hide Inv, Run, Step;
      SameLengths(st);
      OthersTurn(i, acts);
      WakeStep(st, a, i);
      Access(a);
    }

    /** wakeup_stack_epoll on stack i, for this application's node. */
    method WakeupStackEpoll(i: nat, env: nat -> seq<Action>) returns (woken: bool)
      requires Valid() && i < |st.stacks| && st.stacks[i] == Idle
      modifies `st, `history
      ensures Valid() && old(history) <= history && i < |st.stacks| == |st.onList|
      ensures st.stacks[i] == Idle && !st.onList[i]
      ensures woken ==> StackUnlock(i) in history[|old(history)|..]
    {
      hide Inv, Run, Step;
      SameLengths(st);
      woken := false;
      if !st.onList[i] {
        return;
      }
      StackAccess(i, StackWake(i), []);
      StackAccess(i, StackLoad(i), env(0));
      if st.stacks[i] == Saw {
        Unlock(i, env);
        woken := true;
      }
      ghost var before := history;
      StackAccess(i, StackDelete(i), env(3));
      assert forall a :: a in before[|old(history)|..] ==> a in history[|old(history)|..] by {
        assert history[|old(history)|..|before|] == before[|old(history)|..];
      }
    }

    /** The store of in_wait = false and the unlock. */
    method Unlock(i: nat, env: nat -> seq<Action>)
      requires Valid() && i < |st.stacks| && st.stacks[i] == Saw
      modifies `st, `history
      ensures Valid() && old(history) < history && i < |st.stacks| == |st.onList| && st.stacks[i] == Done
      ensures history[|history| - 1] == StackUnlock(i)
    {
      hide Inv, Run, Step;
      StackAccess(i, StackStore(i), env(1));
      StackAccess(i, StackUnlock(i), env(2));
    }

    /** The store of in_wait = false on the way out. */
    method Leaves(acts: seq<Action>)
      requires Valid() && st.app == Leave
      modifies `st, `history
      ensures Valid() && st.app == Away && old(history) <= history
    {
      hide Inv, Run, Step;
      StacksTurn(acts);
      WaitSteps(st);
      Access(AppLeave);
    }
  }
}
