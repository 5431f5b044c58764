/** The throttle on send notifications: applications skip the notification when call_num is 2 or more.  One action
    is one access to call_num or to the message queue; applications push before they count, and the stack
    thread may push its own message again.  Only stack_send messages of one socket are looked at.  The count is read
    as a signed number or as an unsigned word, as `unsigned` says. */
module Throttle {

  type Tid = nat

  /** Where the stack thread is inside stack_send. */
  datatype StackPc = Polling | Sending | LoadCalls | PushAgain | CountAgain

  const WORD: int := 0x1_0000_0000

  datatype State = State(
    unsigned: bool, callNum: int, queued: nat,
    checked: set<Tid>,   // applications that have seen call_num < 2 and not pushed yet
    pushed: set<Tid>,    // applications that have pushed and not counted yet
    spc: StackPc)

  datatype Action = AppLoad(t: Tid) | AppPush(t: Tid) | AppAdd(t: Tid)
    | Begin | Sub(again: bool) | Load | Push | Add

  function Init(unsigned: bool): State { State(unsigned, 0, 0, {}, {}, Polling) }

  /** What a load of call_num gives. */
  function Loaded(s: State): int { if s.unsigned then s.callNum % WORD else s.callNum }

  function Step(s: State, a: Action): State {
    match a
    case AppLoad(t) => if t in s.checked || t in s.pushed || Loaded(s) >= 2 then s else s.(checked := s.checked + {t})
    case AppPush(t) => if t !in s.checked then s
                       else s.(checked := s.checked - {t}, pushed := s.pushed + {t}, queued := s.queued + 1)
    case AppAdd(t) => if t !in s.pushed then s else s.(pushed := s.pushed - {t}, callNum := s.callNum + 1)
    case Begin => if s.spc != Polling || s.queued == 0 then s else s.(queued := s.queued - 1, spc := Sending)
    case Sub(again) =>
      if s.spc != Sending then s else s.(callNum := s.callNum - 1, spc := if again then LoadCalls else Polling)
    case Load => if s.spc != LoadCalls then s else s.(spc := if Loaded(s) == 0 then PushAgain else Polling)
    case Push => if s.spc != PushAgain then s else s.(queued := s.queued + 1, spc := CountAgain)
    case Add => if s.spc != CountAgain then s else s.(callNum := s.callNum + 1, spc := Polling)
  }

  function Run(s: State, trace: seq<Action>): State {
    if trace == [] then s else Step(Run(s, trace[..|trace| - 1]), trace[|trace| - 1])
  }

  /** Handlers begun and not counted down yet, and messages of the stack thread not counted yet. */
  function Begun(s: State): nat { if s.spc == Sending then 1 else 0 }
  function Uncounted(s: State): nat { |s.pushed| + if s.spc == CountAgain then 1 else 0 }

  ghost predicate Inv(s: State) {
    && s.callNum + Uncounted(s) == s.queued + Begun(s)
    && s.checked !! s.pushed
  }

  lemma StepKeepsInv(s: State, a: Action)
    requires Inv(s)
    ensures Inv(Step(s, a))
  {
    match a
    case AppPush(t) => if t in s.checked { assert |s.pushed + {t}| == |s.pushed| + 1; }
    case AppAdd(t) => if t in s.pushed { assert |s.pushed - {t}| == |s.pushed| - 1; }
    case _ =>
  }

  lemma {:induction false} RunKeepsInv(s: State, trace: seq<Action>)
    requires Inv(s)
    ensures Inv(Run(s, trace))
  {
    if trace != [] {
      RunKeepsInv(s, trace[..|trace| - 1]);
      StepKeepsInv(Run(s, trace[..|trace| - 1]), trace[|trace| - 1]);
    }
  }

  lemma RunSnoc(s: State, trace: seq<Action>, a: Action)
    ensures Run(s, trace + [a]) == Step(Run(s, trace), a)
  {
    assert (trace + [a])[..|trace|] == trace;
  }

  /** On every run call_num never exceeds the outstanding messages, is exact when nobody is in between, and at 2 or more
      there is a message in the queue whose handler has not begun. */
  lemma {:induction false} ThrottleOnEveryRun(unsigned: bool, trace: seq<Action>)
    ensures var s := Run(Init(unsigned), trace);
            && s.callNum <= s.queued + Begun(s)
            && (s.pushed == {} && s.spc == Polling ==> s.callNum == s.queued)
            && (s.callNum >= 2 ==> s.queued >= 1)
  {
    assert Inv(Init(unsigned));
    RunKeepsInv(Init(unsigned), trace);
  }

  /** When an application skips with nothing in the queue: never by a signed count, and by an unsigned one exactly when
      more messages wait to be counted than handlers have begun. */
  lemma {:induction false} EmptySkip(unsigned: bool, trace: seq<Action>)
    requires var s := Run(Init(unsigned), trace); s.queued + Uncounted(s) <= WORD - 2
    ensures var s := Run(Init(unsigned), trace);
            Loaded(s) >= 2 && s.queued == 0 <==> unsigned && s.queued == 0 && Uncounted(s) > Begun(s)
  {
    var s := Run(Init(unsigned), trace);
    assert Inv(Init(unsigned));
    RunKeepsInv(Init(unsigned), trace);
    SameWidth(Init(unsigned), trace);
    hide Run;
    LoadedIs(s);
    hide Loaded;
  }

  lemma LoadedIs(s: State)
    requires -WORD < s.callNum < WORD
    ensures Loaded(s) == if s.unsigned && s.callNum < 0 then s.callNum + WORD else s.callNum
  {
  }

  /** A load of 2 or more: there is a message, or the count was negative. */
  lemma Skips(s: State)
    requires Inv(s) && Loaded(s) >= 2
    ensures s.queued >= 1 || (s.unsigned && s.callNum < 0)
  {
    assert s.callNum >= 0 ==> s.callNum % WORD <= s.callNum;
  }

  lemma {:induction false} SameWidth(s: State, trace: seq<Action>)
    ensures Run(s, trace).unsigned == s.unsigned
  {
    if trace != [] { SameWidth(s, trace[..|trace| - 1]); }
  }

  /** How many handlers a run begins. */
  ghost function Begins(s: State, trace: seq<Action>): nat {
    if trace == [] then 0
    else var t := Run(s, trace[..|trace| - 1]);
         Begins(s, trace[..|trace| - 1]) + if trace[|trace| - 1] == Begin && t.spc == Polling && t.queued > 0 then 1 else 0
  }

  /** The skipped notification is made up for: once the queue has run empty again, a handler has begun after it. */
  lemma {:induction false} SkipIsServed(unsigned: bool, before: seq<Action>, after: seq<Action>)
    requires Run(Init(unsigned), before).callNum >= 2
    requires Run(Run(Init(unsigned), before), after).queued == 0
    ensures Begins(Run(Init(unsigned), before), after) >= 1
  {
    ThrottleOnEveryRun(unsigned, before);
    QueueShrinksByBegins(Run(Init(unsigned), before), after);
  }

  lemma {:induction false} QueueShrinksByBegins(s: State, trace: seq<Action>)
    ensures Run(s, trace).queued + Begins(s, trace) >= s.queued
  {
    if trace != [] { QueueShrinksByBegins(s, trace[..|trace| - 1]); }
  }

  /** call_num can be below zero for a moment: a handler runs between the push and the count of its message.  Read as an
      unsigned word it is then taken for a large number, with nothing in the queue. */
  lemma CallNumDipsBelowZero(unsigned: bool)
    ensures var s := Run(Init(unsigned), [AppLoad(0), AppPush(0), Begin, Sub(false)]);
            s.callNum == -1 && s.queued == 0 && (unsigned ==> Loaded(s) == WORD - 1)
  {
    var i := Init(unsigned);
    RunSnoc(i, [], AppLoad(0));
    RunSnoc(i, [AppLoad(0)], AppPush(0));
    RunSnoc(i, [AppLoad(0), AppPush(0)], Begin);
    RunSnoc(i, [AppLoad(0), AppPush(0), Begin], Sub(false));
    assert [] + [AppLoad(0)] == [AppLoad(0)];
    assert [AppLoad(0)] + [AppPush(0)] == [AppLoad(0), AppPush(0)];
    assert [AppLoad(0), AppPush(0)] + [Begin] == [AppLoad(0), AppPush(0), Begin];
    assert [AppLoad(0), AppPush(0), Begin] + [Sub(false)] == [AppLoad(0), AppPush(0), Begin, Sub(false)];
  }

  /** The state after the first k steps. */
  ghost function Reached(unsigned: bool, history: seq<Action>, k: nat): State
    requires k <= |history|
  {
    Run(Init(unsigned), history[..k])
  }

  lemma ReachedNow(unsigned: bool, history: seq<Action>)
    ensures Reached(unsigned, history, |history|) == Run(Init(unsigned), history)
  {
    hide Run;
    assert history[..|history|] == history;
  }

  lemma ReachedBefore(unsigned: bool, h: seq<Action>, more: seq<Action>, k: nat)
    requires h <= more && k <= |h|
    ensures Reached(unsigned, h, k) == Reached(unsigned, more, k)
  {
    hide Run;
    assert h[..k] == more[..k];
  }

  lemma BeginsSnoc(s: State, trace: seq<Action>, a: Action)
    ensures Begins(s, trace + [a]) ==
            Begins(s, trace) + if a == Begin && Run(s, trace).spc == Polling && Run(s, trace).queued > 0 then 1 else 0
  {
    assert (trace + [a])[..|trace|] == trace;
  }

  /** The code of the two sides.  `env(k)` is what the other threads do before the k-th access. */
  class NotifySock {
    const unsigned: bool
    var st: State
    ghost var history: seq<Action>

    ghost predicate Valid()
      reads this
    {
      Inv(st) && st == Run(Init(unsigned), history) && st.unsigned == unsigned
    }

    constructor (unsigned: bool)
      ensures Valid() && st == Init(unsigned) && history == [] && this.unsigned == unsigned
    {
      this.unsigned := unsigned;
      st, history := Init(unsigned), [];
    }

    method Access(a: Action)
      requires Valid()
      modifies this
      ensures Valid() && st == Step(old(st), a) && history == old(history) + [a]
      ensures Begins(Init(unsigned), history) ==
              Begins(Init(unsigned), old(history)) + if a == Begin && old(st.spc == Polling && st.queued > 0) then 1 else 0
    {
      hide Inv, Run, Begins;
      StepKeepsInv(st, a);
      RunSnoc(Init(unsigned), history, a);
      BeginsSnoc(Init(unsigned), history, a);
      st := Step(st, a);
      history := history + [a];
    }

    /** All threads but the application `me`. */
    method AllBut(me: Tid, acts: seq<Action>)
      requires Valid()
      modifies this
      ensures Valid() && old(history) <= history
      ensures (me in st.checked <==> me in old(st.checked)) && (me in st.pushed <==> me in old(st.pushed))
    {
      hide Inv, Run, Begins;
      for k := 0 to |acts|
        invariant Valid() && old(history) <= history
        invariant (me in st.checked <==> me in old(st.checked)) && (me in st.pushed <==> me in old(st.pushed))
      {
        var a := acts[k];
        if !((a.AppLoad? || a.AppPush? || a.AppAdd?) && a.t == me) {
          Access(a);
        }
      }
    }

    /** The applications only. */
    method Apps(acts: seq<Action>)
      requires Valid()
      modifies this
      ensures Valid() && old(history) <= history && st.spc == old(st.spc)
      ensures st.queued >= old(st.queued) && Begins(Init(unsigned), history) == Begins(Init(unsigned), old(history))
    {
      hide Inv, Run, Begins;
      for k := 0 to |acts|
        invariant Valid() && old(history) <= history && st.spc == old(st.spc)
        invariant st.queued >= old(st.queued) && Begins(Init(unsigned), history) == Begins(Init(unsigned), old(history))
      {
        if acts[k].AppLoad? || acts[k].AppPush? || acts[k].AppAdd? {
          Access(acts[k]);
        }
      }
    }

    /** notice_stack_send; the message allocation fails `failures` times.  A caller that skips has a message in the
        queue at that moment, or took a negative count for a large one; one that does not has pushed one and counted it. */
    method NoticeStackSend(me: Tid, failures: nat, env: nat -> seq<Action>) returns (skipped: bool)
      requires Valid() && me !in st.checked && me !in st.pushed
      modifies this
      ensures Valid() && me !in st.checked && me !in st.pushed && old(history) <= history
      ensures skipped ==> st.queued >= 1 || (unsigned && st.callNum < 0)
      ensures !skipped ==> AppPush(me) in history[|old(history)|..] && AppAdd(me) in history[|old(history)|..]
    {
      hide Run, Begins, Loaded, Inv;
      AllBut(me, env(0));
      ghost var s := st;
      Access(AppLoad(me));
      if me !in st.checked {
        Skips(s);
        return true;
      }
      for i := 0 to failures
        invariant Valid() && me in st.checked && me !in st.pushed && old(history) <= history
      {
        AllBut(me, env(i + 3));
      }
      AllBut(me, env(1));
      Access(AppPush(me));
      ghost var at := |history| - 1;
      AllBut(me, env(2));
      Access(AppAdd(me));
      assert history[at] == AppPush(me) && history[|history| - 1] == AppAdd(me);
      return false;
    }

    /** stack_send, from the call of lwip on; `more` says that data or replenishing is left.  It pushes its message again
        exactly if there is more to do and call_num, loaded at step `at`, was zero. */
    method StackSend(more: bool, env: nat -> seq<Action>) returns (again: bool, ghost at: nat)
      requires Valid() && st.spc == Sending
      modifies this
      ensures Valid() && st.spc == Polling && old(history) <= history
      ensures Begins(Init(unsigned), history) == Begins(Init(unsigned), old(history))
      ensures |old(history)| <= at <= |history|
      ensures again <==> more && Loaded(Reached(unsigned, history, at)) == 0
    {
      hide Inv, Run, Begins, Reached, Loaded;
      again, at := false, |history|;
      Apps(env(0));
      Access(Sub(more));
      if more {
        Apps(env(1));
        at := |history|;
        ghost var was := history;
        ReachedNow(unsigned, was);
        Access(Load);
        ReachedBefore(unsigned, was, history, at);
        if st.spc == PushAgain {
          Apps(env(2));
          Access(Push);
          Apps(env(3));
          Access(Add);
          ReachedBefore(unsigned, was, history, at);
          again := true;
        }
      }
    }

    /** poll_rpc_msg: at most `maxNum` messages, and fewer only if a pop found none (`raced(k)`: a push was half done). */
    method PollRpcMsg(maxNum: nat, more: nat -> bool, raced: nat -> bool, env: nat -> nat -> seq<Action>) returns (handled: nat)
      requires Valid() && st.spc == Polling
      modifies this
      ensures Valid() && st.spc == Polling && old(history) <= history
      ensures handled <= maxNum && Begins(Init(unsigned), history) == Begins(Init(unsigned), old(history)) + handled
      ensures handled < maxNum ==> st.queued == 0 || raced(handled)
    {
      hide Inv, Run, Begins;
      handled := 0;
      while handled < maxNum
        invariant Valid() && st.spc == Polling && old(history) <= history
        invariant handled <= maxNum && Begins(Init(unsigned), history) == Begins(Init(unsigned), old(history)) + handled
      {
        Apps(env(handled)(4));
        if st.queued == 0 || raced(handled) {
          break;
        }
        Access(Begin);
        var _, _ := StackSend(more(handled), env(handled));
        handled := handled + 1;
      }
    }
  }
}
