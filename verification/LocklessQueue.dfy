/** The queue's own code, run in the presence of pushers: before every shared access of pop any number
    of actions of any pushers happens.  Each method is tied to a run of the transition system. */
module LocklessQueueCode {
  import opened MpscQueue

  class LocklessQueue {
    var head: Node
    var tail: Node
    var next: map<Node, Node>
    var held: map<Node, Node>  // the local old_head of every thread inside push
    var queued: set<Node>      // the callers' discipline: a node is not pushed while it is in the queue
    ghost var st: State

    /** The memory is that of `s`. */
    ghost predicate Shows(s: State)
      reads this
    {
      && s.head == head && s.tail == tail && s.next == next && s.pend == held
      && (forall n :: n in queued <==> n in s.chain && n != STUB)
    }

    ghost predicate Valid()
      reads this
    {
      Inv(st) && Shows(st)
    }

    constructor ()
      ensures Valid() && st == Init
    {
      head, tail, next, held, queued := STUB, STUB, map[], map[], {};
      st := Init;
      new;
      InitInv();
    }

    function Load(n: Node): Ptr
      reads this
    {
      if n in next then To(next[n]) else Null
    }

    /** node->next = NULL, then the atomic exchange of the head. */
    method ExchangeHead(node: Node)
      requires node !in held
      modifies `next, `head, `held
      ensures head == node && next == old(next) - {node} && held == old(held)[node := old(head)]
    {
      next := next - {node};
      held := held[node := head];
      head := node;
    }

    /** The release store old_head->next = node. */
    method StoreLink(node: Node)
      requires node in held
      modifies `next, `held
      ensures next == old(next)[old(held)[node] := node] && held == old(held) - {node}
    {
      next := next[held[node] := node];
      held := held - {node};
    }

    /** What other threads do meanwhile: any actions of any pushers. */
    method Others(acts: seq<Action>, ghost s0: State, ghost before: seq<Action>) returns (ghost trace: seq<Action>)
      requires Valid() && st == Run(s0, before)
      modifies this
      ensures Valid() && tail == old(tail) && st.pc == old(st.pc) && st.popped == old(st.popped)
      ensures st == Run(s0, trace) && Begins(trace) == Begins(before)
    {
      hide Inv, Run, Begins;
      trace := before;
      for i := 0 to |acts|
        invariant Valid() && tail == old(tail) && st.pc == old(st.pc) && st.popped == old(st.popped)
        invariant st == Run(s0, trace) && Begins(trace) == Begins(before)
      {
        match acts[i]
        case Exchange(n) =>
          if n != STUB && n !in queued {
            FreeNode(st, n);
            StepKeepsInv(st, acts[i]);
            RunSnoc(s0, trace, acts[i]);
            BeginsSnoc(trace, acts[i]);
            ExchangeHead(n);
            queued := queued + {n};
            st := Step(st, acts[i]);
            trace := trace + [acts[i]];
          }
        case Link(n) =>
          if n != STUB && n in held {
            StepKeepsInv(st, acts[i]);
            RunSnoc(s0, trace, acts[i]);
            BeginsSnoc(trace, acts[i]);
            StoreLink(n);
            st := Step(st, acts[i]);
            trace := trace + [acts[i]];
          }
        case PopBegin =>
        case PopStep =>
      }
    }

    /** The consumer's access that the code has just made, as an action. */
    ghost method Tick(a: Action, s0: State, before: seq<Action>) returns (trace: seq<Action>)
      requires Inv(st) && st == Run(s0, before)
      modifies `st
      ensures st == Step(old(st), a) && Inv(st)
      ensures Begins(trace) == Begins(before) + if a == PopBegin then 1 else 0
      ensures st == Run(s0, trace)
    {
      hide Inv, Step, Run, Begins;
      StepKeepsInv(st, a);
      RunSnoc(s0, before, a);
      BeginsSnoc(before, a);
      st := Step(st, a);
      trace := before + [a];
    }

    /** Load tail->next after other threads had their turn, and step the tail along it if it is there. */
    method FollowTail(acts: seq<Action>, ghost s0: State, ghost before: seq<Action>)
      returns (link: Ptr, ghost trace: seq<Action>)
      requires Valid() && st == Run(s0, before) && st.pc in {LoadNext, LoadAfterStub, LoadAgain}
      modifies this
      ensures Valid() && tail == (if link.Null? then old(tail) else link.node)
      ensures st.popped == old(st.popped) + if link.To? && old(tail) != STUB then [old(tail)] else []
      ensures link.To? ==> if old(tail) == STUB then st.pc == LoadAfterStub else st.pc == Idle && st.last == Got(old(tail))
      ensures link.Null? ==> if old(tail) == STUB || old(st.pc) == LoadAgain then st.pc == Idle && st.last == Empty
                             else st.pc == LoadHead
      ensures old(st.pc) != LoadNext ==> old(tail) != STUB
      ensures st == Run(s0, trace) && Begins(trace) == Begins(before)
    {
      hide Run, Inv, Rest, Begins;
      trace := Others(acts, s0, before);
      StubPushIsOwn(st);
      TailMembers(st);
      link := Load(tail);
      trace := Tick(PopStep, s0, trace);
      if link.To? {
        queued := queued - {tail};
        tail := link.node;
      }
    }

    /** lockless_queue_mpsc_pop; `env(k)` is what the pushers do before its k-th shared access. */
    method Pop(env: nat -> seq<Action>) returns (r: Ptr, ghost trace: seq<Action>)
      requires Valid() && st.pc == Idle
      modifies this
      ensures Valid() && st.pc == Idle
      ensures st == Run(old(st), trace) && Begins(trace) == 1
      ensures st.last == match r case Null => Empty case To(n) => Got(n)
      ensures st.popped == old(st.popped) + match r case Null => [] case To(n) => [n]
    {
      hide *;
      ghost var s0 := st;
      trace := Begin();
      var tail := this.tail;
      var next;
      next, trace := FollowTail(env(0), s0, trace);

      if tail == STUB {
        if next.Null? {
          return Null, trace;
        }
        tail := next.node;
        next, trace := FollowTail(env(1), s0, trace);
      }

      if next.To? {
        return To(tail), trace;
      }

      trace := Others(env(2), s0, trace);
      var head := this.head;
      trace := CheckHead(head, s0, trace);
      if tail != head {
        return Null, trace;
      }

      trace := InsertStub(env, s0, trace);

      next, trace := FollowTail(env(5), s0, trace);
      if next.To? {
        return To(tail), trace;
      }
      return Null, trace;
    }

    ghost method Begin() returns (trace: seq<Action>)
      requires Valid() && st.pc == Idle
      modifies `st
      ensures Valid() && st.pc == LoadNext && st.popped == old(st.popped)
      ensures st == Run(old(st), trace) && Begins(trace) == 1
    {
      hide Inv;
      assert Run(st, []) == st && Begins([]) == 0;
      trace := Tick(PopBegin, st, []);
    }

    ghost method CheckHead(head: Node, s0: State, before: seq<Action>) returns (trace: seq<Action>)
      requires Valid() && st == Run(s0, before) && st.pc == LoadHead && head == this.head
      modifies `st
      ensures Valid() && st.popped == old(st.popped)
      ensures if tail != head then st.pc == Idle && st.last == Empty else st.pc == ExchangeStub
      ensures st == Run(s0, trace) && Begins(trace) == Begins(before)
    {
      hide Inv, Run, Begins;
      trace := Tick(PopStep, s0, before);
    }

    /** lockless_queue_mpsc_push(queue, &queue->stub) by the consumer. */
    method InsertStub(env: nat -> seq<Action>, ghost s0: State, ghost before: seq<Action>) returns (ghost trace: seq<Action>)
      requires Valid() && st == Run(s0, before) && st.pc == ExchangeStub
      modifies this
      ensures Valid() && st.pc == LoadAgain && tail == old(tail) && st.popped == old(st.popped)
      ensures st == Run(s0, trace) && Begins(trace) == Begins(before)
    {
      hide Inv, Run, Begins;
      trace := Others(env(3), s0, before);
      StubPushIsOwn(st);
      ExchangeHead(STUB);
      trace := Tick(PopStep, s0, trace);
      trace := Others(env(4), s0, trace);
      StubPushIsOwn(st);
      StoreLink(STUB);
      trace := Tick(PopStep, s0, trace);
    }

    /** lockless_queue_count on a queue at rest: the walk also counts the stub when it is behind the tail. */
    method Count() returns (count: nat)
      requires Valid() && Quiescent(st)
      ensures count == |Items(st.chain)| + (if STUB in st.chain[1..] then 1 else 0)
      ensures count == |Items(st.chain)| <==> STUB !in st.chain[1..]
    {
      ghost var c := st.chain;
      if head == tail && tail == STUB {
        assert |c| == 1 && Items(c[1..]) == [];
        return 0;
      }
      var node := To(tail);
      ghost var start := 0;
      if tail == STUB {
        node := Load(STUB);
        start := 1;
        assert Joined(st, c[0], c[1]);
      }
      count := 0;
      while node.To?
        invariant start + count <= |c|
        invariant node == if start + count < |c| then To(c[start + count]) else Null
        decreases |c| - count
      {
        ghost var i := start + count;
        if i + 1 < |c| { assert Joined(st, c[i], c[i + 1]); }
        node := Load(node.node);
        count := count + 1;
      }
      ItemsLength(c);
    }
  }

  /** How many calls of pop a trace begins. */
  ghost function Begins(trace: seq<Action>): nat {
    if trace == [] then 0
    else Begins(trace[..|trace| - 1]) + if trace[|trace| - 1] == PopBegin then 1 else 0
  }

  lemma BeginsSnoc(trace: seq<Action>, a: Action)
    ensures Begins(trace + [a]) == Begins(trace) + if a == PopBegin then 1 else 0
  {
    assert (trace + [a])[..|trace|] == trace;
  }

  lemma {:induction false} ItemsLength(c: seq<Node>)
    requires Distinct(c)
    ensures |c| == |Items(c)| + if STUB in c then 1 else 0
  {
    if c != [] {
      ItemsLength(c[1..]);
      assert STUB in c <==> c[0] == STUB || STUB in c[1..];
    }
  }
}
