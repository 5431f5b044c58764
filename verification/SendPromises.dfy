/** What the send path promises, and exactly when, with the memory of freed buffers allocated anew. */
module SendPromises {
  import opened SendPath
  import opened SendInvariant
  import opened SendPathProof
  import opened SendFrames
  import opened SendRecycle

  /** The bytes taken from the application are the confirmed ones and then those that hang on the socket. */
  ghost predicate StreamIs(m: Memory, pre: seq<Id>, last: seq<Id>, rel: seq<seq<Id>>) {
    ChainsOfSocket(m.s, pre, last, rel) && m.taken == m.s.confirmed + Bytes(m.s.data, pre + last + Concat(rel))
  }

  ghost predicate StreamHolds(m: Memory) {
    exists pre, last, rel :: StreamIs(m, pre, last, rel)
  }

  // ----- chains are what they are -----

  lemma ChainTail(next: map<Id, Id>, from: Ptr, ids: seq<Id>)
    requires IsChain(next, from, ids) && ids != []
    ensures IsChain(next, NextOf(next, ids[0]), ids[1..])
  {
    var n := |ids|;
    assert NextOf(next, ids[0]) == After(ids, 0, n);
    forall k | 0 <= k < n - 1 ensures NextOf(next, ids[1..][k]) == After(ids[1..], k, n - 1) {
      assert NextOf(next, ids[k + 1]) == After(ids, k + 1, n);
    }
  }

  lemma {:induction false} ChainUnique(next: map<Id, Id>, from: Ptr, a: seq<Id>, b: seq<Id>)
    requires IsChain(next, from, a) && IsChain(next, from, b)
    ensures a == b
    decreases |a|
  {
    if a != [] && b != [] {
      ChainTail(next, from, a);
      ChainTail(next, from, b);
      ChainUnique(next, NextOf(next, a[0]), a[1..], b[1..]);
      assert a == [a[0]] + a[1..] && b == [b[0]] + b[1..];
    }
  }

  lemma ChainsUnique(s: State, pre: seq<Id>, last: seq<Id>, rel: seq<seq<Id>>,
                     pre': seq<Id>, last': seq<Id>, rel': seq<seq<Id>>)
    requires ChainsOfSocket(s, pre, last, rel) && ChainsOfSocket(s, pre', last', rel')
    ensures pre == pre' && last == last' && rel == rel'
  {
    hide IsChain;
    ChainUnique(s.next, s.preDel, pre, pre');
    ChainUnique(s.next, s.lastData, last, last');
    forall j | 0 <= j < |rel| ensures rel[j] == rel'[j] {
      ChainUnique(s.next, To(s.ring[s.consTail + j]), rel[j], rel'[j]);
    }
  }

  lemma HoldsIff(m: Memory, pre: seq<Id>, last: seq<Id>, rel: seq<seq<Id>>)
    requires ChainsOfSocket(m.s, pre, last, rel)
    ensures StreamHolds(m) <==> m.taken == m.s.confirmed + Bytes(m.s.data, pre + last + Concat(rel))
  {
    hide ChainsOfSocket, Bytes, Concat;
    if StreamHolds(m) {
      var pre', last', rel' :| StreamIs(m, pre', last', rel');
      ChainsUnique(m.s, pre, last, rel, pre', last', rel');
    } else {
      assert !StreamIs(m, pre, last, rel);
    }
  }

  lemma HoldsIffTaken(m: Memory)
    requires Sound(m)
    ensures StreamHolds(m) <==> m.taken == m.s.accepted
  {
    var pre, last, rel := StreamOf(m);
    HoldsIff(m, pre, last, rel);
    hide *;
  }

  lemma ChainFrame(next: map<Id, Id>, t: map<Id, Id>, from: Ptr, ids: seq<Id>)
    requires IsChain(next, from, ids) && forall p :: p in ids ==> NextOf(t, p) == NextOf(next, p)
    ensures IsChain(t, from, ids)
  {
    SegFrame(next, t, ids);
  }

  lemma {:induction false} InConcat(chains: seq<seq<Id>>, j: nat, p: Id)
    requires j < |chains| && p in chains[j]
    ensures p in Concat(chains)
  {
    if j < |chains| - 1 { InConcat(chains[..|chains| - 1], j, p); }
  }

  /** Links of other buffers may change. */
  lemma ChainsFrame(s: State, t: State, pre: seq<Id>, last: seq<Id>, rel: seq<seq<Id>>)
    requires ChainsOfSocket(s, pre, last, rel)
    requires t == s.(next := t.next, data := t.data, len := t.len, used := t.used, apc := t.apc)
    requires forall p :: p in pre + last + Concat(rel) ==> NextOf(t.next, p) == NextOf(s.next, p)
    ensures ChainsOfSocket(t, pre, last, rel)
  {
    hide IsChain, Concat, NextOf;
    assert forall p :: p in pre || p in last ==> p in pre + last + Concat(rel);
    ChainFrame(s.next, t.next, s.preDel, pre);
    ChainFrame(s.next, t.next, s.lastData, last);
    forall j | 0 <= j < |rel| ensures IsChain(t.next, To(t.ring[t.consTail + j]), rel[j]) {
      forall p | p in rel[j] ensures NextOf(t.next, p) == NextOf(s.next, p) {
        InConcat(rel, j, p);
        assert p in pre + last + Concat(rel);
      }
      ChainFrame(s.next, t.next, To(s.ring[s.consTail + j]), rel[j]);
    }
  }

  // ----- merge and attach, whatever the slot before prod.tail leads to -----

  /** The stream keeps the bytes of an attach exactly if the memory of the last buffer was not allocated anew. */
  lemma AttachKeepsStreamIff(m: Memory)
    requires Sound(m) && m.taken == m.s.accepted && LetIn(m) && Allocates(m.s, m.s.apc.job)
    ensures StreamHolds(MStep(m, Own(App))) <==> m.tenant.Itself?
  {
    hide Inv, MStep, StreamHolds, Allocates, Sound, Owners;
    SoundMeans(m);
    if m.tenant.Idle? {
      IdleTakesBytes(m);
    } else {
      NoCross(m);
      StepKeepsSound(m, Own(App));
      MoveBehind(m, Own(App));
      HoldsIffTaken(MStep(m, Own(App)));
      LosesIff(m);
    }
  }

  lemma NoCross(m: Memory)
    requires !m.tenant.Idle?
    ensures !Crosses(m, Own(App))
  {
  }

  lemma LosesIff(m: Memory)
    requires LetIn(m) && Allocates(m.s, m.s.apc.job) && !m.tenant.Idle?
    requires (m.on <==> !m.tenant.Itself?) && (m.on <==> m.s.apc.LastLocked?)
    ensures Loses(m, Own(App)) <==> !m.tenant.Itself?
  {
    hide Fresh, Payloads;
  }

  lemma IdleTakesBytes(m: Memory)
    requires Sound(m) && m.taken == m.s.accepted && LetIn(m) && Allocates(m.s, m.s.apc.job) && m.tenant.Idle?
    ensures !StreamHolds(MStep(m, Own(App)))
  {
    SoundMeans(m);
    var ids, payloads, q := m.s.apc.job.ids, m.s.apc.job.payloads, m.tenant.q;
    hide Inv, StreamHolds, Sound, SetData, SetLen, Link, Flat, Fresh, Payloads, Bytes, Concat, LastOf;
    var t := MStep(m, Own(App));
    assert t == AttachToIdle(m, q, ids, payloads);
    IdleLinks(m, q, ids, payloads);
    var pre, last, rel := StreamOf(m);
    InStream(m.s, pre + last + Concat(rel));
    hide MStep, Owners;
    SetFills(m.s.data, m.s.len, ids, payloads);
    ChainsFrame(m.s, t.s, pre, last, rel);
    BytesFrame(m.s.data, t.s.data, pre + last + Concat(rel));
    FlatIsPositive(payloads);
    HoldsIff(t, pre, last, rel);
  }

  lemma InStream(s: State, ids: seq<Id>)
    requires s.done <= |s.stream| && ids == s.stream[s.done..]
    ensures forall p :: p in ids ==> p in s.stream
  {
  }

  /** The links of the stream are none of those that an attach behind the idle buffer q sets. */
  lemma IdleLinks(m: Memory, q: Id, ids: seq<Id>, payloads: seq<seq<Byte>>)
    requires Sound(m) && m.tenant == Idle(q) && Fresh(m.s, ids) && ids != []
    ensures Distinct(ids)
    ensures forall p :: p in m.s.stream ==> p !in ids
    ensures forall p :: p in m.s.stream ==>
              NextOf(Link(m.s.next, ids)[LastOf(m.s, q) := ids[0]], p) == NextOf(m.s.next, p)
  {
    IdleIsClean(m, q);
    NewOutside(m.s, ids);
    hide Inv, Fresh;
    LinkChains(m.s.next, ids);
  }

  lemma IdleIsClean(m: Memory, q: Id)
    requires Sound(m) && m.tenant == Idle(q)
    ensures q !in m.s.stream && LastOf(m.s, q) == q && q !in m.s.closed
  {
    AppKnows(m.s);
    hide Seg, RingChains, Content, Lengths, Given, LetsIn, Front, Pointers, Order, StackFacts, LastIsEnd, AppFacts;
    var i :| m.s.prodTail <= i < |m.s.ring| && m.s.ring[i] == q;
  }

  lemma NewOutside(s: State, ids: seq<Id>)
    requires Inv(s) && Fresh(s, ids)
    ensures Distinct(ids) && (forall p :: p in s.stream ==> p !in ids) && (forall k :: 0 <= k < |ids| ==> ids[k] !in s.next)
  {
    hide Seg, RingChains, Content, Lengths, Given, LetsIn, Front, Pointers, Order, StackFacts, LastIsEnd, AppFacts;
  }

  /** The memory after a merge that was let in: into the last buffer in two steps, elsewhere in one of this model. */
  function Merged(m: Memory): Memory {
    if m.on then MStep(m, Own(App)) else MStep(MStep(m, Own(App)), Own(App))
  }

  /** The same of a merge of some bytes that finds room. */
  lemma MergeKeepsStreamIff(m: Memory, bytes: seq<Byte>)
    requires Sound(m) && m.taken == m.s.accepted && LetIn(m) && m.s.apc.job == Merge(bytes) && bytes != []
    requires !LinkedAt(m, m.s.apc.p) && LenAt(m, m.s.apc.p) < MAX
    ensures StreamHolds(Merged(m)) <==> m.tenant.Itself?
  {
    hide Inv, MStep, StreamHolds, Sound, Owners;
    SoundMeans(m);
    NoCross(m);
    StepKeepsSound(m, Own(App));
    MoveBehind(m, Own(App));
    if m.on {
      MergeLoses(m, bytes);
      HoldsIffTaken(Merged(m));
    } else {
      var t := MStep(m, Own(App));
      MergeStays(m, bytes);
      NoCross(t);
      StepKeepsSound(t, Own(App));
      MoveBehind(t, Own(App));
      HoldsIffTaken(Merged(m));
    }
  }

  lemma MergeLoses(m: Memory, bytes: seq<Byte>)
    requires m.on && m.s.apc.LastLocked? && m.s.apc.job == Merge(bytes) && bytes != [] && !m.tenant.Itself?
    requires !LinkedAt(m, m.s.apc.p) && LenAt(m, m.s.apc.p) < MAX
    ensures Loses(m, Own(App)) && m.tenant.Foreign?
  {
  }

  lemma MergeStays(m: Memory, bytes: seq<Byte>)
    requires !m.on && m.s.apc.LastAllowed? && m.tenant.Itself? && m.s.apc.job == Merge(bytes)
    ensures var t := MStep(m, Own(App)); !t.on && t.tenant.Itself?
    ensures !Loses(m, Own(App)) && !Loses(MStep(m, Own(App)), Own(App))
  {
    hide StepApp, Grown;
  }

  /** With allow_in seen set in the last buffer itself, that one is not freed and nothing of it was handed to lwip: its chain
      is the end of the stream. */
  lemma LockedIsLast(m: Memory)
    requires Sound(m) && m.s.apc.LastAllowed?
    ensures var s, p := m.s, m.s.apc.p;
            && m.tenant.Itself? && p !in m.freed && p !in s.given && p !in s.closed
            && 0 < s.prodTail <= |s.ring| && p == s.ring[s.prodTail - 1] && s.appLock == To(p) && |s.start| == s.prodTail + 1
            && s.done <= s.start[s.prodTail - 1] < |s.stream| && s.stream[s.start[s.prodTail - 1]] == p
            && Seg(s.next, s.stream, s.start[s.prodTail - 1], |s.stream|) && s.stream[|s.stream| - 1] !in s.given
  {
    SoundMeans(m);
    LastFacts(m.s);
    LastChain(m.s, m.s.apc.p);
    LastNotGiven(m.s, m.s.apc.p);
    OpenIsUnconfirmed(m.s);
    hide Inv, Seg, Confirmed;
  }

  // ----- the last store of app_direct_write -----

  /** pbufs[0]->last is stored after the release.  The store leaves the stream as it is, and keeps the invariant exactly if
      the memory of pbufs[0] is not that of a buffer waiting to be filled, which then gets the end of an old chain as `last`. */
  lemma DirectLastIff(m: Memory)
    requires Sound(m) && m.s.apc.DirectLast?
    ensures var t := MStep(m, Own(App));
            && (Sound(t) <==> !m.tenant.Idle?)
            && (StreamHolds(t) <==> StreamHolds(m))
            && (m.tenant.Idle? ==> LastOf(t.s, m.tenant.q) == m.s.apc.lastId && m.tenant.q in m.s.ring[m.s.prodTail..])
  {
    var t := MStep(m, Own(App));
    SoundMeans(m);
    hide Inv, StreamHolds, Sound;
    if m.tenant.Idle? {
      assert t.s == m.s.(last := m.s.last[m.tenant.q := m.s.apc.lastId], apc := AppIdle);
      var pre, last, rel := StreamOf(m);
      HoldsIff(m, pre, last, rel);
      ChainsFrame(m.s, m.s.(apc := AppIdle), pre, last, rel);
      LastIsNoLink(m.s.(apc := AppIdle), t.s, pre, last, rel);
      HoldsIff(t, pre, last, rel);
      hide *;
      DirtyIdle(t, m.tenant.q);
    } else {
      NoCross(m);
      StepKeepsSound(m, Own(App));
      DirectLastMoves(m, t);
      HoldsIffTaken(m);
      HoldsIffTaken(t);
    }
  }

  lemma DirectLastMoves(m: Memory, t: Memory)
    requires m.s.apc.DirectLast? && !m.tenant.Idle? && t == MStep(m, Own(App))
    ensures t.taken == m.taken && t.s.accepted == m.s.accepted
  {
  }

  lemma LastIsNoLink(s: State, t: State, pre: seq<Id>, last: seq<Id>, rel: seq<seq<Id>>)
    requires ChainsOfSocket(s, pre, last, rel) && t == s.(last := t.last)
    ensures ChainsOfSocket(t, pre, last, rel)
  {
    hide IsChain;
  }

  /** A buffer waiting to be filled whose `last` is not itself. */
  lemma DirtyIdle(t: Memory, q: Id)
    requires t.s.prodTail <= |t.s.ring| && q in t.s.ring[t.s.prodTail..] && q in t.s.last
    ensures !Sound(t)
  {
    var i :| t.s.prodTail <= i < |t.s.ring| && t.s.ring[i] == q;
    hide Seg, RingChains, Content, Lengths, Given, LetsIn, Front, Pointers, Order, StackFacts, LastIsEnd, AppFacts, Owners;
  }

  // ----- what lwip was given -----

  /** As long as no buffer waiting to be filled is written through the slot before prod.tail, a buffer that write_lwip_data has
      returned keeps its bytes, its length and its link, until lwip frees it. */
  lemma FrozenUntilFreed(cap: nat, moves: seq<Move>, more: seq<Move>, p: Id)
    requires Uncrossed(cap, moves + more) && p in MRun(MInit(cap), moves).s.given
    ensures var s, t := MRun(MInit(cap), moves).s, MRun(MInit(cap), moves + more).s;
            && p in t.given && t.given[p] == s.given[p]
            && Data(t, p) == s.given[p] && Len(t, p) == |s.given[p]| && NextOf(t.next, p) == Null
  {
    var trace := MoreAllocations(cap, moves, more);
    UncrossedBefore(cap, moves, more);
    var before := RunOfAllocations(cap, moves);
    hide *;
    SoundIsInv(MRun(MInit(cap), moves));
    GivenBufferIsFrozen(MRun(MInit(cap), moves).s, trace, p);
  }

  lemma {:induction false} UncrossedBefore(cap: nat, moves: seq<Move>, more: seq<Move>)
    requires Uncrossed(cap, moves + more)
    ensures Uncrossed(cap, moves)
  {
    if more == [] {
      assert moves + more == moves;
    } else {
      assert (moves + more)[..|moves + more| - 1] == moves + more[..|more| - 1];
      UncrossedBefore(cap, moves, more[..|more| - 1]);
    }
  }

  lemma {:induction false} MoreAllocations(cap: nat, moves: seq<Move>, more: seq<Move>) returns (trace: seq<Action>)
    requires Uncrossed(cap, moves + more)
    ensures MRun(MInit(cap), moves + more).s == Run(MRun(MInit(cap), moves).s, trace)
  {
    hide Sound, MStep, Crosses, Run;
    if more == [] {
      assert moves + more == moves;
      trace := [];
      RunOne(MRun(MInit(cap), moves).s, App);
    } else {
      var all := moves + more;
      var before, v := more[..|more| - 1], more[|more| - 1];
      assert all[..|all| - 1] == moves + before && all[|all| - 1] == v;
      var t := MoreAllocations(cap, moves, before);
      var init := RunOfAllocations(cap, moves + before);
      var last := ProjectsSound(MRun(MInit(cap), moves + before), v);
      RunConcat(MRun(MInit(cap), moves).s, t, last);
      trace := t + last;
    }
  }

  // ----- where pointers lead -----

  /** A buffer whose memory the next access of either thread reads or writes, but for the slot before prod.tail inside
      gazelle_ring_readlast and the last store of app_direct_write. */
  predicate Touches(s: State, p: Id) {
    || s.preDel == To(p) || s.lastData == To(p)
    || (s.consTail <= |s.ring| && p in s.ring[s.consTail..])
    || match s.apc
       case LastAllowed(q, _) => p == q || p == LastOf(s, q)
       case MergeCopy(q, _) => p == q
       case AttachLast(q, l) => p == q || p == l
       case Holding(q) => p == q
       case DirectFilled(ids, _) => p in ids
       case _ => false
  }

  /** No such buffer has been freed: apart from that slot a pointer never leads to memory that was allocated anew. */
  lemma TouchesLive(cap: nat, moves: seq<Move>, p: Id)
    requires Uncrossed(cap, moves) && Touches(MRun(MInit(cap), moves).s, p)
    ensures p !in MRun(MInit(cap), moves).freed
  {
    var trace := RunOfAllocations(cap, moves);
    TouchesUnconfirmed(MRun(MInit(cap), moves), p);
    hide *;
  }

  lemma TouchesUnconfirmed(m: Memory, p: Id)
    requires Sound(m) && Touches(m.s, p)
    ensures p !in m.freed
  {
    SoundMeans(m);
    hide Inv, Sound;
    assert !Confirmed(m.s, p) by {
      hide Owners, Confirmed, LastOf;
      if m.s.preDel == To(p) || m.s.lastData == To(p) {
        PointedUnconfirmed(m.s, p);
      } else if m.s.consTail <= |m.s.ring| && p in m.s.ring[m.s.consTail..] {
        RingUnconfirmed(m.s, p);
      } else if m.s.apc.DirectFilled? {
        FilledUnconfirmed(m.s, p);
      } else {
        LastUnconfirmed(m.s);
      }
    }
  }

  lemma PointedUnconfirmed(s: State, p: Id)
    requires Inv(s) && (s.preDel == To(p) || s.lastData == To(p))
    ensures !Confirmed(s, p)
  {
    StreamDistinct(s);
    StackKnows(s);
    hide Inv, StackFacts, Distinct;
    NotBefore(s.stream, s.done, if s.preDel == To(p) then s.done else s.preEnd);
  }

  lemma RingUnconfirmed(s: State, p: Id)
    requires Inv(s) && s.consTail <= |s.ring| && p in s.ring[s.consTail..]
    ensures !Confirmed(s, p)
  {
    StreamDistinct(s);
    hide Seg, RingChains, Content, Lengths, Given, LetsIn, Front, Pointers, StackFacts, LastIsEnd, AppFacts, Clean, Distinct;
    var i :| s.consTail <= i < |s.ring| && s.ring[i] == p;
    if i < s.prodTail {
      assert s.start[s.consTail] <= s.start[i] < s.start[s.prodTail];
      hide Inv, Order, Names;
      NotBefore(s.stream, s.done, s.start[i]);
    }
  }

  lemma FilledUnconfirmed(s: State, p: Id)
    requires Inv(s) && s.apc.DirectFilled? && p in s.apc.ids
    ensures !Confirmed(s, p)
  {
    AppKnows(s);
    hide Inv, Seg, Filled, Distinct;
  }

  /** Under the lock neither the last buffer nor the end of its chain is confirmed. */
  lemma LastUnconfirmed(s: State)
    requires Inv(s) && (s.apc.LastAllowed? || s.apc.MergeCopy? || s.apc.AttachLast? || s.apc.Holding?)
    ensures !Confirmed(s, s.apc.p)
    ensures s.apc.LastAllowed? ==> !Confirmed(s, LastOf(s, s.apc.p))
    ensures s.apc.AttachLast? ==> !Confirmed(s, s.apc.lastId)
  {
    var p := s.apc.p;
    StreamDistinct(s);
    AppKnows(s);
    LastChain(s, p);
    EndOfStream(s);
    OpenIsUnconfirmed(s);
    hide Inv, AppFacts, Seg, LastOf;
    NotBefore(s.stream, s.done, |s.stream| - 1);
  }

  lemma EndOfStream(s: State)
    requires Inv(s)
    ensures s.apc.LastAllowed? ==> s.stream != [] && LastOf(s, s.apc.p) == s.stream[|s.stream| - 1]
    ensures s.apc.AttachLast? ==> s.stream != [] && s.apc.lastId == s.stream[|s.stream| - 1]
  {
    hide Seg, RingChains, Content, Lengths, Given, LetsIn, Front, Pointers, StackFacts, Clean, Names, Order;
  }
}
