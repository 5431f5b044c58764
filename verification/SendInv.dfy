/** The inductive invariant of the send path.  Its parts take exactly the fields they speak of, so that a step
    that leaves these fields alone keeps the part without looking inside. */
module SendInvariant {
  import opened SendPath

  /** The link of stream[k] in a chain that ends at b. */
  ghost function After(stream: seq<Id>, k: nat, b: nat): Ptr {
    if k + 1 < b && k + 1 < |stream| then To(stream[k + 1]) else Null
  }

  /** stream[a..b] is one chain: linked by next, and ending there. */
  ghost predicate Seg(next: map<Id, Id>, stream: seq<Id>, a: nat, b: nat) {
    && a <= b <= |stream|
    && forall k {:trigger After(stream, k, b)} :: a <= k < b ==> NextOf(next, stream[k]) == After(stream, k, b)
  }

  ghost predicate Order(cap: nat, ring: seq<Id>, consTail: nat, prodTail: nat, prodHead: nat, start: seq<nat>,
                        stream: seq<Id>, done: nat, preEnd: nat, lastEnd: nat) {
    && consTail <= prodTail <= prodHead <= |ring| <= consTail + cap
    && |start| == prodTail + 1
    && done <= preEnd <= lastEnd == start[consTail] <= |stream|
    && (preEnd > done + 1 ==> preEnd == lastEnd)
  }

  /** Buffers are distinct; the released ring buffers begin their chains, in ring order. */
  ghost predicate Names(ring: seq<Id>, stream: seq<Id>, start: seq<nat>, prodTail: nat, used: set<Id>) {
    && prodTail <= |ring| && |start| == prodTail + 1 && start[prodTail] == |stream|
    && Distinct(stream) && Distinct(ring)
    && (forall k :: 0 <= k < |stream| ==> stream[k] in used)
    && (forall i :: 0 <= i < |ring| ==> ring[i] in used)
    && (forall i, j :: 0 <= i < j <= prodTail ==> start[i] < start[j])
    && (forall i :: 0 <= i < prodTail ==> stream[start[i]] == ring[i])
    && (forall i :: prodTail <= i < |ring| ==> ring[i] !in stream)
  }

  ghost predicate RingChains(next: map<Id, Id>, stream: seq<Id>, start: seq<nat>, consTail: nat, prodTail: nat) {
    && consTail <= prodTail < |start|
    && forall i :: consTail <= i < prodTail ==> Seg(next, stream, start[i], start[i + 1])
  }

  ghost predicate Pointers(stream: seq<Id>, done: nat, preEnd: nat, lastEnd: nat, preDel: Ptr, lastData: Ptr) {
    && done <= preEnd <= lastEnd <= |stream|
    && preDel == (if done < preEnd then To(stream[done]) else Null)
    && lastData == (if preEnd < lastEnd then To(stream[preEnd]) else Null)
  }

  /** Where the chain of the ring buffer dequeued last starts. */
  ghost predicate Front(start: seq<nat>, consTail: nat, done: nat, preEnd: nat) {
    0 < consTail < |start| ==> start[consTail - 1] <= done && (done == preEnd ==> start[consTail - 1] < done)
  }

  /** A last buffer that still lets data in has not been handed over, not even after it was dequeued. */
  ghost predicate LetsIn(ring: seq<Id>, start: seq<nat>, consTail: nat, prodTail: nat, closed: set<Id>,
                         done: nat, preEnd: nat, end: nat) {
    0 < prodTail <= |ring| && prodTail < |start| && consTail == prodTail && ring[prodTail - 1] !in closed ==>
      start[prodTail - 1] == done && preEnd == end
  }

  /** The bytes accepted are the bytes of the stream, and those confirmed are those of its confirmed part. */
  ghost predicate Content(data: map<Id, seq<Byte>>, stream: seq<Id>, done: nat, accepted: seq<Byte>, confirmed: seq<Byte>) {
    && done <= |stream|
    && accepted == Bytes(data, stream)
    && confirmed == Bytes(data, stream[..done])
  }

  /** Stored lengths agree with the bytes, but for the buffer a merge has not copied into yet. */
  ghost predicate Lengths(data: map<Id, seq<Byte>>, len: map<Id, nat>, stream: seq<Id>, apc: AppPc) {
    forall k :: 0 <= k < |stream| ==>
      var p := stream[k];
      && p in data && p in len
      && len[p] == |data[p]| + if apc.MergeCopy? && apc.p == p then |apc.chunk| else 0
  }

  /** What lwip was given is out of reach: unlinked, unchanged, and closed if it is the last in the ring. */
  ghost predicate Given(given: map<Id, seq<Byte>>, data: map<Id, seq<Byte>>, next: map<Id, Id>, closed: set<Id>,
                        stream: seq<Id>, ring: seq<Id>, done: nat, prodTail: nat) {
    && prodTail <= |ring|
    && forall g :: g in given ==>
         && g in data && data[g] == given[g] && g !in next
         && (exists k :: 0 <= k <= done && k < |stream| && stream[k] == g)
         && (prodTail > 0 && g == ring[prodTail - 1] ==> g in closed)
  }

  /** Idle ring buffers are unlinked and open; nothing is known of buffers never allocated. */
  ghost predicate Clean(next: map<Id, Id>, last: map<Id, Id>, closed: set<Id>, used: set<Id>, ring: seq<Id>,
                        prodTail: nat, apc: AppPc) {
    && next.Keys <= used && last.Keys <= used && closed <= used
    && forall i :: prodTail <= i < |ring| ==>
         && ring[i] !in closed && ring[i] !in last
         && (ring[i] in next ==> apc.DirectFilled? && i == prodTail)
  }

  /** `last` of the last ring buffer is the end of the stream, but while it is being moved. */
  ghost predicate LastIsEnd(last: map<Id, Id>, ring: seq<Id>, stream: seq<Id>, prodTail: nat, apc: AppPc) {
    prodTail > 0 ==>
      && prodTail <= |ring| && stream != []
      && var p := ring[prodTail - 1];
         var e := stream[|stream| - 1];
         match apc
         case AttachLast(q, l) => q == p && l == e
         case DirectLast(q, l) => q == p && l == e
         case _ => e == if p in last then last[p] else p
  }

  ghost predicate OnLast(p: Id, ring: seq<Id>, prodTail: nat, appLock: Ptr) {
    0 < prodTail <= |ring| && p == ring[prodTail - 1] && appLock == To(p)
  }

  ghost predicate AppFacts(apc: AppPc, ring: seq<Id>, stream: seq<Id>, prodTail: nat, prodHead: nat, appLock: Ptr,
                           closed: set<Id>, next: map<Id, Id>, data: map<Id, seq<Byte>>, len: map<Id, nat>, used: set<Id>) {
    && (!apc.BuffFilled? && !apc.DirectFilled? ==> prodHead == prodTail)
    && match apc
       case LastLocked(p, _) => OnLast(p, ring, prodTail, appLock)
       case LastAllowed(p, _) => OnLast(p, ring, prodTail, appLock) && p !in closed
       case MergeCopy(p, _) =>
         && OnLast(p, ring, prodTail, appLock) && p !in closed && p !in next
         && stream != [] && p == stream[|stream| - 1]
       case AttachLast(p, _) => OnLast(p, ring, prodTail, appLock) && p !in closed
       case Holding(p) => OnLast(p, ring, prodTail, appLock) && p !in closed
       case BuffFilled(payloads) =>
         && appLock == Null
         && prodTail < prodHead == prodTail + |payloads| <= |ring|
         && Filled(data, len, ring[prodTail..prodHead], payloads)
       case DirectFilled(ids, payloads) =>
         && appLock == Null
         && prodHead == prodTail + 1 <= |ring| && ids != [] && ids[0] == ring[prodTail]
         && Distinct(ids) && Seg(next, ids, 0, |ids|) && Filled(data, len, ids, payloads)
         && (forall j :: 0 <= j < |ids| ==> ids[j] !in stream && ids[j] in used)
         && (forall j :: 0 < j < |ids| ==> ids[j] !in ring)
       case DirectLast(p, _) => appLock == Null && 0 < prodTail <= |ring| && p == ring[prodTail - 1]
       case _ => appLock == Null
  }

  ghost predicate Filled(data: map<Id, seq<Byte>>, len: map<Id, nat>, ids: seq<Id>, payloads: seq<seq<Byte>>) {
    && |ids| == |payloads|
    && forall j :: 0 <= j < |ids| ==>
         && ids[j] in data && data[ids[j]] == payloads[j]
         && ids[j] in len && len[ids[j]] == |payloads[j]|
  }

  ghost predicate StackFacts(s: State) {
    && (!s.spc.StackIdle? ==> !s.inHand)
    && (s.inHand ==> s.done + 1 == s.preEnd <= |s.stream| && s.stream[s.done] in s.given)
    && s.stackLock == (if s.spc.PreLocked? || s.spc.RingLocked? then s.preDel else Null)
    && (s.spc.TakeLast? ==> s.done == s.preEnd < s.lastEnd)
    && (s.spc.DeqLoad? || s.spc.DeqStore? ==> s.done == s.preEnd == s.lastEnd)
    && (s.spc.DeqStore? ==> s.consTail < s.prodTail)
    && (s.spc.PreLock? || s.spc.PreLocked? || s.spc.PreMove? || OnRing(s.spc) ==> s.done < s.preEnd <= |s.stream|)
    && (OnRing(s.spc) ==> s.preEnd == s.lastEnd && 0 < s.consTail < |s.start| && s.start[s.consTail - 1] == s.done)
    && (s.spc.PreMove? ==> s.done < |s.stream| && s.stream[s.done] in s.closed)
    && (s.spc.RingOpen? ==> s.consTail < s.prodTail)
    && (s.spc.RingMove? ==> s.consTail < s.prodTail || (s.done < |s.stream| && s.stream[s.done] in s.closed))
  }

  predicate OnRing(spc: StackPc) {
    spc.CountOver? || spc.RingLock? || spc.RingLocked? || spc.RingOpen? || spc.RingMove?
  }

  ghost predicate Inv(s: State) {
    && Order(s.cap, s.ring, s.consTail, s.prodTail, s.prodHead, s.start, s.stream, s.done, s.preEnd, s.lastEnd)
    && Names(s.ring, s.stream, s.start, s.prodTail, s.used)
    && Seg(s.next, s.stream, s.done, s.preEnd) && Seg(s.next, s.stream, s.preEnd, s.lastEnd)
    && RingChains(s.next, s.stream, s.start, s.consTail, s.prodTail)
    && Pointers(s.stream, s.done, s.preEnd, s.lastEnd, s.preDel, s.lastData)
    && Front(s.start, s.consTail, s.done, s.preEnd)
    && LetsIn(s.ring, s.start, s.consTail, s.prodTail, s.closed, s.done, s.preEnd, |s.stream|)
    && Content(s.data, s.stream, s.done, s.accepted, s.confirmed)
    && Lengths(s.data, s.len, s.stream, s.apc)
    && Given(s.given, s.data, s.next, s.closed, s.stream, s.ring, s.done, s.prodTail)
    && Clean(s.next, s.last, s.closed, s.used, s.ring, s.prodTail, s.apc)
    && LastIsEnd(s.last, s.ring, s.stream, s.prodTail, s.apc)
    && AppFacts(s.apc, s.ring, s.stream, s.prodTail, s.prodHead, s.appLock, s.closed, s.next, s.data, s.len, s.used)
    && StackFacts(s)
    && (s.appLock.Null? || s.stackLock != s.appLock)
  }

  lemma InitInv(cap: nat)
    ensures Inv(Init(cap))
  {
  }

  // ----- the stack thread -----

  lemma CallWriteKeepsInv(s: State, r: nat)
    requires Inv(s)
    ensures Inv(DoCallWrite(s, r))
  {
    hide Seg, Names, RingChains, Content, Lengths, Given, Clean, LastIsEnd, AppFacts, LetsIn, Front;
  }

  /** Steps that only move the stack thread on. */
  lemma StackPcKeepsInv(s: State, t: State)
    requires Inv(s) && t == s.(spc := t.spc) && s.stackLock == Null
    requires !s.spc.StackIdle? && StackFacts(t)
    ensures Inv(t)
  {
    hide Seg, Names, RingChains, Content, Lengths, Given, Clean, LastIsEnd, AppFacts, LetsIn, Front, Pointers, Order, StackFacts;
  }

  lemma DeqStoreKeepsInv(s: State, r: nat)
    requires Inv(s) && s.spc == DeqStore(r)
    ensures Inv(s.(consTail := s.consTail + 1, preDel := To(s.ring[s.consTail]), spc := CountOver(r),
              preEnd := s.start[s.consTail + 1], lastEnd := s.start[s.consTail + 1]))
  {
    hide Content, Lengths, Clean, LastIsEnd, AppFacts;
    var t := s.(consTail := s.consTail + 1, preDel := To(s.ring[s.consTail]), spc := CountOver(r),
              preEnd := s.start[s.consTail + 1], lastEnd := s.start[s.consTail + 1]);
    assert t.preEnd <= |s.stream|;
    assert Seg(s.next, s.stream, s.start[s.consTail], s.start[s.consTail + 1]);
    assert Seg(s.next, s.stream, t.preEnd, t.lastEnd);
    assert Given(t.given, t.data, t.next, t.closed, t.stream, t.ring, t.done, t.prodTail);
  }

  lemma TakeLock(s: State, t: State)
    requires Inv(s) && s.preDel.To? && s.appLock != s.preDel
    requires (s.spc.PreLock? && t.spc.PreLocked?) || (s.spc.RingLock? && t.spc.RingLocked?)
    requires t == s.(stackLock := s.preDel, spc := t.spc)
    ensures Inv(t)
  {
    hide Seg, Names, RingChains, Content, Lengths, Given, Clean, LastIsEnd, AppFacts, LetsIn, Front, Order;
  }

  lemma TooBig(s: State)
    requires Inv(s) && (s.spc.PreLocked? || s.spc.RingLocked?)
    ensures Inv(ReturnNull(s.(stackLock := Null)))
  {
    hide Seg, Names, RingChains, Content, Lengths, Given, Clean, LastIsEnd, AppFacts, LetsIn, Front, Order;
  }

  lemma CloseKeepsInv(s: State, t: State)
    requires Inv(s) && s.preDel.To?
    requires (s.spc.PreLocked? && t.spc.PreMove?) || (s.spc.RingLocked? && t.spc.RingMove?)
    requires t == Close(s, s.preDel.id).(spc := t.spc)
    ensures Inv(t)
  {
    var p := s.preDel.id;
    PreDelIsFront(s);
    CloseClean(s, p);
    CloseApp(s, p);
    CloseGiven(s, p);
    hide Seg, RingChains, Content, Lengths, LastIsEnd, Front, Order, Given, Clean, AppFacts, Names, Pointers;
  }

  lemma PreDelIsFront(s: State)
    requires Inv(s) && s.preDel.To?
    ensures s.done < s.preEnd <= s.lastEnd <= |s.stream| && s.preDel == To(s.stream[s.done])
  {
    hide Seg, RingChains, Content, Lengths, LastIsEnd, Front, Order, Given, Clean, AppFacts, Names, LetsIn, StackFacts;
  }

  lemma CloseGiven(s: State, p: Id)
    requires Inv(s)
    ensures Given(s.given, s.data, s.next, s.closed + {p}, s.stream, s.ring, s.done, s.prodTail)
  {
    hide Seg, RingChains, Content, Lengths, LastIsEnd, Front, Order, Clean, AppFacts, Names, LetsIn, StackFacts, Pointers;
  }

  lemma CloseClean(s: State, p: Id)
    requires Inv(s) && p in s.stream
    ensures Clean(s.next, s.last, s.closed + {p}, s.used, s.ring, s.prodTail, s.apc)
  {
    hide Seg, RingChains, Content, Lengths, LastIsEnd, Front, Order, Given, AppFacts;
  }

  lemma CloseApp(s: State, p: Id)
    requires Inv(s) && s.stackLock == To(p)
    ensures AppFacts(s.apc, s.ring, s.stream, s.prodTail, s.prodHead, s.appLock, s.closed + {p}, s.next, s.data, s.len, s.used)
  {
    hide Seg, RingChains, Content, Lengths, LastIsEnd, Front, Order, Given, Clean, Names, Filled;
  }

  // Returning the buffer in send_pre_del cuts it off its chain.

  lemma ReturnGiven(s: State, p: Id)
    requires Inv(s) && s.done < s.lastEnd && p == s.stream[s.done]
    requires s.prodTail > 0 && p == s.ring[s.prodTail - 1] ==> p in s.closed
    ensures Given(s.given[p := Data(s, p)], s.data, s.next - {p}, s.closed, s.stream, s.ring, s.done, s.prodTail)
  {
    hide RingChains, Content, LastIsEnd, Front, LetsIn, Clean, AppFacts, StackFacts, Pointers;
    assert s.stream[s.done] == p;
  }

  lemma CutSeg(next: map<Id, Id>, stream: seq<Id>, a: nat, b: nat, at: nat)
    requires Seg(next, stream, a, b) && Distinct(stream) && at < |stream| && (at < a || at + 1 == b || at >= b)
    ensures Seg(next - {stream[at]}, stream, a, b)
  {
    forall k | a <= k < b
      ensures NextOf(next - {stream[at]}, stream[k]) == After(stream, k, b)
    {
      assert k != at ==> stream[k] != stream[at];
      assert NextOf(next, stream[k]) == After(stream, k, b);
    }
  }

  lemma CutOther(next: map<Id, Id>, ids: seq<Id>, a: nat, b: nat, p: Id)
    requires Seg(next, ids, a, b) && p !in ids
    ensures Seg(next - {p}, ids, a, b)
  {
    forall k | a <= k < b
      ensures NextOf(next - {p}, ids[k]) == After(ids, k, b)
    {
      assert ids[k] in ids;
      assert NextOf(next, ids[k]) == After(ids, k, b);
    }
  }

  lemma HeadLink(next: map<Id, Id>, stream: seq<Id>, a: nat, b: nat)
    requires Seg(next, stream, a, b) && a < b
    ensures NextOf(next, stream[a]) == if a + 1 < b then To(stream[a + 1]) else Null
  {
    assert NextOf(next, stream[a]) == After(stream, a, b);
  }

  lemma CutHead(next: map<Id, Id>, stream: seq<Id>, a: nat, b: nat)
    requires Seg(next, stream, a, b) && Distinct(stream) && a < b
    ensures Seg(next - {stream[a]}, stream, a, a + 1) && Seg(next - {stream[a]}, stream, a + 1, b)
  {
    forall k | a < k < b
      ensures NextOf(next - {stream[a]}, stream[k]) == After(stream, k, b)
    {
      assert stream[k] != stream[a];
      assert NextOf(next, stream[k]) == After(stream, k, b);
    }
  }

  lemma CutRing(s: State, at: nat)
    requires Inv(s) && at < s.lastEnd
    ensures RingChains(s.next - {s.stream[at]}, s.stream, s.start, s.consTail, s.prodTail)
  {
    hide Content, LastIsEnd, Front, LetsIn, Clean, AppFacts, StackFacts, Pointers, Given, Lengths;
    forall i | s.consTail <= i < s.prodTail
      ensures Seg(s.next - {s.stream[at]}, s.stream, s.start[i], s.start[i + 1])
    {
      assert s.start[s.consTail] <= s.start[i];
      CutSeg(s.next, s.stream, s.start[i], s.start[i + 1], at);
    }
  }

  lemma CutApp(s: State, p: Id)
    requires Inv(s) && p in s.stream
    ensures AppFacts(s.apc, s.ring, s.stream, s.prodTail, s.prodHead, s.appLock, s.closed, s.next - {p}, s.data, s.len, s.used)
    ensures Clean(s.next - {p}, s.last, s.closed, s.used, s.ring, s.prodTail, s.apc)
  {
    hide RingChains, Content, Lengths, LastIsEnd, Front, Order, Given, Names, Filled, Pointers, LetsIn, StackFacts;
    if s.apc.DirectFilled? {
      assert p !in s.apc.ids;
      CutOther(s.next, s.apc.ids, 0, |s.apc.ids|, p);
      hide Seg;
    }
  }

  /** The three ways a buffer is returned: `rest` is what send_lastdata becomes. */
  lemma ReturnKeepsInv(s: State, p: Id, t: State)
    requires Inv(s) && !s.spc.StackIdle? && s.done < s.lastEnd && p == s.stream[s.done] && s.stackLock == Null
    requires s.prodTail > 0 && p == s.ring[s.prodTail - 1] ==> p in s.closed
    requires s.done == s.preEnd || s.preEnd == s.done + 1 || s.preEnd == s.lastEnd
    requires s.consTail > 0 ==> s.start[s.consTail - 1] <= s.done
    requires t == Return(s.(preDel := To(p), lastData := if s.done + 1 < s.lastEnd then To(s.stream[s.done + 1]) else Null), p)
    ensures Inv(t)
  {
    assert s.stream[s.done] in s.stream;
    ReturnGiven(s, p);
    CutRing(s, s.done);
    CutApp(s, p);
    CutPre(s, p);
    ReturnOrder(s, p);
    hide Content, Lengths, LastIsEnd, Given, Clean, AppFacts, Names, RingChains, Seg, LetsIn, Order, Front;
  }

  lemma ReturnOrder(s: State, p: Id)
    requires Inv(s) && s.done < s.lastEnd && p == s.stream[s.done]
    requires s.prodTail > 0 && p == s.ring[s.prodTail - 1] ==> p in s.closed
    requires s.consTail > 0 ==> s.start[s.consTail - 1] <= s.done
    ensures Order(s.cap, s.ring, s.consTail, s.prodTail, s.prodHead, s.start, s.stream, s.done, s.done + 1, s.lastEnd)
    ensures LetsIn(s.ring, s.start, s.consTail, s.prodTail, s.closed, s.done, s.done + 1, |s.stream|)
    ensures Front(s.start, s.consTail, s.done, s.done + 1)
  {
    hide Content, Lengths, LastIsEnd, Given, Clean, AppFacts, RingChains, Seg, Distinct, StackFacts, Pointers;
  }

  lemma CutPre(s: State, p: Id)
    requires Inv(s) && s.done < s.lastEnd && p == s.stream[s.done]
    requires s.done == s.preEnd || s.preEnd == s.done + 1 || s.preEnd == s.lastEnd
    ensures Seg(s.next - {p}, s.stream, s.done, s.done + 1)
    ensures Seg(s.next - {p}, s.stream, s.done + 1, s.lastEnd)
    ensures s.done + 1 < s.lastEnd && s.done == s.preEnd ==> NextOf(s.next, p) == To(s.stream[s.done + 1])
    ensures s.done + 1 < s.lastEnd && s.preEnd == s.lastEnd ==> NextOf(s.next, p) == To(s.stream[s.done + 1])
    ensures s.done + 1 == s.lastEnd || s.preEnd == s.done + 1 ==> NextOf(s.next, p) == Null
  {
    hide RingChains, Content, Lengths, LastIsEnd, Front, Given, Clean, AppFacts, LetsIn, StackFacts;
    if s.done == s.preEnd {
      CutHead(s.next, s.stream, s.done, s.lastEnd);
      HeadLink(s.next, s.stream, s.done, s.lastEnd);
    } else if s.preEnd == s.done + 1 {
      CutHead(s.next, s.stream, s.done, s.preEnd);
      HeadLink(s.next, s.stream, s.done, s.preEnd);
      CutSeg(s.next, s.stream, s.preEnd, s.lastEnd, s.done);
    } else {
      CutHead(s.next, s.stream, s.done, s.preEnd);
      HeadLink(s.next, s.stream, s.done, s.preEnd);
    }
  }

  lemma PreMoveKeepsInv(s: State, p: Id)
    requires Inv(s) && s.spc.PreMove? && s.preDel == To(p)
    ensures Inv(Return(if p in s.next then s.(lastData := NextOf(s.next, p)) else s, p))
  {
    PreDelIsFront(s);
    CutPre(s, p);
    ReturnReady(s);
    ReturnKeepsInv(s, p, Return(if p in s.next then s.(lastData := NextOf(s.next, p)) else s, p));
  }

  lemma RingMoveKeepsInv(s: State, p: Id)
    requires Inv(s) && s.spc.RingMove? && s.preDel == To(p)
    ensures Inv(Return(s.(lastData := NextOf(s.next, p)), p))
  {
    PreDelIsFront(s);
    CutPre(s, p);
    ReturnReady(s);
    ReturnKeepsInv(s, p, Return(s.(lastData := NextOf(s.next, p)), p));
  }

  lemma TakeLastKeepsInv(s: State, p: Id)
    requires Inv(s) && s.spc.TakeLast? && s.lastData == To(p)
    ensures Inv(Return(s.(preDel := To(p), lastData := NextOf(s.next, p)), p))
  {
    ReturnReady(s);
    CutPre(s, p);
    ReturnKeepsInv(s, p, Return(s.(preDel := To(p), lastData := NextOf(s.next, p)), p));
  }

  /** Before a buffer is returned it is the first unconfirmed one, and closed if it is the last in the ring. */
  lemma ReturnReady(s: State)
    requires Inv(s) && (s.spc.PreMove? || s.spc.RingMove? || s.spc.TakeLast?)
    ensures s.done < s.lastEnd <= |s.stream| && s.stackLock == Null
    ensures s.prodTail <= |s.ring| && |s.start| == s.prodTail + 1 && s.consTail <= s.prodTail
    ensures s.prodTail > 0 && s.stream[s.done] == s.ring[s.prodTail - 1] ==> s.stream[s.done] in s.closed
    ensures s.done == s.preEnd || s.preEnd == s.done + 1 || s.preEnd == s.lastEnd
    ensures s.consTail > 0 ==> s.start[s.consTail - 1] <= s.done
    ensures s.spc.TakeLast? ==> s.lastData == To(s.stream[s.done]) && s.preEnd == s.done
  {
    hide Seg, RingChains, Content, Lengths, LastIsEnd, Given, Clean, AppFacts, LetsIn;
    if s.prodTail > 0 && s.stream[s.done] == s.ring[s.prodTail - 1] {
      LastHead(s);
    }
  }

  /** If the first unconfirmed buffer is the last in the ring, it begins the last chain. */
  lemma LastHead(s: State)
    requires Inv(s) && s.prodTail > 0 && s.done < |s.stream| && s.stream[s.done] == s.ring[s.prodTail - 1]
    ensures s.start[s.prodTail - 1] == s.done
  {
    hide Seg, RingChains, Content, Lengths, LastIsEnd, Given, Clean, AppFacts, LetsIn, Front, StackFacts, Pointers;
    var k := s.start[s.prodTail - 1];
    assert k < s.start[s.prodTail];
    assert s.stream[k] == s.ring[s.prodTail - 1];
  }

  lemma StackKnows(s: State)
    requires Inv(s)
    ensures StackFacts(s) && Pointers(s.stream, s.done, s.preEnd, s.lastEnd, s.preDel, s.lastData)
    ensures s.consTail <= s.prodTail && |s.start| == s.prodTail + 1 && s.prodTail <= |s.ring|
  {
    hide Seg, RingChains, Content, Lengths, LastIsEnd, Given, Clean, AppFacts, LetsIn, Front;
  }

  lemma StackKeepsInv(s: State)
    requires Inv(s)
    ensures Inv(StepStack(s))
  {
    hide Inv;
    StackKnows(s);
    match s.spc
    case StackIdle =>
    case DeqLoad(r) =>
      StackPcKeepsInv(s, if s.prodTail <= s.consTail then ReturnNull(s) else s.(spc := DeqStore(r)));
    case DeqStore(r) => DeqStoreKeepsInv(s, r);
    case TakeLast(r) =>
      if Len(s, s.lastData.id) > r { StackPcKeepsInv(s, ReturnNull(s)); } else { TakeLastKeepsInv(s, s.lastData.id); }
    case _ => StepPreKeepsInv(s, s.preDel.id);
  }

  lemma StepPreKeepsInv(s: State, p: Id)
    requires Inv(s) && s.preDel == To(p)
    ensures Inv(StepPre(s, p))
  {
    hide Inv;
    StackKnows(s);
    if s.spc.PreLock? || s.spc.PreLocked? || s.spc.PreMove? { RetryKeepsInv(s, p); }
    else if OnRing(s.spc) { RingKeepsInv(s, p); }
  }

  lemma RetryKeepsInv(s: State, p: Id)
    requires Inv(s) && s.preDel == To(p) && StackFacts(s) && (s.spc.PreLock? || s.spc.PreLocked? || s.spc.PreMove?)
    ensures Inv(StepPre(s, p))
  {
    hide Inv, StackFacts;
    match s.spc
    case PreLock(r) => if s.appLock != To(p) { TakeLock(s, s.(stackLock := To(p), spc := PreLocked(r))); }
    case PreLocked(r) => if Len(s, p) > r { TooBig(s); } else { CloseKeepsInv(s, Close(s, p).(spc := PreMove)); }
    case PreMove => PreMoveKeepsInv(s, p);
  }

  lemma RingKeepsInv(s: State, p: Id)
    requires Inv(s) && s.preDel == To(p) && StackFacts(s) && OnRing(s.spc) && s.consTail <= s.prodTail
    ensures Inv(StepPre(s, p))
  {
    hide Inv;
    match s.spc
    case CountOver(r) =>
      if s.prodTail == s.consTail { StackPcKeepsInv(s, s.(spc := RingLock(r))); }
      else { StackPcKeepsInv(s, s.(spc := RingOpen(r))); }
    case RingLock(r) => if s.appLock != To(p) { TakeLock(s, s.(stackLock := To(p), spc := RingLocked(r))); }
    case RingLocked(r) => if Len(s, p) > r { TooBig(s); } else { CloseKeepsInv(s, Close(s, p).(spc := RingMove)); }
    case RingOpen(r) =>
      if Len(s, p) > r { StackPcKeepsInv(s, ReturnNull(s)); } else { StackPcKeepsInv(s, s.(spc := RingMove)); }
    case RingMove => RingMoveKeepsInv(s, p);
  }

  lemma WriteOverKeepsInv(s: State)
    requires Inv(s) && s.spc.StackIdle? && s.inHand && s.preDel.To?
    ensures Inv(DoWriteOver(s))
  {
    PreDelIsFront(s);
    ConfirmOrder(s);
    ConfirmContent(s);
    hide Names, RingChains, Lengths, Clean, LastIsEnd, AppFacts, LetsIn, Front, Order, Content, Given, Seg;
  }

  lemma ConfirmContent(s: State)
    requires Inv(s) && s.done < |s.stream|
    ensures Content(s.data, s.stream, s.done + 1, s.accepted, s.confirmed + Data(s, s.stream[s.done]))
    ensures Given(s.given, s.data, s.next, s.closed, s.stream, s.ring, s.done + 1, s.prodTail)
  {
    hide Names, RingChains, Lengths, Clean, LastIsEnd, AppFacts, LetsIn, Front, Order, Seg, StackFacts, Pointers;
    assert s.stream[..s.done + 1][..s.done] == s.stream[..s.done];
  }

  lemma ConfirmOrder(s: State)
    requires Inv(s) && s.inHand && s.done < s.preEnd <= s.lastEnd <= |s.stream|
    ensures Order(s.cap, s.ring, s.consTail, s.prodTail, s.prodHead, s.start, s.stream, s.done + 1, s.preEnd, s.lastEnd)
    ensures LetsIn(s.ring, s.start, s.consTail, s.prodTail, s.closed, s.done + 1, s.preEnd, |s.stream|)
    ensures Front(s.start, s.consTail, s.done + 1, s.preEnd)
    ensures Seg(s.next, s.stream, s.done + 1, s.preEnd)
  {
    hide Content, Lengths, LastIsEnd, Clean, AppFacts, RingChains, Distinct, Pointers;
  }

  lemma ReplenishKeepsInv(s: State, ids: seq<Id>)
    requires Inv(s) && s.spc.StackIdle? && Fresh(s, ids) && |s.ring| + |ids| <= s.consTail + s.cap
    ensures Inv(DoReplenish(s, ids))
  {
    var ring, used := s.ring + ids, s.used + (set i | i in ids);
    GrowNames(s, ids);
    GrowRing(s, ids);
    GrowApp(s, ids);
    hide Names, RingChains, Lengths, Clean, LastIsEnd, AppFacts, LetsIn, Front, Content, Given, Seg, Fresh;
  }

  lemma GrowNames(s: State, ids: seq<Id>)
    requires Inv(s) && Fresh(s, ids)
    ensures Names(s.ring + ids, s.stream, s.start, s.prodTail, s.used + (set i | i in ids))
  {
    hide Content, Lengths, LastIsEnd, Clean, AppFacts, RingChains, Pointers, Given, Seg, StackFacts, LetsIn, Front;
    forall i | s.prodTail <= i < |s.ring + ids| ensures (s.ring + ids)[i] !in s.stream {
      if i >= |s.ring| { assert ids[i - |s.ring|] !in s.used; }
    }
    forall i, j | 0 <= i < j < |s.ring + ids| ensures (s.ring + ids)[i] != (s.ring + ids)[j] {
      if i < |s.ring| <= j { assert ids[j - |s.ring|] !in s.used; }
    }
  }

  lemma GrowRing(s: State, ids: seq<Id>)
    requires Inv(s) && Fresh(s, ids)
    ensures Given(s.given, s.data, s.next, s.closed, s.stream, s.ring + ids, s.done, s.prodTail)
    ensures LetsIn(s.ring + ids, s.start, s.consTail, s.prodTail, s.closed, s.done, s.preEnd, |s.stream|)
    ensures LastIsEnd(s.last, s.ring + ids, s.stream, s.prodTail, s.apc)
    ensures Clean(s.next, s.last, s.closed, s.used + (set i | i in ids), s.ring + ids, s.prodTail, s.apc)
  {
    hide Content, Lengths, AppFacts, RingChains, Pointers, Seg, StackFacts, Front, Distinct;
    forall i | |s.ring| <= i < |s.ring + ids|
      ensures (s.ring + ids)[i] !in s.closed && (s.ring + ids)[i] !in s.last && (s.ring + ids)[i] !in s.next
    {
      assert ids[i - |s.ring|] !in s.used;
    }
  }

  lemma GrowApp(s: State, ids: seq<Id>)
    requires Inv(s) && Fresh(s, ids)
    ensures AppFacts(s.apc, s.ring + ids, s.stream, s.prodTail, s.prodHead, s.appLock, s.closed, s.next, s.data, s.len,
                     s.used + (set i | i in ids))
  {
    hide Content, Lengths, LastIsEnd, Clean, RingChains, Pointers, Given, Seg, StackFacts, LetsIn, Front, Distinct, Filled;
    if s.apc.BuffFilled? {
      assert (s.ring + ids)[s.prodTail..s.prodHead] == s.ring[s.prodTail..s.prodHead];
    }
    if s.apc.DirectFilled? {
      var own := s.apc.ids;
      forall j | 0 < j < |own| ensures own[j] !in s.ring + ids {
        assert forall k :: 0 <= k < |ids| ==> ids[k] != own[j];
      }
    }
  }

  // ----- bytes of lists of buffers -----

  lemma {:induction false} BytesFrame(d: map<Id, seq<Byte>>, e: map<Id, seq<Byte>>, ids: seq<Id>)
    requires forall k :: 0 <= k < |ids| ==> (ids[k] in d <==> ids[k] in e) && (ids[k] in d ==> d[ids[k]] == e[ids[k]])
    ensures Bytes(d, ids) == Bytes(e, ids)
  {
    if ids != [] { BytesFrame(d, e, ids[..|ids| - 1]); }
  }

  lemma {:induction false} BytesConcat(d: map<Id, seq<Byte>>, a: seq<Id>, b: seq<Id>)
    ensures Bytes(d, a + b) == Bytes(d, a) + Bytes(d, b)
  {
    if b == [] {
      assert a + b == a;
    } else {
      BytesConcat(d, a, b[..|b| - 1]);
      assert (a + b)[..|a + b| - 1] == a + b[..|b| - 1];
    }
  }

  lemma {:induction false} BytesFilled(d: map<Id, seq<Byte>>, len: map<Id, nat>, ids: seq<Id>, payloads: seq<seq<Byte>>)
    requires Filled(d, len, ids, payloads)
    ensures Bytes(d, ids) == Flat(payloads)
  {
    if ids != [] { BytesFilled(d, len, ids[..|ids| - 1], payloads[..|ids| - 1]); }
  }

  lemma {:induction false} SetDataFills(d: map<Id, seq<Byte>>, ids: seq<Id>, payloads: seq<seq<Byte>>)
    requires |ids| == |payloads| && Distinct(ids)
    ensures forall j :: 0 <= j < |ids| ==> ids[j] in SetData(d, ids, payloads) && SetData(d, ids, payloads)[ids[j]] == payloads[j]
    ensures forall p :: p !in ids ==> (p in SetData(d, ids, payloads) <==> p in d)
                                      && (p in d ==> SetData(d, ids, payloads)[p] == d[p])
  {
    if ids != [] {
      var n := |ids| - 1;
      SetDataFills(d, ids[..n], payloads[..n]);
      assert forall p :: p in ids[..n] ==> p in ids;
    }
  }

  lemma {:induction false} SetLenFills(len: map<Id, nat>, ids: seq<Id>, payloads: seq<seq<Byte>>)
    requires |ids| == |payloads| && Distinct(ids)
    ensures forall j :: 0 <= j < |ids| ==> ids[j] in SetLen(len, ids, payloads) && SetLen(len, ids, payloads)[ids[j]] == |payloads[j]|
    ensures forall p :: p !in ids ==> (p in SetLen(len, ids, payloads) <==> p in len)
                                      && (p in len ==> SetLen(len, ids, payloads)[p] == len[p])
  {
    if ids != [] {
      var n := |ids| - 1;
      SetLenFills(len, ids[..n], payloads[..n]);
      assert forall p :: p in ids[..n] ==> p in ids;
    }
  }

  lemma SetFills(d: map<Id, seq<Byte>>, len: map<Id, nat>, ids: seq<Id>, payloads: seq<seq<Byte>>)
    requires |ids| == |payloads| && Distinct(ids)
    ensures Filled(SetData(d, ids, payloads), SetLen(len, ids, payloads), ids, payloads)
    ensures forall p :: p !in ids ==> (p in SetData(d, ids, payloads) <==> p in d)
                                      && (p in d ==> SetData(d, ids, payloads)[p] == d[p])
    ensures forall p :: p !in ids ==> (p in SetLen(len, ids, payloads) <==> p in len)
                                      && (p in len ==> SetLen(len, ids, payloads)[p] == len[p])
  {
    hide SetData, SetLen;
    SetDataFills(d, ids, payloads);
    SetLenFills(len, ids, payloads);
  }

  lemma {:induction false} LinkChains(next: map<Id, Id>, ids: seq<Id>)
    requires Distinct(ids) && forall k :: 0 <= k < |ids| ==> ids[k] !in next
    ensures Seg(Link(next, ids), ids, 0, |ids|)
    ensures forall p :: p !in ids ==> NextOf(Link(next, ids), p) == NextOf(next, p)
    ensures Link(next, ids).Keys <= next.Keys + set i | i in ids
  {
    if |ids| > 1 {
      var n := |ids| - 1;
      var init := ids[..n];
      LinkChains(next, init);
      var t := Link(next, ids);
      forall k | 0 <= k <= n ensures NextOf(t, ids[k]) == After(ids, k, |ids|) {
        if k < n - 1 {
          assert NextOf(Link(next, init), init[k]) == After(init, k, n);
        } else if k == n {
          assert ids[n] !in init;
        }
      }
    }
  }
}
