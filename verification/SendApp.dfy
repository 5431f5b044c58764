/** The application's steps keep the invariant, and what follows for every run. */
module SendPathProof {
  import opened SendPath
  import opened SendInvariant

  // ----- steps that only move the application on, or take and drop the lock -----

  predicate Plain(a: AppPc) {
    a.AppIdle? || a.LastLoaded? || a.LastLocked? || a.LastAllowed? || a.Holding?
  }

  lemma PlainKeepsInv(s: State, t: State)
    requires Inv(s) && t == s.(apc := t.apc, appLock := t.appLock) && Plain(s.apc) && Plain(t.apc)
    requires AppFacts(t.apc, t.ring, t.stream, t.prodTail, t.prodHead, t.appLock, t.closed, t.next, t.data, t.len, t.used)
    requires t.appLock.Null? || t.appLock != t.stackLock
    ensures Inv(t)
  {
    PlainViews(s, t);
    hide Seg, Names, RingChains, Content, Lengths, Given, Clean, LastIsEnd, AppFacts, LetsIn, Front, Pointers, Order;
  }

  lemma PlainViews(s: State, t: State)
    requires Inv(s) && t == s.(apc := t.apc, appLock := t.appLock) && Plain(s.apc) && Plain(t.apc)
    ensures Lengths(t.data, t.len, t.stream, t.apc)
    ensures Clean(t.next, t.last, t.closed, t.used, t.ring, t.prodTail, t.apc)
    ensures LastIsEnd(t.last, t.ring, t.stream, t.prodTail, t.apc)
  {
    hide Seg, Names, RingChains, Content, Given, AppFacts, LetsIn, Front, Pointers, Order, StackFacts;
  }

  lemma AppKnows(s: State)
    requires Inv(s)
    ensures AppFacts(s.apc, s.ring, s.stream, s.prodTail, s.prodHead, s.appLock, s.closed, s.next, s.data, s.len, s.used)
    ensures s.consTail <= s.prodTail <= s.prodHead <= |s.ring| && |s.start| == s.prodTail + 1
    ensures s.stackLock == (if s.spc.PreLocked? || s.spc.RingLocked? then s.preDel else Null)
    ensures s.appLock.Null? || s.stackLock != s.appLock
  {
    hide Seg, Names, RingChains, Content, Lengths, Given, Clean, LastIsEnd, LetsIn, Front, Pointers;
  }

  // ----- the last released buffer while it lets data in -----

  /** Its chain is the end of the stream, none of it is confirmed, and nobody was given it. */
  lemma LastChain(s: State, p: Id)
    requires Inv(s) && s.prodTail > 0 && p == s.ring[s.prodTail - 1] && p !in s.closed
    ensures |s.start| == s.prodTail + 1 && s.start[s.prodTail - 1] < |s.stream|
    ensures s.stream[s.start[s.prodTail - 1]] == p
    ensures Seg(s.next, s.stream, s.start[s.prodTail - 1], |s.stream|)
    ensures s.done <= s.start[s.prodTail - 1]
    ensures s.consTail < s.prodTail ==> s.lastEnd <= s.start[s.prodTail - 1]
    ensures s.consTail == s.prodTail ==> s.start[s.prodTail - 1] == s.done && s.preEnd == |s.stream| == s.lastEnd
  {
    hide Content, Lengths, Given, Clean, LastIsEnd, Front, Pointers, AppFacts, StackFacts;
    if s.consTail < s.prodTail {
      assert s.start[s.consTail] <= s.start[s.prodTail - 1];
      assert Seg(s.next, s.stream, s.start[s.prodTail - 1], s.start[s.prodTail - 1 + 1]);
    }
  }

  lemma LastNotGiven(s: State, p: Id)
    requires Inv(s) && s.prodTail > 0 && p == s.ring[s.prodTail - 1] && p !in s.closed
    ensures p !in s.given && s.stream != [] && s.stream[|s.stream| - 1] !in s.given
    ensures !(s.inHand && s.consTail == s.prodTail)
  {
    LastChain(s, p);
    hide Content, Lengths, Clean, LastIsEnd, Front, Pointers, AppFacts, Seg, RingChains, LetsIn, Order;
  }

  lemma MergeLenKeepsInv(s: State, p: Id, bytes: seq<Byte>, k: nat)
    requires Inv(s) && s.apc == LastAllowed(p, Merge(bytes)) && p !in s.next && k <= |bytes|
    ensures Inv(s.(len := s.len[p := Len(s, p) + k], apc := MergeCopy(p, bytes[..k])))
  {
    var t := s.(len := s.len[p := Len(s, p) + k], apc := MergeCopy(p, bytes[..k]));
    AppKnows(s);
    LastChain(s, p);
    HeadLink(s.next, s.stream, s.start[s.prodTail - 1], |s.stream|);
    MergeLenViews(s, t);
    hide Seg, Names, RingChains, Content, Lengths, Given, Clean, LastIsEnd, LetsIn, Front, Pointers, Order;
  }

  lemma MergeLenViews(s: State, t: State)
    requires Inv(s) && s.apc.LastAllowed? && t.apc.MergeCopy? && t.apc.p == s.apc.p
    requires t == s.(len := s.len[s.apc.p := Len(s, s.apc.p) + |t.apc.chunk|], apc := t.apc)
    ensures Lengths(t.data, t.len, t.stream, t.apc)
    ensures Clean(t.next, t.last, t.closed, t.used, t.ring, t.prodTail, t.apc)
    ensures LastIsEnd(t.last, t.ring, t.stream, t.prodTail, t.apc)
  {
    hide Seg, Names, RingChains, Content, Given, AppFacts, LetsIn, Front, Pointers, Order, StackFacts;
  }

  lemma MergeCopyKeepsInv(s: State, p: Id, chunk: seq<Byte>)
    requires Inv(s) && s.apc == MergeCopy(p, chunk)
    ensures Inv(StepApp(s))
  {
    var t := StepApp(s);
    AppKnows(s);
    LastChain(s, p);
    LastNotGiven(s, p);
    MergeCopyContent(s, t, p, chunk);
    MergeCopyViews(s, t);
    hide Seg, Names, RingChains, Content, Lengths, Given, Clean, LastIsEnd, LetsIn, Front, Pointers, Order;
  }

  lemma MergeCopyContent(s: State, t: State, p: Id, chunk: seq<Byte>)
    requires Inv(s) && s.apc == MergeCopy(p, chunk)
    requires t == s.(data := s.data[p := Data(s, p) + chunk], accepted := s.accepted + chunk, apc := Holding(p))
    requires s.stream != [] && p == s.stream[|s.stream| - 1] && s.done < |s.stream| && p !in s.given
    ensures Content(t.data, t.stream, t.done, t.accepted, t.confirmed)
    ensures Given(t.given, t.data, t.next, t.closed, t.stream, t.ring, t.done, t.prodTail)
  {
    hide Seg, RingChains, Lengths, Clean, LastIsEnd, AppFacts, LetsIn, Front, Pointers, Order, StackFacts, Content, Bytes;
    MergedContent(s.data, s.stream, s.done, s.accepted, s.confirmed, Data(s, p), chunk);
    hide Names;
  }

  /** Bytes are appended to the last buffer of the stream, which is not confirmed. */
  lemma MergedContent(data: map<Id, seq<Byte>>, stream: seq<Id>, done: nat, accepted: seq<Byte>, confirmed: seq<Byte>,
                      was: seq<Byte>, chunk: seq<Byte>)
    requires Content(data, stream, done, accepted, confirmed) && Distinct(stream) && done < |stream|
    requires var p := stream[|stream| - 1]; was == if p in data then data[p] else []
    ensures Content(data[stream[|stream| - 1] := was + chunk], stream, done, accepted + chunk, confirmed)
  {
    var n := |stream| - 1;
    assert Bytes(data, stream) == Bytes(data, stream[..n]) + was;
    hide Bytes, Distinct;
    BytesOfLast(data, stream, was + chunk, done);
    Associative(Bytes(data, stream[..n]), was, chunk);
  }

  lemma Associative(a: seq<Byte>, b: seq<Byte>, c: seq<Byte>)
    ensures a + (b + c) == a + b + c
  {
  }

  /** Changing the last buffer of a list changes the end of its bytes only. */
  lemma BytesOfLast(data: map<Id, seq<Byte>>, ids: seq<Id>, bytes: seq<Byte>, k: nat)
    requires Distinct(ids) && k < |ids|
    ensures var n := |ids| - 1;
            && Bytes(data[ids[n] := bytes], ids) == Bytes(data, ids[..n]) + bytes
            && Bytes(data[ids[n] := bytes], ids[..k]) == Bytes(data, ids[..k])
  {
    var n := |ids| - 1;
    BytesFrame(data, data[ids[n] := bytes], ids[..n]);
    BytesFrame(data, data[ids[n] := bytes], ids[..k]);
  }

  lemma MergeCopyViews(s: State, t: State)
    requires Inv(s) && s.apc.MergeCopy? && t == StepApp(s)
    ensures Lengths(t.data, t.len, t.stream, t.apc)
    ensures Clean(t.next, t.last, t.closed, t.used, t.ring, t.prodTail, t.apc)
    ensures LastIsEnd(t.last, t.ring, t.stream, t.prodTail, t.apc)
    ensures AppFacts(t.apc, t.ring, t.stream, t.prodTail, t.prodHead, t.appLock, t.closed, t.next, t.data, t.len, t.used)
  {
    hide Seg, Names, RingChains, Content, Given, LetsIn, Front, Pointers, Order, StackFacts;
  }

  /** Moving `last` of the last ring buffer to the end of the stream. */
  lemma MoveLastKeepsInv(s: State)
    requires Inv(s) && (s.apc.AttachLast? || s.apc.DirectLast?)
    ensures Inv(StepApp(s))
  {
    var t := StepApp(s);
    MoveLastViews(s, t);
    MoveLastStep(s);
    hide Seg, Names, RingChains, Content, Lengths, Given, Clean, LastIsEnd, AppFacts, LetsIn, Front, Pointers, Order, StepApp;
  }

  lemma MoveLastStep(s: State)
    requires s.apc.AttachLast? || s.apc.DirectLast?
    ensures StepApp(s) == s.(last := s.last[s.apc.p := s.apc.lastId], apc := if s.apc.AttachLast? then Holding(s.apc.p) else AppIdle)
  {
  }

  lemma MoveLastViews(s: State, t: State)
    requires Inv(s) && (s.apc.AttachLast? || s.apc.DirectLast?) && t == StepApp(s)
    ensures Lengths(t.data, t.len, t.stream, t.apc)
    ensures Clean(t.next, t.last, t.closed, t.used, t.ring, t.prodTail, t.apc)
    ensures LastIsEnd(t.last, t.ring, t.stream, t.prodTail, t.apc)
    ensures AppFacts(t.apc, t.ring, t.stream, t.prodTail, t.prodHead, t.appLock, t.closed, t.next, t.data, t.len, t.used)
    ensures t.prodTail > 0
  {
    hide Seg, RingChains, Content, Given, LetsIn, Front, Pointers, StackFacts, Names;
    LastIsNotIdle(s);
  }

  lemma LastIsNotIdle(s: State)
    requires Inv(s)
    ensures s.prodTail <= |s.ring| && (s.prodTail > 0 ==> s.ring[s.prodTail - 1] in s.used)
    ensures forall i :: s.prodTail <= i < |s.ring| && s.prodTail > 0 ==> s.ring[i] != s.ring[s.prodTail - 1]
  {
    hide Seg, RingChains, Content, Given, LetsIn, Front, Pointers, StackFacts, Lengths, Clean, LastIsEnd, AppFacts, Order;
  }

  // ----- attaching a chain behind the last released buffer -----

  /** A chain that does not contain the buffer whose link is set. */
  lemma SetOther(next: map<Id, Id>, t: map<Id, Id>, stream: seq<Id>, ids: seq<Id>, a: nat, b: nat)
    requires Seg(next, stream, a, b)
    requires forall k :: a <= k < b ==> NextOf(t, stream[k]) == NextOf(next, stream[k])
    ensures Seg(t, stream + ids, a, b)
  {
    forall k | a <= k < b ensures NextOf(t, (stream + ids)[k]) == After(stream + ids, k, b) {
      assert NextOf(next, stream[k]) == After(stream, k, b);
    }
  }

  /** The links after an attach: the new chain hangs behind the old end of the stream. */
  ghost predicate Attached(next: map<Id, Id>, t: map<Id, Id>, stream: seq<Id>, ids: seq<Id>) {
    && stream != [] && ids != []
    && NextOf(t, stream[|stream| - 1]) == To(ids[0])
    && (forall k :: 0 <= k < |stream| - 1 ==> NextOf(t, stream[k]) == NextOf(next, stream[k]))
    && Seg(t, ids, 0, |ids|)
  }

  lemma AttachedSeg(next: map<Id, Id>, t: map<Id, Id>, stream: seq<Id>, ids: seq<Id>, a: nat)
    requires Attached(next, t, stream, ids) && Seg(next, stream, a, |stream|) && a < |stream|
    ensures Seg(t, stream + ids, a, |stream| + |ids|)
  {
    var all, n := stream + ids, |stream| + |ids|;
    forall k | a <= k < n ensures NextOf(t, all[k]) == After(all, k, n) {
      if k < |stream| - 1 {
        assert NextOf(next, stream[k]) == After(stream, k, |stream|);
      } else if k >= |stream| {
        assert NextOf(t, ids[k - |stream|]) == After(ids, k - |stream|, |ids|);
      }
    }
  }

  lemma AttachLinks(s: State, ids: seq<Id>, e: Id)
    requires Inv(s) && Fresh(s, ids) && ids != [] && s.stream != [] && e == s.stream[|s.stream| - 1]
    ensures Attached(s.next, Link(s.next, ids)[e := ids[0]], s.stream, ids)
    ensures forall p :: p !in ids && p != e ==> NextOf(Link(s.next, ids)[e := ids[0]], p) == NextOf(s.next, p)
    ensures Link(s.next, ids)[e := ids[0]].Keys <= s.used + set i | i in ids
  {
    hide Content, Lengths, Given, LastIsEnd, Front, Pointers, AppFacts, Seg, RingChains, LetsIn, Order, StackFacts;
    LinkChains(s.next, ids);
    var l := Link(s.next, ids);
    assert forall k :: 0 <= k < |ids| ==> ids[k] != e;
    SegFrame(l, l[e := ids[0]], ids);
    assert forall k :: 0 <= k < |s.stream| ==> s.stream[k] !in ids;
  }

  lemma SegFrame(next: map<Id, Id>, t: map<Id, Id>, ids: seq<Id>)
    requires Seg(next, ids, 0, |ids|)
    requires forall k :: 0 <= k < |ids| ==> NextOf(t, ids[k]) == NextOf(next, ids[k])
    ensures Seg(t, ids, 0, |ids|)
  {
    forall k | 0 <= k < |ids| ensures NextOf(t, ids[k]) == After(ids, k, |ids|) {
      assert NextOf(next, ids[k]) == After(ids, k, |ids|);
    }
  }

  /** Buffers whose bytes were set before they join the stream. */
  lemma AppendContent(s: State, data: map<Id, seq<Byte>>, len: map<Id, nat>, ids: seq<Id>, payloads: seq<seq<Byte>>, apc: AppPc)
    requires Inv(s) && !s.apc.MergeCopy? && !apc.MergeCopy? && Filled(data, len, ids, payloads)
    requires forall k :: 0 <= k < |s.stream| ==> var p := s.stream[k];
               (p in s.data ==> p in data && data[p] == s.data[p]) && (p in s.len ==> p in len && len[p] == s.len[p])
    ensures Content(data, s.stream + ids, s.done, s.accepted + Flat(payloads), s.confirmed)
    ensures Lengths(data, len, s.stream + ids, apc)
  {
    hide Seg, Names, RingChains, Given, Clean, LastIsEnd, AppFacts, LetsIn, Front, Pointers, Order, StackFacts;
    assert Lengths(data, len, s.stream + ids, apc) by { hide Content; }
    AppendBytes(s, data, len, ids, payloads);
    hide Lengths, Filled, Bytes;
  }

  lemma AppendBytes(s: State, data: map<Id, seq<Byte>>, len: map<Id, nat>, ids: seq<Id>, payloads: seq<seq<Byte>>)
    requires Inv(s) && Filled(data, len, ids, payloads) && !s.apc.MergeCopy?
    requires forall k :: 0 <= k < |s.stream| ==> var p := s.stream[k]; p in s.data ==> p in data && data[p] == s.data[p]
    ensures Content(data, s.stream + ids, s.done, s.accepted + Flat(payloads), s.confirmed)
  {
    hide Seg, Names, RingChains, Given, Clean, LastIsEnd, AppFacts, LetsIn, Front, Pointers, Order, StackFacts, Filled, Content;
    assert forall k :: 0 <= k < |s.stream| ==> s.stream[k] in s.data;
    hide Lengths;
    AppendedContent(s.data, data, len, s.stream, ids, payloads, s.done, s.accepted, s.confirmed);
  }

  lemma AppendedContent(was: map<Id, seq<Byte>>, data: map<Id, seq<Byte>>, len: map<Id, nat>, stream: seq<Id>, ids: seq<Id>,
                        payloads: seq<seq<Byte>>, done: nat, accepted: seq<Byte>, confirmed: seq<Byte>)
    requires Content(was, stream, done, accepted, confirmed) && Filled(data, len, ids, payloads)
    requires forall k :: 0 <= k < |stream| ==> stream[k] in was && stream[k] in data && data[stream[k]] == was[stream[k]]
    ensures Content(data, stream + ids, done, accepted + Flat(payloads), confirmed)
  {
    hide Filled, Bytes, Flat;
    BytesFrame(was, data, stream);
    BytesFrame(was, data, stream[..done]);
    BytesConcat(data, stream, ids);
    BytesFilled(data, len, ids, payloads);
    assert (stream + ids)[..done] == stream[..done];
  }

  lemma AttachKeepsInv(s: State, p: Id, ids: seq<Id>, payloads: seq<seq<Byte>>)
    requires Inv(s) && s.apc == LastAllowed(p, Attach(ids, payloads))
    requires Fresh(s, ids) && |ids| == |payloads| > 0
    ensures Inv(DoAttach(s, p, ids, payloads))
  {
    hide Link, SetData, SetLen, Flat, Bytes, Fresh, Attached, Filled, ButLast;
    hide Seg, Names, RingChains, Content, Lengths, Given, Clean, LastIsEnd, LetsIn, Front, Pointers, Order, StackFacts;
    var t := DoAttach(s, p, ids, payloads);
    AppKnows(s);
    LastChain(s, p);
    LastNotGiven(s, p);
    AttachEnd(s, p);
    AttachLinks(s, ids, LastOf(s, p));
    AttachNames(s, ids);
    AttachData(s, t, p, ids, payloads);
    AttachChains(s, t, p, ids);
    AttachOrder(s, t, p, ids);
    AttachViews(s, t, p, ids);
    hide AppFacts;
  }

  lemma AttachEnd(s: State, p: Id)
    requires Inv(s) && s.apc.LastAllowed? && p == s.apc.p
    ensures s.stream != [] && LastOf(s, p) == s.stream[|s.stream| - 1] && s.prodTail > 0
  {
    hide Seg, Names, RingChains, Content, Lengths, Given, Clean, LetsIn, Front, Pointers, Order, StackFacts;
  }

  lemma AttachNames(s: State, ids: seq<Id>)
    requires Inv(s) && Fresh(s, ids) && ids != [] && s.prodTail > 0
    ensures Names(s.ring, s.stream + ids, ButLast(s.start) + [|s.stream| + |ids|], s.prodTail, s.used + (set i | i in ids))
    ensures forall k :: 0 <= k < |s.stream| ==> s.stream[k] !in ids
  {
    hide Seg, RingChains, Content, Lengths, Given, Clean, LastIsEnd, AppFacts, LetsIn, Front, Pointers, Order, StackFacts;
    forall i, j | 0 <= i < j < |s.stream + ids| ensures (s.stream + ids)[i] != (s.stream + ids)[j] {
      if i < |s.stream| <= j { assert ids[j - |s.stream|] !in s.used; }
    }
    forall i | s.prodTail <= i < |s.ring| ensures s.ring[i] !in s.stream + ids {
      assert forall k :: 0 <= k < |ids| ==> ids[k] != s.ring[i];
    }
  }

  lemma AttachData(s: State, t: State, p: Id, ids: seq<Id>, payloads: seq<seq<Byte>>)
    requires Inv(s) && s.apc.LastAllowed? && Fresh(s, ids) && |ids| == |payloads| > 0 && t == DoAttach(s, p, ids, payloads)
    requires forall k :: 0 <= k < |s.stream| ==> s.stream[k] !in ids
    ensures Content(t.data, t.stream, t.done, t.accepted, t.confirmed)
    ensures Lengths(t.data, t.len, t.stream, t.apc)
    ensures forall q :: q in s.data && q !in ids ==> q in t.data && t.data[q] == s.data[q]
  {
    hide Inv;
    SetFills(s.data, s.len, ids, payloads);
    AppendContent(s, t.data, t.len, ids, payloads, t.apc);
  }

  lemma AttachChains(s: State, t: State, p: Id, ids: seq<Id>)
    requires Inv(s) && s.apc.LastAllowed? && p == s.apc.p && p !in s.closed && s.prodTail > 0 && p == s.ring[s.prodTail - 1]
    requires ids != [] && Attached(s.next, t.next, s.stream, ids) && t.stream == s.stream + ids
    requires t.start == ButLast(s.start) + [|t.stream|] && t.consTail == s.consTail && t.prodTail == s.prodTail && t.done == s.done
    requires t.preEnd == (if s.consTail >= s.prodTail then |t.stream| else s.preEnd)
    requires t.lastEnd == (if s.consTail >= s.prodTail then |t.stream| else s.lastEnd)
    ensures Seg(t.next, t.stream, t.done, t.preEnd) && Seg(t.next, t.stream, t.preEnd, t.lastEnd)
    ensures RingChains(t.next, t.stream, t.start, t.consTail, t.prodTail)
  {
    hide *;
    LastChain(s, p);
    ChainsOf(s);
    if s.consTail >= s.prodTail {
      AttachedSeg(s.next, t.next, s.stream, ids, s.done);
      NoSeg(t.next, t.stream);
      AttachedNone(t.next, t.stream, s.start, s.consTail, s.prodTail);
    } else {
      BeforeEnd(s.start, s.consTail, s.prodTail);
      BeforeAttached(s.next, t.next, s.stream, ids, s.done, s.preEnd);
      BeforeAttached(s.next, t.next, s.stream, ids, s.preEnd, s.lastEnd);
      AttachedRings(s.next, t.next, s.stream, ids, s.start, s.consTail, s.prodTail);
    }
  }

  lemma BeforeEnd(start: seq<nat>, consTail: nat, prodTail: nat)
    requires |start| == prodTail + 1 && consTail < prodTail && forall i, j :: 0 <= i < j <= prodTail ==> start[i] < start[j]
    ensures start[consTail] < start[prodTail]
  {
  }

  lemma AttachedNone(next: map<Id, Id>, stream: seq<Id>, start: seq<nat>, consTail: nat, prodTail: nat)
    requires |start| == prodTail + 1 && consTail == prodTail
    ensures RingChains(next, stream, ButLast(start) + [|stream|], consTail, prodTail)
  {
  }

  lemma ChainsOf(s: State)
    requires Inv(s)
    ensures s.consTail <= s.prodTail && |s.start| == s.prodTail + 1 && s.start[s.prodTail] == |s.stream|
    ensures s.done <= s.preEnd <= s.lastEnd == s.start[s.consTail] <= |s.stream|
    ensures forall i, j :: 0 <= i < j <= s.prodTail ==> s.start[i] < s.start[j]
    ensures RingChains(s.next, s.stream, s.start, s.consTail, s.prodTail)
    ensures Seg(s.next, s.stream, s.done, s.preEnd) && Seg(s.next, s.stream, s.preEnd, s.lastEnd)
  {
    hide Content, Lengths, Given, Clean, LastIsEnd, AppFacts, LetsIn, Front, Pointers, StackFacts, Seg, RingChains;
  }

  lemma NoSeg(next: map<Id, Id>, stream: seq<Id>)
    ensures Seg(next, stream, |stream|, |stream|)
  {
  }

  /** A chain that ends before the last buffer of the stream. */
  lemma BeforeAttached(next: map<Id, Id>, t: map<Id, Id>, stream: seq<Id>, ids: seq<Id>, a: nat, b: nat)
    requires Attached(next, t, stream, ids) && Seg(next, stream, a, b) && b < |stream|
    ensures Seg(t, stream + ids, a, b)
  {
    SetOther(next, t, stream, ids, a, b);
    hide Seg;
  }

  lemma AttachedRings(next: map<Id, Id>, t: map<Id, Id>, stream: seq<Id>, ids: seq<Id>, start: seq<nat>, consTail: nat, prodTail: nat)
    requires RingChains(next, stream, start, consTail, prodTail) && Attached(next, t, stream, ids) && consTail < prodTail
    requires |start| == prodTail + 1 && start[prodTail] == |stream|
    requires forall i, j :: 0 <= i < j <= prodTail ==> start[i] < start[j]
    ensures RingChains(t, stream + ids, ButLast(start) + [|stream| + |ids|], consTail, prodTail)
  {
    hide Seg, Attached;
    var after := ButLast(start) + [|stream| + |ids|];
    forall i | consTail <= i < prodTail ensures Seg(t, stream + ids, after[i], after[i + 1]) {
      assert Seg(next, stream, start[i], start[i + 1]);
      if i + 1 < prodTail {
        BeforeAttached(next, t, stream, ids, start[i], start[i + 1]);
      } else {
        AttachedSeg(next, t, stream, ids, start[i]);
      }
    }
  }

  lemma AttachOrder(s: State, t: State, p: Id, ids: seq<Id>)
    requires Inv(s) && s.apc.LastAllowed? && p !in s.closed && s.prodTail > 0 && p == s.ring[s.prodTail - 1]
    requires ids != [] && t.stream == s.stream + ids && !(s.inHand && s.consTail == s.prodTail)
    requires t == s.(data := t.data, len := t.len, next := t.next, used := t.used, apc := t.apc, stream := t.stream,
                     start := ButLast(s.start) + [|t.stream|], accepted := t.accepted,
                     preEnd := if s.consTail >= s.prodTail then |t.stream| else s.preEnd,
                     lastEnd := if s.consTail >= s.prodTail then |t.stream| else s.lastEnd)
    ensures Order(t.cap, t.ring, t.consTail, t.prodTail, t.prodHead, t.start, t.stream, t.done, t.preEnd, t.lastEnd)
    ensures Pointers(t.stream, t.done, t.preEnd, t.lastEnd, t.preDel, t.lastData)
    ensures Front(t.start, t.consTail, t.done, t.preEnd)
    ensures LetsIn(t.ring, t.start, t.consTail, t.prodTail, t.closed, t.done, t.preEnd, |t.stream|)
    ensures StackFacts(t)
  {
    LastChain(s, p);
    hide Content, Lengths, Given, Clean, LastIsEnd, AppFacts, LetsIn, Seg, RingChains, Distinct;
    assert LetsIn(t.ring, t.start, t.consTail, t.prodTail, t.closed, t.done, t.preEnd, |t.stream|);
  }

  lemma AttachViews(s: State, t: State, p: Id, ids: seq<Id>)
    requires Inv(s) && s.apc.LastAllowed? && p == s.apc.p && Fresh(s, ids) && ids != []
    requires s.stream != [] && s.stream[|s.stream| - 1] !in s.given
    requires t.stream == s.stream + ids && t.apc == AttachLast(p, ids[|ids| - 1])
    requires t.used == s.used + (set i | i in ids) && t.next.Keys <= t.used
    requires forall q :: q !in ids && q != s.stream[|s.stream| - 1] ==> NextOf(t.next, q) == NextOf(s.next, q)
    requires t.ring == s.ring && t.prodTail == s.prodTail && t.prodHead == s.prodHead && t.appLock == s.appLock
    requires t.closed == s.closed && t.last == s.last && t.given == s.given && t.done == s.done
    requires forall q :: q in s.data && q !in ids ==> q in t.data && t.data[q] == s.data[q]
    ensures Given(t.given, t.data, t.next, t.closed, t.stream, t.ring, t.done, t.prodTail)
    ensures Clean(t.next, t.last, t.closed, t.used, t.ring, t.prodTail, t.apc)
    ensures LastIsEnd(t.last, t.ring, t.stream, t.prodTail, t.apc)
    ensures AppFacts(t.apc, t.ring, t.stream, t.prodTail, t.prodHead, t.appLock, t.closed, t.next, t.data, t.len, t.used)
  {
    hide Content, Lengths, LetsIn, Front, Pointers, StackFacts, Seg, RingChains, Distinct, Order;
    forall g | g in t.given ensures g in t.data && t.data[g] == t.given[g] && g !in t.next {
      assert g !in ids;
      assert NextOf(t.next, g) == NextOf(s.next, g);
    }
    forall g | g in t.given ensures exists k :: 0 <= k <= t.done && k < |t.stream| && t.stream[k] == g {
      var k :| 0 <= k <= s.done && k < |s.stream| && s.stream[k] == g;
      assert t.stream[k] == g;
    }
  }

  // ----- filling idle ring buffers, and releasing them -----

  /** Setting the bytes of buffers outside the stream. */
  lemma FillOutside(s: State, ids: seq<Id>, payloads: seq<seq<Byte>>, apc: AppPc)
    requires Inv(s) && s.apc == AppIdle && !apc.MergeCopy? && |ids| == |payloads| && Distinct(ids)
    requires forall k :: 0 <= k < |ids| ==> ids[k] !in s.stream
    ensures var data, len := SetData(s.data, ids, payloads), SetLen(s.len, ids, payloads);
            && Content(data, s.stream, s.done, s.accepted, s.confirmed)
            && Lengths(data, len, s.stream, apc)
            && Filled(data, len, ids, payloads)
            && Given(s.given, data, s.next, s.closed, s.stream, s.ring, s.done, s.prodTail)
  {
    hide SetData, SetLen;
    SetFills(s.data, s.len, ids, payloads);
    var data, len := SetData(s.data, ids, payloads), SetLen(s.len, ids, payloads);
    assert forall k :: 0 <= k < |s.stream| ==> s.stream[k] in s.stream && s.stream[k] !in ids;
    SameContent(s, data);
    SameLengths(s, data, len, apc);
    hide *;
  }

  lemma SameContent(s: State, data: map<Id, seq<Byte>>)
    requires Inv(s)
    requires forall k {:trigger s.stream[k]} :: 0 <= k < |s.stream| ==>
               (s.stream[k] in data <==> s.stream[k] in s.data)
               && (s.stream[k] in s.data ==> data[s.stream[k]] == s.data[s.stream[k]])
    ensures Content(data, s.stream, s.done, s.accepted, s.confirmed)
    ensures Given(s.given, data, s.next, s.closed, s.stream, s.ring, s.done, s.prodTail)
  {
    hide Seg, Names, RingChains, Clean, LastIsEnd, AppFacts, LetsIn, Front, Pointers, Order, StackFacts, Lengths;
    BytesFrame(s.data, data, s.stream);
    BytesFrame(s.data, data, s.stream[..s.done]);
    hide Bytes;
  }

  lemma SameLengths(s: State, data: map<Id, seq<Byte>>, len: map<Id, nat>, apc: AppPc)
    requires Inv(s) && !s.apc.MergeCopy? && !apc.MergeCopy?
    requires forall k {:trigger s.stream[k]} :: 0 <= k < |s.stream| ==>
               var p := s.stream[k];
               && (p in s.data ==> p in data && data[p] == s.data[p])
               && (p in s.len ==> p in len && len[p] == s.len[p])
    ensures Lengths(data, len, s.stream, apc)
  {
    hide Seg, Names, RingChains, Clean, LastIsEnd, AppFacts, LetsIn, Front, Pointers, Order, StackFacts, Content, Given;
  }

  lemma IdleSlice(s: State, h: nat)
    requires Inv(s) && s.prodTail <= h <= |s.ring|
    ensures Distinct(s.ring[s.prodTail..h])
    ensures forall k :: 0 <= k < h - s.prodTail ==>
              var p := s.ring[s.prodTail..h][k];
              p !in s.stream && p in s.used && p !in s.closed && p !in s.last && p == s.ring[s.prodTail + k]
  {
    hide Seg, RingChains, Content, Lengths, Given, LastIsEnd, AppFacts, LetsIn, Front, Pointers, Order, StackFacts;
  }

  lemma BuffFillKeepsInv(s: State, payloads: seq<seq<Byte>>)
    requires Inv(s) && s.apc == AppIdle && Payloads(payloads) && s.prodHead + |payloads| <= |s.ring|
    ensures Inv(DoBuffFill(s, payloads))
  {
    hide SetData, SetLen, Flat, Bytes, Filled;
    hide Seg, Names, RingChains, Content, Lengths, Given, LetsIn, Front, Pointers;
    var h := s.prodHead + |payloads|;
    IdleSlice(s, h);
    FillOutside(s, s.ring[s.prodTail..h], payloads, BuffFilled(payloads));
  }

  lemma DirectFillKeepsInv(s: State, ids: seq<Id>, payloads: seq<seq<Byte>>)
    requires Inv(s) && s.apc == AppIdle && Payloads(payloads) && s.prodHead < |s.ring| && Fresh(s, ids)
    requires ids != [] && |ids| + 1 == |payloads|
    ensures Inv(DoDirectFill(s, ids, payloads))
  {
    hide SetData, SetLen, Flat, Bytes, Filled, Link, Fresh;
    hide Seg, Names, RingChains, Content, Lengths, Given, LetsIn, Front, Pointers, Order, LastIsEnd, Clean;
    var all := [s.ring[s.prodHead]] + ids;
    DirectNames(s, ids, all);
    FillOutside(s, all, payloads, DirectFilled(all, payloads));
    DirectLinks(s, ids, all);
    DirectViews(s, ids, all, payloads);
  }

  lemma DirectNames(s: State, ids: seq<Id>, all: seq<Id>)
    requires Inv(s) && s.apc == AppIdle && s.prodHead < |s.ring| && Fresh(s, ids) && all == [s.ring[s.prodHead]] + ids
    ensures s.prodHead == s.prodTail && Distinct(all)
    ensures forall k :: 0 <= k < |all| ==> all[k] !in s.stream && all[k] !in s.next && all[k] in s.used + (set i | i in ids)
    ensures forall k :: 0 < k < |all| ==> all[k] !in s.ring
    ensures Names(s.ring, s.stream, s.start, s.prodTail, s.used + (set i | i in ids))
    ensures Order(s.cap, s.ring, s.consTail, s.prodTail, s.prodHead + 1, s.start, s.stream, s.done, s.preEnd, s.lastEnd)
  {
    hide Seg, RingChains, Content, Lengths, Given, LetsIn, Front, Pointers, StackFacts, LastIsEnd;
    forall k | 0 <= k < |ids| ensures ids[k] !in s.stream && ids[k] !in s.ring && ids[k] !in s.next {
      assert ids[k] !in s.used;
    }
    assert forall k :: 0 < k < |all| ==> all[k] == ids[k - 1];
  }

  lemma DirectLinks(s: State, ids: seq<Id>, all: seq<Id>)
    requires Inv(s) && Distinct(all) && forall k :: 0 <= k < |all| ==> all[k] !in s.stream && all[k] !in s.next
    ensures var next := Link(s.next, all);
            && Seg(next, all, 0, |all|)
            && Seg(next, s.stream, s.done, s.preEnd) && Seg(next, s.stream, s.preEnd, s.lastEnd)
            && RingChains(next, s.stream, s.start, s.consTail, s.prodTail)
            && (forall p :: p !in all ==> NextOf(next, p) == NextOf(s.next, p))
            && next.Keys <= s.next.Keys + (set i | i in all)
  {
    hide Content, Lengths, Given, LetsIn, Front, Pointers, StackFacts, LastIsEnd, Clean, AppFacts, Link;
    LinkChains(s.next, all);
    var next := Link(s.next, all);
    assert forall k :: 0 <= k < |s.stream| ==> s.stream[k] !in all;
    assert s.stream + [] == s.stream;
    SetOther(s.next, next, s.stream, [], s.done, s.preEnd);
    SetOther(s.next, next, s.stream, [], s.preEnd, s.lastEnd);
    forall i | s.consTail <= i < s.prodTail ensures Seg(next, s.stream, s.start[i], s.start[i + 1]) {
      SetOther(s.next, next, s.stream, [], s.start[i], s.start[i + 1]);
    }
  }

  lemma DirectViews(s: State, ids: seq<Id>, all: seq<Id>, payloads: seq<seq<Byte>>)
    requires Inv(s) && s.apc == AppIdle && s.prodHead == s.prodTail < |s.ring| && all == [s.ring[s.prodHead]] + ids
    requires Distinct(all) && |payloads| == |all|
    requires forall k :: 0 <= k < |all| ==> all[k] !in s.stream && all[k] in s.used + (set i | i in ids)
    requires forall k :: 0 < k < |all| ==> all[k] !in s.ring
    requires var next := Link(s.next, all);
             && Seg(next, all, 0, |all|)
             && (forall p :: p !in all ==> NextOf(next, p) == NextOf(s.next, p))
             && next.Keys <= s.next.Keys + (set i | i in all)
    requires Filled(SetData(s.data, all, payloads), SetLen(s.len, all, payloads), all, payloads)
    requires Given(s.given, SetData(s.data, all, payloads), s.next, s.closed, s.stream, s.ring, s.done, s.prodTail)
    ensures var next, used, apc := Link(s.next, all), s.used + (set i | i in ids), DirectFilled(all, payloads);
            var data, len := SetData(s.data, all, payloads), SetLen(s.len, all, payloads);
            && Given(s.given, data, next, s.closed, s.stream, s.ring, s.done, s.prodTail)
            && Clean(next, s.last, s.closed, used, s.ring, s.prodTail, apc)
            && LastIsEnd(s.last, s.ring, s.stream, s.prodTail, apc)
            && AppFacts(apc, s.ring, s.stream, s.prodTail, s.prodHead + 1, s.appLock, s.closed, next, data, len, used)
  {
    hide Content, Lengths, LetsIn, Front, Pointers, StackFacts, Seg, RingChains, Filled, SetData, SetLen, Link, Order;
    var next := Link(s.next, all);
    forall g | g in s.given ensures g !in next {
      var k :| 0 <= k <= s.done && k < |s.stream| && s.stream[k] == g;
      assert NextOf(next, g) == NextOf(s.next, g);
    }
    forall i | s.prodTail < i < |s.ring| ensures s.ring[i] !in next {
      assert s.ring[i] !in all;
      assert NextOf(next, s.ring[i]) == NextOf(s.next, s.ring[i]);
    }
  }

  /** Releasing the ring buffers up to h, whose chains are `ids` in this order and end at the positions `ends`. */
  ghost predicate Released(s: State, t: State, ids: seq<Id>, ends: seq<nat>) {
    && ids != [] && ends != [] && s.prodTail + |ends| == s.prodHead <= |s.ring| <= s.consTail + s.cap
    && t == s.(prodTail := s.prodHead, apc := t.apc, stream := s.stream + ids, start := s.start + ends,
               accepted := t.accepted)
    && (forall k :: 0 <= k < |ids| ==> ids[k] !in s.stream)
  }

  lemma ReleasedOrder(s: State, t: State, ids: seq<Id>, ends: seq<nat>)
    requires Inv(s) && Released(s, t, ids, ends)
    ensures Order(t.cap, t.ring, t.consTail, t.prodTail, t.prodHead, t.start, t.stream, t.done, t.preEnd, t.lastEnd)
    ensures Pointers(t.stream, t.done, t.preEnd, t.lastEnd, t.preDel, t.lastData)
    ensures Front(t.start, t.consTail, t.done, t.preEnd)
    ensures LetsIn(t.ring, t.start, t.consTail, t.prodTail, t.closed, t.done, t.preEnd, |t.stream|)
    ensures StackFacts(t)
  {
    hide Seg, Names, RingChains, Content, Lengths, Given, Clean, LastIsEnd, AppFacts;
  }

  lemma ReleasedSegs(s: State, t: State, ids: seq<Id>, ends: seq<nat>)
    requires Inv(s) && Released(s, t, ids, ends)
    ensures Seg(t.next, t.stream, t.done, t.preEnd) && Seg(t.next, t.stream, t.preEnd, t.lastEnd)
    ensures forall i :: s.consTail <= i < s.prodTail ==> Seg(t.next, t.stream, t.start[i], t.start[i + 1])
  {
    hide Names, Content, Lengths, Given, Clean, LastIsEnd, AppFacts, Seg, Front, LetsIn, Pointers, StackFacts;
    SetOther(s.next, s.next, s.stream, ids, s.done, s.preEnd);
    SetOther(s.next, s.next, s.stream, ids, s.preEnd, s.lastEnd);
    forall i | s.consTail <= i < s.prodTail ensures Seg(t.next, t.stream, t.start[i], t.start[i + 1]) {
      assert Seg(s.next, s.stream, s.start[i], s.start[i + 1]);
      SetOther(s.next, s.next, s.stream, ids, s.start[i], s.start[i + 1]);
    }
  }

  lemma ReleasedGiven(s: State, t: State, ids: seq<Id>, ends: seq<nat>)
    requires Inv(s) && Released(s, t, ids, ends)
    ensures Given(t.given, t.data, t.next, t.closed, t.stream, t.ring, t.done, t.prodTail)
  {
    hide Content, Lengths, Clean, LastIsEnd, AppFacts, Seg, Front, LetsIn, Pointers, StackFacts, RingChains, Order;
    forall g | g in t.given
      ensures (exists k :: 0 <= k <= t.done && k < |t.stream| && t.stream[k] == g) && g != t.ring[t.prodTail - 1]
    {
      var k :| 0 <= k <= s.done && k < |s.stream| && s.stream[k] == g;
      assert t.stream[k] == g;
    }
  }

  lemma BuffOverKeepsInv(s: State, payloads: seq<seq<Byte>>)
    requires Inv(s) && s.apc == BuffFilled(payloads) && s.prodTail <= s.prodHead <= |s.ring|
    ensures Inv(DoBuffOver(s, payloads))
  {
    hide Seg, Names, RingChains, Content, Lengths, Given, LetsIn, Front, Pointers, StackFacts, LastIsEnd, Clean, Filled, Flat, Bytes;
    var ids := s.ring[s.prodTail..s.prodHead];
    var ends: seq<nat> := seq(s.prodHead - s.prodTail, i => |s.stream| + i + 1);
    var t := DoBuffOver(s, payloads);
    IdleSlice(s, s.prodHead);
    BuffNames(s, ids, ends);
    assert Released(s, t, ids, ends);
    ReleasedOrder(s, t, ids, ends);
    ReleasedSegs(s, t, ids, ends);
    ReleasedGiven(s, t, ids, ends);
    BuffChains(s, t, ids, ends);
    AppendContent(s, s.data, s.len, ids, payloads, AppIdle);
    hide Order;
  }

  lemma BuffNames(s: State, ids: seq<Id>, ends: seq<nat>)
    requires Inv(s) && s.apc.BuffFilled? && s.prodTail < s.prodHead <= |s.ring| && ids == s.ring[s.prodTail..s.prodHead]
    requires |ends| == |ids| && forall i :: 0 <= i < |ends| ==> ends[i] == |s.stream| + i + 1
    ensures Names(s.ring, s.stream + ids, s.start + ends, s.prodHead, s.used)
    ensures Clean(s.next, s.last, s.closed, s.used, s.ring, s.prodHead, AppIdle)
    ensures LastIsEnd(s.last, s.ring, s.stream + ids, s.prodHead, AppIdle)
  {
    hide Content, Lengths, Given, AppFacts, Seg, Front, LetsIn, Pointers, StackFacts, RingChains, Order, Names;
    BuffNamesOnly(s.ring, s.stream, s.start, s.prodTail, s.prodHead, s.used, ends);
    BuffViews(s.next, s.last, s.closed, s.used, s.ring, s.prodTail, s.prodHead, s.stream, s.apc);
    hide Clean, LastIsEnd;
  }

  lemma BuffViews(next: map<Id, Id>, last: map<Id, Id>, closed: set<Id>, used: set<Id>, ring: seq<Id>, prodTail: nat,
                  prodHead: nat, stream: seq<Id>, apc: AppPc)
    requires Clean(next, last, closed, used, ring, prodTail, apc) && prodTail < prodHead <= |ring| && apc.BuffFilled?
    ensures Clean(next, last, closed, used, ring, prodHead, AppIdle)
    ensures LastIsEnd(last, ring, stream + ring[prodTail..prodHead], prodHead, AppIdle)
  {
    var all := stream + ring[prodTail..prodHead];
    assert all[|all| - 1] == ring[prodHead - 1];
  }

  lemma DistinctConcat(a: seq<Id>, b: seq<Id>)
    requires Distinct(a) && Distinct(b) && forall k :: 0 <= k < |b| ==> b[k] !in a
    ensures Distinct(a + b)
  {
    forall i, j | 0 <= i < j < |a + b| ensures (a + b)[i] != (a + b)[j] {
      if i < |a| <= j { assert b[j - |a|] !in a; }
    }
  }

  lemma BuffNamesOnly(ring: seq<Id>, stream: seq<Id>, start: seq<nat>, prodTail: nat, prodHead: nat, used: set<Id>, ends: seq<nat>)
    requires Names(ring, stream, start, prodTail, used) && prodTail < prodHead <= |ring| && |ends| == prodHead - prodTail
    requires forall i :: 0 <= i < |ends| ==> ends[i] == |stream| + i + 1
    ensures Names(ring, stream + ring[prodTail..prodHead], start + ends, prodHead, used)
  {
    var ids := ring[prodTail..prodHead];
    assert forall j :: 0 <= j < |ids| ==> ids[j] == ring[prodTail + j];
    DistinctConcat(stream, ids);
    BuffOutside(ring, stream, prodTail, prodHead);
    BuffUsed(ring, stream, prodTail, prodHead, used);
    hide Distinct;
    BuffHeads(ring, stream, start, prodTail, prodHead, ends);
  }

  lemma BuffUsed(ring: seq<Id>, stream: seq<Id>, prodTail: nat, prodHead: nat, used: set<Id>)
    requires prodTail <= prodHead <= |ring|
    requires forall k :: 0 <= k < |stream| ==> stream[k] in used
    requires forall i :: 0 <= i < |ring| ==> ring[i] in used
    ensures forall k :: 0 <= k < |stream + ring[prodTail..prodHead]| ==> (stream + ring[prodTail..prodHead])[k] in used
  {
  }

  lemma BuffOutside(ring: seq<Id>, stream: seq<Id>, prodTail: nat, prodHead: nat)
    requires prodTail <= prodHead <= |ring| && Distinct(ring)
    requires forall i :: prodTail <= i < |ring| ==> ring[i] !in stream
    ensures forall i :: prodHead <= i < |ring| ==> ring[i] !in stream + ring[prodTail..prodHead]
  {
    forall i | prodHead <= i < |ring| ensures ring[i] !in stream + ring[prodTail..prodHead] {
      var ids := ring[prodTail..prodHead];
      assert forall j :: 0 <= j < |ids| ==> ids[j] == ring[prodTail + j] != ring[i];
    }
  }

  lemma BuffHeads(ring: seq<Id>, stream: seq<Id>, start: seq<nat>, prodTail: nat, prodHead: nat, ends: seq<nat>)
    requires prodTail < prodHead <= |ring| && |ends| == prodHead - prodTail && |start| == prodTail + 1
    requires start[prodTail] == |stream|
    requires forall i, j :: 0 <= i < j <= prodTail ==> start[i] < start[j]
    requires forall i :: 0 <= i < prodTail ==> start[i] < |stream| && stream[start[i]] == ring[i]
    requires forall i :: 0 <= i < |ends| ==> ends[i] == |stream| + i + 1
    ensures forall i, j :: 0 <= i < j <= prodHead ==> (start + ends)[i] < (start + ends)[j]
    ensures forall i :: 0 <= i < prodHead ==>
              (start + ends)[i] < |stream| + prodHead - prodTail
              && (stream + ring[prodTail..prodHead])[(start + ends)[i]] == ring[i]
  {
  }

  lemma BuffChains(s: State, t: State, ids: seq<Id>, ends: seq<nat>)
    requires Inv(s) && s.apc.BuffFilled? && Released(s, t, ids, ends) && ids == s.ring[s.prodTail..s.prodHead]
    requires |ends| == |ids| && forall i :: 0 <= i < |ends| ==> ends[i] == |s.stream| + i + 1
    requires forall i :: s.consTail <= i < s.prodTail ==> Seg(t.next, t.stream, t.start[i], t.start[i + 1])
    ensures RingChains(t.next, t.stream, t.start, t.consTail, t.prodTail)
  {
    hide Content, Lengths, Given, LastIsEnd, AppFacts, Front, LetsIn, Pointers, StackFacts, Distinct;
    forall i | s.prodTail <= i < t.prodTail ensures Seg(t.next, t.stream, t.start[i], t.start[i + 1]) {
      var k := i - s.prodTail;
      assert t.start[i] == |s.stream| + k && t.start[i + 1] == |s.stream| + k + 1;
      assert t.stream[|s.stream| + k] == s.ring[i];
      assert NextOf(t.next, s.ring[i]) == Null;
    }
    assert t.prodTail < |t.start| && t.consTail <= t.prodTail;
    assert RingChains(t.next, t.stream, t.start, t.consTail, t.prodTail);
  }

  lemma DirectOverKeepsInv(s: State, ids: seq<Id>, payloads: seq<seq<Byte>>)
    requires Inv(s) && s.apc == DirectFilled(ids, payloads) && ids != []
    ensures Inv(DoDirectOver(s, ids, payloads))
  {
    hide Seg, Names, RingChains, Content, Lengths, Given, LetsIn, Front, Pointers, StackFacts, LastIsEnd, Clean, Filled, Flat, Bytes;
    var ends: seq<nat> := [|s.stream| + |ids|];
    var t := DoDirectOver(s, ids, payloads);
    assert s.prodTail + 1 == s.prodHead;
    assert Released(s, t, ids, ends);
    DirectOverNames(s, ids, ends);
    ReleasedOrder(s, t, ids, ends);
    ReleasedSegs(s, t, ids, ends);
    ReleasedGiven(s, t, ids, ends);
    DirectOverChains(s, t, ids, ends);
    AppendContent(s, s.data, s.len, ids, payloads, t.apc);
    hide Order;
  }

  lemma DirectOverNames(s: State, ids: seq<Id>, ends: seq<nat>)
    requires Inv(s) && s.apc.DirectFilled? && s.apc.ids == ids != [] && ends == [|s.stream| + |ids|]
    ensures Names(s.ring, s.stream + ids, s.start + ends, s.prodHead, s.used)
    ensures Clean(s.next, s.last, s.closed, s.used, s.ring, s.prodHead, DirectLast(ids[0], ids[|ids| - 1]))
    ensures LastIsEnd(s.last, s.ring, s.stream + ids, s.prodHead, DirectLast(ids[0], ids[|ids| - 1]))
  {
    hide Content, Lengths, Given, Seg, Front, LetsIn, Pointers, StackFacts, RingChains, Filled;
    var stream, start := s.stream + ids, s.start + ends;
    forall i | 0 <= i < s.prodHead ensures stream[start[i]] == s.ring[i] {
      if i < s.prodTail { assert start[i] < s.start[s.prodTail]; }
    }
    forall i | s.prodHead <= i < |s.ring| ensures s.ring[i] !in stream {
      assert s.ring[i] != ids[0];
      assert forall j :: 0 < j < |ids| ==> ids[j] != s.ring[i];
    }
    assert LastIsEnd(s.last, s.ring, stream, s.prodHead, DirectLast(ids[0], ids[|ids| - 1]));
  }

  lemma DirectOverChains(s: State, t: State, ids: seq<Id>, ends: seq<nat>)
    requires Inv(s) && s.apc.DirectFilled? && s.apc.ids == ids && Released(s, t, ids, ends) && ends == [|s.stream| + |ids|]
    requires forall i :: s.consTail <= i < s.prodTail ==> Seg(t.next, t.stream, t.start[i], t.start[i + 1])
    ensures RingChains(t.next, t.stream, t.start, t.consTail, t.prodTail)
  {
    hide Content, Lengths, Given, LastIsEnd, Front, LetsIn, Pointers, StackFacts, Distinct, Clean;
    var n := |s.stream|;
    forall k | n <= k < n + |ids| ensures NextOf(t.next, t.stream[k]) == After(t.stream, k, n + |ids|) {
      assert NextOf(s.next, ids[k - n]) == After(ids, k - n, |ids|);
    }
    assert Seg(t.next, t.stream, n, n + |ids|);
    assert t.start[s.prodTail] == n && t.start[s.prodTail + 1] == n + |ids|;
    assert RingChains(t.next, t.stream, t.start, t.consTail, t.prodTail);
  }

  // ----- every step, every run -----

  lemma LastLoadedKeepsInv(s: State, tail: nat, job: Job)
    requires Inv(s) && s.apc == LastLoaded(tail, job)
    ensures Inv(TakeAppLock(s, tail, job))
  {
    GiveUpKeepsInv(s);
    if s.prodTail > tail && s.prodTail <= |s.ring| && s.stackLock != To(s.ring[s.prodTail - 1]) { LockKeepsInv(s, job); }
    hide Inv;
  }

  lemma GiveUpKeepsInv(s: State)
    requires Inv(s) && s.apc.LastLoaded?
    ensures Inv(s.(apc := AppIdle))
  {
    AppKnows(s);
    hide Inv;
    PlainKeepsInv(s, s.(apc := AppIdle));
  }

  lemma LockKeepsInv(s: State, job: Job)
    requires Inv(s) && s.apc.LastLoaded? && 0 < s.prodTail <= |s.ring| && s.stackLock != To(s.ring[s.prodTail - 1])
    ensures var p := s.ring[s.prodTail - 1]; Inv(s.(appLock := To(p), apc := LastLocked(p, job)))
  {
    AppKnows(s);
    hide Inv;
    var p := s.ring[s.prodTail - 1];
    PlainKeepsInv(s, s.(appLock := To(p), apc := LastLocked(p, job)));
  }

  lemma LockedKeepsInv(s: State)
    requires Inv(s) && (s.apc.LastLocked? || s.apc.LastAllowed? || s.apc.Holding?)
    ensures Inv(UnlockApp(s)) && (s.apc.LastLocked? || s.apc.Holding? ==> Inv(StepApp(s)))
  {
    AppKnows(s);
    hide Inv;
    PlainKeepsInv(s, UnlockApp(s));
    if s.apc.LastLocked? && s.apc.p !in s.closed {
      PlainKeepsInv(s, s.(apc := LastAllowed(s.apc.p, s.apc.job)));
    }
  }

  lemma AllowedKeepsInv(s: State)
    requires Inv(s) && s.apc.LastAllowed?
    ensures Inv(StepApp(s))
  {
    hide Inv;
    LockedKeepsInv(s);
    var p := s.apc.p;
    match s.apc.job
    case Merge(bytes) =>
      if p !in s.next && Len(s, p) < MAX { MergeLenKeepsInv(s, p, bytes, Min(MAX - Len(s, p), |bytes|)); }
    case Attach(ids, payloads) =>
      if Fresh(s, ids) && |ids| == |payloads| && Payloads(payloads) { AttachKeepsInv(s, p, ids, payloads); }
  }

  lemma AppKeepsInv(s: State)
    requires Inv(s)
    ensures Inv(StepApp(s))
  {
    hide Inv;
    match s.apc
    case AppIdle =>
    case LastLoaded(tail, job) => LastLoadedKeepsInv(s, tail, job);
    case LastLocked(_, _) => LockedKeepsInv(s);
    case LastAllowed(_, _) => AllowedKeepsInv(s);
    case MergeCopy(p, chunk) => MergeCopyKeepsInv(s, p, chunk);
    case AttachLast(_, _) => MoveLastKeepsInv(s);
    case Holding(_) => LockedKeepsInv(s);
    case BuffFilled(payloads) => if s.prodTail <= s.prodHead <= |s.ring| { BuffOverKeepsInv(s, payloads); }
    case DirectFilled(ids, payloads) => if ids != [] { DirectOverKeepsInv(s, ids, payloads); }
    case DirectLast(_, _) => MoveLastKeepsInv(s);
  }

  lemma LoadTailKeepsInv(s: State, job: Job)
    requires Inv(s) && s.apc == AppIdle
    ensures Inv(s.(apc := LastLoaded(s.consTail, job)))
  {
    AppKnows(s);
    hide Inv;
    PlainKeepsInv(s, s.(apc := LastLoaded(s.consTail, job)));
  }

  lemma StepKeepsInv(s: State, a: Action)
    requires Inv(s)
    ensures Inv(Step(s, a))
  {
    hide Inv;
    match a
    case LoadTail(job) => if s.apc == AppIdle { LoadTailKeepsInv(s, job); }
    case App => AppKeepsInv(s);
    case AllocFails => if s.apc.LastAllowed? { LockedKeepsInv(s); }
    case BuffFill(payloads) =>
      if s.apc == AppIdle && Payloads(payloads) && s.prodHead + |payloads| <= |s.ring| { BuffFillKeepsInv(s, payloads); }
    case DirectFill(ids, payloads) =>
      if s.apc == AppIdle && Payloads(payloads) && s.prodHead < |s.ring| && Fresh(s, ids) && ids != [] && |ids| + 1 == |payloads| {
        DirectFillKeepsInv(s, ids, payloads);
      }
    case CallWrite(r) => CallWriteKeepsInv(s, r);
    case Stack => StackKeepsInv(s);
    case WriteOver => if s.spc.StackIdle? && s.inHand && s.preDel.To? { WriteOverKeepsInv(s); }
    case Replenish(ids) =>
      if s.spc.StackIdle? && Fresh(s, ids) && |s.ring| + |ids| <= s.consTail + s.cap { ReplenishKeepsInv(s, ids); }
  }

  lemma {:induction false} RunKeepsInv(s: State, trace: seq<Action>)
    requires Inv(s)
    ensures Inv(Run(s, trace))
  {
    hide Inv, Step;
    if trace != [] {
      RunKeepsInv(s, trace[..|trace| - 1]);
      StepKeepsInv(Run(s, trace[..|trace| - 1]), trace[|trace| - 1]);
    }
  }

  // ----- the promises -----

  /** `ids` are the buffers reached from a pointer along next. */
  ghost predicate IsChain(next: map<Id, Id>, from: Ptr, ids: seq<Id>) {
    && from == (if ids == [] then Null else To(ids[0]))
    && Seg(next, ids, 0, |ids|)
  }

  function Concat(chains: seq<seq<Id>>): seq<Id> {
    if chains == [] then [] else Concat(chains[..|chains| - 1]) + chains[|chains| - 1]
  }

  lemma SliceSeg(next: map<Id, Id>, stream: seq<Id>, a: nat, b: nat)
    requires Seg(next, stream, a, b)
    ensures Seg(next, stream[a..b], 0, b - a)
  {
    forall k | 0 <= k < b - a ensures NextOf(next, stream[a..b][k]) == After(stream[a..b], k, b - a) {
      assert NextOf(next, stream[a + k]) == After(stream, a + k, b);
    }
  }

  lemma ConcatSnoc(chains: seq<seq<Id>>, c: seq<Id>)
    ensures Concat(chains + [c]) == Concat(chains) + c
  {
    assert (chains + [c])[..|chains|] == chains;
  }

  /** The chain of one released ring buffer is its piece of the stream. */
  lemma ChainAt(s: State, i: nat, c: seq<Id>)
    requires Inv(s) && s.consTail < i <= s.prodTail < |s.start| && s.prodTail <= |s.ring|
    requires s.start[s.consTail] <= s.start[i - 1] <= s.start[i] <= |s.stream| && c == s.stream[s.start[i - 1]..s.start[i]]
    ensures IsChain(s.next, To(s.ring[i - 1]), c)
    ensures s.stream[s.start[s.consTail]..s.start[i]] == s.stream[s.start[s.consTail]..s.start[i - 1]] + c
  {
    RingFacts(s, i);
    hide Inv, Seg;
    SliceSeg(s.next, s.stream, s.start[i - 1], s.start[i]);
  }

  /** The chains of the released ring buffers up to `upTo`, in ring order. */
  lemma {:induction false} RingChainsConcat(s: State, upTo: nat) returns (rel: seq<seq<Id>>)
    requires Inv(s) && s.consTail <= upTo <= s.prodTail
    ensures |rel| == upTo - s.consTail && upTo < |s.start| && upTo <= |s.ring|
    ensures s.start[s.consTail] <= s.start[upTo] <= |s.stream|
    ensures Concat(rel) == s.stream[s.start[s.consTail]..s.start[upTo]]
    ensures forall j :: 0 <= j < |rel| ==> IsChain(s.next, To(s.ring[s.consTail + j]), rel[j])
  {
    hide Inv, Seg, IsChain;
    RingFacts(s, upTo);
    if upTo == s.consTail {
      rel := [];
    } else {
      hide *;
      var init := RingChainsConcat(s, upTo - 1);
      var c := s.stream[s.start[upTo - 1]..s.start[upTo]];
      ChainAt(s, upTo, c);
      ConcatSnoc(init, c);
      OneMoreChain(s, init, c);
      rel := init + [c];
    }
  }

  lemma OneMoreChain(s: State, init: seq<seq<Id>>, c: seq<Id>)
    requires s.consTail + |init| < |s.ring| && IsChain(s.next, To(s.ring[s.consTail + |init|]), c)
    requires forall j :: 0 <= j < |init| ==> IsChain(s.next, To(s.ring[s.consTail + j]), init[j])
    ensures forall j :: 0 <= j < |init| + 1 ==> IsChain(s.next, To(s.ring[s.consTail + j]), (init + [c])[j])
  {
    hide IsChain;
  }

  lemma RingFacts(s: State, i: nat)
    requires Inv(s) && s.consTail <= i <= s.prodTail
    ensures |s.start| == s.prodTail + 1 && s.prodTail <= |s.ring|
    ensures s.start[s.consTail] <= s.start[i] <= |s.stream|
    ensures i > s.consTail ==>
              && s.start[s.consTail] <= s.start[i - 1] < s.start[i]
              && Seg(s.next, s.stream, s.start[i - 1], s.start[i])
              && s.stream[s.start[i - 1]] == s.ring[i - 1]
  {
    hide Content, Lengths, Given, LastIsEnd, Front, LetsIn, Pointers, StackFacts, AppFacts, Clean, Seg;
    if i > s.consTail { assert Seg(s.next, s.stream, s.start[i - 1], s.start[i - 1 + 1]); }
  }

  /** What hangs on the socket: the chains of send_pre_del, of send_lastdata and of the released ring buffers. */
  ghost predicate ChainsOfSocket(s: State, pre: seq<Id>, last: seq<Id>, rel: seq<seq<Id>>) {
    && IsChain(s.next, s.preDel, pre) && IsChain(s.next, s.lastData, last)
    && s.consTail <= s.prodTail <= |s.ring| && |rel| == s.prodTail - s.consTail
    && forall j :: 0 <= j < |rel| ==> IsChain(s.next, To(s.ring[s.consTail + j]), rel[j])
  }

  /** On every run the bytes accepted from the application are the bytes confirmed to lwip, then those of the
      chain of send_pre_del, then of the chain of send_lastdata, then of the released ring buffers with
      their chains: nothing is lost, repeated or reordered by merge, fill, direct write, attach or retry. */
  lemma SendStreamOnEveryRun(cap: nat, trace: seq<Action>) returns (pre: seq<Id>, last: seq<Id>, rel: seq<seq<Id>>)
    ensures var s := Run(Init(cap), trace);
            && ChainsOfSocket(s, pre, last, rel)
            && s.accepted == s.confirmed + Bytes(s.data, pre + last + Concat(rel))
  {
    hide *;
    InitInv(cap);
    RunKeepsInv(Init(cap), trace);
    pre, last, rel := SendStream(Run(Init(cap), trace));
  }

  lemma SendStream(s: State) returns (pre: seq<Id>, last: seq<Id>, rel: seq<seq<Id>>)
    requires Inv(s)
    ensures ChainsOfSocket(s, pre, last, rel)
    ensures s.accepted == s.confirmed + Bytes(s.data, pre + last + Concat(rel))
    ensures s.done <= |s.stream| && pre + last + Concat(rel) == s.stream[s.done..]
  {
    AppKnows(s);
    hide *;
    rel := RingChainsConcat(s, s.prodTail);
    pre, last := StackChains(s, Concat(rel));
    TheseChains(s, pre, last, rel);
  }

  lemma TheseChains(s: State, pre: seq<Id>, last: seq<Id>, rel: seq<seq<Id>>)
    requires IsChain(s.next, s.preDel, pre) && IsChain(s.next, s.lastData, last)
    requires s.consTail <= s.prodTail <= |s.ring| && |rel| == s.prodTail - s.consTail
    requires forall j :: 0 <= j < |rel| ==> IsChain(s.next, To(s.ring[s.consTail + j]), rel[j])
    ensures ChainsOfSocket(s, pre, last, rel)
  {
    hide IsChain;
  }

  /** The chains of send_pre_del and send_lastdata, and all the bytes. */
  lemma StackChains(s: State, tail: seq<Id>) returns (pre: seq<Id>, last: seq<Id>)
    requires Inv(s) && s.consTail < |s.start| && s.prodTail < |s.start|
    requires s.start[s.consTail] <= s.start[s.prodTail] <= |s.stream|
    requires tail == s.stream[s.start[s.consTail]..s.start[s.prodTail]]
    ensures IsChain(s.next, s.preDel, pre) && IsChain(s.next, s.lastData, last)
    ensures s.accepted == s.confirmed + Bytes(s.data, pre + last + tail)
    ensures s.done <= |s.stream| && pre + last + tail == s.stream[s.done..]
  {
    hide Lengths, Given, LastIsEnd, Front, LetsIn, StackFacts, AppFacts, Clean, Seg, RingChains, Distinct, Bytes;
    pre, last := s.stream[s.done..s.preEnd], s.stream[s.preEnd..s.lastEnd];
    SliceSeg(s.next, s.stream, s.done, s.preEnd);
    SliceSeg(s.next, s.stream, s.preEnd, s.lastEnd);
    ThreePieces(s.stream, s.done, s.preEnd, s.lastEnd);
    BytesConcat(s.data, s.stream[..s.done], pre + last + tail);
  }

  lemma ThreePieces(q: seq<Id>, a: nat, b: nat, c: nat)
    requires a <= b <= c <= |q|
    ensures q[..a] + (q[a..b] + q[b..c] + q[c..|q|]) == q
  {
  }

  /** Whatever happens after write_lwip_data has returned a buffer, its bytes, its length and its link stay:
      no merge and no attach reaches it any more. */
  lemma {:induction false} GivenBufferIsFrozen(s: State, trace: seq<Action>, p: Id)
    requires Inv(s) && p in s.given
    ensures var t := Run(s, trace);
            && p in t.given && t.given[p] == s.given[p]
            && Data(t, p) == s.given[p] && Len(t, p) == |s.given[p]| && NextOf(t.next, p) == Null
  {
    if trace == [] {
      GivenNow(s, p);
    } else {
      var u := Run(s, trace[..|trace| - 1]);
      GivenBufferIsFrozen(s, trace[..|trace| - 1], p);
      RunKeepsInv(s, trace[..|trace| - 1]);
      GivenStays(u, trace[|trace| - 1], p);
      StepKeepsInv(u, trace[|trace| - 1]);
      GivenNow(Step(u, trace[|trace| - 1]), p);
    }
  }

  lemma GivenNow(s: State, p: Id)
    requires Inv(s) && p in s.given
    ensures Data(s, p) == s.given[p] && Len(s, p) == |s.given[p]| && NextOf(s.next, p) == Null
  {
    hide Content, LastIsEnd, Front, LetsIn, Pointers, StackFacts, Clean, Seg, RingChains, Names, Order;
  }

  lemma GivenStays(s: State, a: Action, p: Id)
    requires Inv(s) && p in s.given
    ensures p in Step(s, a).given && Step(s, a).given[p] == s.given[p]
  {
    GivenNow(s, p);
    hide Inv, StepApp, StepStack, Fresh, Data, DoBuffFill, DoDirectFill, DoCallWrite, DoWriteOver, DoReplenish;
    match a
    case App => AppGivesNothing(s);
    case Stack => StackGives(s, p);
    case LoadTail(_) => if s.apc == AppIdle { assert Step(s, a).given == s.given; } else { assert Step(s, a).given == s.given; }
    case AllocFails =>
      if s.apc.LastAllowed? && s.apc.job.Attach? { assert Step(s, a).given == s.given; } else { assert Step(s, a).given == s.given; }
    case BuffFill(payloads) => FillsGiveNothing(s, [], payloads);
    case DirectFill(ids, payloads) => FillsGiveNothing(s, ids, payloads);
    case CallWrite(r) => CallsGiveNothing(s, r, []);
    case WriteOver => CallsGiveNothing(s, 0, []);
    case Replenish(ids) => CallsGiveNothing(s, 0, ids);
  }

  lemma FillsGiveNothing(s: State, ids: seq<Id>, payloads: seq<seq<Byte>>)
    ensures DoBuffFill(s, payloads).given == s.given && DoDirectFill(s, ids, payloads).given == s.given
  {
    hide SetData, SetLen, Link, Fresh, Payloads;
    assert DoBuffFill(s, payloads).given == s.given;
    hide DoBuffFill;
  }

  lemma CallsGiveNothing(s: State, r: nat, ids: seq<Id>)
    ensures DoCallWrite(s, r).given == s.given && DoWriteOver(s).given == s.given && DoReplenish(s, ids).given == s.given
  {
    hide Fresh;
    assert DoCallWrite(s, r).given == s.given;
    hide DoCallWrite;
    assert DoWriteOver(s).given == s.given;
    hide DoWriteOver;
  }

  lemma AppGivesNothing(s: State)
    ensures StepApp(s).given == s.given
  {
    UseGivesNothing(s);
    hide TakeAppLock, BeginMerge, BeginAttach;
    if s.apc.LastLocked? {
      if s.apc.p in s.closed { assert StepApp(s).given == s.given; } else { assert StepApp(s).given == s.given; }
    } else if s.apc.BuffFilled? {
      if s.prodTail <= s.prodHead <= |s.ring| { assert StepApp(s).given == s.given; } else { assert StepApp(s) == s; }
    } else if s.apc.DirectFilled? {
      if s.apc.ids == [] { assert StepApp(s) == s; } else { assert StepApp(s).given == s.given; }
    } else {
      hide DoBuffOver, DoDirectOver;
      assert StepApp(s).given == s.given;
    }
    hide StepApp;
  }

  lemma UseGivesNothing(s: State)
    ensures s.apc.LastLoaded? ==> TakeAppLock(s, s.apc.tail, s.apc.job).given == s.given
    ensures s.apc.LastAllowed? && s.apc.job.Merge? ==> BeginMerge(s, s.apc.p, s.apc.job.bytes).given == s.given
    ensures s.apc.LastAllowed? && s.apc.job.Attach? ==>
              BeginAttach(s, s.apc.p, s.apc.job.ids, s.apc.job.payloads).given == s.given
  {
    hide TakeAppLock, BeginMerge, BeginAttach;
    if s.apc.LastLoaded? {
      TakeGivesNothing(s, s.apc.tail, s.apc.job);
    } else if s.apc.LastAllowed? && s.apc.job.Merge? {
      MergeGivesNothing(s, s.apc.p, s.apc.job.bytes);
    } else if s.apc.LastAllowed? {
      AttachGivesNothing(s, s.apc.p, s.apc.job.ids, s.apc.job.payloads);
    }
  }

  lemma TakeGivesNothing(s: State, tail: nat, job: Job)
    ensures TakeAppLock(s, tail, job).given == s.given
  {
  }

  lemma MergeGivesNothing(s: State, p: Id, bytes: seq<Byte>)
    ensures BeginMerge(s, p, bytes).given == s.given
  {
  }

  lemma AttachGivesNothing(s: State, p: Id, ids: seq<Id>, payloads: seq<seq<Byte>>)
    ensures BeginAttach(s, p, ids, payloads).given == s.given
  {
    hide SetData, SetLen, Link, Flat, ButLast, Fresh, Payloads;
  }

  lemma StackGives(s: State, p: Id)
    requires p in s.given && s.given[p] == Data(s, p)
    ensures p in StepStack(s).given && StepStack(s).given[p] == s.given[p]
  {
    hide StepPre, Return;
    match s.spc
    case TakeLast(r) =>
      if s.lastData.To? {
        ReturnGives(s.(preDel := To(s.lastData.id), lastData := NextOf(s.next, s.lastData.id)), s.lastData.id, p);
      }
    case DeqLoad(_) =>
    case DeqStore(_) =>
    case _ => if s.preDel.To? { PreGives(s, s.preDel.id, p); }
  }

  lemma ReturnGives(s: State, q: Id, p: Id)
    requires p in s.given && s.given[p] == Data(s, p)
    ensures p in Return(s, q).given && Return(s, q).given[p] == s.given[p]
  {
  }

  lemma PreGives(s: State, q: Id, p: Id)
    requires p in s.given && s.given[p] == Data(s, p)
    ensures p in StepPre(s, q).given && StepPre(s, q).given[p] == s.given[p]
  {
    hide Return, TryClose, TakeStackLock, Len;
    match s.spc
    case PreLock(r) => LockGives(s, q, PreLocked(r));
    case RingLock(r) => LockGives(s, q, RingLocked(r));
    case PreMove => ReturnGives(if q in s.next then s.(lastData := NextOf(s.next, q)) else s, q, p);
    case RingMove => ReturnGives(s.(lastData := NextOf(s.next, q)), q, p);
    case PreLocked(r) => CloseGives(s, q, r, PreMove);
    case RingLocked(r) => CloseGives(s, q, r, RingMove);
    case _ =>
  }

  lemma LockGives(s: State, q: Id, next: StackPc)
    ensures TakeStackLock(s, q, next).given == s.given
  {
  }

  lemma CloseGives(s: State, q: Id, r: nat, next: StackPc)
    ensures TryClose(s, q, r, next).given == s.given
  {
    if Len(s, q) > r { assert TryClose(s, q, r, next).given == s.given; }
    else { assert TryClose(s, q, r, next).given == s.given; }
    hide *;
  }

  /** A returned buffer is the next unconfirmed piece of the stream, and confirming it confirms exactly its bytes. */
  lemma ReturnedIsNext(s: State)
    requires Inv(s) && s.inHand
    ensures s.preDel.To? && var p := s.preDel.id;
            && p in s.given
            && s.confirmed + s.given[p] <= s.accepted
            && (s.spc.StackIdle? ==> DoWriteOver(s).confirmed == s.confirmed + s.given[p])
  {
    StackKnows(s);
    ReturnedInStream(s);
    GivenNow(s, s.preDel.id);
    ConfirmsData(s);
    hide *;
  }

  lemma ConfirmsData(s: State)
    requires s.inHand && s.preDel.To?
    ensures s.spc.StackIdle? ==> DoWriteOver(s).confirmed == s.confirmed + Data(s, s.preDel.id)
  {
    hide Data;
  }

  lemma ReturnedInStream(s: State)
    requires Inv(s) && s.inHand
    ensures s.preDel.To? && s.preDel.id in s.given && s.confirmed + Data(s, s.preDel.id) <= s.accepted
  {
    StackKnows(s);
    InHandIsNext(s);
    ConfirmContent(s);
    ConfirmedIsPrefix(s.data, s.stream, s.done + 1, s.accepted, s.confirmed + Data(s, s.stream[s.done]));
    hide *;
  }

  lemma InHandIsNext(s: State)
    requires StackFacts(s) && Pointers(s.stream, s.done, s.preEnd, s.lastEnd, s.preDel, s.lastData) && s.inHand
    ensures s.done < |s.stream| && s.preDel == To(s.stream[s.done]) && s.stream[s.done] in s.given
  {
  }

  lemma ConfirmedIsPrefix(data: map<Id, seq<Byte>>, stream: seq<Id>, done: nat, accepted: seq<Byte>, confirmed: seq<Byte>)
    requires Content(data, stream, done, accepted, confirmed)
    ensures confirmed <= accepted
  {
    BytesConcat(data, stream[..done], stream[done..]);
    assert stream[..done] + stream[done..] == stream;
  }
}
