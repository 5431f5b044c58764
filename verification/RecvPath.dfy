/** The receive path of one socket.  The stack thread moves packet buffers from the mailbox of the connection into
    the receive ring and frees the released ones; the application copies bytes out of them and keeps a buffer it
    has read in part across calls.  Either thread moves on by one access to the ring at a time: `env` says what the
    stack thread does before each access of the application, and the other way round in read_lwip_data. */
module RecvPath {
  import opened FourCursorRing
  import opened RteRingCode

  type Byte = x: int | 0 <= x < 256

  const RING_SIZE: nat := 128        // SOCK_RECV_RING_SIZE
  const UINT16_MAX: nat := 65535

  /** A chain of buffers; tot_len is stored in each, next is the tail of the list. */
  datatype Pbuf = Pbuf(payload: seq<Byte>, totLen: nat, next: Chain)
  datatype Chain = NoPbuf | To(pbuf: Pbuf)

  function Bytes(c: Chain): seq<Byte> {
    if c.NoPbuf? then [] else c.pbuf.payload + Bytes(c.pbuf.next)
  }

  /** The stored total length of the first buffer is that of its chain. */
  ghost predicate Good(p: Pbuf) { p.totLen == |Bytes(To(p))| }

  ghost predicate AllGood(ps: seq<Pbuf>) { forall i :: 0 <= i < |ps| ==> Good(ps[i]) }

  /** The payloads of a sequence of chains, one after the other. */
  function Stream(ps: seq<Pbuf>): seq<Byte> {
    if ps == [] then [] else Stream(ps[..|ps| - 1]) + Bytes(To(ps[|ps| - 1]))
  }

  lemma {:induction false} StreamConcat(a: seq<Pbuf>, b: seq<Pbuf>)
    ensures Stream(a + b) == Stream(a) + Stream(b)
  {
    hide Bytes;
    if b == [] {
      assert a + b == a;
    } else {
      var init, last := b[..|b| - 1], Bytes(To(b[|b| - 1]));
      StreamConcat(a, init);
      StreamSnoc(a + init, b[|b| - 1]);
      assert a + b == a + init + [b[|b| - 1]];
      Associative(Stream(a), Stream(init), last);
    }
  }

  lemma StreamSnoc(ps: seq<Pbuf>, p: Pbuf)
    ensures Stream(ps + [p]) == Stream(ps) + Bytes(To(p))
  {
    hide Bytes;
    assert (ps + [p])[..|ps|] == ps;
  }

  lemma Associative(a: seq<Byte>, b: seq<Byte>, c: seq<Byte>)
    ensures a + (b + c) == a + b + c
  {
  }

  lemma EmptyStream(ps: seq<Pbuf>)
    requires ps == []
    ensures Stream(ps) == []
  {
  }

  lemma StreamOne(p: Pbuf)
    ensures Stream([p]) == Bytes(To(p))
  {
    assert [p][..0] == [];
  }

  lemma StreamPrefix(a: seq<Pbuf>, b: seq<Pbuf>)
    requires a <= b
    ensures Stream(a) <= Stream(b)
  {
    StreamConcat(a, b[|a|..]);
    assert a + b[|a|..] == b;
  }

  /** The sum of the total lengths. */
  function Lengths(ps: seq<Pbuf>): nat {
    if ps == [] then 0 else Lengths(ps[..|ps| - 1]) + ps[|ps| - 1].totLen
  }

  lemma {:induction false} LengthsAreBytes(ps: seq<Pbuf>)
    requires AllGood(ps)
    ensures Lengths(ps) == |Stream(ps)|
  {
    if ps != [] { LengthsAreBytes(ps[..|ps| - 1]); }
  }

  /** The chain lwip builds for the segments of a message, each buffer with the length from there on. */
  function Build(segs: seq<seq<Byte>>): Chain {
    if segs == [] then NoPbuf
    else var rest := Build(segs[1..]); To(Pbuf(segs[0], |segs[0]| + |Bytes(rest)|, rest))
  }

  /** What the stack thread and the protocol below it do: a message of some segments arrives, or read_lwip_data goes
      on to its next access, with netconn_recv failing (the connection closed, or not) at some call. */
  datatype Peer = Arrive(first: seq<Byte>, more: seq<seq<Byte>>) | Go(errAt: nat, closed: bool)

  /** Where the stack thread is in read_lwip_data: before its end or still freeing, behind that, or with buffers to put into
      the ring.  Where it is inside a ring operation is known to the ring. */
  datatype StackPc = AtRest | Freed | Holding(pbufs: seq<Pbuf>, recvLen: nat)

  /** What the application does: one access on its way to the next buffer, or copy some bytes out of the one it has. */
  datatype App = Take | Copy(len: nat)

  lemma AllGoodConcat(a: seq<Pbuf>, b: seq<Pbuf>)
    ensures AllGood(a + b) <==> AllGood(a) && AllGood(b)
  {
    if AllGood(a + b) {
      forall i | 0 <= i < |a| ensures Good(a[i]) { assert (a + b)[i] == a[i]; }
      forall i | 0 <= i < |b| ensures Good(b[i]) { assert (a + b)[|a| + i] == b[i]; }
    }
  }

  lemma AllGoodSplit(ps: seq<Pbuf>, n: nat)
    requires AllGood(ps) && n <= |ps|
    ensures AllGood(ps[..n]) && AllGood(ps[n..])
  {
  }

  lemma BuildGood(segs: seq<seq<Byte>>)
    requires segs != []
    ensures Build(segs).To? && AllGood([Build(segs).pbuf])
  {
    assert Good(Build(segs).pbuf);
  }

  /** The buffer read next continues the stream. */
  lemma NextInStream(seen: seq<Pbuf>, p: Pbuf, log: seq<Pbuf>)
    requires seen + [p] <= log && AllGood(log)
    ensures Stream(seen + [p]) == Stream(seen) + Bytes(To(p)) && Good(p)
  {
    StreamConcat(seen, [p]);
    StreamOne(p);
    assert log[|seen|] == p;
  }

  /** One buffer is read and not released exactly when it is in hand or kept as lastData, and what was returned is what the
      buffers read so far hold, but for the rest of that one.  Buffers are read one at a time. */
  ghost predicate AppFacts(seen: seq<Pbuf>, released: nat, reader: ReaderPc<Pbuf>, lastData: Chain, hand: Chain, received: seq<Byte>) {
    && |seen| - released == (if lastData.To? || hand.To? then 1 else 0)
    && !(lastData.To? && hand.To?)
    && (reader.Reading? ==> reader.n == 1 && lastData.NoPbuf? && hand.NoPbuf?)
    && (lastData.To? ==> Good(lastData.pbuf) && lastData.pbuf.totLen > 0) && (hand.To? ==> Good(hand.pbuf))
    && received + Bytes(if lastData.To? then lastData else hand) == Stream(seen)
  }

  /** The buffers the stack thread has collected fit into the ring, and it is inside the ring operation of its place. */
  ghost predicate Collected(pc: StackPc, owner: OwnerPc<Pbuf>, room: int) {
    match pc
    case AtRest => !owner.Enqueuing?
    case Freed => owner.OwnerIdle?
    case Holding(pbufs, recvLen) =>
      && AllGood(pbufs) && recvLen == |Stream(pbufs)| && |pbufs| <= room
      && (owner.OwnerIdle? || (owner.Enqueuing? && owner.objs == pbufs))
  }

  /** Whether buffers taken from the mailbox are lost: receiving fails, at call number errAt before mailbox or room have
      run out, after nothing but empty ones. */
  ghost predicate Loses(mbox: seq<Pbuf>, room: int, errAt: nat) {
    errAt < |mbox| && errAt < room && Stream(mbox[..errAt]) == []
  }

  class RecvSock {
    const ring: RteRing<Pbuf>
    var lastData: Chain
    var mbox: seq<Pbuf>
    var errevent: nat
    var stack: StackPc
    var hand: Chain                 // the buffer the application is about to copy from
    ghost var received: seq<Byte>   // all bytes ever returned to the application

    ghost predicate RingFacts()
      reads this, ring, ring.slots
    {
      && ring.Sound() && ring.slots.Length == RING_SIZE && AllGood(ring.log) && AllGood(mbox)
      && Collected(stack, ring.owner, ring.Capacity() - (|ring.log| - |ring.taken|))
    }

    ghost predicate Valid()
      reads this, ring, ring.slots
    {
      RingFacts() && AppFacts(ring.seen, ring.released, ring.reader, lastData, hand, received)
    }

    constructor ()
      ensures Valid() && fresh(ring) && fresh(ring.slots) && received == [] && ring.log == ring.taken == [] && mbox == []
      ensures stack == AtRest && hand == NoPbuf && lastData == NoPbuf && ring.owner.OwnerIdle? && ring.reader.ReaderIdle?
    {
      ring := new RteRing<Pbuf>(RING_SIZE);
      lastData, mbox, errevent, received := NoPbuf, [], 0, [];
      stack, hand := AtRest, NoPbuf;
    }

    // ----- the stack thread -----

    /** free_recv_ring_readover up to its first access, the look at the cursors. */
    method LookReleased()
      requires RingFacts() && stack.AtRest? && ring.owner.OwnerIdle?
      modifies ring`owner, ring`history, `stack
      ensures RingFacts() && ring.owner == if ring.released == |ring.taken| then OwnerIdle else Dequeuing(ring.released - |ring.taken|, [])
      ensures stack == if ring.released == |ring.taken| then Freed else AtRest
    {
      hide RteRing.Sound, RteRing.View, AllGood;
      ring.Bounds();
      var n := ring.LoadReleased(RING_SIZE - 1);
      if n == 0 {
        stack := Freed;
      }
    }

    /** Its next access: one more buffer is fetched, or the cursor is moved over all of them. */
    method FreeNext()
      requires RingFacts() && stack.AtRest? && ring.owner.Dequeuing?
      modifies ring`owner, ring`history, ring`taken, ring`consTail, `stack
      ensures RingFacts()
      ensures if |old(ring.owner).got| < old(ring.owner).n
              then stack == AtRest && ring.taken == old(ring.taken) && ring.owner.Dequeuing?
                   && ring.owner.n == old(ring.owner).n && |ring.owner.got| == |old(ring.owner).got| + 1
              else stack == Freed && ring.taken == old(ring.taken) + old(ring.owner).got
    {
      hide RteRing.Sound, RteRing.View, AllGood;
      if |ring.owner.got| < ring.owner.n {
        ring.CopyOut();
      } else {
        ring.StoreConsTail();
        stack := Freed;
      }
    }

    /** free_recv_ring_readover, with the application moving before each access: what was released before is freed, and
        nothing that is not released. */
    method FreeReadOver(env: nat -> seq<App>) returns (freed: seq<Pbuf>)
      requires Valid() && stack.AtRest? && ring.owner.OwnerIdle?
      modifies this, ring, ring.slots
      ensures Valid() && stack == Freed && ring.log == old(ring.log) && mbox == old(mbox)
      ensures old(ring.seen) <= ring.seen && ring.taken == old(ring.taken) + freed
      ensures old(ring.released) <= |ring.taken| <= ring.released
    {
      hide RteRing.Sound, RteRing.View, AllGood, Stream, AppFacts;
      AppTurn(env(0));
      ring.Bounds();
      LookReleased();
      ghost var n := ring.released - |ring.taken|;
      ghost var k := 0;
      var i := 1;
      freed := [];
      while stack.AtRest?
        invariant Valid() && (stack.AtRest? || stack == Freed) && ring.log == old(ring.log) && mbox == old(mbox) && k <= n
        invariant old(ring.seen) <= ring.seen && old(ring.released) <= |old(ring.taken)| + n <= ring.released
        invariant stack.AtRest? ==> ring.owner.Dequeuing? && ring.owner.n == n && |ring.owner.got| == k && ring.taken == old(ring.taken)
        invariant stack.Freed? ==> ring.taken == old(ring.taken) + freed && |freed| == n
        decreases stack.AtRest?, n - k
      {
        AppTurn(env(i));
        i := i + 1;
        freed := ring.owner.got;
        if k < n { k := k + 1; }
        FreeNext();
      }
    }

    /** The loop over netconn_recv, which fails at its call number `errAt` if it gets that far.  With nothing to show
        for the earlier calls the whole read fails. */
    method Collect(readNum: nat, errAt: nat) returns (pbufs: seq<Pbuf>, recvLen: nat, failed: bool)
      requires AllGood(mbox) && readNum <= |mbox|
      modifies `mbox
      ensures |pbufs| == Min(readNum, errAt) && pbufs == old(mbox)[..|pbufs|] && mbox == old(mbox)[|pbufs|..]
      ensures AllGood(mbox) && AllGood(pbufs) && recvLen == |Stream(pbufs)|
      ensures failed <==> errAt < readNum && recvLen == 0
    {
      hide AllGood, Stream;
      pbufs, recvLen, failed := [], 0, false;
      var i := 0;
      while i < readNum
        invariant i == |pbufs| <= readNum && i <= errAt && !failed
        invariant pbufs == old(mbox)[..i] && mbox == old(mbox)[i..] && recvLen == Lengths(pbufs)
      {
        if i == errAt {
          failed := recvLen == 0;
          break;
        }
        assert (pbufs + [mbox[0]])[..i] == pbufs;
        recvLen := recvLen + mbox[0].totLen;
        pbufs := pbufs + [mbox[0]];
        mbox := mbox[1..];
        i := i + 1;
      }
      AllGoodSplit(old(mbox), i);
      LengthsAreBytes(pbufs);
    }

    /** The part of read_lwip_data between its two ring operations, which looks at the owner's cursors only. */
    method CountAndCollect(errAt: nat, closed: bool) returns (r: int, ghost moved: nat)
      requires RingFacts() && stack.Freed?
      modifies `mbox, `stack
      ensures RingFacts() && moved <= |old(mbox)| && mbox == old(mbox)[moved..]
      ensures var room := ring.Capacity() - (|ring.log| - |ring.taken|);
              && room >= 0 && moved == Min(errAt, Min(|old(mbox)|, room))
              && stack == if room == 0 || Loses(old(mbox), room, errAt) then AtRest
                          else Holding(old(mbox)[..moved], |Stream(old(mbox)[..moved])|)
      ensures stack.AtRest? ==> Stream(old(mbox)[..moved]) == [] && r <= 0
    {
      hide RteRing.Sound, AllGood, Stream;
      ring.Bounds();
      var _, _, _, freeCount := ring.Counts();
      moved := 0;
      EmptyStream(mbox[..0]);
      if freeCount == 0 {
        stack := AtRest;
        return -1, moved;
      }
      var readNum := Min(freeCount, |mbox|);
      var pbufs, total, failed := Collect(readNum, errAt);
      moved := |pbufs|;
      if failed {
        stack := AtRest;
        return if closed then 0 else -1, moved;
      }
      stack := Holding(pbufs, total);
      return 0, moved;
    }

    /** The next access of gazelle_ring_sp_enqueue.  The ring never refuses what was collected, whatever the application has
        done in between. */
    method PutNext()
      requires RingFacts() && stack.Holding?
      modifies ring`owner, ring`history, ring`log, ring`consHead, ring.slots, `stack
      ensures RingFacts()
      ensures match old(ring.owner)
              case Enqueuing(objs, copied) =>
                if copied < |objs| then stack == old(stack) && ring.log == old(ring.log) && ring.owner == Enqueuing(objs, copied + 1)
                else stack == AtRest && ring.log == old(ring.log) + old(stack).pbufs && ring.owner.OwnerIdle?
              case _ => stack == old(stack) && ring.log == old(ring.log) && ring.owner == Enqueuing(old(stack).pbufs, 0)
    {
      hide RteRing.Sound, RteRing.View, AllGood, Stream;
      ring.Bounds();
      if ring.owner.OwnerIdle? {
        var _ := ring.LoadRoom(stack.pbufs);
      } else if ring.owner.copied < |ring.owner.objs| {
        ring.CopyIn();
      } else {
        AllGoodConcat(ring.log, stack.pbufs);
        ring.StoreConsHead();
        stack := AtRest;
      }
    }

    /** gazelle_ring_sp_enqueue of what was collected, with the application moving before each access. */
    method Put(env: nat -> seq<App>) returns (r: int)
      requires Valid() && stack.Holding? && ring.owner.OwnerIdle?
      modifies this, ring, ring.slots
      ensures Valid() && stack == AtRest && ring.owner.OwnerIdle? && mbox == old(mbox)
      ensures old(ring.seen) <= ring.seen && old(ring.released) <= ring.released && ring.taken == old(ring.taken)
      ensures ring.log == old(ring.log) + old(stack).pbufs
      ensures r == if old(stack).recvLen == 0 then -1 else old(stack).recvLen
    {
      hide RteRing.Sound, RteRing.View, AllGood, Stream, AppFacts;
      var pbufs, recvLen := stack.pbufs, stack.recvLen;
      AppTurn(env(0));
      PutNext();
      for k := 0 to |pbufs|
        invariant Valid() && stack == old(stack) && ring.owner == Enqueuing(pbufs, k) && mbox == old(mbox)
        invariant old(ring.seen) <= ring.seen && old(ring.released) <= ring.released
        invariant ring.taken == old(ring.taken) && ring.log == old(ring.log)
      {
        AppTurn(env(k + 1));
        PutNext();
      }
      AppTurn(env(|pbufs| + 1));
      PutNext();
      r := if recvLen == 0 then -1 else recvLen;
    }

    /** read_lwip_data, with the application taking and copying before each of its accesses to the ring.  What was released
        when it started is freed, the ring never refuses a buffer, and the buffers taken from the mailbox are lost if and
        only if receiving fails after nothing but empty ones. */
    method ReadLwipData(errAt: nat, closed: bool, env: nat -> nat -> seq<App>) returns (recvLen: int, ghost moved: nat)
      requires Valid() && stack.AtRest? && ring.owner.OwnerIdle?
      modifies this, ring, ring.slots
      ensures Valid() && stack.AtRest? && ring.owner.OwnerIdle? && old(ring.seen) <= ring.seen
      ensures old(ring.released) <= |ring.taken| <= ring.released
      ensures moved <= |old(mbox)| && mbox == old(mbox)[moved..]
      ensures var room := ring.Capacity() - (|old(ring.log)| - |ring.taken|);
              && moved == Min(errAt, Min(|old(mbox)|, room))
              && ring.log == old(ring.log) + if Loses(old(mbox), room, errAt) then [] else old(mbox)[..moved]
      ensures recvLen > 0 ==> recvLen == |Stream(old(mbox)[..moved])|
      ensures recvLen <= 0 ==> Stream(old(mbox)[..moved]) == []
    {
      hide RteRing.Sound, RteRing.View, AllGood, Stream, AppFacts, Loses;
      var _ := FreeReadOver(env(0));
      AppTurn(env(1)(0));
      recvLen, moved := CountAndCollect(errAt, closed);
      if stack.AtRest? {
        return;
      }
      recvLen := Put(env(2));
    }

    /** The next access of the stack thread. */
    method StackNext(errAt: nat, closed: bool)
      requires RingFacts()
      modifies `mbox, `stack, ring`owner, ring`history, ring`log, ring`taken, ring`consHead, ring`consTail, ring.slots
      ensures RingFacts() && old(ring.log) <= ring.log
    {
      hide RteRing.Sound, RteRing.View, AllGood, Stream, Bytes, Loses;
      match stack {
        case AtRest => if ring.owner.OwnerIdle? { LookReleased(); } else { FreeNext(); }
        case Freed => var _, _ := CountAndCollect(errAt, closed);
        case Holding(_, _) => PutNext();
      }
    }

    /** The stack thread's turn. */
    method Others(acts: seq<Peer>)
      requires Valid()
      modifies `mbox, `stack, ring`owner, ring`history, ring`log, ring`taken, ring`consHead, ring`consTail, ring.slots
      ensures Valid() && old(ring.log) <= ring.log && (acts == [] ==> ring.log == old(ring.log) && stack == old(stack))
    {
      hide RteRing.Sound, RteRing.View, AllGood, Stream, Bytes, AppFacts, Loses, Build, Collected;
      for k := 0 to |acts|
        invariant Valid() && old(ring.log) <= ring.log && (k == 0 ==> ring.log == old(ring.log) && stack == old(stack))
      {
        match acts[k] {
          case Arrive(first, more) => Deliver(first, more);
          case Go(errAt, closed) => StackNext(errAt, closed);
        }
      }
    }

    method Deliver(first: seq<Byte>, more: seq<seq<Byte>>)
      requires RingFacts()
      modifies `mbox
      ensures RingFacts() && |mbox| == |old(mbox)| + 1 && mbox[..|old(mbox)|] == old(mbox)
      ensures Bytes(To(mbox[|old(mbox)|])) == Bytes(Build([first] + more))
    {
      hide RteRing.Sound, AllGood, Bytes, Build;
      BuildGood([first] + more);
      AllGoodConcat(mbox, [Build([first] + more).pbuf]);
      mbox := mbox + [Build([first] + more).pbuf];
    }

    // ----- the application -----

    /** gazelle_ring_readable_count(recv_ring) || recv_lastdata */
    method DataIn() returns (yes: bool)
      requires RingFacts()
      ensures yes == (|ring.seen| < |ring.log| || lastData.To?)
    {
      hide RteRing.Sound;
      var _, readable, _, _ := ring.Counts();
      return readable > 0 || lastData.To?;
    }

    /** pbuf_free_partial: drop the first bytes of a chain. */
    static method PbufFreePartial(p: Pbuf, freeLen: nat) returns (c: Chain)
      requires Good(p) && freeLen < p.totLen && freeLen <= UINT16_MAX
      ensures c.To? && Good(c.pbuf) && c.pbuf.totLen == p.totLen - freeLen
      ensures Bytes(c) == Bytes(To(p))[freeLen..]
    {
      var totLen := p.totLen - freeLen;
      var left: nat := freeLen;
      c := To(p);
      while left > 0 && c.To?
        invariant left <= |Bytes(c)| && Bytes(c)[left..] == Bytes(To(p))[freeLen..]
        decreases c
      {
        ghost var was := Bytes(c);
        var n := |c.pbuf.payload|;
        if left >= n {
          assert was[left..] == Bytes(c.pbuf.next)[left - n..];
          left := left - n;
          c := c.pbuf.next;
        } else {
          c := To(c.pbuf.(payload := c.pbuf.payload[left..]));
          assert Bytes(c) == was[left..];
          left := 0;
          break;
        }
      }
      if c.To? {
        c := To(c.pbuf.(totLen := totLen));
      }
    }

    /** On the way to the next buffer: the kept one, or one more access of gazelle_ring_read. */
    method TakeStep()
      requires Valid() && hand.NoPbuf?
      modifies `lastData, `hand, ring`reader, ring`history, ring`seen, ring`prodHead
      ensures Valid() && old(ring.seen) <= ring.seen
      ensures if old(lastData).To? then hand == old(lastData) && lastData.NoPbuf? && ring.seen == old(ring.seen) && ring.reader == old(ring.reader)
              else match old(ring.reader)
                   case ReaderIdle =>
                     && hand.NoPbuf? && lastData.NoPbuf? && ring.seen == old(ring.seen)
                     && ring.reader == if |ring.seen| < |ring.log| then Reading(1, []) else ReaderIdle
                   case Reading(n, got) =>
                     && lastData.NoPbuf?
                     && if |got| < n then hand.NoPbuf? && ring.seen == old(ring.seen) && ring.reader.Reading? && |ring.reader.got| == |got| + 1
                        else |ring.seen| == |old(ring.seen)| + 1 <= |ring.log| && hand == To(ring.log[|old(ring.seen)|]) && ring.reader.ReaderIdle?
    {
      hide RteRing.Sound, RteRing.View, AllGood, Stream;
      ring.Bounds();
      if lastData.To? {
        hand, lastData := lastData, NoPbuf;
      } else if ring.reader.ReaderIdle? {
        var _ := ring.LoadEnqueued(1);
      } else if |ring.reader.got| < ring.reader.n {
        ring.Look();
      } else {
        ring.ReaderBounds();
        var got := ring.reader.got;
        ring.StoreProdHead();
        ring.Bounds();
        hand := To(got[0]);
        assert got == [got[0]];
        NextInStream(old(ring.seen), got[0], ring.log);
      }
    }

    /** A buffer of which nothing or only a part was read, with the stack thread moving before each access to the ring: the
        kept one, or the next of the ring if there was one among the `loaded` enqueued when it looked. */
    method TakeNext(env: seq<seq<Peer>>, k: nat) returns (ghost loaded: nat)
      requires Valid() && hand.NoPbuf? && ring.reader.ReaderIdle?
      modifies this, ring, ring.slots
      ensures Valid() && ring.reader.ReaderIdle? && lastData.NoPbuf? && received == old(received) && errevent == old(errevent)
      ensures old(ring.log) <= ring.log && ring.released == old(ring.released) && old(ring.seen) <= ring.seen <= ring.log
      ensures |old(ring.log)| <= loaded <= |ring.log| && (k >= |env| ==> ring.log == old(ring.log))
      ensures hand == if old(lastData).To? then old(lastData)
                      else if |old(ring.seen)| < loaded then To(ring.log[|old(ring.seen)|]) else NoPbuf
      ensures hand.NoPbuf? ==> ring.seen == ring.log
      ensures hand.To? ==> hand.pbuf.totLen > 0 || |old(ring.seen)| < |ring.seen|
    {
      hide RteRing.Sound, RteRing.View, AllGood, Stream, Bytes, AppFacts;
      ring.Bounds();
      loaded := |ring.log|;
      if lastData.To? {
        KeptIsPositive();
        TakeStep();
        return;
      }
      loaded := ReadNext(env, k);
    }

    /** gazelle_ring_read of one buffer. */
    method ReadNext(env: seq<seq<Peer>>, k: nat) returns (ghost loaded: nat)
      requires Valid() && hand.NoPbuf? && lastData.NoPbuf? && ring.reader.ReaderIdle?
      modifies this, ring, ring.slots
      ensures Valid() && ring.reader.ReaderIdle? && lastData.NoPbuf? && received == old(received) && errevent == old(errevent)
      ensures old(ring.log) <= ring.log && ring.released == old(ring.released) && old(ring.seen) <= ring.seen <= ring.log
      ensures |old(ring.log)| <= loaded <= |ring.log| && (k >= |env| ==> ring.log == old(ring.log))
      ensures |ring.seen| == |old(ring.seen)| + if |old(ring.seen)| < loaded then 1 else 0
      ensures hand == if |old(ring.seen)| < loaded then To(ring.log[|old(ring.seen)|]) else NoPbuf
      ensures hand.NoPbuf? ==> ring.seen == ring.log
    {
      hide RteRing.Sound, RteRing.View, AllGood, Stream, Bytes, AppFacts, Collected;
      Others(Turn(env, k));
      loaded := |ring.log|;
      ring.Bounds();
      TakeStep();
      if ring.reader.ReaderIdle? {
        return;
      }
      FetchNext(env, k + 1);
    }

    method FetchNext(env: seq<seq<Peer>>, k: nat)
      requires Valid() && hand.NoPbuf? && lastData.NoPbuf? && ring.reader == Reading(1, [])
      modifies this, ring, ring.slots
      ensures Valid() && ring.reader.ReaderIdle? && lastData.NoPbuf? && received == old(received) && errevent == old(errevent)
      ensures old(ring.log) <= ring.log && ring.released == old(ring.released) && old(ring.seen) <= ring.seen <= ring.log
      ensures |ring.seen| == |old(ring.seen)| + 1 && hand == To(ring.log[|old(ring.seen)|])
      ensures k >= |env| ==> ring.log == old(ring.log)
    {
      hide RteRing.Sound, RteRing.View, AllGood, Stream, Bytes, AppFacts, Collected;
      Others(Turn(env, k));
      TakeStep();
      Others(Turn(env, k + 1));
      ReadsOne();
      TakeStep();
      ring.Bounds();
    }

    lemma ReadsOne()
      requires Valid() && ring.reader.Reading?
      ensures ring.reader.n == 1
    {
      hide RteRing.Sound, RteRing.View, AllGood, Stream, Bytes;
    }

    lemma KeptIsPositive()
      requires Valid() && lastData.To?
      ensures lastData.pbuf.totLen > 0
    {
    }

    /** Copy out of the buffer in hand, and keep the rest of it or release it. */
    method CopyOut(recvLeft: nat) returns (chunk: seq<Byte>, more: bool)
      requires Valid() && hand.To?
      modifies `lastData, `hand, `received, ring`prodTail, ring`released, ring`history
      ensures Valid() && hand.NoPbuf? && received == old(received) + chunk && |chunk| <= recvLeft
      ensures old(ring.released) <= ring.released
      ensures |chunk| == Min(Min(recvLeft, UINT16_MAX), old(hand).pbuf.totLen)
      ensures more == (|chunk| == old(hand).pbuf.totLen) == lastData.NoPbuf?
    {
      hide RteRing.Sound, AllGood, Stream;
      ring.Bounds();
      var p := hand.pbuf;
      var copyLen := if recvLeft > p.totLen then p.totLen else recvLeft;
      if copyLen > UINT16_MAX {
        copyLen := UINT16_MAX;
      }
      chunk := Bytes(To(p))[..copyLen];
      assert chunk + Bytes(To(p))[copyLen..] == Bytes(To(p));
      assert received + chunk + Bytes(To(p))[copyLen..] == Stream(ring.seen);
      received := received + chunk;
      hand := NoPbuf;
      if p.totLen > copyLen {
        lastData := PbufFreePartial(p, copyLen);
        return chunk, false;
      }
      ring.ReadOver();
      return chunk, true;
    }

    /** The application's turn. */
    method AppTurn(acts: seq<App>)
      requires Valid()
      modifies `lastData, `hand, `received, ring`reader, ring`history, ring`seen, ring`prodHead, ring`prodTail, ring`released
      ensures Valid() && old(ring.seen) <= ring.seen && old(ring.released) <= ring.released && old(received) <= received
    {
      hide RteRing.Sound, RteRing.View, AllGood, Stream, Bytes, AppFacts, Collected;
      for k := 0 to |acts|
        invariant Valid() && old(ring.seen) <= ring.seen && old(ring.released) <= ring.released && old(received) <= received
      {
        match acts[k] {
          case Take => if hand.NoPbuf? { TakeStep(); }
          case Copy(len) => if hand.To? { var _, _ := CopyOut(len); }
        }
      }
    }

    /** One round of the loop of read_stack_data, with the stack thread moving before each access to the ring. */
    method ReadOne(recvLeft: nat, env: seq<seq<Peer>>, k: nat) returns (chunk: seq<Byte>, more: bool)
      requires Valid() && hand.NoPbuf? && ring.reader.ReaderIdle? && recvLeft > 0
      modifies this, ring, ring.slots
      ensures Valid() && hand.NoPbuf? && ring.reader.ReaderIdle?
      ensures received == old(received) + chunk && |chunk| <= recvLeft && errevent == old(errevent)
      ensures old(ring.log) <= ring.log && old(ring.seen) <= ring.seen && |ring.seen| <= |ring.log|
      ensures more && chunk == [] && k >= |env| ==> |ring.log| - |ring.seen| < |old(ring.log)| - |old(ring.seen)|
      ensures !more ==> |chunk| == recvLeft || ring.seen == ring.log || (lastData.To? && |chunk| == UINT16_MAX)
    {
      hide RteRing.Sound, RteRing.View, AllGood, Bytes, Stream, AppFacts, Collected;
      var _ := TakeNext(env, k);
      if hand.NoPbuf? {
        return [], false;
      }
      Others(Turn(env, k + 3));
      chunk, more := CopyOut(recvLeft);
      ring.Bounds();
    }

    /** read_stack_data: all bytes that were asked for, or the ring is empty, or a copy was cut off at 65535. */
    method ReadStackData(len: nat, env: seq<seq<Peer>>) returns (r: int, buf: seq<Byte>)
      requires Valid() && hand.NoPbuf? && ring.reader.ReaderIdle?
      modifies this, ring, ring.slots
      ensures Valid() && hand.NoPbuf? && ring.reader.ReaderIdle? && received == old(received) + buf && |buf| <= len
      ensures received <= Stream(ring.log)
      ensures old(ring.log) <= ring.log && old(ring.seen) <= ring.seen
      ensures buf != [] ==> r == |buf|
      ensures buf == [] ==> r == if old(errevent > 0 && |ring.seen| == |ring.log| && lastData.NoPbuf?) then 0 else -1
      ensures r != 0 ==> |buf| == len || ring.seen == ring.log || (lastData.To? && |buf| >= UINT16_MAX)
    {
      hide RteRing.Sound, RteRing.View, AllGood, Bytes, Stream, AppFacts, Collected;
      buf := [];
      ReceivedIsPrefix();
      if errevent > 0 {
        var dataIn := DataIn();
        if !dataIn {
          return 0, [];
        }
      }
      var recvLeft: nat := len;
      var round := 0;
      var more := true;
      while recvLeft > 0 && more
        invariant Valid() && hand.NoPbuf? && ring.reader.ReaderIdle? && received == old(received) + buf && |buf| + recvLeft == len
        invariant old(ring.log) <= ring.log && old(ring.seen) <= ring.seen && |ring.seen| <= |ring.log|
        invariant !more ==> |buf| == len || ring.seen == ring.log || (lastData.To? && |buf| >= UINT16_MAX)
        decreases more, if 4 * round < |env| then |env| - 4 * round else 0, recvLeft, |ring.log| - |ring.seen|
      {
        var chunk;
        chunk, more := ReadOne(recvLeft, env, 4 * round);
        buf := buf + chunk;
        recvLeft := recvLeft - |chunk|;
        round := round + 1;
      }
      ReceivedIsPrefix();
      if buf == [] {
        return -1, buf;
      }
      return |buf|, buf;
    }

    lemma ReceivedIsPrefix()
      requires Valid()
      ensures received <= Stream(ring.log) && |ring.seen| <= |ring.log|
    {
      ring.Bounds();
      StreamPrefix(ring.seen, ring.log);
    }
  }

  function Turn(env: seq<seq<Peer>>, k: nat): seq<Peer> { if k < |env| then env[k] else [] }

  lemma NothingIn(mbox: seq<Pbuf>, room: int)
    requires |mbox| == 2 && room > 1 && Bytes(To(mbox[0])) == []
    ensures Loses(mbox, room, 1)
  {
    StreamOne(mbox[0]);
    assert mbox[..1] == [mbox[0]];
  }

  lemma EmptySegment()
    ensures Bytes(Build([[]] + [])) == []
  {
  }

  /** Two messages without data arrive and receiving fails at the second one: the first is out of the mailbox and was
      never put into the ring. */
  method EmptyMessageIsLost() returns (s: RecvSock)
    ensures fresh(s) && s.Valid() && s.stack.AtRest?
    ensures s.ring.log == [] && |s.mbox| == 1
  {
    hide RteRing.Sound, RteRing.View, AllGood, AppFacts, Loses, Stream, Bytes, Build, Collected;
    s := new RecvSock();
    s.Deliver([], []);
    s.Deliver([], []);
    EmptySegment();
    ghost var mbox := s.mbox;
    var r, moved := s.ReadLwipData(1, true, (op: nat) => (k: nat) => []);
    NothingIn(mbox, s.ring.Capacity() - (0 - |s.ring.taken|));
  }
}
