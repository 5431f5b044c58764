/** How the forwarder hands received packets to a stack: a small buffer of packets, the receive ring shared with the
    stack, and a circular backup buffer that keeps the order while the ring has no room.  `env(k)(i)` is what lstack does
    to the ring before the i-th access of the k-th ring operation of a flush. */
module Forward {
  import opened FourCursorRing
  import opened RteRingCode

  type Buf = nat    // an empty buffer the stack has put into its ring

  datatype Mbuf = Null | Packet(id: nat)

  const PACKET_READ_SIZE: nat := 32
  const BACKUP_SIZE: nat := 32768   // PACKET_READ_SIZE * BACKUP_SIZE_FACTOR
  const RING_MAX_SIZE: nat := 512

  // ----- the circular buffer -----

  function Window(buf: seq<Mbuf>, start: nat, n: nat): (w: seq<Mbuf>)
    requires buf != []
    ensures |w| == n
  {
    seq(n, i requires 0 <= i => buf[Index(start + i, |buf|)])
  }

  lemma WindowPush(buf: seq<Mbuf>, start: nat, n: nat, x: Mbuf)
    requires n < |buf|
    ensures Window(buf[Index(start + n, |buf|) := x], start, n + 1) == Window(buf, start, n) + [x]
  {
    hide Index;
    var buf' := buf[Index(start + n, |buf|) := x];
    forall i | 0 <= i < n + 1 ensures Window(buf', start, n + 1)[i] == (Window(buf, start, n) + [x])[i] {
      if i < n { SlotsDiffer(start + i, start + n, |buf|); }
    }
  }

  lemma IndexOfIndex(a: nat, k: nat, size: nat)
    requires size > 0
    ensures Index(Index(a, size) + k, size) == Index(a + k, size)
  {
    var q := a / size;
    assert a + k == Index(a, size) + k + size * q;
    ModShift(Index(a, size) + k, q, size);
  }

  lemma WindowPop(buf: seq<Mbuf>, start: nat, n: nat, k: nat)
    requires buf != [] && k <= n
    ensures Window(buf, Index(start + k, |buf|), n - k) == Window(buf, start, n)[k..]
  {
    forall i | 0 <= i < n - k
      ensures Window(buf, Index(start + k, |buf|), n - k)[i] == Window(buf, start, n)[k..][i]
    {
      IndexOfIndex(start + k, i, |buf|);
    }
  }

  lemma WindowAt(buf: seq<Mbuf>, start: nat, n: nat, i: nat)
    requires buf != [] && i < n
    ensures Window(buf, start, n)[i] == buf[Index(start + i, |buf|)]
  {
  }

  // ----- which packets are kept -----

  /** The elements whose fate is true, in order. */
  function Survivors(a: seq<Mbuf>, fate: seq<bool>): seq<Mbuf>
    requires |a| == |fate|
  {
    if a == [] then []
    else var n := |a| - 1; Survivors(a[..n], fate[..n]) + if fate[n] then [a[n]] else []
  }

  function Drops(fate: seq<bool>): nat {
    if fate == [] then 0 else Drops(fate[..|fate| - 1]) + if fate[|fate| - 1] then 0 else 1
  }

  /** The fates of a batch of which the first k are kept. */
  function Fates(n: nat, k: nat): (f: seq<bool>)
    ensures |f| == n
  {
    seq(n, i => i < k)
  }

  lemma SurvivorsSnoc(a: seq<Mbuf>, f: seq<bool>, x: Mbuf, kept: bool)
    requires |a| == |f|
    ensures Survivors(a + [x], f + [kept]) == Survivors(a, f) + if kept then [x] else []
    ensures Drops(f + [kept]) == Drops(f) + if kept then 0 else 1
  {
    assert (a + [x])[..|a|] == a && (f + [kept])[..|f|] == f;
  }

  lemma {:induction false} KeptConcat(a: seq<Mbuf>, f: seq<bool>, b: seq<Mbuf>, g: seq<bool>)
    requires |a| == |f| && |b| == |g|
    ensures Survivors(a + b, f + g) == Survivors(a, f) + Survivors(b, g)
    ensures Drops(f + g) == Drops(f) + Drops(g)
  {
    if b == [] {
      assert a + b == a && f + g == f;
    } else {
      hide Survivors, Drops;
      var n := |b| - 1;
      KeptConcat(a, f, b[..n], g[..n]);
      SurvivorsSnoc(a + b[..n], f + g[..n], b[n], g[n]);
      SurvivorsSnoc(b[..n], g[..n], b[n], g[n]);
      LastApart(a, b);
      LastApart(f, g);
      Associative(Survivors(a, f), Survivors(b[..n], g[..n]), if g[n] then [b[n]] else []);
    }
  }

  lemma Associative(a: seq<Mbuf>, b: seq<Mbuf>, c: seq<Mbuf>)
    ensures a + (b + c) == a + b + c
  {
  }

  lemma LastApart<T>(a: seq<T>, b: seq<T>)
    requires b != []
    ensures var n := |b| - 1; b[..n] + [b[n]] == b && a + b[..n] + [b[n]] == a + b
  {
  }

  lemma {:induction false} KeptBatch(b: seq<Mbuf>, k: nat)
    requires k <= |b|
    ensures Survivors(b, Fates(|b|, k)) == b[..k] && Drops(Fates(|b|, k)) == |b| - k
  {
    if b != [] {
      var n := |b| - 1;
      KeptBatch(b[..n], if k <= n then k else n);
      assert Fates(|b|, k)[..n] == Fates(n, if k <= n then k else n);
      assert b[..n][..if k <= n then k else n] == b[..if k <= n then k else n];
    }
  }

  lemma {:induction false} KeptLength(a: seq<Mbuf>, f: seq<bool>)
    requires |a| == |f|
    ensures |Survivors(a, f)| + Drops(f) == |a|
  {
    if a != [] { KeptLength(a[..|a| - 1], f[..|a| - 1]); }
  }

  // ----- every packet is somewhere exactly once -----

  ghost predicate SameBag(a: seq<Mbuf>, b: seq<Mbuf>) { multiset(a) == multiset(b) }

  lemma BagStore(a: seq<Mbuf>, p: seq<Mbuf>, b: seq<Mbuf>, x: Mbuf)
    requires SameBag(a + p, b)
    ensures SameBag(a + (p + [x]), b + [x])
  {
    assert a + (p + [x]) == (a + p) + [x];
  }

  lemma Arrives(arrived: seq<Mbuf>, n: nat, p: seq<Mbuf>, x: Mbuf)
    requires n <= |arrived| && p == arrived[n..] && Null !in arrived && x != Null
    ensures (arrived + [x])[..n] == arrived[..n] && (arrived + [x])[n..] == p + [x] && Null !in arrived + [x]
  {
  }

  lemma BagSwap(a: seq<Mbuf>, b: seq<Mbuf>, c: seq<Mbuf>)
    ensures SameBag(a + b + c, a + c + b)
  {
  }

  lemma BagTrans(a: seq<Mbuf>, b: seq<Mbuf>, c: seq<Mbuf>)
    requires SameBag(a, b) && SameBag(b, c)
    ensures SameBag(a, c)
  {
  }

  lemma BagMembers(a: seq<Mbuf>, b: seq<Mbuf>)
    requires SameBag(a, b) && Null !in b
    ensures Null !in a
  {
    assert Null !in multiset(b);
  }

  lemma BagShuffle(f: seq<Mbuf>, b1: seq<Mbuf>, b2: seq<Mbuf>, p1: seq<Mbuf>, p2: seq<Mbuf>, p3: seq<Mbuf>)
    ensures SameBag((f + b1 + p1 + p3) + (b2 + p2), (f + (b1 + b2)) + (p1 + p2 + p3))
  {
    calc {
      multiset((f + b1 + p1 + p3) + (b2 + p2));
      multiset(f) + multiset(b1) + multiset(p1) + multiset(p3) + (multiset(b2) + multiset(p2));
      multiset(f) + (multiset(b1) + multiset(b2)) + (multiset(p1) + multiset(p2) + multiset(p3));
      multiset((f + (b1 + b2)) + (p1 + p2 + p3));
    }
  }

  /** `n` packets of the backup and `m` of pkt_buf went to the ring, those up to `k` into the backup, the rest was freed. */
  lemma Moved(delivered: seq<Mbuf>, freed: seq<Mbuf>, b: seq<Mbuf>, p: seq<Mbuf>, n: nat, m: nat, k: nat,
              delivered': seq<Mbuf>, b': seq<Mbuf>, freed': seq<Mbuf>)
    requires n <= |b| && m <= k <= |p| && (n < |b| ==> m == 0)
    requires delivered' == delivered + b[..n] + p[..m] && b' == b[n..] + p[m..k]
    requires freed' == freed + b[..n] + p[..m] + p[k..]
    ensures delivered' + b' == delivered + b + p[..k] && delivered <= delivered'
    ensures SameBag(freed' + b', freed + b + p)
  {
    hide SameBag;
    BagShuffle(freed, b[..n], b[n..], p[..m], p[m..k], p[k..]);
    assert b[..n] + b[n..] == b;
    assert p[..m] + p[m..k] + p[k..] == p;
    MovedOrder(delivered, b, p, n, m, k);
  }

  lemma MovedOrder(delivered: seq<Mbuf>, b: seq<Mbuf>, p: seq<Mbuf>, n: nat, m: nat, k: nat)
    requires n <= |b| && m <= k <= |p| && (n < |b| ==> m == 0)
    ensures delivered + b[..n] + p[..m] + (b[n..] + p[m..k]) == delivered + b + p[..k]
  {
    if n < |b| {
      assert p[..m] == [] && p[m..k] == p[..k];
      assert delivered + b[..n] + [] + (b[n..] + p[..k]) == delivered + (b[..n] + b[n..]) + p[..k];
      assert b[..n] + b[n..] == b;
    } else {
      assert b[n..] == [] && b[..n] == b;
      assert delivered + b + p[..m] + ([] + p[m..k]) == delivered + b + (p[..m] + p[m..k]);
      assert p[..m] + p[m..k] == p[..k];
    }
  }

  lemma HandedOver(freed: seq<Mbuf>, b: seq<Mbuf>, p: seq<Mbuf>, delivered: seq<Mbuf>)
    requires b == []
    ensures SameBag(freed + p + b, freed + b + p)
    ensures delivered + p + b == delivered + b + p[..|p|]
  {
  }

  /** A batch of which the first k survive has left pkt_buf. */
  lemma Settled(arrived: seq<Mbuf>, fate: seq<bool>, p: seq<Mbuf>, k: nat)
    requires |arrived| == |fate| + |p| && p == arrived[|fate|..] && k <= |p|
    ensures var g := fate + Fates(|p|, k);
            && |g| == |arrived| && arrived[..|g|] == arrived && arrived[|g|..] == []
            && Survivors(arrived, g) == Survivors(arrived[..|fate|], fate) + p[..k]
            && Drops(g) == Drops(fate) + |p| - k
  {
    KeptBatch(p, k);
    KeptConcat(arrived[..|fate|], fate, p, Fates(|p|, k));
    assert arrived[..|fate|] + p == arrived;
  }

  lemma NothingFlushed(b: seq<Mbuf>, p: seq<Mbuf>)
    ensures p[..0] == [] && b[..0] == []
  {
  }

  lemma NothingLeft(p: seq<Mbuf>, k: nat)
    requires k <= |p|
    ensures p[k..k] == [] && p[|p|..] == []
  {
  }

  lemma EmptyWindow(buf: seq<Mbuf>, start: nat)
    requires buf != []
    ensures Window(buf, start, 0) == []
  {
  }

  /** What lstack does to its receive ring, access by access: it puts in empty buffers and takes out filled ones. */
  type Turn = seq<Action<Buf>>

  class GazelleStack {
    const rxRing: RteRing<Buf>
    const pktBuf: array<Mbuf>
    const backupPktBuf: array<Mbuf>
    const isKni: bool
    var pktCnt: nat
    var backupPktCnt: nat
    var backupStart: nat
    var rx: nat
    var rxDrop: nat
    var kniPkt: nat
    ghost var arrived: seq<Mbuf>
    ghost var fate: seq<bool>        // of all arrived packets that have left pkt_buf
    ghost var delivered: seq<Mbuf>   // copied into the buffers of the ring, or handed to KNI
    ghost var freed: seq<Mbuf>

    /** The ring, with no operation of this side under way. */
    ghost predicate Ready()
      reads rxRing, rxRing.slots
    {
      rxRing.Sound() && rxRing.reader.ReaderIdle? && rxRing.slots.Length == RING_MAX_SIZE
    }

    ghost predicate Shape()
      reads this, rxRing, rxRing.slots
    {
      && Ready()
      && pktBuf.Length == PACKET_READ_SIZE && backupPktBuf.Length == BACKUP_SIZE && pktBuf != backupPktBuf
      && pktCnt <= PACKET_READ_SIZE && backupPktCnt <= BACKUP_SIZE
    }

    ghost function Pkts(): seq<Mbuf>
      requires pktCnt <= pktBuf.Length
      reads this, pktBuf
    {
      pktBuf[..pktCnt]
    }

    ghost function Backup(): seq<Mbuf>
      requires backupPktBuf.Length > 0
      reads this, backupPktBuf
    {
      Window(backupPktBuf[..], backupStart, backupPktCnt)
    }

    /** Order: what was delivered, then the backup, are the packets that left pkt_buf, in arrival order and without
        those dropped; pkt_buf holds the last arrivals. */
    ghost predicate Ordered()
      requires pktCnt <= pktBuf.Length && backupPktBuf.Length > 0
      reads this, pktBuf, backupPktBuf
    {
      && |arrived| == |fate| + pktCnt
      && delivered + Backup() == Survivors(arrived[..|fate|], fate)
      && Pkts() == arrived[|fate|..]
    }

    /** Each packet is in exactly one place, or freed once. */
    ghost predicate Owned()
      requires pktCnt <= pktBuf.Length && backupPktBuf.Length > 0
      reads this, pktBuf, backupPktBuf
    {
      && SameBag(freed + Backup() + Pkts(), arrived)
      && Null !in arrived
    }

    ghost predicate Valid()
      reads this, rxRing, rxRing.slots, pktBuf, backupPktBuf
    {
      && Shape() && Ordered() && Owned()
      && rxDrop == Drops(fate)
      && (if isKni then kniPkt == |delivered| && backupPktCnt == 0
          else rx == |delivered| && |rxRing.seen| == rxRing.released == |delivered|)
    }

    constructor (isKni: bool)
      ensures Valid() && arrived == [] && this.isKni == isKni && fresh(rxRing) && fresh(rxRing.slots)
      ensures fresh(pktBuf) && fresh(backupPktBuf)
    {
      this.isKni := isKni;
      rxRing := new RteRing<Buf>(RING_MAX_SIZE);
      pktBuf := new Mbuf[PACKET_READ_SIZE];
      backupPktBuf := new Mbuf[BACKUP_SIZE];
      pktCnt, backupPktCnt, backupStart, rx, rxDrop, kniPkt := 0, 0, 0, 0, 0, 0;
      arrived, fate, delivered, freed := [], [], [], [];
    }

    /** Arrivals are delivered, dropped, in the backup or in pkt_buf. */
    lemma Conservation()
      requires Valid() && !isKni
      ensures |arrived| == rx + rxDrop + backupPktCnt + pktCnt
    {
      KeptLength(arrived[..|fate|], fate);
    }

    /** flush_rx_mbuf: copy into the next buffer of the ring and free the packet. */
    method FlushRxMbuf(dst: Buf, src: Mbuf)
      requires |delivered| < |rxRing.seen| && dst == rxRing.seen[|delivered|]
      modifies `delivered, `freed
      ensures delivered == old(delivered) + [src] && freed == old(freed) + [src]
    {
      delivered := delivered + [src];
      freed := freed + [src];
    }

    /** The loop over the backup. */
    method FlushBackup(freeBuf: seq<Buf>, ghost base: nat)
      requires backupPktBuf.Length == BACKUP_SIZE && |freeBuf| <= backupPktCnt
      requires |delivered| == base && |rxRing.seen| == base + |freeBuf| && freeBuf == rxRing.seen[base..]
      modifies `delivered, `freed
      ensures delivered == old(delivered) + Backup()[..|freeBuf|] && freed == old(freed) + Backup()[..|freeBuf|]
    {
      hide Window, Index;
      ghost var b := Backup();
      for j := 0 to |freeBuf|
        invariant delivered == old(delivered) + b[..j] && freed == old(freed) + b[..j]
      {
        var index := Index(backupStart + j, BACKUP_SIZE);
        WindowAt(backupPktBuf[..], backupStart, backupPktCnt, j);
        FlushRxMbuf(freeBuf[j], backupPktBuf[index]);
      }
    }

    /** gazelle_ring_read of empty buffers, as many as there are and at most cnt. */
    method ReadFree(cnt: nat, acts: nat -> Turn) returns (freeBuf: seq<Buf>)
      requires Ready() && |rxRing.seen| == rxRing.released
      modifies rxRing, rxRing.slots
      ensures Ready() && |freeBuf| <= cnt && |freeBuf| < RING_MAX_SIZE && rxRing.released == old(rxRing.released)
      ensures rxRing.seen == old(rxRing.seen) + freeBuf && old(rxRing.log) <= rxRing.log
      ensures |freeBuf| < cnt ==> |rxRing.seen| >= |old(rxRing.log)|
    {
      hide RteRing.Sound, RteRing.View;
      ghost var loaded;
      freeBuf, loaded := rxRing.ReadAmid(cnt, acts);
      rxRing.Bounds();
    }

    /** gazelle_ring_read_over. */
    method Release(after: Turn)
      requires Ready()
      modifies rxRing, rxRing.slots
      ensures Ready() && rxRing.seen == old(rxRing.seen) && rxRing.released == |rxRing.seen|
      ensures old(rxRing.log) <= rxRing.log
    {
      hide RteRing.Sound, RteRing.View;
      rxRing.OwnerTurn(after);
      rxRing.ReadOver();
    }

    /** backup_bufs_enque_rx_ring: the oldest packets of the backup go first, as many as the ring has buffers for. */
    method BackupBufsEnqueRxRing(acts: nat -> Turn, after: Turn) returns (ghost n: nat)
      requires Shape() && |delivered| == |rxRing.seen| == rxRing.released
      modifies `delivered, `freed, `rx, `backupPktCnt, `backupStart, rxRing, rxRing.slots
      ensures Shape() && |delivered| == |rxRing.seen| == rxRing.released && n <= old(backupPktCnt)
      ensures delivered == old(delivered) + old(Backup())[..n] && Backup() == old(Backup())[n..]
      ensures freed == old(freed) + old(Backup())[..n] && rx == old(rx) + n
      ensures old(rxRing.log) <= rxRing.log && (n < old(backupPktCnt) ==> |rxRing.seen| >= |old(rxRing.log)|)
    {
      hide RteRing.Sound, Window, Index;
      ghost var b := Backup();
      var flushCnt := if backupPktCnt < RING_MAX_SIZE then backupPktCnt else RING_MAX_SIZE;
      var freeBuf := ReadFree(flushCnt, acts);
      var freeCnt := |freeBuf|;
      FlushBackup(freeBuf, |delivered|);
      WindowPop(backupPktBuf[..], backupStart, backupPktCnt, freeCnt);
      rx := rx + freeCnt;
      backupPktCnt := backupPktCnt - freeCnt;
      backupStart := Index(backupStart + freeCnt, BACKUP_SIZE);
      Release(after);
      n := freeCnt;
    }

    /** The loop that frees the packets the backup has no room for. */
    method FreeRest(lo: nat, hi: nat)
      requires lo <= hi <= pktBuf.Length
      modifies `freed, pktBuf
      ensures freed == old(freed) + old(pktBuf[lo..hi])
      ensures pktBuf[..lo] == old(pktBuf[..lo])
    {
      ghost var was := pktBuf[..];
      for j := lo to hi
        invariant freed == old(freed) + was[lo..j]
        invariant forall i :: 0 <= i < pktBuf.Length && (i < lo || i >= j) ==> pktBuf[i] == was[i]
      {
        assert was[lo..j] + [was[j]] == was[lo..j + 1];
        freed := freed + [pktBuf[j]];
        pktBuf[j] := Null;
      }
    }

    /** The loop that puts packets behind the backup. */
    method AppendBackup(from: nat, cnt: nat)
      requires from + cnt <= pktBuf.Length && backupPktBuf.Length == BACKUP_SIZE && pktBuf != backupPktBuf
      requires backupPktCnt + cnt <= BACKUP_SIZE
      modifies `backupPktCnt, backupPktBuf
      ensures backupPktCnt == old(backupPktCnt) + cnt
      ensures Backup() == old(Backup()) + pktBuf[from..from + cnt]
    {
      hide Window, Index;
      ghost var b, n := Backup(), backupPktCnt;
      var backupTail := Index(backupStart + backupPktCnt, BACKUP_SIZE);
      backupPktCnt := backupPktCnt + cnt;
      for j := 0 to cnt
        invariant Window(backupPktBuf[..], backupStart, n + j) == b + pktBuf[from..from + j]
        modifies backupPktBuf
      {
        var index := Index(backupTail + j, BACKUP_SIZE);
        IndexOfIndex(backupStart + n, j, BACKUP_SIZE);
        WindowPush(backupPktBuf[..], backupStart, n + j, pktBuf[from + j]);
        ghost var was := backupPktBuf[..];
        backupPktBuf[index] := pktBuf[from + j];
        assert backupPktBuf[..] == was[index := pktBuf[from + j]];
        assert pktBuf[from..from + j] + [pktBuf[from + j]] == pktBuf[from..from + j + 1];
      }
    }

    /** pktbufs_move_to_backup_bufs on pkt_buf from `from` on: packets are dropped, the last ones, exactly when and as far
        as the backup is full. */
    method PktbufsMoveToBackupBufs(from: nat, mbufCnt: nat) returns (ghost k: nat)
      requires Shape() && from + mbufCnt == pktCnt
      modifies `freed, `rxDrop, `backupPktCnt, pktBuf, backupPktBuf
      ensures Shape() && k == Min(mbufCnt, BACKUP_SIZE - old(backupPktCnt))
      ensures Backup() == old(Backup()) + old(Pkts())[from..from + k]
      ensures freed == old(freed) + old(Pkts())[from + k..] && rxDrop == old(rxDrop) + mbufCnt - k
      ensures k < mbufCnt ==> backupPktCnt == BACKUP_SIZE
    {
      hide RteRing.Sound, Window;
      ghost var p, was := Pkts(), pktBuf[..];
      var cnt := mbufCnt;
      if backupPktCnt + mbufCnt > BACKUP_SIZE {
        cnt := BACKUP_SIZE - backupPktCnt;
        rxDrop := rxDrop + (mbufCnt - cnt);
        FreeRest(from + cnt, from + mbufCnt);
        assert was[from + cnt..from + mbufCnt] == p[from + cnt..];
      } else {
        assert p[from + cnt..] == [];
      }
      assert pktBuf[..from + cnt] == was[..from + cnt];
      assert pktBuf[from..from + cnt] == pktBuf[..from + cnt][from..];
      assert p[from..from + cnt] == was[..from + cnt][from..];
      AppendBackup(from, cnt);
      k := cnt;
    }

    /** One run of the copying loop, over the packets lo..hi. */
    method FlushRange(freeBuf: seq<Buf>, lo: nat, hi: nat, ghost base: nat)
      requires lo <= hi <= |freeBuf| && hi <= pktCnt <= pktBuf.Length
      requires |delivered| == base + lo && |rxRing.seen| == base + |freeBuf| && freeBuf == rxRing.seen[base..]
      modifies `delivered, `freed
      ensures delivered == old(delivered) + Pkts()[lo..hi] && freed == old(freed) + Pkts()[lo..hi]
    {
      ghost var p := Pkts();
      for j := lo to hi
        invariant delivered == old(delivered) + p[lo..j] && freed == old(freed) + p[lo..j]
      {
        assert p[lo..j] + [p[j]] == p[lo..j + 1];
        FlushRxMbuf(freeBuf[j], pktBuf[j]);
      }
    }

    /** The loop for the prefetched packets and the loop for the rest. */
    method FlushInTwo(freeBuf: seq<Buf>, ghost base: nat)
      requires |freeBuf| <= pktCnt <= pktBuf.Length
      requires |delivered| == base && |rxRing.seen| == base + |freeBuf| && freeBuf == rxRing.seen[base..]
      modifies `delivered, `freed
      ensures delivered == old(delivered) + Pkts()[..|freeBuf|] && freed == old(freed) + Pkts()[..|freeBuf|]
    {
      ghost var p := Pkts();
      var freeCnt := |freeBuf|;
      if freeCnt > 4 {
        FlushRange(freeBuf, 0, freeCnt - 4, base);
        FlushRange(freeBuf, freeCnt - 4, freeCnt, base);
        assert p[0..freeCnt - 4] + p[freeCnt - 4..freeCnt] == p[..freeCnt];
      } else {
        FlushRange(freeBuf, 0, freeCnt, base);
        assert p[0..freeCnt] == p[..freeCnt];
      }
    }

    /** pkt_bufs_enque_rx_ring. */
    method PktBufsEnqueRxRing(acts: nat -> Turn, after: Turn) returns (freeCnt: nat)
      requires Shape() && |delivered| == |rxRing.seen| == rxRing.released
      modifies `delivered, `freed, `rx, rxRing, rxRing.slots
      ensures Shape() && |delivered| == |rxRing.seen| == rxRing.released && freeCnt <= pktCnt
      ensures delivered == old(delivered) + Pkts()[..freeCnt] && freed == old(freed) + Pkts()[..freeCnt]
      ensures rx == old(rx) + freeCnt && (freeCnt < pktCnt ==> |rxRing.seen| >= |old(rxRing.log)|)
      ensures old(rxRing.log) <= rxRing.log
    {
      hide RteRing.Sound;
      var freeBuf := ReadFree(pktCnt, acts);
      freeCnt := |freeBuf|;
      rx := rx + freeCnt;
      FlushInTwo(freeBuf, |delivered|);
      if freeCnt != 0 {
        Release(after);
      }
    }

    /** The rest of a flush once the backup is empty: the ring takes m packets, the backup those up to k. */
    method FlushPkts(acts: nat -> Turn, after: Turn) returns (ghost m: nat, ghost k: nat)
      requires Shape() && |delivered| == |rxRing.seen| == rxRing.released
      modifies `delivered, `freed, `rx, `rxDrop, `backupPktCnt, pktBuf, backupPktBuf, rxRing, rxRing.slots
      ensures Shape() && |delivered| == |rxRing.seen| == rxRing.released && m <= k <= pktCnt
      ensures var p := old(Pkts());
              && delivered == old(delivered) + p[..m] && Backup() == old(Backup()) + p[m..k]
              && freed == old(freed) + p[..m] + p[k..] && rx == old(rx) + m && rxDrop == old(rxDrop) + pktCnt - k
      ensures k < pktCnt ==> backupPktCnt == BACKUP_SIZE
      ensures old(rxRing.log) <= rxRing.log && (m < pktCnt ==> |rxRing.seen| >= |old(rxRing.log)|)
      ensures m == pktCnt ==> backupPktCnt == old(backupPktCnt)
    {
      hide RteRing.Sound, Window;
      ghost var p := Pkts();
      var flushCnt := PktBufsEnqueRxRing(acts, after);
      m, k := flushCnt, flushCnt;
      NothingLeft(p, k);
      if flushCnt < pktCnt {
        ghost var more := PktbufsMoveToBackupBufs(flushCnt, pktCnt - flushCnt);
        k := flushCnt + more;
      }
    }

    /** What is left in the backup keeps its place before the packets of pkt_buf. */
    method FlushBehindBackup(acts: nat -> Turn, after: Turn) returns (ghost m: nat, ghost k: nat)
      requires Shape() && |delivered| == |rxRing.seen| == rxRing.released
      modifies `delivered, `freed, `rx, `rxDrop, `backupPktCnt, pktBuf, backupPktBuf, rxRing, rxRing.slots
      ensures Shape() && |delivered| == |rxRing.seen| == rxRing.released && m <= k <= pktCnt
      ensures var p := old(Pkts());
              && delivered == old(delivered) + p[..m] && Backup() == old(Backup()) + p[m..k]
              && freed == old(freed) + p[..m] + p[k..] && rx == old(rx) + m && rxDrop == old(rxDrop) + pktCnt - k
      ensures k < pktCnt ==> backupPktCnt == BACKUP_SIZE
      ensures old(backupPktCnt) > 0 ==> m == 0 && unchanged(rxRing)
      ensures old(rxRing.log) <= rxRing.log
      ensures old(backupPktCnt) == 0 && backupPktCnt > 0 ==> |rxRing.seen| >= |old(rxRing.log)|
    {
      hide RteRing.Sound, Window;
      NothingFlushed(Backup(), Pkts());
      if backupPktCnt > 0 {
        m := 0;
        k := PktbufsMoveToBackupBufs(0, pktCnt);
      } else {
        m, k := FlushPkts(acts, after);
      }
    }

    /** The ring and the backup take the packets of pkt_buf; `k` of them survive. */
    method FlushToStack(env: nat -> nat -> Turn) returns (ghost k: nat)
      requires Shape() && |delivered| == |rxRing.seen| == rxRing.released
      modifies `delivered, `freed, `rx, `rxDrop, `pktCnt, `backupPktCnt, `backupStart, pktBuf, backupPktBuf, rxRing, rxRing.slots
      ensures Shape() && |delivered| == |rxRing.seen| == rxRing.released && pktCnt == 0 && k <= old(pktCnt)
      ensures old(delivered) <= delivered && delivered + Backup() == old(delivered) + old(Backup()) + old(Pkts())[..k]
      ensures |delivered| - |old(delivered)| == rx - old(rx)
      ensures SameBag(freed + Backup(), old(freed) + old(Backup()) + old(Pkts()))
      ensures rxDrop == old(rxDrop) + old(pktCnt) - k
      ensures k < old(pktCnt) ==> backupPktCnt == BACKUP_SIZE
      ensures backupPktCnt > 0 ==> |rxRing.seen| >= |old(rxRing.log)|
    {
      assert pktBuf.Length == PACKET_READ_SIZE && backupPktBuf.Length == BACKUP_SIZE && pktCnt <= PACKET_READ_SIZE;
      hide RteRing.Sound, Window, SameBag, GazelleStack.Shape;
      ghost var p, b, d, f := Pkts(), Backup(), delivered, freed;
      ghost var n, m := 0, 0;
      EmptyWindow(backupPktBuf[..], backupStart);
      NothingFlushed(b, p);
      if backupPktCnt > 0 {
        n := BackupBufsEnqueRxRing(env(0), env(1)(0));
      }
      assert delivered == d + b[..n] && Backup() == b[n..] && freed == f + b[..n];
      m, k := FlushBehindBackup(env(2), env(3)(0));
      AfterFlush();
      Moved(d, f, b, p, n, m, k, delivered, Backup(), freed);
    }

    method AfterFlush()
      requires Shape()
      modifies `pktCnt
      ensures Shape() && pktCnt == 0
    {
      pktCnt := 0;
    }

    /** The packets that have left pkt_buf get their fates. */
    ghost method Settle(p: seq<Mbuf>, k: nat)
      requires pktCnt == 0 && backupPktBuf.Length > 0 && Null !in arrived
      requires |arrived| == |fate| + |p| && p == arrived[|fate|..] && k <= |p|
      requires delivered + Backup() == Survivors(arrived[..|fate|], fate) + p[..k]
      requires rxDrop == Drops(fate) + |p| - k
      requires SameBag(freed + Backup(), arrived)
      modifies `fate
      ensures Ordered() && Owned() && rxDrop == Drops(fate)
    {
      hide Window, SameBag, Survivors, Drops, Fates;
      Settled(arrived, fate, p, k);
      fate := fate + Fates(|p|, k);
      assert freed + Backup() + Pkts() == freed + Backup();
    }

    /** kni_process_tx takes all packets. */
    method FlushToKni()
      requires pktCnt <= pktBuf.Length && backupPktBuf.Length > 0 && backupPktCnt == 0
      modifies `kniPkt, `delivered, `freed, `pktCnt
      ensures pktCnt == 0 && kniPkt == old(kniPkt) + old(pktCnt)
      ensures delivered == old(delivered) + old(Pkts()) && Backup() == old(Backup())
      ensures SameBag(freed + Backup(), old(freed) + Backup() + old(Pkts()))
      ensures delivered + Backup() == old(delivered) + Backup() + old(Pkts())[..old(pktCnt)]
    {
      hide Window, SameBag;
      ghost var p := Pkts();
      HandedOver(freed, Backup(), p, delivered);
      kniPkt := kniPkt + pktCnt;
      delivered := delivered + p;
      freed := freed + p;
      pktCnt := 0;
    }

    /** flush_rx_ring. */
    method FlushRxRing(env: nat -> nat -> Turn)
      requires Valid()
      modifies this, pktBuf, backupPktBuf, rxRing, rxRing.slots
      ensures Valid() && arrived == old(arrived) && pktCnt == 0 && old(delivered) <= delivered
      ensures !isKni && backupPktCnt > 0 ==> |rxRing.seen| >= |old(rxRing.log)|
      ensures rxDrop > old(rxDrop) ==> backupPktCnt == BACKUP_SIZE
    {
      hide RteRing.Sound, Window, SameBag, Survivors, Drops;
      ghost var p, bag := Pkts(), freed + Backup() + Pkts();
      ghost var k;
      if isKni {
        k := pktCnt;
        FlushToKni();
      } else {
        k := FlushToStack(env);
      }
      BagTrans(freed + Backup(), bag, arrived);
      Settle(p, k);
    }

    method Put(buf: Mbuf)
      requires Shape() && pktCnt < PACKET_READ_SIZE
      modifies `pktCnt, pktBuf
      ensures Shape() && pktCnt == old(pktCnt) + 1
      ensures Pkts() == old(Pkts()) + [buf] && Backup() == old(Backup())
    {
      hide RteRing.Sound, Window;
      ghost var was := pktBuf[..];
      pktBuf[pktCnt] := buf;
      pktCnt := pktCnt + 1;
      assert pktBuf[..] == was[pktCnt - 1 := buf];
    }

    ghost method Record(buf: Mbuf, p: seq<Mbuf>)
      requires 0 < pktCnt <= pktBuf.Length && backupPktBuf.Length > 0 && Null !in arrived && buf != Null
      requires |arrived| == |fate| + pktCnt - 1 && delivered + Backup() == Survivors(arrived[..|fate|], fate)
      requires p == arrived[|fate|..] && Pkts() == p + [buf] && SameBag(freed + Backup() + p, arrived)
      modifies `arrived
      ensures Ordered() && Owned() && arrived == old(arrived) + [buf]
    {
      hide Window, Survivors, SameBag;
      Arrives(arrived, |fate|, p, buf);
      BagStore(freed + Backup(), p, arrived, buf);
      arrived := arrived + [buf];
    }

    method Store(buf: Mbuf)
      requires Valid() && pktCnt < PACKET_READ_SIZE && buf != Null
      modifies `pktCnt, `arrived, pktBuf
      ensures Valid() && pktCnt == old(pktCnt) + 1 && arrived == old(arrived) + [buf]
    {
      hide RteRing.Sound, Window, Survivors, Drops, SameBag;
      ghost var p := Pkts();
      Put(buf);
      Record(buf, p);
      hide GazelleStack.Ordered, GazelleStack.Owned;
    }

    /** enqueue_rx_packet. */
    method EnqueueRxPacket(buf: Mbuf, env: nat -> nat -> Turn)
      requires Valid() && pktCnt < PACKET_READ_SIZE && buf != Null
      modifies this, pktBuf, backupPktBuf, rxRing, rxRing.slots
      ensures Valid() && pktCnt < PACKET_READ_SIZE && arrived == old(arrived) + [buf] && old(delivered) <= delivered
      ensures rxDrop > old(rxDrop) ==> backupPktCnt == BACKUP_SIZE
    {
      hide RteRing.Sound, Window, Survivors, Drops, SameBag;
      Store(buf);
      if pktCnt >= PACKET_READ_SIZE {
        FlushRxRing(env);
      }
    }

    method FreePktBuf()
      requires pktCnt <= pktBuf.Length && Null !in Pkts()
      modifies `freed
      ensures freed == old(freed) + Pkts()
    {
      ghost var p := Pkts();
      for i := 0 to pktCnt
        invariant freed == old(freed) + p[..i]
      {
        assert p[..i] + [p[i]] == p[..i + 1];
        if pktBuf[i] != Null {
          freed := freed + [pktBuf[i]];
        }
      }
      assert p[..|p|] == p;
    }

    method FreeBackup()
      requires backupPktBuf.Length == BACKUP_SIZE && Null !in Backup()
      modifies `freed
      ensures freed == old(freed) + Backup()
    {
      hide Window, Index;
      ghost var b := Backup();
      for i := 0 to backupPktCnt
        invariant freed == old(freed) + b[..i]
      {
        var index := Index(backupStart + i, BACKUP_SIZE);
        WindowAt(backupPktBuf[..], backupStart, backupPktCnt, i);
        assert b[..i] + [b[i]] == b[..i + 1];
        if backupPktBuf[index] != Null {
          freed := freed + [backupPktBuf[index]];
        }
      }
      assert b[..|b|] == b;
    }

    /** The release loops of gazelle_stack_del_by_tid: every packet is then freed exactly once. */
    method FreePackets()
      requires Valid() && !isKni
      modifies `freed
      ensures SameBag(freed, arrived)
    {
      hide RteRing.Sound, Window, Index, Survivors, Drops, SameBag;
      ghost var p, b := Pkts(), Backup();
      BagMembers(freed + b + p, arrived);
      BagSwap(freed, p, b);
      BagTrans(freed + p + b, freed + b + p, arrived);
      hide GazelleStack.Ordered, GazelleStack.Owned;
      FreePktBuf();
      FreeBackup();
    }
  }
}
