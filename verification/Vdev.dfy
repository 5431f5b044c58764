/** The shared-memory device of a stack: its receive ring is refilled with empty buffers, its transmit ring is
    cleaned of buffers the forwarder has released, and both are accounted for in counters.
    `env(k)` is what the forwarder does to the rings before the k-th ring operation of a call, and to the ring of that
    operation before each of its accesses. */
module VdevCode {
  import opened FourCursorRing
  import opened RteRingCode

  type Mbuf = nat

  const QUEUE_SIZE: nat := 512  // VDEV_RX_QUEUE_SZ, VDEV_TX_QUEUE_SZ, DPDK_PKT_BURST_SIZE
  const BATCH_MAX: nat := 511   // RING_SIZE(DPDK_PKT_BURST_SIZE)
  const WATERMARK: nat := 128

  datatype Turn = Turn(rx: seq<Action<Mbuf>>, tx: seq<Action<Mbuf>>, amid: nat -> seq<Action<Mbuf>>)

  class Vdev {
    const rx: RteRing<Mbuf>
    const tx: RteRing<Mbuf>
    var rxUsed: nat
    var txUsed: nat
    var pool: seq<Mbuf>   // the free buffers of the pool
    var allocFail: nat
    var up: bool

    ghost predicate Rings()
      reads this, rx, tx, rx.slots, tx.slots
    {
      && rx != tx && rx.slots != tx.slots && rx.Sound() && tx.Sound() && rx.owner.OwnerIdle? && tx.owner.OwnerIdle?
      && rx.slots.Length == QUEUE_SIZE && tx.slots.Length == QUEUE_SIZE
    }

    /** The counters say how full the rings are. */
    ghost predicate Valid()
      reads this, rx, tx, rx.slots, tx.slots
    {
      && Rings()
      && rxUsed + (|rx.log| - |rx.taken|) == rx.Capacity()
      && txUsed == |tx.log| - |tx.taken| <= tx.Capacity()
    }

    /** Create the rings and fill the receive ring; the stack does not come up if the pool is too small for that. */
    constructor (pool: seq<Mbuf>)
      ensures Rings() && fresh(rx) && fresh(tx) && fresh(rx.slots) && fresh(tx.slots)
      ensures up <==> |pool| >= BATCH_MAX
      ensures up ==> Valid() && rx.log == pool[..BATCH_MAX] && this.pool == pool[BATCH_MAX..]
    {
      hide RteRing.Sound, RteRing.View;
      rx := new RteRing<Mbuf>(QUEUE_SIZE);
      tx := new RteRing<Mbuf>(QUEUE_SIZE);
      rxUsed, txUsed, allocFail, up := 0, 0, 0, false;
      this.pool := pool;
      new;
      up := FillMbufToRing(BATCH_MAX);
      rx.Bounds();
      tx.Bounds();
    }

    /** gazelle_alloc_pktmbuf: all or nothing. */
    method Alloc(n: nat) returns (ok: bool, bufs: seq<Mbuf>)
      modifies `pool
      ensures ok == (n <= |old(pool)|)
      ensures ok ==> bufs == old(pool)[..n] && pool == old(pool)[n..]
      ensures !ok ==> bufs == [] && pool == old(pool)
    {
      if n > |pool| {
        return false, [];
      }
      bufs, pool := pool[..n], pool[n..];
      return true, bufs;
    }

    /** One round of it, of at most a batch. */
    method FillBatch(batch: nat) returns (ok: bool)
      requires Rings() && 0 < batch <= BATCH_MAX
      modifies `pool, rx, rx.slots
      ensures Rings() && rx.taken == old(rx.taken) && rx.released == old(rx.released) && rx.seen == old(rx.seen)
      ensures ok <==> batch <= |old(pool)| && batch <= rx.Capacity() - (|old(rx.log)| - |old(rx.taken)|)
      ensures ok ==> rx.log == old(rx.log) + old(pool)[..batch] && pool == old(pool)[batch..]
    {
      hide RteRing.Sound, RteRing.View;
      rx.Bounds();
      var got, bufs := Alloc(batch);
      if !got {
        return false;
      }
      var n := rx.SpEnqueueAmid(bufs, k => []);
      return n != 0;
    }

    /** fill_mbuf_to_ring on the receive ring: it succeeds exactly when the pool and the ring have room for all. */
    method FillMbufToRing(num: nat) returns (ok: bool)
      requires Rings()
      modifies `pool, rx, rx.slots
      ensures Rings() && rx.taken == old(rx.taken) && rx.released == old(rx.released) && rx.seen == old(rx.seen)
      ensures ok <==> num <= |old(pool)| && num <= rx.Capacity() - (|old(rx.log)| - |old(rx.taken)|)
      ensures ok ==> rx.log == old(rx.log) + old(pool)[..num] && pool == old(pool)[num..]
    {
      hide RteRing.Sound, RteRing.View;
      rx.Bounds();
      ghost var was, log := pool, rx.log;
      var remain: nat := num;
      while remain > 0
        invariant remain <= num && num - remain <= |was| && Rings()
        invariant rx.taken == old(rx.taken) && rx.released == old(rx.released) && rx.seen == old(rx.seen)
        invariant rx.log == log + was[..num - remain] && pool == was[num - remain..]
        invariant num - remain <= rx.Capacity() - (|log| - |rx.taken|)
      {
        var batch := Min(remain, BATCH_MAX);
        var got := FillBatch(batch);
        if !got {
          return false;
        }
        assert was[..num - remain] + was[num - remain..][..batch] == was[..num - remain + batch];
        remain := remain - batch;
      }
      assert remain == 0;
      return true;
    }

    /** The forwarder's turn: it reads and releases objects of either ring. */
    method Others(turn: Turn)
      requires Rings()
      modifies rx, tx
      ensures Rings() && rx.log == old(rx.log) && rx.taken == old(rx.taken) && rx.released >= old(rx.released)
      ensures tx.log == old(tx.log) && tx.taken == old(tx.taken) && tx.released >= old(tx.released)
    {
      hide RteRing.Sound, RteRing.View;
      rx.ReaderTurn(turn.rx);
      tx.ReaderTurn(turn.tx);
    }

    /** gazelle_ring_sc_dequeue of filled buffers. */
    method Receive(max: nat, turn: Turn) returns (pkts: seq<Mbuf>)
      requires Rings()
      modifies rx, tx
      ensures Rings() && rx.log == old(rx.log) && tx.log == old(tx.log) && tx.taken == old(tx.taken)
      ensures rx.taken == old(rx.taken) + pkts && Min(max, old(rx.released) - |old(rx.taken)|) <= |pkts| <= max
      ensures |rx.log| - |rx.taken| >= 0
    {
      hide RteRing.Sound, RteRing.View;
      Others(turn);
      ghost var loaded;
      pkts, loaded := rx.ScDequeueAmid(max, turn.amid);
      rx.Bounds();
    }

    /** The refill is never refused: whatever was allocated is in the ring. */
    method Refill(turn: Turn) returns (ghost refilled: nat)
      requires Valid()
      modifies this, rx, rx.slots, tx
      ensures Valid() && txUsed == old(txUsed) && tx.log == old(tx.log) && tx.taken == old(tx.taken)
      ensures rx.taken == old(rx.taken) && rxUsed == old(rxUsed) - refilled
      ensures refilled <= |old(pool)| && pool == old(pool)[refilled..] && rx.log == old(rx.log) + old(pool)[..refilled]
      ensures refilled == if old(rxUsed) <= |old(pool)| then old(rxUsed) else 0
      ensures allocFail == old(allocFail) + if old(rxUsed) <= |old(pool)| then 0 else 1
    {
      hide RteRing.Sound, RteRing.View;
      refilled := 0;
      rx.Bounds();
      var freeCnt := Min(rxUsed, BATCH_MAX);
      var ok, freeBuf := Alloc(freeCnt);
      if ok {
        Others(turn);
        var n := rx.SpEnqueueAmid(freeBuf, turn.amid);
        rxUsed := rxUsed - n;
        refilled := n;
      } else {
        allocFail := allocFail + 1;
      }
    }

    /** ltran_rx_poll. */
    method LtranRxPoll(max: nat, env: nat -> Turn) returns (pkts: seq<Mbuf>, ghost refilled: nat)
      requires Valid()
      modifies this, rx, rx.slots, tx
      ensures Valid() && txUsed == old(txUsed) && tx.log == old(tx.log) && tx.taken == old(tx.taken)
      ensures rx.taken == old(rx.taken) + pkts && Min(max, old(rx.released) - |old(rx.taken)|) <= |pkts| <= max
      ensures refilled <= |old(pool)| && pool == old(pool)[refilled..] && rx.log == old(rx.log) + old(pool)[..refilled]
      ensures refilled == (if old(rxUsed) + |pkts| >= WATERMARK && old(rxUsed) + |pkts| <= |old(pool)|
                           then old(rxUsed) + |pkts| else 0)
      ensures rxUsed < WATERMARK || allocFail == old(allocFail) + 1
    {
      hide RteRing.Sound, RteRing.View;
      refilled := 0;
      pkts := Receive(max, env(0));
      rxUsed := rxUsed + |pkts|;
      if rxUsed >= WATERMARK {
        refilled := Refill(env(1));
      }
    }

    /** Free what the forwarder has released, as far as the counter reaches. */
    method Clean(acts: Turn) returns (ghost freed: seq<Mbuf>)
      requires Rings() && txUsed <= tx.Capacity()
      modifies `txUsed, `pool, rx, tx, rx.slots, tx.slots
      ensures Rings() && rx.log == old(rx.log) && rx.taken == old(rx.taken) && tx.log == old(tx.log)
      ensures Min(old(txUsed), old(tx.released) - |old(tx.taken)|) <= |freed| <= old(txUsed) && txUsed == old(txUsed) - |freed|
      ensures |freed| <= QUEUE_SIZE
      ensures tx.taken == old(tx.taken) + freed && pool == old(pool) + freed
    {
      hide RteRing.Sound;
      Others(acts);
      var freeBuf, _ := tx.ScDequeueAmid(txUsed, acts.amid);
      pool := pool + freeBuf;
      txUsed := txUsed - |freeBuf|;
      freed := freeBuf;
    }

    /** One round of the loop: what the forwarder has released is freed if the counter asks for it, and then the rest of
        the packets is put into the ring if it fits.  The counter does not know yet of the packets sent before. */
    method TxRound(rest: seq<Mbuf>, ghost ahead: nat, acts: Turn, more: Turn) returns (n: nat, ghost freed: seq<Mbuf>)
      requires Rings() && txUsed + ahead == |tx.log| - |tx.taken| <= tx.Capacity()
      modifies `txUsed, `pool, tx, tx.slots, rx, rx.slots
      ensures Rings() && rx.log == old(rx.log) && rx.taken == old(rx.taken)
      ensures txUsed + ahead + n == |tx.log| - |tx.taken| <= tx.Capacity()
      ensures n == 0 || n == |rest|
      ensures |rest| <= tx.Capacity() - ahead - old(txUsed) ==> n == |rest|
      ensures old(txUsed) >= WATERMARK ==> |freed| >= Min(old(txUsed), old(tx.released) - |old(tx.taken)|)
      ensures |freed| <= QUEUE_SIZE && tx.log == old(tx.log) + rest[..n]
      ensures tx.taken == old(tx.taken) + freed && pool == old(pool) + freed
    {
      hide RteRing.Sound, RteRing.View;
      freed := [];
      if txUsed >= WATERMARK {
        freed := Clean(acts);
      }
      Others(more);
      n := tx.SpEnqueueAmid(rest, more.amid);
      tx.Bounds();
    }

    /** ltran_tx_xmit; `retries` bounds how often time and registration let it try again.  The counter is exact at
        every return although it lags behind inside the loop, and what it frees fits its array of 512. */
    method LtranTxXmit(pkts: seq<Mbuf>, retries: nat, env: nat -> Turn) returns (sent: nat, ghost freed: seq<Mbuf>)
      requires Valid()
      modifies this, tx, tx.slots, rx, rx.slots
      ensures Valid() && rxUsed == old(rxUsed) && rx.log == old(rx.log) && rx.taken == old(rx.taken)
      ensures sent == 0 || sent == |pkts|
      ensures |pkts| <= tx.Capacity() - old(txUsed) ==> sent == |pkts|
      ensures old(txUsed) >= WATERMARK ==> |freed| >= Min(old(txUsed), old(tx.released) - |old(tx.taken)|)
      ensures tx.log == old(tx.log) + pkts[..sent]
      ensures tx.taken == old(tx.taken) + freed && pool == old(pool) + freed
    {
      hide RteRing.Sound, RteRing.View;
      ghost var log, taken, was := tx.log, tx.taken, pool;
      sent, freed := TxRound(pkts, 0, env(0), env(1));
      ghost var enough := |freed|;
      var round := 1;
      while sent < |pkts| && round <= retries
        invariant Rings() && rxUsed == old(rxUsed) && rx.log == old(rx.log) && rx.taken == old(rx.taken)
        invariant (sent == 0 || sent == |pkts|) && (|pkts| <= tx.Capacity() - old(txUsed) ==> sent == |pkts|)
        invariant |freed| >= enough
        invariant txUsed + sent == |tx.log| - |tx.taken| <= tx.Capacity()
        invariant tx.log == log + pkts[..sent] && tx.taken == taken + freed && pool == was + freed
      {
        ghost var more;
        var n;
        n, more := TxRound(pkts[sent..], sent, env(2 * round), env(2 * round + 1));
        assert pkts[..sent] + pkts[sent..][..n] == pkts[..sent + n];
        sent := sent + n;
        freed := freed + more;
        round := round + 1;
      }
      txUsed := txUsed + sent;
    }
  }
}
