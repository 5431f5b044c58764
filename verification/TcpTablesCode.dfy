/** The operations of the forwarder on its connection and socket tables.  A chain is a sequence with its head first;
    connections point to socks by their address, and a freed address is not handed out again.  The control thread moves
    ticks on meanwhile: `env` says which ones before each load of a current tick.  What a key maps to is then said by the
    ticks at the end of an operation. */
module TcpTablesCode {
  import opened TcpTables

  const CONN_TIMEOUT: int := 5              // GAZELLE_CONN_TIMEOUT

  datatype Op =
    | PacketIn(key: Quintuple, alloc: bool, junk: Conn)
    | Connect(stack: Stack, key: Quintuple, tid: nat, alloc: bool, junk: Conn)
    | ConnectClose(key: Quintuple)
    | ListenOn(stack: Stack, ip: nat, port: nat, tid: nat, alloc: bool)
    | ListenClose(ip: nat, port: nat, tid: nat)
    | AgeConns | ScanConns | ScanSocks
    | TickMoves(slot: nat)

  /** The ticks that move on before the k-th load of a current tick; in an operation with several walks, of the p-th one. */
  type Moves = nat -> seq<nat>
  type Phases = nat -> Moves

  /** No tick moves. */
  ghost predicate Still(env: Moves) { forall k: nat :: env(k) == [] }

  class Tables {
    const hash: Quintuple -> nat
    const sockHash: (nat, nat) -> nat
    const maxConn: nat
    const maxSock: nat
    const maxLoad: int                      // GAZELLE_STACK_MAX_TCP_CON_NUM
    var ticks: seq<int>
    var conns: seq<Bucket>
    var curConn: nat
    var socks: map<Sid, Sock>
    var sockChains: seq<seq<Sid>>
    var curSock: nat
    var nextSid: Sid

    /** The chains are in order and the totals are right. */
    ghost predicate Shape()
      reads this
    {
      && GoodTable(hash, ticks, conns) && curConn == Total(conns) <= maxConn
      && GoodSocks(sockHash, ticks, socks, sockChains) && curSock == Lens(sockChains) <= maxSock
      && forall id :: id in socks ==> id < nextSid
    }

    /** And no connection points to a freed sock or to one that counts too few. */
    ghost predicate Valid()
      reads this
    {
      Shape() && Counted(conns, socks)
    }

    /** The connection table as a map. */
    ghost function Map(key: Quintuple): Option<Conn>
      requires |conns| == CONN_BUCKETS
      reads this
    {
      At(hash, ticks, conns, key)
    }

    function Chain(key: Quintuple): seq<Conn>
      requires |conns| == CONN_BUCKETS
      reads this
    {
      conns[Home(hash, key)].chain
    }

    constructor (hash: Quintuple -> nat, sockHash: (nat, nat) -> nat, maxConn: nat, maxSock: nat, maxLoad: int, slots: nat)
      ensures Valid() && socks == map[] && curConn == curSock == 0 && ticks == seq(slots, i => 0)
      ensures this.maxConn == maxConn && this.maxSock == maxSock && this.maxLoad == maxLoad
      ensures forall k :: Map(k) == None
    {
      this.hash, this.sockHash, this.maxConn, this.maxSock, this.maxLoad := hash, sockHash, maxConn, maxSock, maxLoad;
      ticks := seq(slots, i => 0);
      conns := seq(CONN_BUCKETS, i => Bucket(0, []));
      sockChains := seq(SOCK_BUCKETS, i => []);
      curConn, curSock, socks, nextSid := 0, 0, map[], 0;
      new;
      EmptyTable(conns);
      EmptyChains(sockChains);
    }

    /** The control thread's turn. */
    method Tick(slots: seq<nat>)
      modifies `ticks
      ensures Later(old(ticks), ticks) && (slots == [] ==> ticks == old(ticks))
    {
      for i := 0 to |slots|
        invariant Later(old(ticks), ticks) && (slots == [] ==> ticks == old(ticks))
      {
        if slots[i] < |ticks| {
          ticks := ticks[slots[i] := ticks[slots[i]] + 1];
        }
      }
    }

    /** gazelle_conn_get_by_quintuple: the position of the live entry of the key. */
    method Get(key: Quintuple, env: Moves) returns (at: Option<nat>)
      requires GoodTable(hash, ticks, conns)
      modifies `ticks
      ensures Still(env) ==> ticks == old(ticks)
      ensures Later(old(ticks), ticks) && GoodTable(hash, ticks, conns)
      ensures at.None? ==> Map(key) == None
      ensures at.Some? ==> at.value < |Chain(key)| && Map(key) == Some(Chain(key)[at.value])
                           && Live(ticks, Chain(key)[at.value]) && Chain(key)[at.value].key == key
    {
      assert |conns| == CONN_BUCKETS && GoodChain(hash, ticks, conns[Home(hash, key)].chain, Home(hash, key));
      var chain := Chain(key);
      ghost var was := ticks;
      at := Search(chain, key, env);
      LaterTable(hash, was, ticks, conns);
      hide GoodTable, LiveFirst, AllSettled, Later, Lookup, Live;
      if at.Some? { LookupSome(ticks, chain, key, at.value); } else { LookupNone(ticks, chain, key); }
    }

    /** The walk along the chain. */
    method Search(chain: seq<Conn>, key: Quintuple, env: Moves) returns (at: Option<nat>)
      requires LiveFirst(ticks, chain) && AllSettled(ticks, chain)
      modifies `ticks
      ensures Still(env) ==> ticks == old(ticks)
      ensures Later(old(ticks), ticks) && LiveFirst(ticks, chain) && AllSettled(ticks, chain)
      ensures at.None? ==> forall i :: 0 <= i < |chain| && chain[i].key == key ==> !Live(ticks, chain[i])
      ensures at.Some? ==> at.value < |chain| && Live(ticks, chain[at.value]) && chain[at.value].key == key
    {
      hide LiveFirst, AllSettled, Live;
      for i := 0 to |chain|
        invariant Later(old(ticks), ticks) && LiveFirst(ticks, chain) && AllSettled(ticks, chain)
        invariant Still(env) ==> ticks == old(ticks)
        invariant forall j :: 0 <= j < i && chain[j].key == key ==> !Live(ticks, chain[j])
      {
        ghost var was := ticks;
        Tick(env(i));
        LaterChain(was, ticks, chain);
        if Live(ticks, chain[i]) && chain[i].key == key {
          return Some(i);
        }
      }
      return None;
    }

    /** gazelle_conn_del_by_quintuple. */
    method Del(key: Quintuple)
      requires GoodTable(hash, ticks, conns) && curConn == Total(conns)
      modifies `conns, `curConn
      ensures var b := Home(hash, key);
              var chain := DropFirst(old(conns)[b].chain, key);
              conns == old(conns)[b := Bucket(|chain|, chain)]
      ensures GoodTable(hash, ticks, conns) && curConn == Total(conns) && curConn <= old(curConn)
      ensures old(Map(key)).Some? ==> curConn == old(curConn) - 1
    {
      DeleteConn(hash, ticks, conns, key);
      FoundIsListed(hash, ticks, conns, key);
      var b, chain := Home(hash, key), Chain(key);
      var i := 0;
      while i < |chain| && chain[i].key != key
        invariant i <= FirstKey(chain, key)
      {
        i := i + 1;
      }
      if i < |chain| {
        conns := conns[b := Bucket(conns[b].size - 1, Without(chain, i))];
        curConn := curConn - 1;
      } else {
        assert conns[b := Bucket(|chain|, chain)] == conns;
      }
    }

    /** gazelle_conn_add_by_quintuple: the entry of the key if it is live, else a new one at the head, whose memory holds
        `junk` but for what is set here. */
    method Add(key: Quintuple, alloc: bool, junk: Conn, env: Moves) returns (at: Option<nat>)
      requires GoodTable(hash, ticks, conns) && curConn == Total(conns) <= maxConn
      modifies `conns, `curConn, `ticks
      ensures Still(env) ==> ticks == old(ticks)
      ensures |conns| == CONN_BUCKETS && Later(old(ticks), ticks) && GoodTable(hash, ticks, old(conns))
      ensures At(hash, ticks, old(conns), key).Some? ==>
                && at.Some? && at.value < |Chain(key)| && Some(Chain(key)[at.value]) == Map(key)
                && conns == old(conns) && curConn == old(curConn)
      ensures At(hash, ticks, old(conns), key).None? ==>
                if old(curConn) == maxConn || !alloc then at.None? && conns == old(conns) && curConn == old(curConn)
                else at == Some(0) && curConn == old(curConn) + 1
                     && conns == old(conns)[Home(hash, key) := Bucket(|old(Chain(key))| + 1,
                                   [junk.(key := key, tick := InitVal, reg := 0, sock := None)] + old(Chain(key)))]
    {
      at := Get(key, env);
      if at.Some? {
        return;
      }
      if curConn == maxConn || !alloc {
        return None;
      }
      var b := Home(hash, key);
      var conn := junk.(key := key, tick := InitVal, reg := 0, sock := None);
      conns := conns[b := Bucket(conns[b].size + 1, [conn] + conns[b].chain)];
      curConn := curConn + 1;
      return Some(0);
    }

    /** tcp_hash_table_del_conn: the live connection of the key is gone, and its sock has one less. */
    method TcpHashTableDelConn(key: Quintuple, env: Moves)
      requires Valid()
      modifies this
      ensures Valid() && Later(old(ticks), ticks) && sockChains == old(sockChains)
      ensures Map(key) == None && forall k :: k != key ==> Map(k) == At(hash, ticks, old(conns), k)
      ensures var was := At(hash, ticks, old(conns), key);
              if was.None? then conns == old(conns) && socks == old(socks)
              else socks == Uncount(old(socks), was.value.sock) && curConn == old(curConn) - 1
    {
      assert |conns| == CONN_BUCKETS;
      hide GoodTable, GoodSocks, Counted, Total, Lens, DropFirst, Lookup, At, Pointing, Live, Home, Later;
      ghost var was := ticks;
      var at := Get(key, env);
      LaterSocks(sockHash, was, ticks, socks, sockChains);
      if at.None? {
        return;
      }
      DelAt(key, at.value);
    }

    method DelAt(key: Quintuple, at: nat)
      requires Valid() && at < |Chain(key)| && Map(key) == Some(Chain(key)[at])
      modifies this
      ensures Valid() && ticks == old(ticks) && sockChains == old(sockChains)
      ensures Map(key) == None && forall k :: k != key ==> Map(k) == old(Map(k))
      ensures socks == Uncount(old(socks), old(Map(key)).value.sock) && curConn == old(curConn) - 1
    {
      assert |conns| == CONN_BUCKETS;
      hide GoodTable, GoodSocks, Counted, Total, Lens, DropFirst, Lookup, At, Pointing, Live, Home;
      var conn := Chain(key)[at];
      SockIsThere(conns, socks, Home(hash, key), at);
      Leave(conn.sock);
      hide Uncount;
      DelListed(key, old(socks));
    }

    method DelListed(key: Quintuple, ghost was: map<Sid, Sock>)
      requires GoodTable(hash, ticks, conns) && curConn == Total(conns) && Map(key).Some? && Counted(conns, was)
      modifies `conns, `curConn
      ensures GoodTable(hash, ticks, conns) && curConn == Total(conns) == old(curConn) - 1
      ensures Map(key) == None && forall k :: k != key ==> Map(k) == old(Map(k))
      ensures Counted(conns, Uncount(was, old(Map(key)).value.sock))
    {
      assert |conns| == CONN_BUCKETS;
      hide GoodTable, Counted, Total, DropFirst, Lookup, At, Pointing, Home, Uncount;
      DeleteConn(hash, ticks, conns, key);
      DeleteCounted(hash, ticks, conns, was, key);
      Del(key);
    }

    /** The guarded decrement. */
    method Leave(sock: Option<Sid>)
      requires sock.Some? ==> sock.value in socks && socks[sock.value].conNum > 0
      requires GoodSocks(sockHash, ticks, socks, sockChains)
      modifies `socks
      ensures socks == Uncount(old(socks), sock) && GoodSocks(sockHash, ticks, socks, sockChains)
      ensures forall id :: id in socks <==> id in old(socks)
    {
      hide GoodSocks;
      if sock.Some? {
        var s := socks[sock.value];
        if s.conNum > 0 {
          socks := socks[sock.value := s.(conNum := s.conNum - 1)];
        }
      }
      CountsGood(sockHash, ticks, old(socks), socks, sockChains);
    }

    /** tcp_hash_table_add_conn, for a stack with its ticks; `mid` are the ticks when the key has been looked up. */
    method TcpHashTableAddConn(stack: Stack, key: Quintuple, tid: nat, alloc: bool, junk: Conn, env: Phases)
      returns (ghost mid: seq<int>)
      requires Valid() && Settled(ticks, stack.tick, stack.reg)
      modifies this
      ensures Valid() && Later(old(ticks), mid) && Later(mid, ticks) && socks == old(socks) && sockChains == old(sockChains)
      ensures forall k :: k != key ==> Map(k) == At(hash, ticks, old(conns), k)
      ensures var was := At(hash, mid, old(conns), key);
              if was.Some? && was.value.timeout >= 0 then Map(key) == Some(was.value.(timeout := -1)) && ticks == mid
              else if !alloc || (was.None? && old(curConn) == maxConn) || !IsOn(ticks, stack.tick, stack.reg) then Map(key) == None
              else Map(key) == Some(Conn(key, tid, stack.tick, stack.reg, -1, None, stack.id))
    {
      assert |conns| == CONN_BUCKETS;
      hide GoodTable, GoodSocks, Counted, Total, Lens, DropFirst, Settled, IsOn, Lookup, At, Pointing, Home, Later;
      ghost var before := ticks;
      var at := Get(key, env(0));
      mid := ticks;
      LaterSocks(sockHash, before, ticks, socks, sockChains);
      OnBefore(before, ticks, stack.tick, stack.reg);
      LaterSelf(ticks);
      if at.Some? && Chain(key)[at.value].timeout >= 0 {
        ClearTimeout(key, at.value);
        return;
      }
      ReAdd(Conn(key, tid, stack.tick, stack.reg, -1, None, stack.id), at.Some?, alloc, junk, env(1));
    }

    /** A live entry is deleted, and a new one is added. */
    method ReAdd(conn: Conn, found: bool, alloc: bool, junk: Conn, env: Moves)
      requires Valid() && Settled(ticks, conn.tick, conn.reg) && conn.sock.None? && (found <==> Map(conn.key).Some?)
      modifies this
      ensures Valid() && Later(old(ticks), ticks) && socks == old(socks) && sockChains == old(sockChains)
      ensures forall k :: k != conn.key ==> Map(k) == At(hash, ticks, old(conns), k)
      ensures Map(conn.key) == if !alloc || (!found && old(curConn) == maxConn) || !Live(ticks, conn) then None else Some(conn)
    {
      assert |conns| == CONN_BUCKETS;
      hide GoodTable, GoodSocks, Counted, Total, Lens, DropFirst, Settled, Live, Lookup, At, Pointing, Home, Later, Still;
      ghost var mid, was := ticks, conns;
      if found {
        DeleteConn(hash, ticks, conns, conn.key);
        Del(conn.key);
        FewerCounted(was, conns, socks);
      }
      ghost var cleared := conns;
      var _ := AddNew(conn, alloc, junk, env);
      LaterSocks(sockHash, mid, ticks, socks, sockChains);
      SameLater(hash, mid, ticks, was, cleared, conn.key);
    }

    method ClearTimeout(key: Quintuple, at: nat)
      requires GoodTable(hash, ticks, conns) && Counted(conns, socks)
      requires at < |Chain(key)| && Live(ticks, Chain(key)[at]) && Chain(key)[at].key == key
      modifies `conns
      ensures GoodTable(hash, ticks, conns) && Counted(conns, socks) && Total(conns) == Total(old(conns))
      ensures Map(key) == Some(old(Chain(key))[at].(timeout := -1)) && forall k :: k != key ==> Map(k) == old(Map(k))
    {
      assert |conns| == CONN_BUCKETS;
      hide GoodTable, Counted, Total, Lookup, Pointing;
      var b, conn := Home(hash, key), Chain(key)[at];
      WriteConn(hash, ticks, conns, at, conn.(timeout := -1));
      conns := conns[b := Bucket(conns[b].size, conns[b].chain[at := conn.(timeout := -1)])];
      FewerCounted(old(conns), conns, socks);
    }

    /** Add the key, which has no live entry, and fill in the new entry. */
    method AddFilled(conn: Conn, alloc: bool, junk: Conn, env: Moves) returns (ok: bool)
      requires GoodTable(hash, ticks, conns) && curConn == Total(conns) <= maxConn && Map(conn.key) == None
      modifies `conns, `curConn, `ticks
      ensures Still(env) ==> ticks == old(ticks)
      ensures Later(old(ticks), ticks) && ok == (old(curConn) != maxConn && alloc)
      ensures GoodTable(hash, ticks, old(conns)) && At(hash, ticks, old(conns), conn.key) == None
      ensures !ok ==> conns == old(conns) && curConn == old(curConn)
      ensures var b, was := Home(hash, conn.key), old(conns);
              ok ==> conns == was[b := Bucket(|was[b].chain| + 1, [conn] + was[b].chain)] && curConn == old(curConn) + 1
    {
      assert |conns| == CONN_BUCKETS;
      hide GoodTable, Total, Lookup, Later;
      ghost var chain, was, before := Chain(conn.key), conns, ticks;
      var b := Home(hash, conn.key);
      var at := Add(conn.key, alloc, junk, env);
      LaterTable(hash, before, ticks, was);
      if at.None? {
        return false;
      }
      assert conns[b].chain[0 := conn] == [conn] + chain;
      conns := conns[b := Bucket(conns[b].size, conns[b].chain[at.value := conn])];
      return true;
    }

    /** The same, with the sock of the connection counting it. */
    method AddNew(conn: Conn, alloc: bool, junk: Conn, env: Moves) returns (ok: bool)
      requires GoodTable(hash, ticks, conns) && curConn == Total(conns) <= maxConn && Map(conn.key) == None
      requires Settled(ticks, conn.tick, conn.reg) && Counted(conns, socks)
      requires conn.sock.Some? ==> conn.sock.value in socks
      modifies `conns, `curConn, `socks, `ticks
      ensures Still(env) ==> ticks == old(ticks)
      ensures GoodTable(hash, ticks, conns) && curConn == Total(conns) <= maxConn && Counted(conns, socks)
      ensures Later(old(ticks), ticks) && ok == (old(curConn) != maxConn && alloc)
      ensures forall k :: k != conn.key ==> Map(k) == At(hash, ticks, old(conns), k)
      ensures Map(conn.key) == if ok && Live(ticks, conn) then Some(conn) else None
      ensures socks == if ok then Count(old(socks), conn.sock) else old(socks)
    {
      assert |conns| == CONN_BUCKETS;
      hide GoodTable, Counted, Total, Settled, Live, Lookup, Pointing, Later, Still, At;
      ghost var before := ticks;
      ok := AddFilled(conn, alloc, junk, env);
      if !ok {
        return;
      }
      OnBefore(before, ticks, conn.tick, conn.reg);
      InsertConn(hash, ticks, old(conns), conn);
      InsertCounted(hash, ticks, old(conns), socks, conn);
      if conn.sock.Some? {
        var sock := socks[conn.sock.value];
        socks := socks[conn.sock.value := sock.(conNum := sock.conNum + 1)];
      }
    }

    /** gazelle_sock_get_by_min_conn: a live listener of the address, if one has less connections than the limit, with no
        more than any that is still live at the end. */
    method SockGetByMinConn(ip: nat, port: nat, env: Moves) returns (best: Option<Sid>)
      requires GoodSocks(sockHash, ticks, socks, sockChains)
      modifies `ticks
      ensures Still(env) ==> ticks == old(ticks)
      ensures Later(old(ticks), ticks) && GoodSocks(sockHash, ticks, socks, sockChains)
      ensures best.None? ==> forall id :: Listens(ticks, socks, id, ip, port) ==> socks[id].conNum >= maxLoad
      ensures best.Some? ==> Listens(old(ticks), socks, best.value, ip, port) && socks[best.value].conNum < maxLoad
                             && forall id :: Listens(ticks, socks, id, ip, port) ==> socks[best.value].conNum <= socks[id].conNum
    {
      var b := SockHome(sockHash, ip, port);
      var chain := sockChains[b];
      ghost var was := ticks;
      ChainOfSocks(sockHash, ticks, socks, sockChains, ip, port);
      hide GoodSocks, IsOn, Later, SockHome;
      var minCon := maxLoad;
      best := None;
      LaterSelf(ticks);
      for i := 0 to |chain|
        invariant Later(was, ticks) && GoodSocks(sockHash, ticks, socks, sockChains)
        invariant Still(env) ==> ticks == was
        invariant best.None? ==> minCon == maxLoad
        invariant best.Some? ==> Listens(was, socks, best.value, ip, port) && socks[best.value].conNum == minCon < maxLoad
        invariant forall j :: 0 <= j < i && Listens(ticks, socks, chain[j], ip, port) ==> socks[chain[j]].conNum >= minCon
      {
        ghost var before := ticks;
        Tick(env(i));
        LaterSocks(sockHash, before, ticks, socks, sockChains);
        LaterTrans(was, before, ticks);
        LaterSocks(sockHash, was, ticks, socks, sockChains);
        var sock := socks[chain[i]];
        if IsOn(ticks, sock.tick, sock.reg) && sock.port == port && sock.ip == ip && sock.conNum < minCon {
          best, minCon := Some(chain[i]), sock.conNum;
        }
      }
      forall id | Listens(ticks, socks, id, ip, port) ensures socks[id].conNum >= minCon {
        assert id in chain;
      }
    }

    /** The table part of tcp_handle: the stack that gets the packet, and a connection for it; `mid` are the ticks when the
        key has been looked up, `best` is the sock the connection counts at. */
    method TcpHandle(key: Quintuple, alloc: bool, junk: Conn, env: Phases)
      returns (stack: Option<nat>, ghost mid: seq<int>, ghost best: Option<Sid>)
      requires Valid()
      modifies this
      ensures Still(env(0)) && Still(env(1)) && Still(env(2)) ==> ticks == mid == old(ticks)
      ensures Valid() && Later(old(ticks), mid) && Later(mid, ticks) && sockChains == old(sockChains)
      ensures forall k :: k != key ==> Map(k) == At(hash, ticks, old(conns), k)
      ensures var was := At(hash, mid, old(conns), key);
              if was.Some? then
                stack == Some(was.value.stack) && conns == old(conns) && socks == old(socks) && ticks == mid
              else if stack.Some? then
                && best.Some? && Listens(mid, old(socks), best.value, key.dstIp, key.dstPort)
                && var sock := old(socks)[best.value];
                   var conn := Conn(key, sock.tid, sock.tick, sock.reg, CONN_TIMEOUT, best, sock.stack);
                && stack.value == sock.stack && sock.conNum < maxLoad && socks == Count(old(socks), best)
                && Map(key) == (if Live(ticks, conn) then Some(conn) else None)
                && forall id :: Listens(ticks, old(socks), id, key.dstIp, key.dstPort) ==> sock.conNum <= old(socks)[id].conNum
              else
                && Map(key) == None && socks == old(socks)
                && (!alloc || old(curConn) == maxConn
                    || forall id :: Listens(ticks, old(socks), id, key.dstIp, key.dstPort) ==> old(socks)[id].conNum >= maxLoad)
    {
      assert |conns| == CONN_BUCKETS;
      hide GoodTable, GoodSocks, Counted, Total, Lens, Settled, Lookup, Pointing, Later, IsOn;
      ghost var before := ticks;
      best := None;
      var at := Get(key, env(0));
      mid := ticks;
      LaterSocks(sockHash, before, ticks, socks, sockChains);
      LaterSelf(ticks);
      if at.Some? {
        return Some(Chain(key)[at.value].stack), mid, best;
      }
      stack, best := HandleNew(key, alloc, junk, env);
    }

    /** The rest of it for a key without a live entry. */
    method HandleNew(key: Quintuple, alloc: bool, junk: Conn, env: Phases) returns (stack: Option<nat>, best: Option<Sid>)
      requires Valid() && Map(key) == None
      modifies this
      ensures Still(env(1)) && Still(env(2)) ==> ticks == old(ticks)
      ensures Valid() && Later(old(ticks), ticks) && sockChains == old(sockChains)
      ensures forall k :: k != key ==> Map(k) == At(hash, ticks, old(conns), k)
      ensures stack.Some? ==>
                && best.Some? && Listens(old(ticks), old(socks), best.value, key.dstIp, key.dstPort)
                && var sock := old(socks)[best.value];
                   var conn := Conn(key, sock.tid, sock.tick, sock.reg, CONN_TIMEOUT, best, sock.stack);
                && stack.value == sock.stack && sock.conNum < maxLoad && socks == Count(old(socks), best)
                && Map(key) == (if Live(ticks, conn) then Some(conn) else None)
                && forall id :: Listens(ticks, old(socks), id, key.dstIp, key.dstPort) ==> sock.conNum <= old(socks)[id].conNum
      ensures stack.None? ==>
                && Map(key) == None && socks == old(socks)
                && (!alloc || old(curConn) == maxConn
                    || forall id :: Listens(ticks, old(socks), id, key.dstIp, key.dstPort) ==> old(socks)[id].conNum >= maxLoad)
    {
      assert |conns| == CONN_BUCKETS;
      hide GoodTable, GoodSocks, Counted, Total, Lens, Settled, Lookup, Pointing, Later, IsOn, Still, At, Home;
      ghost var before := ticks;
      best := SockGetByMinConn(key.dstIp, key.dstPort, env(1));
      ghost var chosen := ticks;
      LaterTable(hash, before, ticks, conns);
      if best.None? {
        return None, best;
      }
      var sock := socks[best.value];
      SockSettled(sockHash, ticks, socks, sockChains, best.value);
      ghost var was := socks;
      var ok := AddNew(Conn(key, sock.tid, sock.tick, sock.reg, CONN_TIMEOUT, best, sock.stack), alloc, junk, env(2));
      LaterTrans(before, chosen, ticks);
      LaterSocks(sockHash, chosen, ticks, was, sockChains);
      CountsGood(sockHash, ticks, was, socks, sockChains);
      return if ok then Some(sock.stack) else None, best;
    }

    // ----- the periodic scans -----

    /** gazelle_delete_aging_conn on one chain, removing entries while it walks.  The unguarded decrement of tcp_con_num
        never goes below zero. */
    method AgeChain(b: nat)
      requires b < |conns| == CONN_BUCKETS && Counted(conns, socks) && curConn == Total(conns)
      requires conns[b].size == |conns[b].chain|
      modifies `conns, `curConn, `socks
      ensures conns == old(conns)[b := Bucket(|Age(old(conns)[b].chain)|, Age(old(conns)[b].chain))]
      ensures Counted(conns, socks) && curConn == Total(conns) <= old(curConn) && SameButCounts(old(socks), socks)
    {
      hide Counted, Total, Age, AgedTo, SameButCounts, Without;
      ghost var chain, i := conns[b].chain, 0;
      AgeNothing(chain);
      CountsSame(socks);
      var pos: nat := 0;
      while pos < |conns[b].chain|
        invariant |conns| == CONN_BUCKETS && AgedTo(i, chain, conns[b].chain, pos)
        invariant conns == old(conns)[b := Bucket(|conns[b].chain|, conns[b].chain)]
        invariant Counted(conns, socks) && curConn == Total(conns) <= old(curConn) && SameButCounts(old(socks), socks)
        decreases |chain| - i
      {
        AgeNext(i, chain, conns[b].chain, pos);
        i := i + 1;
        pos := AgeEntry(b, pos, old(socks));
      }
      AgedWhole(i, chain, conns[b].chain, pos);
    }

    /** One round of the walk: the position it goes on at. */
    method AgeEntry(b: nat, pos: nat, ghost was: map<Sid, Sock>) returns (next: nat)
      requires b < |conns| && pos < |conns[b].chain| && Counted(conns, socks) && curConn == Total(conns)
      requires conns[b].size == |conns[b].chain| && SameButCounts(was, socks)
      modifies `conns, `curConn, `socks
      ensures var conn, chain := old(conns)[b].chain[pos], old(conns)[b].chain;
              var aged := conn.(timeout := conn.timeout - 1);
              var r := if conn.timeout < 0 then chain else if conn.timeout - 1 > 0 then chain[pos := aged] else Without(chain[pos := aged], pos);
              conns == old(conns)[b := Bucket(|r|, r)] && next == if AgeConn(conn).Some? then pos + 1 else pos
      ensures Counted(conns, socks) && curConn == Total(conns) <= old(curConn) && SameButCounts(was, socks)
    {
      hide Counted, Total, SameButCounts;
      var conn := conns[b].chain[pos];
      if conn.timeout < 0 {
        return pos + 1;
      }
      ChangeCounted(conns, socks, b, pos, conn.(timeout := conn.timeout - 1));
      conns := conns[b := Bucket(conns[b].size, conns[b].chain[pos := conn.(timeout := conn.timeout - 1)])];
      if conn.timeout - 1 > 0 {
        return pos + 1;
      }
      ghost var before := socks;
      Remove(b, pos);
      CountsTrans(was, before, socks);
      return pos;
    }

    /** Unlink an entry and count it down at its sock. */
    method Remove(b: nat, pos: nat)
      requires b < |conns| && pos < |conns[b].chain| && Counted(conns, socks) && curConn == Total(conns)
      modifies `conns, `curConn, `socks
      ensures conns == old(conns)[b := Bucket(old(conns)[b].size - 1, Without(old(conns)[b].chain, pos))]
      ensures Counted(conns, socks) && curConn == Total(conns) <= old(curConn) && SameButCounts(old(socks), socks)
    {
      hide Counted, Total;
      var conn := conns[b].chain[pos];
      LeaveCounted(conns, socks, b, pos);
      conns := conns[b := Bucket(conns[b].size - 1, Without(conns[b].chain, pos))];
      curConn := curConn - 1;
      if conn.sock.Some? {
        assert socks[conn.sock.value].conNum > 0;
        socks := socks[conn.sock.value := socks[conn.sock.value].(conNum := socks[conn.sock.value].conNum - 1)];
      }
    }

    /** gazelle_delete_aging_conn. */
    method DeleteAgingConn()
      requires Valid()
      modifies `conns, `curConn, `socks
      ensures Valid() && SameButCounts(old(socks), socks) && forall k :: Map(k) == Aged(old(Map(k)))
    {
      assert |conns| == CONN_BUCKETS;
      hide Counted, Total, GoodSocks, Lens, Age, GoodTable, Lookup, AgedUpTo, SameButCounts;
      AgedNone(conns);
      CountsSame(socks);
      for b := 0 to CONN_BUCKETS
        invariant |conns| == CONN_BUCKETS && Counted(conns, socks) && curConn == Total(conns) <= maxConn
        invariant SameButCounts(old(socks), socks)
        invariant AgedUpTo(old(conns), conns, b)
      {
        ghost var before := socks;
        AgedNext(hash, ticks, old(conns), conns, b);
        AgeChain(b);
        CountsTrans(old(socks), before, socks);
      }
      AgedAll(old(conns), conns);
      AgeTable(hash, ticks, old(conns), conns);
      CountsGood(sockHash, ticks, old(socks), socks, sockChains);
    }

    /** gazelle_detect_conn_logout on one chain; looks[i] are the ticks when its entry i is looked at. */
    method SweepChain(b: nat, env: Moves) returns (ghost looks: seq<seq<int>>)
      requires b < |conns| == CONN_BUCKETS && Counted(conns, socks) && curConn == Total(conns)
      requires conns[b].size == |conns[b].chain|
      modifies `conns, `curConn, `ticks
      ensures Later(old(ticks), ticks) && |looks| == |old(conns)[b].chain| && Between(old(ticks), looks, ticks)
      ensures var r := Sweep(looks, old(conns)[b].chain); conns == old(conns)[b := Bucket(|r|, r)]
      ensures Counted(conns, socks) && curConn == Total(conns) <= old(curConn)
    {
      hide Counted, Total, Sweep, Live, Later, Between, SweptTo;
      ghost var chain := conns[b].chain;
      looks := [];
      SweepNothing(chain);
      LaterSelf(ticks);
      NoLooks(ticks);
      var pos := 0;
      while pos < |conns[b].chain|
        invariant |conns| == CONN_BUCKETS && SweptTo(looks, chain, conns[b].chain, pos)
        invariant conns == old(conns)[b := Bucket(|conns[b].chain|, conns[b].chain)]
        invariant Counted(conns, socks) && curConn == Total(conns) <= old(curConn)
        invariant Later(old(ticks), ticks) && Between(old(ticks), looks, ticks)
        decreases |conns[b].chain| - pos
      {
        SweptLeft(looks, chain, conns[b].chain, pos);
        ghost var before := ticks;
        Tick(env(pos));
        OneLook(old(ticks), looks, before, ticks);
        SweepNext(looks, chain, ticks, conns[b].chain, pos);
        looks := looks + [ticks];
        if Live(ticks, conns[b].chain[pos]) {
          pos := pos + 1;
        } else {
          RemoveStale(b, pos);
        }
      }
      SweptAll(looks, chain, conns[b].chain, pos);
    }

    /** Unlink an entry; its sock is gone or goes with it, and is not told. */
    method RemoveStale(b: nat, pos: nat)
      requires b < |conns| && pos < |conns[b].chain| && Counted(conns, socks) && curConn == Total(conns)
      modifies `conns, `curConn
      ensures conns == old(conns)[b := Bucket(old(conns)[b].size - 1, Without(old(conns)[b].chain, pos))]
      ensures Counted(conns, socks) && curConn == Total(conns) == old(curConn) - 1
    {
      hide Counted, Total;
      LeaveCounted(conns, socks, b, pos);
      conns := conns[b := Bucket(conns[b].size - 1, Without(conns[b].chain, pos))];
      curConn := curConn - 1;
    }

    /** gazelle_detect_conn_logout: no lookup sees a difference, and every entry that is left was live when it began. */
    method DetectConnLogout(env: Phases)
      requires Valid()
      modifies `conns, `curConn, `ticks
      ensures Valid() && Later(old(ticks), ticks) && forall k :: Map(k) == At(hash, ticks, old(conns), k)
      ensures AllLive(old(ticks), conns, |conns|)
    {
      assert |conns| == CONN_BUCKETS;
      hide GoodTable, Counted, Total, GoodSocks, Lens, Sweep, Lookup, Live, Later, Between, AllLive;
      ghost var was, first := conns, ticks;
      LaterSelf(ticks);
      NoneLive(ticks, conns);
      for b := 0 to CONN_BUCKETS
        invariant |conns| == CONN_BUCKETS && GoodTable(hash, ticks, conns) && GoodTable(hash, ticks, was) && Later(first, ticks)
        invariant Counted(conns, socks) && curConn == Total(conns) <= maxConn
        invariant forall k :: Map(k) == At(hash, ticks, was, k)
        invariant AllLive(first, conns, b) && conns[b..] == was[b..]
      {
        SweepOne(b, first, was, env(b));
      }
      LaterSocks(sockHash, first, ticks, socks, sockChains);
    }

    method SweepOne(b: nat, ghost first: seq<int>, ghost was: seq<Bucket>, env: Moves)
      requires b < |conns| == CONN_BUCKETS && GoodTable(hash, ticks, conns) && GoodTable(hash, ticks, was)
      requires Later(first, ticks) && GoodTable(hash, first, was) && conns[b] == was[b]
      requires Counted(conns, socks) && curConn == Total(conns) && AllLive(first, conns, b)
      requires forall k :: Map(k) == At(hash, ticks, was, k)
      modifies `conns, `curConn, `ticks
      ensures |conns| == CONN_BUCKETS && GoodTable(hash, ticks, conns) && GoodTable(hash, ticks, was) && Later(first, ticks)
      ensures Counted(conns, socks) && curConn == Total(conns) <= old(curConn)
      ensures AllLive(first, conns, b + 1) && conns[b + 1..] == old(conns)[b + 1..]
      ensures forall k :: Map(k) == At(hash, ticks, was, k)
    {
      assert conns[b].size == |conns[b].chain|;
      hide GoodTable, Counted, Total, Sweep, Lookup, Live, Later, Between, AllLive, GoodChain;
      ghost var before, bs := ticks, conns;
      ghost var looks := SweepChain(b, env);
      SweepTable(hash, before, looks, ticks, bs, b);
      LaterTable(hash, before, ticks, was);
      SameTables(hash, before, ticks, bs, was);
      LaterTrans(first, before, ticks);
      EarlierLooks(first, before, looks, ticks);
      WereLive(hash, first, looks, ticks, was, bs, b);
    }

    // ----- listeners -----

    /** recover_sock_info_from_conn on one chain: its matching entries, those without a sock now pointing to this one. */
    method RecoverChain(b: nat, id: Sid, ip: nat, port: nat, tid: nat) returns (count: nat)
      requires b < |conns|
      modifies `conns
      ensures conns == old(conns)[b := Bucket(old(conns)[b].size, Recover(old(conns)[b].chain, ip, port, tid, id))]
      ensures count == MatchCount(old(conns)[b].chain, ip, port, tid)
    {
      hide RecoveredTo, RecoverConn, Matches, Recover, MatchCount;
      ghost var chain := conns[b].chain;
      var i: nat := 0;
      count := 0;
      RecoverNothing(chain, ip, port, tid, id);
      while i < |conns[b].chain|
        invariant |conns| == |old(conns)| && RecoveredTo(chain, i, ip, port, tid, id, conns[b].chain, count)
        invariant conns == old(conns)[b := Bucket(old(conns)[b].size, conns[b].chain)]
        decreases |conns[b].chain| - i
      {
        RecoverNext(chain, i, ip, port, tid, id, conns[b].chain, count);
        var conn := conns[b].chain[i];
        if Matches(conn, ip, port, tid) {
          count := count + 1;
        }
        var next := RecoverOne(conn, ip, port, tid, id);
        conns := conns[b := Bucket(conns[b].size, conns[b].chain[i := next])];
        i := i + 1;
      }
      RecoveredWhole(chain, i, ip, port, tid, id, conns[b].chain, count);
    }

    static method RecoverOne(conn: Conn, ip: nat, port: nat, tid: nat, id: Sid) returns (next: Conn)
      ensures next == RecoverConn(conn, ip, port, tid, id)
    {
      next := conn;
      if Matches(conn, ip, port, tid) {
        if conn.sock.None? {
          next := conn.(sock := Some(id));
        }
      }
    }

    /** recover_sock_info_from_conn: it counts the matching connections, which are at least those that point to the new
        sock. */
    method RecoverSockInfo(id: Sid, ip: nat, port: nat, tid: nat) returns (count: nat)
      requires |conns| == CONN_BUCKETS && Pointing(conns, id) == 0
      modifies `conns
      ensures IsRecovered(old(conns), conns, ip, port, tid, id) && Total(conns) == Total(old(conns))
      ensures count == Matching(old(conns), ip, port, tid)
      ensures Pointing(conns, id) <= count && forall j :: j != id ==> Pointing(conns, j) == Pointing(old(conns), j)
    {
      hide Total, Pointing, Recover, MatchCount, Matching;
      count := 0;
      MatchingNone(conns, ip, port, tid);
      for b := 0 to CONN_BUCKETS
        invariant |conns| == CONN_BUCKETS && Total(conns) == Total(old(conns)) && count == Matching(old(conns)[..b], ip, port, tid)
        invariant Pointing(conns, id) <= count && forall j :: j != id ==> Pointing(conns, j) == Pointing(old(conns), j)
        invariant forall j :: 0 <= j < b ==> conns[j] == Bucket(old(conns)[j].size, Recover(old(conns)[j].chain, ip, port, tid, id))
        invariant forall j :: b <= j < CONN_BUCKETS ==> conns[j] == old(conns)[j]
      {
        ghost var was := conns;
        var n := RecoverChain(b, id, ip, port, tid);
        RecoverBucket(was, b, ip, port, tid, id);
        MatchingSnoc(old(conns), b, ip, port, tid);
        count := count + n;
      }
      assert old(conns)[..CONN_BUCKETS] == old(conns);
    }

    /** gazelle_sock_add_by_ipporttid: a live sock of the thread in the same chain, or a new one that has taken over the
        connections of its address. */
    method SockAdd(ip: nat, port: nat, tid: nat, alloc: bool, env: Moves) returns (r: Option<Sid>)
      requires Valid()
      modifies this
      ensures Still(env) ==> ticks == old(ticks)
      ensures Valid() && Later(old(ticks), ticks) && curConn == old(curConn)
      ensures r.None? ==> conns == old(conns) && socks == old(socks) && (!alloc || old(curSock) == maxSock)
      ensures r.None? || r.value !in old(socks) ==>
                forall id :: id in old(sockChains)[SockHome(sockHash, ip, port)] ==>
                  id in old(socks) && !(old(socks)[id].tid == tid && IsOn(ticks, old(socks)[id].tick, old(socks)[id].reg))
      ensures r.Some? && r.value in old(socks) ==>
                && conns == old(conns) && socks == old(socks)
                && socks[r.value].tid == tid && IsOn(ticks, socks[r.value].tick, socks[r.value].reg)
      ensures r.Some? && r.value !in old(socks) ==>
                && r.value in socks && curSock == old(curSock) + 1
                && socks == old(socks)[r.value := Sock(ip, port, tid, InitVal, 0, Matching(old(conns), ip, port, tid), 0)]
                && forall k :: Map(k) == Recovered(At(hash, ticks, old(conns), k), ip, port, tid, r.value)
    {
      hide GoodTable, GoodSocks, Counted, Total, Lens, Lookup, Pointing, IsOn, Later, SockHome, Matching;
      ghost var before := ticks;
      r := FindByTid(SockHome(sockHash, ip, port), tid, env);
      LaterTable(hash, before, ticks, conns);
      if r.Some? {
        return;
      }
      if curSock == maxSock || !alloc {
        return None;
      }
      var id := NewSock(ip, port, tid);
      return Some(id);
    }

    method FindByTid(b: nat, tid: nat, env: Moves) returns (r: Option<Sid>)
      requires GoodSocks(sockHash, ticks, socks, sockChains) && b < SOCK_BUCKETS
      modifies `ticks
      ensures Still(env) ==> ticks == old(ticks)
      ensures Later(old(ticks), ticks) && GoodSocks(sockHash, ticks, socks, sockChains) && |sockChains| == SOCK_BUCKETS
      ensures r.Some? ==> r.value in socks && socks[r.value].tid == tid && IsOn(ticks, socks[r.value].tick, socks[r.value].reg)
      ensures r.None? ==> forall id :: id in sockChains[b] ==>
                id in socks && !(socks[id].tid == tid && IsOn(ticks, socks[id].tick, socks[id].reg))
    {
      var chain := sockChains[b];
      assert forall i :: 0 <= i < |chain| ==> chain[i] in socks;
      hide GoodSocks, IsOn, Later;
      LaterSelf(ticks);
      for i := 0 to |chain|
        invariant Later(old(ticks), ticks) && GoodSocks(sockHash, ticks, socks, sockChains)
        invariant Still(env) ==> ticks == old(ticks)
        invariant forall k :: 0 <= k < i ==> var s := socks[chain[k]]; !(s.tid == tid && IsOn(ticks, s.tick, s.reg))
      {
        ghost var before := ticks;
        Tick(env(i));
        LaterSocks(sockHash, before, ticks, socks, sockChains);
        LaterTrans(old(ticks), before, ticks);
        var sock := socks[chain[i]];
        if sock.tid == tid && IsOn(ticks, sock.tick, sock.reg) {
          return Some(chain[i]);
        }
      }
      return None;
    }

    /** Allocate a sock, put it at the head of its chain, and recover. */
    method NewSock(ip: nat, port: nat, tid: nat) returns (id: Sid)
      requires Valid() && curSock < maxSock
      modifies this
      ensures Valid() && ticks == old(ticks) && id !in old(socks) && curSock == old(curSock) + 1 && curConn == old(curConn)
      ensures socks == old(socks)[id := Sock(ip, port, tid, InitVal, 0, Matching(old(conns), ip, port, tid), 0)]
      ensures forall k :: Map(k) == Recovered(old(Map(k)), ip, port, tid, id)
    {
      assert |conns| == CONN_BUCKETS && |sockChains| == SOCK_BUCKETS;
      hide GoodTable, GoodSocks, Counted, Total, Lens, Lookup, Pointing, IsRecovered, SockHome, Matching;
      id := nextSid;
      var b := SockHome(sockHash, ip, port);
      var sock := Sock(ip, port, tid, InitVal, 0, 0, 0);
      InsertSock(sockHash, ticks, socks, sockChains, id, sock);
      NobodyPoints(conns, socks, id);
      LinkSock(b, id, sock);
      var count := RecoverSockInfo(id, ip, port, tid);
      RecoverTable(hash, ticks, old(conns), conns, ip, port, tid, id);
      WriteSock(sockHash, ticks, socks, sockChains, id, sock.(conNum := count));
      NewSockCounted(old(conns), conns, old(socks), id, sock.(conNum := count));
      assert socks[id := sock.(conNum := count)] == old(socks)[id := sock.(conNum := count)];
      socks := socks[id := socks[id].(conNum := count)];
    }

    method LinkSock(b: nat, id: Sid, sock: Sock)
      requires b < |sockChains| && nextSid == id
      modifies `socks, `sockChains, `curSock, `nextSid
      ensures socks == old(socks)[id := sock] && sockChains == old(sockChains)[b := [id] + old(sockChains)[b]]
      ensures curSock == old(curSock) + 1 && nextSid == id + 1
    {
      nextSid := nextSid + 1;
      socks := socks[id := sock];
      sockChains := sockChains[b := [id] + sockChains[b]];
      curSock := curSock + 1;
    }

    /** A listen message of a stack: its sock gets the ticks and the stack. */
    method Listen(stack: Stack, ip: nat, port: nat, tid: nat, alloc: bool, env: Moves) returns (r: Option<Sid>)
      requires Valid() && Settled(ticks, stack.tick, stack.reg)
      modifies this
      ensures Still(env) ==> ticks == old(ticks)
      ensures Valid() && Later(old(ticks), ticks) && curConn == old(curConn)
      ensures r.None? ==> conns == old(conns) && socks == old(socks) && (!alloc || old(curSock) == maxSock)
      ensures r.Some? && r.value in old(socks) ==>
                && conns == old(conns) && old(socks)[r.value].tid == tid
                && socks == old(socks)[r.value := old(socks)[r.value].(tick := stack.tick, reg := stack.reg, stack := stack.id)]
      ensures r.Some? && r.value !in old(socks) ==>
                && socks == old(socks)[r.value := Sock(ip, port, tid, stack.tick, stack.reg, Matching(old(conns), ip, port, tid), stack.id)]
                && forall k :: Map(k) == Recovered(At(hash, ticks, old(conns), k), ip, port, tid, r.value)
    {
      hide GoodTable, GoodSocks, Counted, Total, Lens, Settled, Later, Lookup, SockHome, Matching, IsOn, Recovered;
      ghost var before := ticks;
      r := SockAdd(ip, port, tid, alloc, env);
      if r.Some? {
        OnBefore(before, ticks, stack.tick, stack.reg);
        var sock := socks[r.value].(reg := stack.reg, tick := stack.tick, stack := stack.id);
        WriteSock(sockHash, ticks, socks, sockChains, r.value, sock);
        TicksCounted(conns, socks, r.value, sock);
        socks := socks[r.value := sock];
      }
    }

    /** gazelle_sock_del_by_ipporttid: the first sock of the thread in the chain goes.  The tables stay right if and only if
        no connection points to it. */
    method SockDel(ip: nat, port: nat, tid: nat) returns (freed: Option<Sid>)
      requires Valid()
      modifies this
      ensures Shape() && ticks == old(ticks) && conns == old(conns)
      ensures freed.None? ==> socks == old(socks)
                              && forall id :: id in sockChains[SockHome(sockHash, ip, port)] ==> id in socks && socks[id].tid != tid
      ensures freed.Some? ==> freed.value in old(socks) && old(socks)[freed.value].tid == tid
                              && socks == old(socks) - {freed.value} && curSock == old(curSock) - 1
      ensures Counted(conns, socks) <==> freed.None? || Pointing(conns, freed.value) == 0
    {
      var b := SockHome(sockHash, ip, port);
      hide GoodTable, GoodSocks, Counted, Total, Lens, Pointing, SockHome;
      var i := FirstOfThread(b, tid);
      if i == |sockChains[b]| {
        return None;
      }
      var id := sockChains[b][i];
      FreeCounted(conns, socks, id);
      Unlink(b, i);
      return Some(id);
    }

    /** The walk along the chain, which looks at no tick. */
    method FirstOfThread(b: nat, tid: nat) returns (i: nat)
      requires GoodSocks(sockHash, ticks, socks, sockChains) && b < SOCK_BUCKETS
      ensures |sockChains| == SOCK_BUCKETS && i <= |sockChains[b]|
      ensures i < |sockChains[b]| ==> sockChains[b][i] in socks && socks[sockChains[b][i]].tid == tid
      ensures i == |sockChains[b]| ==> forall id :: id in sockChains[b] ==> id in socks && socks[id].tid != tid
    {
      var chain := sockChains[b];
      assert forall k :: 0 <= k < |chain| ==> chain[k] in socks;
      hide GoodSocks;
      i := 0;
      while i < |chain| && socks[chain[i]].tid != tid
        invariant i <= |chain| && forall k :: 0 <= k < i ==> socks[chain[k]].tid != tid
      {
        i := i + 1;
      }
    }

    /** gazelle_detect_sock_logout on one chain: its socks that are live at the end are left, and only such as were live
        before. */
    method SweepSocks(b: nat, env: Moves)
      requires Shape() && b < SOCK_BUCKETS
      modifies `socks, `sockChains, `curSock, `ticks
      ensures Shape() && Later(old(ticks), ticks) && Subset(old(socks), socks)
      ensures forall id :: id in old(socks) && id !in socks ==>
                HomeOf(sockHash, old(socks)[id]) == b && !OnAt(ticks, old(socks)[id])
      ensures forall id :: id in socks && HomeOf(sockHash, socks[id]) == b ==> OnAt(old(ticks), socks[id])
    {
      ghost var was, first, chains := socks, ticks, sockChains;
      assert |sockChains| == SOCK_BUCKETS;
      hide GoodTable, Counted, Total, Lens, Later, GoodSocks, OnAt, HomeOf, Subset;
      LaterSelf(ticks);
      SubsetSelf(socks);
      var i := 0;
      while i < |sockChains[b]|
        invariant Shape() && |sockChains| == SOCK_BUCKETS && i <= |sockChains[b]| && Later(first, ticks) && Subset(was, socks)
        invariant AllOn(first, was, sockChains[b][..i])
        invariant forall id :: id in was && id !in socks ==> HomeOf(sockHash, was[id]) == b && !OnAt(ticks, was[id])
        decreases |sockChains[b]| - i
      {
        ghost var before, left, id, on := ticks, socks, sockChains[b][i], sockChains[b][..i];
        var keep := SweepSock(b, i, env(i));
        LaterTrans(first, before, ticks);
        LaterSocks(sockHash, first, before, was, chains);
        LaterSocks(sockHash, first, ticks, was, chains);
        OffStays(sockHash, before, ticks, was, chains);
        SubsetStep(was, left, socks);
        if keep {
          WasOn(sockHash, first, ticks, was, chains, socks, id);
          OneMoreOn(first, was, on, id);
          assert sockChains[b][..i + 1] == on + [id];
          i := i + 1;
        }
      }
      assert sockChains[b][..i] == sockChains[b];
      SocksOfChain(sockHash, ticks, socks, sockChains, b);
      AllWereOn(first, was, socks, sockChains[b]);
    }

    /** One round of the walk. */
    method SweepSock(b: nat, i: nat, acts: seq<nat>) returns (keep: bool)
      requires Shape() && b < SOCK_BUCKETS == |sockChains| && i < |sockChains[b]|
      modifies `socks, `sockChains, `curSock, `ticks
      ensures Shape() && |sockChains| == SOCK_BUCKETS && Later(old(ticks), ticks)
      ensures var id := old(sockChains)[b][i];
              && id in old(socks)
              && if keep then socks == old(socks) && sockChains == old(sockChains) && OnAt(ticks, socks[id])
                 else socks == old(socks) - {id} && !OnAt(ticks, old(socks)[id]) && HomeOf(sockHash, old(socks)[id]) == b
                      && i <= |sockChains[b]| == |old(sockChains)[b]| - 1 && sockChains[b][..i] == old(sockChains)[b][..i]
    {
      hide GoodTable, Counted, Total, Lens, Later, GoodSocks;
      ghost var before := ticks;
      Tick(acts);
      LaterTable(hash, before, ticks, conns);
      LaterSocks(sockHash, before, ticks, socks, sockChains);
      SockOfChain(sockHash, ticks, socks, sockChains, b, i);
      var id := sockChains[b][i];
      var sock := socks[id];
      if IsOn(ticks, sock.tick, sock.reg) {
        return true;
      }
      Unlink(b, i);
      return false;
    }

    method Unlink(b: nat, i: nat)
      requires Shape() && b < SOCK_BUCKETS && i < |sockChains[b]|
      modifies `socks, `sockChains, `curSock
      ensures Shape() && socks == old(socks) - {old(sockChains)[b][i]} && curSock == old(curSock) - 1
      ensures sockChains == old(sockChains)[b := old(sockChains)[b][..i] + old(sockChains)[b][i + 1..]]
    {
      FreeSock(sockHash, ticks, socks, sockChains, b, i);
      hide GoodTable, GoodSocks, Total, Lens;
      var id := sockChains[b][i];
      sockChains := sockChains[b := sockChains[b][..i] + sockChains[b][i + 1..]];
      curSock := curSock - 1;
      socks := socks - {id};
    }

    /** gazelle_detect_sock_logout: the socks that are live at the end are left, and only such as were live before; and the
        tables stay right if and only if no connection points to one that is gone. */
    method DetectSockLogout(env: Phases)
      requires Valid()
      modifies `socks, `sockChains, `curSock, `ticks
      ensures Shape() && Later(old(ticks), ticks) && Subset(old(socks), socks)
      ensures forall id :: id in old(socks) ==>
                && (OnAt(ticks, old(socks)[id]) ==> id in socks)
                && (id in socks ==> OnAt(old(ticks), old(socks)[id]))
      ensures Counted(conns, socks) <==> forall id :: id in old(socks) && id !in socks ==> Pointing(conns, id) == 0
    {
      ghost var was, first, chains := socks, ticks, sockChains;
      hide GoodTable, GoodSocks, Counted, Total, Lens, Pointing, OnAt, HomeOf, Later, Subset;
      LaterSelf(ticks);
      SubsetSelf(socks);
      for b := 0 to SOCK_BUCKETS
        invariant Shape() && Later(first, ticks) && Subset(was, socks)
        invariant forall id :: id in was && id !in socks ==> HomeOf(sockHash, was[id]) < b && !OnAt(ticks, was[id])
        invariant forall id :: id in socks && HomeOf(sockHash, socks[id]) < b ==> OnAt(first, socks[id])
      {
        ghost var before, left := ticks, socks;
        SweepSocks(b, env(b));
        LaterTrans(first, before, ticks);
        LaterSocks(sockHash, first, before, was, chains);
        LaterSocks(sockHash, first, ticks, was, chains);
        OffStays(sockHash, before, ticks, was, chains);
        SubsetFacts(left, socks);
        SubsetStep(was, left, socks);
        WereOn(sockHash, first, before, was, chains, socks);
      }
      SubsetFacts(was, socks);
      HomeIsBucket(sockHash, socks);
      FreeManyCounted(conns, was, socks);
    }

    /** An instance logs in or out: its tick moves on. */
    method Bump(slot: nat)
      requires Valid() && slot < |ticks|
      modifies `ticks
      ensures Valid() && ticks == old(ticks)[slot := old(ticks)[slot] + 1] && Later(old(ticks), ticks)
      ensures forall k :: Map(k) ==
                match old(Map(k)) case None => None case Some(c) => if c.tick == Slot(slot) then None else Some(c)
    {
      assert |conns| == CONN_BUCKETS;
      BumpTable(hash, ticks, conns, slot);
      BumpSocks(sockHash, ticks, socks, sockChains, slot);
      hide GoodTable, GoodSocks, Counted, Total, Lens, Lookup;
      ticks := ticks[slot := ticks[slot] + 1];
    }

    /** Any sequence of operations, up to the first that frees a sock while a connection points to it, with ticks moving on
        before any load of a current tick.  Up to there the table is a map of live connections and every count covers the
        connections behind it. */
    method Serve(ops: seq<Op>, env: nat -> Phases) returns (done: nat)
      requires Valid()
      modifies this
      ensures done <= |ops| && Shape() && Later(old(ticks), ticks)
      ensures Counted(conns, socks) <==> done == |ops|
      ensures done < |ops| ==> ops[done].ListenClose? || ops[done].ScanSocks?
    {
      hide GoodTable, GoodSocks, Counted, Total, Lens, Lookup, Pointing, Settled, Later;
      ghost var first := ticks;
      LaterSelf(ticks);
      for i := 0 to |ops|
        invariant Valid() && Later(first, ticks)
      {
        ghost var before := ticks;
        if ops[i].ListenClose? || ops[i].ScanSocks? {
          var ok := FreeOp(ops[i], env(i));
          LaterTrans(first, before, ticks);
          if !ok { return i; }
        } else {
          KeepOp(ops[i], env(i));
          LaterTrans(first, before, ticks);
        }
      }
      return |ops|;
    }

    /** The operations that keep the tables right. */
    method KeepOp(op: Op, env: Phases)
      requires Valid() && !op.ListenClose? && !op.ScanSocks?
      modifies this
      ensures Valid() && Later(old(ticks), ticks)
    {
      hide GoodTable, GoodSocks, Counted, Total, Lens, Lookup, Pointing, Settled, Later;
      LaterSelf(ticks);
      match op {
        case PacketIn(key, alloc, junk) =>
          ghost var first := ticks;
          var _, mid, _ := TcpHandle(key, alloc, junk, env);
          LaterTrans(first, mid, ticks);
        case Connect(stack, key, tid, alloc, junk) =>
          if Settled(ticks, stack.tick, stack.reg) {
            ghost var first := ticks;
            ghost var mid := TcpHashTableAddConn(stack, key, tid, alloc, junk, env);
            LaterTrans(first, mid, ticks);
          }
        case ConnectClose(key) => TcpHashTableDelConn(key, env(0));
        case ListenOn(stack, ip, port, tid, alloc) =>
          if Settled(ticks, stack.tick, stack.reg) { var _ := Listen(stack, ip, port, tid, alloc, env(0)); }
        case AgeConns => DeleteAgingConn();
        case ScanConns => DetectConnLogout(env);
        case TickMoves(slot) => if slot < |ticks| { Bump(slot); }
      }
    }

    /** The operations that free socks. */
    method FreeOp(op: Op, env: Phases) returns (ok: bool)
      requires Valid() && (op.ListenClose? || op.ScanSocks?)
      modifies this
      ensures Shape() && Later(old(ticks), ticks) && (ok <==> Counted(conns, socks))
    {
      hide GoodTable, GoodSocks, Counted, Total, Lens, Lookup, Pointing, Later, OnAt;
      LaterSelf(ticks);
      if op.ListenClose? {
        var freed := SockDel(op.ip, op.port, op.tid);
        return freed.None? || Pointing(conns, freed.value) == 0;
      }
      ghost var was, bs := socks, conns;
      DetectSockLogout(env);
      var loose := AnyLoose();
      SubsetFacts(was, socks);
      LooseIsFreed(conns, was, socks);
      return !loose;
    }

    /** Does a connection point to a sock that is not in memory? */
    method AnyLoose() returns (loose: bool)
      ensures loose <==> exists id :: id !in socks && Pointing(conns, id) > 0
    {
      for b := 0 to |conns|
        invariant forall id :: id !in socks ==> Pointing(conns[..b], id) == 0
      {
        var chain := conns[b].chain;
        for i := 0 to |chain|
          invariant forall id :: id !in socks ==> PointingIn(chain[..i], id) == 0
        {
          assert chain[..i + 1][..i] == chain[..i];
          if chain[i].sock.Some? && chain[i].sock.value !in socks {
            PointingIsMember(chain, chain[i].sock.value);
            PointingSomewhere(conns, chain[i].sock.value);
            return true;
          }
        }
        assert chain[..|chain|] == chain && conns[..b + 1][..b] == conns[..b];
      }
      assert conns[..|conns|] == conns;
      return false;
    }
  }

  // ----- how the counts follow the table -----

  lemma FoundIsListed(hash: Quintuple -> nat, ticks: seq<int>, bs: seq<Bucket>, key: Quintuple)
    requires GoodTable(hash, ticks, bs)
    ensures bs[Home(hash, key)].size == |bs[Home(hash, key)].chain|
    ensures At(hash, ticks, bs, key).Some? ==> FirstKey(bs[Home(hash, key)].chain, key) < |bs[Home(hash, key)].chain|
  {
    var i := LookupFinds(ticks, bs[Home(hash, key)].chain, key);
  }

  /** The sock a listed connection points to is in memory and counts at least one. */
  lemma SockIsThere(bs: seq<Bucket>, socks: map<Sid, Sock>, b: nat, at: nat)
    requires Counted(bs, socks) && b < |bs| && at < |bs[b].chain|
    ensures var s := bs[b].chain[at].sock; s.Some? ==> s.value in socks && socks[s.value].conNum > 0
  {
    LeaveCounted(bs, socks, b, at);
    hide Counted;
  }

  lemma FewerCounted(a: seq<Bucket>, b: seq<Bucket>, socks: map<Sid, Sock>)
    requires Counted(a, socks) && forall id :: Pointing(b, id) <= Pointing(a, id)
    ensures Counted(b, socks)
  {
    hide Pointing;
  }

  /** A connection less for its sock. */
  lemma DeleteCounted(hash: Quintuple -> nat, ticks: seq<int>, bs: seq<Bucket>, socks: map<Sid, Sock>, key: Quintuple)
    requires GoodTable(hash, ticks, bs) && Counted(bs, socks) && At(hash, ticks, bs, key).Some?
    ensures var b := Home(hash, key);
            var chain := DropFirst(bs[b].chain, key);
            Counted(bs[b := Bucket(|chain|, chain)], Uncount(socks, At(hash, ticks, bs, key).value.sock))
  {
    DeleteConn(hash, ticks, bs, key);
    hide Pointing, GoodTable, DropFirst, Lookup;
  }

  /** A connection more for its sock. */
  lemma InsertCounted(hash: Quintuple -> nat, ticks: seq<int>, bs: seq<Bucket>, socks: map<Sid, Sock>, c: Conn)
    requires GoodTable(hash, ticks, bs) && Counted(bs, socks) && At(hash, ticks, bs, c.key) == None
    requires Settled(ticks, c.tick, c.reg) && (c.sock.Some? ==> c.sock.value in socks)
    ensures var b := Home(hash, c.key);
            var r := bs[b := Bucket(|bs[b].chain| + 1, [c] + bs[b].chain)];
            Counted(r, Count(socks, c.sock))
  {
    InsertConn(hash, ticks, bs, c);
    hide Pointing, GoodTable, Lookup;
  }

  /** The walk stands at `pos` and has aged the first i entries. */
  ghost predicate AgedTo(i: nat, chain: seq<Conn>, cur: seq<Conn>, pos: nat) {
    i <= |chain| && pos == |Age(chain[..i])| && cur == Age(chain[..i]) + chain[i..]
  }

  lemma AgeNothing(chain: seq<Conn>)
    ensures AgedTo(0, chain, chain, 0)
  {
    assert [] + chain[0..] == chain;
  }

  lemma AgeNext(i: nat, chain: seq<Conn>, cur: seq<Conn>, pos: nat)
    requires AgedTo(i, chain, cur, pos) && pos < |cur|
    ensures i < |chain|
    ensures var conn := cur[pos]; var aged := conn.(timeout := conn.timeout - 1);
            if conn.timeout < 0 then AgedTo(i + 1, chain, cur, pos + 1)
            else if conn.timeout - 1 > 0 then AgedTo(i + 1, chain, cur[pos := aged], pos + 1)
            else AgedTo(i + 1, chain, Without(cur[pos := aged], pos), pos)
  {
    assert i < |chain| by { hide Age; }
    AgeSnoc(chain, i);
    hide Age;
    assert cur[pos] == chain[i] && chain[i..][1..] == chain[i + 1..];
    AgeSteps(Age(chain[..i]), chain[i..]);
  }

  lemma AgedWhole(i: nat, chain: seq<Conn>, cur: seq<Conn>, pos: nat)
    requires AgedTo(i, chain, cur, pos) && pos >= |cur|
    ensures cur == Age(chain)
  {
    assert i == |chain| by { hide Age; }
    assert chain[..i] == chain && chain[i..] == [];
    hide Age;
    assert Age(chain) + [] == Age(chain);
  }

  /** The walk stands at `pos`: what is left of the entries it has looked at lies before, the others behind. */
  ghost predicate SweptTo(looks: seq<seq<int>>, chain: seq<Conn>, cur: seq<Conn>, pos: nat) {
    && |looks| <= |chain| && pos == |Sweep(looks, chain[..|looks|])|
    && cur == Sweep(looks, chain[..|looks|]) + chain[|looks|..]
  }

  lemma SweepNothing(chain: seq<Conn>)
    ensures SweptTo([], chain, chain, 0)
  {
    assert [] + chain[0..] == chain;
  }

  lemma SweptLeft(looks: seq<seq<int>>, chain: seq<Conn>, cur: seq<Conn>, pos: nat)
    requires SweptTo(looks, chain, cur, pos) && pos < |cur|
    ensures |looks| < |chain|
  {
    hide Sweep;
  }

  lemma SweptAll(looks: seq<seq<int>>, chain: seq<Conn>, cur: seq<Conn>, pos: nat)
    requires SweptTo(looks, chain, cur, pos) && pos >= |cur|
    ensures |looks| == |chain| && cur == Sweep(looks, chain)
  {
    assert |looks| == |chain| by { hide Sweep; }
    assert chain[..|chain|] == chain && chain[|chain|..] == [];
    hide Sweep;
    assert Sweep(looks, chain) + [] == Sweep(looks, chain);
  }

  /** The walk keeps or removes the entry at its position. */
  lemma SweepNext(looks: seq<seq<int>>, chain: seq<Conn>, look: seq<int>, cur: seq<Conn>, pos: nat)
    requires SweptTo(looks, chain, cur, pos) && |looks| < |chain|
    ensures pos < |cur|
    ensures if Live(look, cur[pos]) then SweptTo(looks + [look], chain, cur, pos + 1)
            else SweptTo(looks + [look], chain, Without(cur, pos), pos)
  {
    var i := |looks|;
    SweepSnoc(looks, chain, i, look);
    hide Sweep, Live;
    assert cur[pos] == chain[i] && chain[i..][1..] == chain[i + 1..];
    AgeSteps(Sweep(looks, chain[..i]), chain[i..]);
  }

  lemma NoLooks(ticks: seq<int>)
    ensures Between(ticks, [], ticks)
  {
  }

  lemma OneLook(a: seq<int>, looks: seq<seq<int>>, before: seq<int>, t: seq<int>)
    requires Later(a, before) && Later(before, t) && Between(a, looks, before)
    ensures Later(a, t) && Between(a, looks + [t], t)
  {
    LaterSelf(t);
    LaterTrans(a, before, t);
    forall i | 0 <= i < |looks| ensures Later(looks[i], t) { LaterTrans(looks[i], before, t); }
    hide Later;
  }

  lemma EarlierLooks(first: seq<int>, a: seq<int>, looks: seq<seq<int>>, t: seq<int>)
    requires Later(first, a) && Between(a, looks, t)
    ensures Between(first, looks, t)
  {
    forall i | 0 <= i < |looks| ensures Later(first, looks[i]) { LaterTrans(first, a, looks[i]); }
    hide Later;
  }

  // ----- ticks that move on -----

  lemma LaterSelf(a: seq<int>)
    ensures Later(a, a)
  {
  }

  lemma LaterTrans(a: seq<int>, b: seq<int>, c: seq<int>)
    requires Later(a, b) && Later(b, c)
    ensures Later(a, c)
  {
  }

  /** Two tables that agree at all other keys agree at them later, too. */
  lemma SameLater(hash: Quintuple -> nat, a: seq<int>, t: seq<int>, bs: seq<Bucket>, cs: seq<Bucket>, key: Quintuple)
    requires GoodTable(hash, a, bs) && GoodTable(hash, a, cs) && Later(a, t)
    requires forall k :: k != key ==> At(hash, a, cs, k) == At(hash, a, bs, k)
    ensures forall k :: k != key ==> At(hash, t, cs, k) == At(hash, t, bs, k)
  {
    LaterTable(hash, a, t, bs);
    LaterTable(hash, a, t, cs);
    hide GoodTable, Lookup, Later, Kept, At;
  }

  lemma SameTables(hash: Quintuple -> nat, a: seq<int>, t: seq<int>, bs: seq<Bucket>, cs: seq<Bucket>)
    requires GoodTable(hash, a, bs) && GoodTable(hash, a, cs) && Later(a, t)
    requires forall k :: At(hash, a, bs, k) == At(hash, a, cs, k)
    ensures forall k :: At(hash, t, bs, k) == At(hash, t, cs, k)
  {
    LaterTable(hash, a, t, bs);
    LaterTable(hash, a, t, cs);
    hide GoodTable, Lookup, Later, Kept, At;
  }

  /** The first n chains hold only entries that were live. */
  ghost predicate AllLive(t: seq<int>, bs: seq<Bucket>, n: nat) {
    forall b, i :: 0 <= b < |bs| && b < n && 0 <= i < |bs[b].chain| ==> Live(t, bs[b].chain[i])
  }

  lemma NoneLive(t: seq<int>, bs: seq<Bucket>)
    ensures AllLive(t, bs, 0)
  {
  }

  lemma WereLive(hash: Quintuple -> nat, first: seq<int>, looks: seq<seq<int>>, t: seq<int>, was: seq<Bucket>, bs: seq<Bucket>, b: nat)
    requires GoodTable(hash, first, was) && b < |bs| == CONN_BUCKETS == |was| && bs[b] == was[b] && AllLive(first, bs, b)
    requires Later(first, t) && |looks| == |bs[b].chain| && Between(first, looks, t)
    ensures var r := Sweep(looks, bs[b].chain); AllLive(first, bs[b := Bucket(|r|, r)], b + 1)
  {
    SweptGood(hash, first, looks, t, was[b].chain, b);
    hide GoodTable, GoodChain, Later, Between, Sweep, Live;
  }

  predicate OnAt(ticks: seq<int>, s: Sock) { IsOn(ticks, s.tick, s.reg) }

  function HomeOf(hash: (nat, nat) -> nat, s: Sock): nat { SockHome(hash, s.ip, s.port) }

  /** Some socks are gone, the others are as they were. */
  ghost predicate Subset(a: map<Sid, Sock>, b: map<Sid, Sock>) {
    forall id :: id in b ==> id in a && b[id] == a[id]
  }

  lemma SubsetSelf(a: map<Sid, Sock>)
    ensures Subset(a, a)
  {
  }

  lemma SubsetFacts(a: map<Sid, Sock>, b: map<Sid, Sock>)
    requires Subset(a, b)
    ensures forall id :: id in b ==> id in a && b[id] == a[id]
  {
  }

  lemma SubsetStep(a: map<Sid, Sock>, b: map<Sid, Sock>, c: map<Sid, Sock>)
    requires Subset(a, b) && forall id :: id in c ==> id in b && c[id] == b[id]
    ensures Subset(a, c) && forall id :: id in b ==> id in a && b[id] == a[id]
  {
  }

  /** What is off stays off. */
  lemma OffStays(hash: (nat, nat) -> nat, a: seq<int>, t: seq<int>, socks: map<Sid, Sock>, chains: seq<seq<Sid>>)
    requires GoodSocks(hash, a, socks, chains) && Later(a, t)
    ensures forall id :: id in socks && !OnAt(a, socks[id]) ==> !OnAt(t, socks[id])
  {
    LaterSocks(hash, a, t, socks, chains);
    hide GoodSocks, Later, IsOn;
  }

  lemma WasOn(hash: (nat, nat) -> nat, a: seq<int>, t: seq<int>, was: map<Sid, Sock>, chains: seq<seq<Sid>>,
              socks: map<Sid, Sock>, id: Sid)
    requires GoodSocks(hash, a, was, chains) && Later(a, t) && Subset(was, socks) && id in socks && OnAt(t, socks[id])
    ensures id in was && OnAt(a, was[id])
  {
    LaterSocks(hash, a, t, was, chains);
    hide GoodSocks, Later, IsOn;
  }

  lemma WereOn(hash: (nat, nat) -> nat, a: seq<int>, t: seq<int>, was: map<Sid, Sock>, chains: seq<seq<Sid>>, socks: map<Sid, Sock>)
    requires GoodSocks(hash, a, was, chains) && Later(a, t) && Subset(was, socks)
    ensures forall id :: id in socks && OnAt(t, socks[id]) ==> OnAt(a, socks[id])
  {
    LaterSocks(hash, a, t, was, chains);
    hide GoodSocks, Later, IsOn;
  }

  ghost predicate AllOn(t: seq<int>, socks: map<Sid, Sock>, ids: seq<Sid>) {
    forall k :: 0 <= k < |ids| ==> ids[k] in socks && OnAt(t, socks[ids[k]])
  }

  lemma OneMoreOn(t: seq<int>, socks: map<Sid, Sock>, ids: seq<Sid>, id: Sid)
    requires AllOn(t, socks, ids) && id in socks && OnAt(t, socks[id])
    ensures AllOn(t, socks, ids + [id])
  {
    hide OnAt;
  }

  lemma AllWereOn(t: seq<int>, was: map<Sid, Sock>, socks: map<Sid, Sock>, ids: seq<Sid>)
    requires AllOn(t, was, ids) && Subset(was, socks)
    ensures forall id :: id in socks && id in ids ==> OnAt(t, socks[id])
  {
    hide OnAt;
  }

  lemma SocksOfChain(hash: (nat, nat) -> nat, ticks: seq<int>, socks: map<Sid, Sock>, chains: seq<seq<Sid>>, b: nat)
    requires GoodSocks(hash, ticks, socks, chains) && b < SOCK_BUCKETS
    ensures |chains| == SOCK_BUCKETS && forall id :: id in socks && HomeOf(hash, socks[id]) == b ==> id in chains[b]
  {
    hide Settled, Distinct, SockHome;
  }

  lemma SockOfChain(hash: (nat, nat) -> nat, ticks: seq<int>, socks: map<Sid, Sock>, chains: seq<seq<Sid>>, b: nat, i: nat)
    requires GoodSocks(hash, ticks, socks, chains) && b < SOCK_BUCKETS == |chains| && i < |chains[b]|
    ensures chains[b][i] in socks && HomeOf(hash, socks[chains[b][i]]) == b
  {
    hide Settled, Distinct, SockHome;
  }

  lemma ChainOfSocks(hash: (nat, nat) -> nat, ticks: seq<int>, socks: map<Sid, Sock>, chains: seq<seq<Sid>>, ip: nat, port: nat)
    requires GoodSocks(hash, ticks, socks, chains)
    ensures |chains| == SOCK_BUCKETS && var chain := chains[SockHome(hash, ip, port)];
            && (forall i :: 0 <= i < |chain| ==> chain[i] in socks)
            && forall id :: id in socks && socks[id].ip == ip && socks[id].port == port ==> id in chain
  {
    hide Settled, Distinct, SockHome;
  }

  lemma HomeIsBucket(hash: (nat, nat) -> nat, socks: map<Sid, Sock>)
    ensures forall id :: id in socks ==> HomeOf(hash, socks[id]) < SOCK_BUCKETS
  {
  }

  lemma MatchingNone(bs: seq<Bucket>, ip: nat, port: nat, tid: nat)
    ensures Matching(bs[..0], ip, port, tid) == 0
  {
  }

  /** What keeping, changing or removing the entry at the walk's position does to the chain. */
  lemma AgeSteps(kept: seq<Conn>, rest: seq<Conn>)
    requires rest != []
    ensures var chain := kept + rest;
            && chain == (kept + [rest[0]]) + rest[1..]
            && Without(chain, |kept|) == (kept + []) + rest[1..]
            && forall c :: chain[|kept| := c] == (kept + [c]) + rest[1..] && Without(chain[|kept| := c], |kept|) == (kept + []) + rest[1..]
  {
  }

  /** The first n chains have been aged. */
  ghost predicate AgedUpTo(a: seq<Bucket>, r: seq<Bucket>, n: nat) {
    && |r| == |a|
    && (forall j :: 0 <= j < |a| && j < n ==> r[j] == Bucket(|Age(a[j].chain)|, Age(a[j].chain)))
    && (forall j :: n <= j < |a| ==> r[j] == a[j])
  }

  lemma AgedNone(a: seq<Bucket>)
    ensures AgedUpTo(a, a, 0)
  {
  }

  lemma AgedNext(hash: Quintuple -> nat, ticks: seq<int>, a: seq<Bucket>, r: seq<Bucket>, n: nat)
    requires GoodTable(hash, ticks, a) && AgedUpTo(a, r, n) && n < |a|
    ensures r[n].size == |r[n].chain| && AgedUpTo(a, r[n := Bucket(|Age(r[n].chain)|, Age(r[n].chain))], n + 1)
  {
    hide Age, GoodChain;
  }

  lemma AgedAll(a: seq<Bucket>, r: seq<Bucket>)
    requires AgedUpTo(a, r, |a|)
    ensures IsAged(a, r)
  {
  }

  lemma CountsSame(a: map<Sid, Sock>)
    ensures SameButCounts(a, a)
  {
  }

  lemma CountsTrans(a: map<Sid, Sock>, b: map<Sid, Sock>, c: map<Sid, Sock>)
    requires SameButCounts(a, b) && SameButCounts(b, c)
    ensures SameButCounts(a, c)
  {
  }

  lemma BumpSocks(hash: (nat, nat) -> nat, ticks: seq<int>, socks: map<Sid, Sock>, chains: seq<seq<Sid>>, slot: nat)
    requires GoodSocks(hash, ticks, socks, chains) && slot < |ticks|
    ensures GoodSocks(hash, ticks[slot := ticks[slot] + 1], socks, chains)
  {
    hide Distinct, SockHome;
  }

  /** The walk has looked at the first i entries. */
  ghost predicate RecoveredTo(chain: seq<Conn>, i: nat, ip: nat, port: nat, tid: nat, id: Sid, cur: seq<Conn>, count: nat) {
    i <= |chain| && count == MatchCount(chain[..i], ip, port, tid) && cur == Recover(chain[..i], ip, port, tid, id) + chain[i..]
  }

  lemma RecoverNothing(chain: seq<Conn>, ip: nat, port: nat, tid: nat, id: Sid)
    ensures RecoveredTo(chain, 0, ip, port, tid, id, chain, 0)
  {
    assert Recover(chain[..0], ip, port, tid, id) + chain[0..] == chain;
  }

  lemma RecoveredWhole(chain: seq<Conn>, i: nat, ip: nat, port: nat, tid: nat, id: Sid, cur: seq<Conn>, count: nat)
    requires RecoveredTo(chain, i, ip, port, tid, id, cur, count) && i >= |cur|
    ensures cur == Recover(chain, ip, port, tid, id) && count == MatchCount(chain, ip, port, tid)
  {
    assert |Recover(chain[..i], ip, port, tid, id)| == i;
    hide Recover, MatchCount;
    assert i == |chain| && chain[..i] == chain && chain[i..] == [];
    assert Recover(chain, ip, port, tid, id) + [] == Recover(chain, ip, port, tid, id);
  }

  /** The walk takes over the entry at its position, or leaves it. */
  lemma RecoverNext(chain: seq<Conn>, i: nat, ip: nat, port: nat, tid: nat, id: Sid, cur: seq<Conn>, count: nat)
    requires RecoveredTo(chain, i, ip, port, tid, id, cur, count) && i < |cur|
    ensures RecoveredTo(chain, i + 1, ip, port, tid, id, cur[i := RecoverConn(cur[i], ip, port, tid, id)],
                        if Matches(cur[i], ip, port, tid) then count + 1 else count)
  {
    assert |Recover(chain[..i], ip, port, tid, id)| == i;
    assert i < |chain| by { hide Recover; }
    RecoverSnoc(chain, i, ip, port, tid, id);
    hide Recover, MatchCount, RecoverConn, Matches;
    assert chain[i..][1..] == chain[i + 1..] && cur[i] == chain[i];
    AgeSteps(Recover(chain[..i], ip, port, tid, id), chain[i..]);
  }

  /** What points outside the memory points to what was freed. */
  lemma LooseIsFreed(bs: seq<Bucket>, was: map<Sid, Sock>, socks: map<Sid, Sock>)
    requires Counted(bs, was)
    ensures (exists id :: id !in socks && Pointing(bs, id) > 0) <==> exists id :: id in was && id !in socks && Pointing(bs, id) > 0
  {
    hide Pointing;
    if id :| id !in socks && Pointing(bs, id) > 0 { assert Pointing(bs, id) <= if id in was then was[id].conNum else 0; }
  }

  /** An address not handed out yet is not pointed to. */
  lemma NobodyPoints(bs: seq<Bucket>, socks: map<Sid, Sock>, id: Sid)
    requires Counted(bs, socks) && id !in socks
    ensures Pointing(bs, id) == 0
  {
    assert Pointing(bs, id) <= 0;
    hide Pointing;
  }

  lemma RecoverBucket(bs: seq<Bucket>, b: nat, ip: nat, port: nat, tid: nat, id: Sid)
    requires b < |bs|
    ensures var r := bs[b := Bucket(bs[b].size, Recover(bs[b].chain, ip, port, tid, id))];
            && Total(r) == Total(bs)
            && Pointing(r, id) <= Pointing(bs, id) + MatchCount(bs[b].chain, ip, port, tid)
            && forall j :: j != id ==> Pointing(r, j) == Pointing(bs, j)
  {
    var x := Bucket(bs[b].size, Recover(bs[b].chain, ip, port, tid, id));
    hide Total, Pointing, PointingIn, MatchCount;
    TotalUpdate(bs, b, x);
    PointingUpdate(bs, b, x, id);
    RecoverPointing(bs[b].chain, ip, port, tid, id, id);
    forall j | j != id ensures Pointing(bs[b := x], j) == Pointing(bs, j) {
      PointingUpdate(bs, b, x, j);
      RecoverPointing(bs[b].chain, ip, port, tid, id, j);
    }
  }

  lemma NewSockCounted(a: seq<Bucket>, r: seq<Bucket>, socks: map<Sid, Sock>, id: Sid, s: Sock)
    requires Counted(a, socks) && Pointing(r, id) <= s.conNum && forall j :: j != id ==> Pointing(r, j) == Pointing(a, j)
    ensures Counted(r, socks[id := s])
  {
    hide Pointing;
  }

  lemma TicksCounted(bs: seq<Bucket>, socks: map<Sid, Sock>, id: Sid, s: Sock)
    requires Counted(bs, socks) && id in socks && s.conNum == socks[id].conNum
    ensures Counted(bs, socks[id := s])
  {
    hide Pointing;
  }

  lemma SockSettled(hash: (nat, nat) -> nat, ticks: seq<int>, socks: map<Sid, Sock>, chains: seq<seq<Sid>>, id: Sid)
    requires GoodSocks(hash, ticks, socks, chains) && id in socks
    ensures Settled(ticks, socks[id].tick, socks[id].reg)
  {
  }

  /** Socks that differ in their counts only. */
  ghost predicate SameButCounts(a: map<Sid, Sock>, b: map<Sid, Sock>) {
    && (forall id :: id in a <==> id in b)
    && forall id :: id in a ==> b[id] == a[id].(conNum := b[id].conNum)
  }

  lemma CountsGood(hash: (nat, nat) -> nat, ticks: seq<int>, a: map<Sid, Sock>, b: map<Sid, Sock>, chains: seq<seq<Sid>>)
    requires GoodSocks(hash, ticks, a, chains) && SameButCounts(a, b)
    ensures GoodSocks(hash, ticks, b, chains)
  {
    hide Settled, Distinct, SockHome;
    forall h, i | 0 <= h < |chains| && 0 <= i < |chains[h]|
      ensures chains[h][i] in b && SockHome(hash, b[chains[h][i]].ip, b[chains[h][i]].port) == h
    {
      var id := chains[h][i];
      assert id in a && SockHome(hash, a[id].ip, a[id].port) == h;
    }
    forall id | id in b
      ensures id in chains[SockHome(hash, b[id].ip, b[id].port)] && Settled(ticks, b[id].tick, b[id].reg)
    {
      assert id in a;
    }
  }

  lemma EmptyTable(bs: seq<Bucket>)
    requires forall b :: 0 <= b < |bs| ==> bs[b] == Bucket(0, [])
    ensures Total(bs) == 0 && forall id :: Pointing(bs, id) == 0
  {
    if bs != [] { EmptyTable(bs[..|bs| - 1]); }
  }

  lemma EmptyChains(chains: seq<seq<Sid>>)
    requires forall b :: 0 <= b < |chains| ==> chains[b] == []
    ensures Lens(chains) == 0
  {
  }

  // ----- a run that shows where the simpler claim stops -----

  lemma OnlySock(ticks: seq<int>, socks: map<Sid, Sock>, id: Sid, s: Sock)
    requires socks == map[id := s] && IsOn(ticks, s.tick, s.reg)
    ensures forall j :: Listens(ticks, socks, j, s.ip, s.port) <==> j == id
  {
  }

  lemma TableSize(hash: Quintuple -> nat, ticks: seq<int>, bs: seq<Bucket>)
    requires GoodTable(hash, ticks, bs)
    ensures |bs| == CONN_BUCKETS
  {
  }

  lemma ListedSomewhere(hash: (nat, nat) -> nat, ticks: seq<int>, socks: map<Sid, Sock>, chains: seq<seq<Sid>>, id: Sid)
    requires GoodSocks(hash, ticks, socks, chains) && id in socks
    ensures |chains| == SOCK_BUCKETS && id in chains[SockHome(hash, socks[id].ip, socks[id].port)]
  {
  }

  lemma NoTicks()
    ensures seq(1, i => 0) == [0] && (seq(1, i => 0))[0] == 0
  {
  }

  /** A stack listens, a packet makes a connection, and the stack stops listening: the connection points to a sock that is
      freed. */
  method DanglingSock(hash: Quintuple -> nat, sockHash: (nat, nat) -> nat, junk: Conn) returns (t: Tables)
    ensures fresh(t) && t.Shape() && !Counted(t.conns, t.socks)
  {
    hide GoodTable, GoodSocks, Counted, Total, Lens, Lookup, Pointing, Later, Matching, SockHome, Home;
    NoTicks();
    t := new Tables(hash, sockHash, 1, 1, 1, 1);
    NothingMatches(t.conns, 0, 0, 0);
    var key := Quintuple(0, 0, 0, 0, 0);
    TableSize(t.hash, t.ticks, t.conns);
    assert t.Map(key) == None;
    var still: Moves := (k: nat) => [];
    var r := t.Listen(Stack(7, Slot(0), 0), 0, 0, 0, true, still);
    ghost var sock := Sock(0, 0, 0, Slot(0), 0, 0, 7);
    TableSize(t.hash, t.ticks, t.conns);
    assert t.socks == map[r.value := sock] && t.Map(key) == None;
    OnlySock(t.ticks, t.socks, r.value, sock);
    var stack, mid, best := t.TcpHandle(key, true, junk, (p: nat) => still);
    TableSize(t.hash, t.ticks, t.conns);
    MappedPoints(t.hash, t.ticks, t.conns, key, r.value);
    var freed := t.SockDel(0, 0, 0);
    assert freed == r by {
      if freed.None? { ListedSomewhere(t.sockHash, t.ticks, t.socks, t.sockChains, r.value); }
    }
  }
}
