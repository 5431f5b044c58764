/** The forwarder's connection and socket tables as values: chains that mix live and stale entries of one key, what the
    operations do to a chain, and the properties that every operation keeps. */
module TcpTables {

  type Sid = int

  datatype Option<T> = None | Some(value: T)

  datatype Quintuple = Quintuple(dstIp: nat, dstPort: nat, srcIp: nat, srcPort: nat, protocol: nat)

  /** Where instance_cur_tick points: the initial value, or the tick of an instance slot. */
  datatype Tick = InitVal | Slot(i: nat)

  datatype Stack = Stack(id: nat, tick: Tick, reg: int)

  datatype Conn = Conn(key: Quintuple, tid: nat, tick: Tick, reg: int, timeout: int, sock: Option<Sid>, stack: nat)

  datatype Sock = Sock(ip: nat, port: nat, tid: nat, tick: Tick, reg: int, conNum: int, stack: nat)

  datatype Bucket = Bucket(size: int, chain: seq<Conn>)

  function Cur(ticks: seq<int>, t: Tick): int {
    if t.Slot? && t.i < |ticks| then ticks[t.i] else -1
  }

  /** INSTANCE_IS_ON */
  predicate IsOn(ticks: seq<int>, t: Tick, reg: int) { reg == Cur(ticks, t) }

  predicate Live(ticks: seq<int>, c: Conn) { IsOn(ticks, c.tick, c.reg) }

  /** A registration tick is never ahead of the current one. */
  predicate Settled(ticks: seq<int>, t: Tick, reg: int) {
    match t
    case InitVal => reg == 0
    case Slot(i) => i < |ticks| && reg <= ticks[i]
  }

  predicate AllSettled(ticks: seq<int>, chain: seq<Conn>) {
    forall i :: 0 <= i < |chain| ==> Settled(ticks, chain[i].tick, chain[i].reg)
  }

  /** What lies behind an entry of the same key is stale: at most one live entry per key, and it comes first. */
  predicate LiveFirst(ticks: seq<int>, chain: seq<Conn>) {
    forall i, j :: 0 <= i < j < |chain| && chain[i].key == chain[j].key ==> !Live(ticks, chain[j])
  }

  // ----- one chain -----

  /** gazelle_conn_get_by_quintuple on the chain of the key. */
  function Lookup(ticks: seq<int>, chain: seq<Conn>, key: Quintuple): Option<Conn> {
    if chain == [] then None
    else if Live(ticks, chain[0]) && chain[0].key == key then Some(chain[0])
    else Lookup(ticks, chain[1..], key)
  }

  /** The position of the first entry of the key, live or stale, or the length. */
  function FirstKey(chain: seq<Conn>, key: Quintuple): (at: nat)
    ensures at <= |chain| && (at < |chain| ==> chain[at].key == key)
    ensures forall i :: 0 <= i < at ==> chain[i].key != key
  {
    if chain == [] || chain[0].key == key then 0 else 1 + FirstKey(chain[1..], key)
  }

  function Without(chain: seq<Conn>, at: nat): seq<Conn>
    requires at < |chain|
  {
    chain[..at] + chain[at + 1..]
  }

  /** gazelle_conn_del_by_quintuple on the chain. */
  function DropFirst(chain: seq<Conn>, key: Quintuple): seq<Conn> {
    var at := FirstKey(chain, key);
    if at < |chain| then Without(chain, at) else chain
  }

  /** One round of gazelle_delete_aging_conn on one entry. */
  function AgeConn(c: Conn): Option<Conn> {
    if c.timeout < 0 then Some(c)
    else if c.timeout - 1 > 0 then Some(c.(timeout := c.timeout - 1))
    else None
  }

  function Age(chain: seq<Conn>): seq<Conn> {
    if chain == [] then []
    else var n := |chain| - 1;
         Age(chain[..n]) + match AgeConn(chain[n]) case None => [] case Some(c) => [c]
  }

  /** gazelle_detect_conn_logout; looks[i] are the ticks at the moment entry i is looked at. */
  function Sweep(looks: seq<seq<int>>, chain: seq<Conn>): (r: seq<Conn>)
    requires |looks| == |chain|
    ensures |r| <= |chain|
  {
    if chain == [] then []
    else var n := |chain| - 1; Sweep(looks[..n], chain[..n]) + if Live(looks[n], chain[n]) then [chain[n]] else []
  }

  predicate Matches(c: Conn, ip: nat, port: nat, tid: nat) {
    c.key.dstIp == ip && c.key.dstPort == port && c.tid == tid
  }

  /** recover_sock_info_from_conn on one entry. */
  function RecoverConn(c: Conn, ip: nat, port: nat, tid: nat, id: Sid): Conn {
    if Matches(c, ip, port, tid) && c.sock.None? then c.(sock := Some(id)) else c
  }

  function Recover(chain: seq<Conn>, ip: nat, port: nat, tid: nat, id: Sid): (r: seq<Conn>)
    ensures |r| == |chain|
  {
    seq(|chain|, i requires 0 <= i < |chain| => RecoverConn(chain[i], ip, port, tid, id))
  }

  lemma {:induction false} LookupSome(ticks: seq<int>, chain: seq<Conn>, key: Quintuple, i: nat)
    requires LiveFirst(ticks, chain) && i < |chain| && chain[i].key == key && Live(ticks, chain[i])
    ensures Lookup(ticks, chain, key) == Some(chain[i])
  {
    if i > 0 { LookupSome(ticks, chain[1..], key, i - 1); }
  }

  lemma {:induction false} LookupFinds(ticks: seq<int>, chain: seq<Conn>, key: Quintuple) returns (i: nat)
    ensures Lookup(ticks, chain, key).Some? ==>
              i < |chain| && chain[i].key == key && Live(ticks, chain[i]) && Lookup(ticks, chain, key).value == chain[i]
  {
    i := 0;
    if chain != [] && !(Live(ticks, chain[0]) && chain[0].key == key) {
      var k := LookupFinds(ticks, chain[1..], key);
      i := k + 1;
    }
  }

  /** The table at one key is what a map holds: the only live entry, if there is one. */
  lemma {:induction false} LookupIsTheLiveOne(ticks: seq<int>, chain: seq<Conn>, key: Quintuple, c: Conn)
    requires LiveFirst(ticks, chain)
    ensures Lookup(ticks, chain, key) == Some(c) <==> c in chain && c.key == key && Live(ticks, c)
  {
    if c in chain && c.key == key && Live(ticks, c) {
      var i :| 0 <= i < |chain| && chain[i] == c;
      LookupSome(ticks, chain, key, i);
    } else if Lookup(ticks, chain, key) == Some(c) {
      var i := LookupFinds(ticks, chain, key);
    }
  }

  lemma LookupNone(ticks: seq<int>, chain: seq<Conn>, key: Quintuple)
    requires LiveFirst(ticks, chain)
    ensures Lookup(ticks, chain, key) == None <==> forall i :: 0 <= i < |chain| && chain[i].key == key ==> !Live(ticks, chain[i])
  {
    var i := LookupFinds(ticks, chain, key);
    forall j | 0 <= j < |chain| && chain[j].key == key && Live(ticks, chain[j]) ensures Lookup(ticks, chain, key).Some? {
      LookupSome(ticks, chain, key, j);
    }
  }

  /** Two chains with the same live entries of a key agree at it. */
  lemma SameLookup(ticks: seq<int>, a: seq<Conn>, b: seq<Conn>, key: Quintuple)
    requires LiveFirst(ticks, a) && LiveFirst(ticks, b)
    requires forall c: Conn :: c.key == key && Live(ticks, c) ==> (c in a <==> c in b)
    ensures Lookup(ticks, a, key) == Lookup(ticks, b, key)
  {
    if Lookup(ticks, a, key).Some? {
      LookupIsTheLiveOne(ticks, a, key, Lookup(ticks, a, key).value);
      LookupIsTheLiveOne(ticks, b, key, Lookup(ticks, a, key).value);
    } else if Lookup(ticks, b, key).Some? {
      LookupIsTheLiveOne(ticks, a, key, Lookup(ticks, b, key).value);
      LookupIsTheLiveOne(ticks, b, key, Lookup(ticks, b, key).value);
    }
  }

  // ----- deletion -----

  lemma RemoveKeeps(ticks: seq<int>, chain: seq<Conn>, at: nat)
    requires at < |chain| && LiveFirst(ticks, chain) && AllSettled(ticks, chain)
    ensures LiveFirst(ticks, Without(chain, at)) && AllSettled(ticks, Without(chain, at))
  {
    var r := Without(chain, at);
    assert forall i :: 0 <= i < |r| ==> r[i] == if i < at then chain[i] else chain[i + 1];
  }

  lemma RemoveOther(ticks: seq<int>, chain: seq<Conn>, at: nat, k: Quintuple)
    requires at < |chain| && LiveFirst(ticks, chain) && AllSettled(ticks, chain) && k != chain[at].key
    ensures Lookup(ticks, Without(chain, at), k) == Lookup(ticks, chain, k)
  {
    var r := Without(chain, at);
    RemoveKeeps(ticks, chain, at);
    forall c: Conn | c.key == k ensures c in chain <==> c in r {
      if c in chain {
        var i :| 0 <= i < |chain| && chain[i] == c;
        assert r[if i < at then i else i - 1] == c;
      }
    }
    SameLookup(ticks, r, chain, k);
  }

  lemma RemoveSame(ticks: seq<int>, chain: seq<Conn>, at: nat)
    requires at < |chain| && LiveFirst(ticks, chain) && AllSettled(ticks, chain)
    requires forall i :: 0 <= i < at ==> chain[i].key != chain[at].key
    ensures Lookup(ticks, Without(chain, at), chain[at].key) == None
  {
    var r := Without(chain, at);
    RemoveKeeps(ticks, chain, at);
    assert forall i :: 0 <= i < |r| ==> r[i] == if i < at then chain[i] else chain[i + 1];
    LookupNone(ticks, r, chain[at].key);
  }

  /** Deletion removes what a lookup returns if there is something to return, and else at most a stale entry. */
  lemma DeleteRemovesLive(ticks: seq<int>, chain: seq<Conn>, key: Quintuple)
    requires LiveFirst(ticks, chain) && AllSettled(ticks, chain)
    ensures var r := DropFirst(chain, key);
            && LiveFirst(ticks, r) && AllSettled(ticks, r)
            && Lookup(ticks, r, key) == None
            && forall k :: k != key ==> Lookup(ticks, r, k) == Lookup(ticks, chain, k)
  {
    var at := FirstKey(chain, key);
    if at < |chain| {
      RemoveKeeps(ticks, chain, at);
      RemoveSame(ticks, chain, at);
      forall k | k != key ensures Lookup(ticks, DropFirst(chain, key), k) == Lookup(ticks, chain, k) {
        RemoveOther(ticks, chain, at, k);
      }
      hide LiveFirst, AllSettled, Lookup, FirstKey;
    } else {
      LookupNone(ticks, chain, key);
    }
  }

  // ----- addition at the head -----

  lemma AddKeeps(ticks: seq<int>, chain: seq<Conn>, c: Conn)
    requires LiveFirst(ticks, chain) && AllSettled(ticks, chain) && Settled(ticks, c.tick, c.reg)
    requires Lookup(ticks, chain, c.key) == None
    ensures var r := [c] + chain;
            && LiveFirst(ticks, r) && AllSettled(ticks, r)
            && Lookup(ticks, r, c.key) == (if Live(ticks, c) then Some(c) else None)
            && forall k :: k != c.key ==> Lookup(ticks, r, k) == Lookup(ticks, chain, k)
  {
    LookupNone(ticks, chain, c.key);
    var r := [c] + chain;
    assert r[1..] == chain;
    forall i, j | 0 <= i < j < |r| && r[i].key == r[j].key ensures !Live(ticks, r[j]) {
      if i > 0 { assert chain[i - 1].key == chain[j - 1].key; }
    }
  }

  /** An entry may change, but not its key and its ticks. */
  lemma UpdateKeeps(ticks: seq<int>, chain: seq<Conn>, at: nat, c: Conn)
    requires LiveFirst(ticks, chain) && AllSettled(ticks, chain) && at < |chain| && Live(ticks, c)
    requires c.key == chain[at].key && c.tick == chain[at].tick && c.reg == chain[at].reg
    ensures var r := chain[at := c];
            && LiveFirst(ticks, r) && AllSettled(ticks, r) && Lookup(ticks, r, c.key) == Some(c)
            && forall k :: k != c.key ==> Lookup(ticks, r, k) == Lookup(ticks, chain, k)
  {
    var r := chain[at := c];
    LookupSome(ticks, r, c.key, at);
    forall k | k != c.key ensures Lookup(ticks, r, k) == Lookup(ticks, chain, k) {
      forall d: Conn | d.key == k ensures d in chain <==> d in r {
        if d in chain { var i :| 0 <= i < |chain| && chain[i] == d; assert r[i] == d; }
      }
      SameLookup(ticks, r, chain, k);
    }
  }

  // ----- an instance comes or goes -----

  /** Its tick moves on: no stale entry comes alive, so the order of the chains is kept; its entries are gone for good. */
  lemma BumpKeeps(ticks: seq<int>, chain: seq<Conn>, slot: nat)
    requires LiveFirst(ticks, chain) && AllSettled(ticks, chain) && slot < |ticks|
    ensures var t := ticks[slot := ticks[slot] + 1];
            && LiveFirst(t, chain) && AllSettled(t, chain)
            && forall k :: Lookup(t, chain, k) ==
                 match Lookup(ticks, chain, k) case None => None case Some(c) => if c.tick == Slot(slot) then None else Some(c)
  {
    var t := ticks[slot := ticks[slot] + 1];
    forall c | c in chain ensures Live(t, c) <==> Live(ticks, c) && c.tick != Slot(slot) {
    }
    forall k
      ensures Lookup(t, chain, k) ==
        match Lookup(ticks, chain, k) case None => None case Some(c) => if c.tick == Slot(slot) then None else Some(c)
    {
      if Lookup(t, chain, k).Some? { LookupIsTheLiveOne(t, chain, k, Lookup(t, chain, k).value);
        LookupIsTheLiveOne(ticks, chain, k, Lookup(t, chain, k).value); }
      if Lookup(ticks, chain, k).Some? { LookupIsTheLiveOne(t, chain, k, Lookup(ticks, chain, k).value);
        LookupIsTheLiveOne(ticks, chain, k, Lookup(ticks, chain, k).value); }
    }
  }

  /** Ticks only grow. */
  ghost predicate Later(a: seq<int>, b: seq<int>) {
    |a| == |b| && forall i :: 0 <= i < |a| ==> a[i] <= b[i]
  }

  /** What is on later was on before. */
  lemma OnBefore(a: seq<int>, b: seq<int>, t: Tick, reg: int)
    requires Later(a, b) && Settled(a, t, reg)
    ensures Settled(b, t, reg) && (IsOn(b, t, reg) ==> IsOn(a, t, reg))
  {
  }

  lemma LaterChain(a: seq<int>, b: seq<int>, chain: seq<Conn>)
    requires Later(a, b) && LiveFirst(a, chain) && AllSettled(a, chain)
    ensures LiveFirst(b, chain) && AllSettled(b, chain)
    ensures forall i :: 0 <= i < |chain| && Live(b, chain[i]) ==> Live(a, chain[i])
  {
    hide Later, Settled, IsOn;
    forall i | 0 <= i < |chain| ensures Settled(b, chain[i].tick, chain[i].reg) && (Live(b, chain[i]) ==> Live(a, chain[i])) {
      OnBefore(a, b, chain[i].tick, chain[i].reg);
    }
  }

  function Kept(ticks: seq<int>, o: Option<Conn>): Option<Conn> {
    if o.Some? && Live(ticks, o.value) then o else None
  }

  /** Later a key maps to the same connection if that is still on, and to nothing else. */
  lemma LaterLookup(a: seq<int>, b: seq<int>, chain: seq<Conn>, key: Quintuple)
    requires Later(a, b) && LiveFirst(a, chain) && AllSettled(a, chain)
    ensures Lookup(b, chain, key) == Kept(b, Lookup(a, chain, key))
  {
    LaterChain(a, b, chain);
    hide Later, LiveFirst, AllSettled;
    if Lookup(b, chain, key).Some? {
      var i := LookupFinds(b, chain, key);
      LookupSome(a, chain, key, i);
    } else if Lookup(a, chain, key).Some? {
      var i := LookupFinds(a, chain, key);
      LookupNone(b, chain, key);
    }
  }

  // ----- aging and sweeping -----

  /** Each kept entry comes from an entry, and each entry that ages is kept. */
  lemma {:induction false} AgeSources(chain: seq<Conn>)
    ensures var r := Age(chain);
            && |r| <= |chain|
            && (forall c :: c in r ==> exists i :: 0 <= i < |chain| && AgeConn(chain[i]) == Some(c))
            && (forall i :: 0 <= i < |chain| && AgeConn(chain[i]).Some? ==> AgeConn(chain[i]).value in r)
  {
    hide AgeConn;
    if chain != [] {
      var n := |chain| - 1;
      AgeSources(chain[..n]);
      var a, r := Age(chain[..n]), Age(chain);
      forall c | c in r ensures exists i :: 0 <= i < |chain| && AgeConn(chain[i]) == Some(c) {
        if c in a {
          var i :| 0 <= i < n && AgeConn(chain[..n][i]) == Some(c);
          assert AgeConn(chain[i]) == Some(c);
        } else {
          assert AgeConn(chain[n]) == Some(c);
        }
      }
      forall i | 0 <= i < |chain| && AgeConn(chain[i]).Some? ensures AgeConn(chain[i]).value in r {
        if i < n { assert AgeConn(chain[..n][i]).value in a; }
      }
    }
  }

  /** And the order is kept. */
  lemma {:induction false} AgeFacts(ticks: seq<int>, chain: seq<Conn>)
    requires LiveFirst(ticks, chain) && AllSettled(ticks, chain)
    ensures LiveFirst(ticks, Age(chain)) && AllSettled(ticks, Age(chain))
  {
    hide Settled, IsOn;
    if chain != [] {
      var n := |chain| - 1;
      AgeFacts(ticks, chain[..n]);
      AgeSources(chain[..n]);
      if AgeConn(chain[n]).Some? { AgedLast(ticks, chain, chain[..n], Age(chain[..n])); }
    }
  }

  lemma AgedLast(ticks: seq<int>, chain: seq<Conn>, init: seq<Conn>, a: seq<Conn>)
    requires chain != [] && init == chain[..|chain| - 1]
    requires LiveFirst(ticks, chain) && AllSettled(ticks, chain) && LiveFirst(ticks, a) && AllSettled(ticks, a)
    requires forall c :: c in a ==> exists i :: 0 <= i < |init| && AgeConn(init[i]) == Some(c)
    requires AgeConn(chain[|chain| - 1]).Some?
    ensures var r := a + [AgeConn(chain[|chain| - 1]).value]; LiveFirst(ticks, r) && AllSettled(ticks, r)
  {
    hide Settled, IsOn;
    var n := |chain| - 1;
    var r := a + [AgeConn(chain[n]).value];
    forall i | 0 <= i < |a| && a[i].key == r[|a|].key ensures !Live(ticks, r[|a|]) {
      assert a[i] in a;
      var m :| 0 <= m < |init| && AgeConn(init[m]) == Some(a[i]);
      assert chain[m].key == chain[n].key;
    }
  }

  function Aged(o: Option<Conn>): Option<Conn> { if o.None? then None else AgeConn(o.value) }

  /** Aging the chain is aging what the key maps to. */
  lemma AgeLookup(ticks: seq<int>, chain: seq<Conn>, key: Quintuple)
    requires LiveFirst(ticks, chain) && AllSettled(ticks, chain)
    ensures Lookup(ticks, Age(chain), key) == Aged(Lookup(ticks, chain, key))
  {
    AgeFacts(ticks, chain);
    AgeSources(chain);
    var r := Age(chain);
    if Lookup(ticks, r, key).Some? {
      var c := Lookup(ticks, r, key).value;
      LookupIsTheLiveOne(ticks, r, key, c);
      var i :| 0 <= i < |chain| && AgeConn(chain[i]) == Some(c);
      LookupSome(ticks, chain, key, i);
    } else if Lookup(ticks, chain, key).Some? {
      var c := Lookup(ticks, chain, key).value;
      LookupIsTheLiveOne(ticks, chain, key, c);
      var i :| 0 <= i < |chain| && chain[i] == c;
      if AgeConn(c).Some? {
        assert AgeConn(chain[i]).value in r;
        LookupIsTheLiveOne(ticks, r, key, AgeConn(c).value);
      }
    }
  }

  /** The looks happen between a and b. */
  ghost predicate Between(a: seq<int>, looks: seq<seq<int>>, b: seq<int>) {
    forall i :: 0 <= i < |looks| ==> Later(a, looks[i]) && Later(looks[i], b)
  }

  lemma {:induction false} SweepFacts(a: seq<int>, looks: seq<seq<int>>, b: seq<int>, chain: seq<Conn>)
    requires LiveFirst(a, chain) && AllSettled(a, chain) && |looks| == |chain| && Between(a, looks, b)
    ensures var r := Sweep(looks, chain);
            && LiveFirst(a, r) && AllSettled(a, r)
            && (forall c :: c in r ==> c in chain && Live(a, c))
            && (forall c :: c in chain && Live(b, c) ==> c in r)
  {
    if chain != [] {
      var n := |chain| - 1;
      SweepFacts(a, looks[..n], b, chain[..n]);
      LookedAt(a, looks[n], b, chain[n]);
      hide Later, Live;
      var q, r := Sweep(looks[..n], chain[..n]), Sweep(looks, chain);
      assert chain == chain[..n] + [chain[n]];
      KeyIsNew(a, chain, q);
    }
  }

  lemma LookedAt(a: seq<int>, look: seq<int>, b: seq<int>, c: Conn)
    requires Later(a, look) && Later(look, b) && Settled(a, c.tick, c.reg)
    ensures (Live(look, c) ==> Live(a, c)) && (Live(b, c) ==> Live(look, c))
  {
    OnBefore(a, look, c.tick, c.reg);
    OnBefore(look, b, c.tick, c.reg);
  }

  /** A live entry has another key than all that come before it. */
  lemma KeyIsNew(ticks: seq<int>, chain: seq<Conn>, a: seq<Conn>)
    requires LiveFirst(ticks, chain) && chain != [] && forall c :: c in a ==> c in chain[..|chain| - 1]
    ensures Live(ticks, chain[|chain| - 1]) ==> forall i :: 0 <= i < |a| ==> a[i].key != chain[|chain| - 1].key
  {
    forall i | 0 <= i < |a| ensures a[i].key == chain[|chain| - 1].key ==> !Live(ticks, chain[|chain| - 1]) {
      assert a[i] in a;
      var m :| 0 <= m < |chain| - 1 && chain[m] == a[i];
    }
  }

  /** Sweeping out the stale entries changes nothing that a lookup can see. */
  lemma SweepLookup(a: seq<int>, looks: seq<seq<int>>, b: seq<int>, chain: seq<Conn>, key: Quintuple)
    requires LiveFirst(a, chain) && AllSettled(a, chain) && Later(a, b) && |looks| == |chain| && Between(a, looks, b)
    ensures var r := Sweep(looks, chain);
            LiveFirst(b, r) && AllSettled(b, r) && Lookup(b, r, key) == Lookup(b, chain, key)
  {
    SweepFacts(a, looks, b, chain);
    LaterChain(a, b, chain);
    LaterChain(a, b, Sweep(looks, chain));
    hide LiveFirst, AllSettled, Later, Between, Sweep;
    SameLookup(b, Sweep(looks, chain), chain, key);
  }

  function Recovered(o: Option<Conn>, ip: nat, port: nat, tid: nat, id: Sid): Option<Conn> {
    if o.None? then None else Some(RecoverConn(o.value, ip, port, tid, id))
  }

  lemma {:induction false} RecoverLookup(ticks: seq<int>, chain: seq<Conn>, key: Quintuple, ip: nat, port: nat, tid: nat, id: Sid)
    requires LiveFirst(ticks, chain) && AllSettled(ticks, chain)
    ensures var r := Recover(chain, ip, port, tid, id);
            && LiveFirst(ticks, r) && AllSettled(ticks, r)
            && Lookup(ticks, r, key) == Recovered(Lookup(ticks, chain, key), ip, port, tid, id)
  {
    var r := Recover(chain, ip, port, tid, id);
    assert LiveFirst(ticks, r);
    if Lookup(ticks, chain, key).Some? {
      var i := LookupFinds(ticks, chain, key);
      LookupSome(ticks, r, key, i);
    } else {
      LookupNone(ticks, chain, key);
      LookupNone(ticks, r, key);
    }
  }

  // ----- sums over the table -----

  /** The number of entries. */
  function Total(bs: seq<Bucket>): nat {
    if bs == [] then 0 else Total(bs[..|bs| - 1]) + |bs[|bs| - 1].chain|
  }

  /** The number of entries of a chain, and of the table, that point to a sock. */
  function PointingIn(chain: seq<Conn>, id: Sid): nat {
    if chain == [] then 0
    else PointingIn(chain[..|chain| - 1], id) + if chain[|chain| - 1].sock == Some(id) then 1 else 0
  }

  function Pointing(bs: seq<Bucket>, id: Sid): nat {
    if bs == [] then 0 else Pointing(bs[..|bs| - 1], id) + PointingIn(bs[|bs| - 1].chain, id)
  }

  lemma {:induction false} TotalUpdate(bs: seq<Bucket>, b: nat, x: Bucket)
    requires b < |bs|
    ensures Total(bs[b := x]) == Total(bs) - |bs[b].chain| + |x.chain|
  {
    var n := |bs| - 1;
    if b < n {
      TotalUpdate(bs[..n], b, x);
      assert bs[b := x][..n] == bs[..n][b := x];
    } else {
      assert bs[b := x][..n] == bs[..n];
    }
  }

  lemma {:induction false} PointingUpdate(bs: seq<Bucket>, b: nat, x: Bucket, id: Sid)
    requires b < |bs|
    ensures Pointing(bs[b := x], id) == Pointing(bs, id) - PointingIn(bs[b].chain, id) + PointingIn(x.chain, id)
  {
    var n := |bs| - 1;
    if b < n {
      PointingUpdate(bs[..n], b, x, id);
      assert bs[b := x][..n] == bs[..n][b := x];
    } else {
      assert bs[b := x][..n] == bs[..n];
    }
  }

  lemma {:induction false} PointingConcat(a: seq<Conn>, b: seq<Conn>, id: Sid)
    ensures PointingIn(a + b, id) == PointingIn(a, id) + PointingIn(b, id)
  {
    if b == [] {
      assert a + b == a;
    } else {
      PointingConcat(a, b[..|b| - 1], id);
      assert (a + b)[..|a + b| - 1] == a + b[..|b| - 1];
    }
  }

  lemma {:induction false} PointingIsMember(chain: seq<Conn>, id: Sid)
    ensures PointingIn(chain, id) > 0 <==> exists i :: 0 <= i < |chain| && chain[i].sock == Some(id)
  {
    if chain != [] {
      var n := |chain| - 1;
      PointingIsMember(chain[..n], id);
      if PointingIn(chain[..n], id) > 0 {
        var i :| 0 <= i < n && chain[..n][i].sock == Some(id);
        assert chain[i].sock == Some(id);
      }
      if exists i :: 0 <= i < |chain| && chain[i].sock == Some(id) {
        var i :| 0 <= i < |chain| && chain[i].sock == Some(id);
        if i < n { assert chain[..n][i].sock == Some(id); }
      }
    }
  }

  lemma {:induction false} PointingSomewhere(bs: seq<Bucket>, id: Sid)
    ensures Pointing(bs, id) > 0 <==> exists b :: 0 <= b < |bs| && PointingIn(bs[b].chain, id) > 0
  {
    if bs != [] {
      var n := |bs| - 1;
      PointingSomewhere(bs[..n], id);
      if Pointing(bs[..n], id) > 0 {
        var b :| 0 <= b < n && PointingIn(bs[..n][b].chain, id) > 0;
        assert PointingIn(bs[b].chain, id) > 0;
      }
      if exists b :: 0 <= b < |bs| && PointingIn(bs[b].chain, id) > 0 {
        var b :| 0 <= b < |bs| && PointingIn(bs[b].chain, id) > 0;
        if b < n { assert PointingIn(bs[..n][b].chain, id) > 0; }
      }
    }
  }

  // ----- the whole table -----

  const CONN_BUCKETS: nat := 2048  // GAZELLE_MAX_CONN_HTABLE_SIZE
  const SOCK_BUCKETS: nat := 256   // GAZELLE_MAX_TCP_SOCK_HTABLE_SIZE

  function Home(hash: Quintuple -> nat, key: Quintuple): (b: nat)
    ensures b < CONN_BUCKETS
  {
    hash(key) % CONN_BUCKETS
  }

  ghost predicate GoodChain(hash: Quintuple -> nat, ticks: seq<int>, chain: seq<Conn>, b: nat) {
    && LiveFirst(ticks, chain) && AllSettled(ticks, chain)
    && forall i :: 0 <= i < |chain| ==> Home(hash, chain[i].key) == b
  }

  ghost predicate GoodTable(hash: Quintuple -> nat, ticks: seq<int>, bs: seq<Bucket>) {
    && |bs| == CONN_BUCKETS
    && forall b :: 0 <= b < |bs| ==> bs[b].size == |bs[b].chain| && GoodChain(hash, ticks, bs[b].chain, b)
  }

  /** The live connection of a key: the table as a map. */
  function At(hash: Quintuple -> nat, ticks: seq<int>, bs: seq<Bucket>, key: Quintuple): Option<Conn>
    requires |bs| == CONN_BUCKETS
  {
    Lookup(ticks, bs[Home(hash, key)].chain, key)
  }

  lemma SetBucket(hash: Quintuple -> nat, ticks: seq<int>, bs: seq<Bucket>, b: nat, chain: seq<Conn>)
    requires GoodTable(hash, ticks, bs) && b < CONN_BUCKETS && GoodChain(hash, ticks, chain, b)
    ensures var r := bs[b := Bucket(|chain|, chain)];
            && GoodTable(hash, ticks, r)
            && Total(r) == Total(bs) - |bs[b].chain| + |chain|
            && (forall k :: Home(hash, k) != b ==> At(hash, ticks, r, k) == At(hash, ticks, bs, k))
            && (forall k :: Home(hash, k) == b ==> At(hash, ticks, r, k) == Lookup(ticks, chain, k))
            && (forall id :: Pointing(r, id) == Pointing(bs, id) - PointingIn(bs[b].chain, id) + PointingIn(chain, id))
  {
    hide GoodChain, Lookup, Total, Pointing, PointingIn;
    var x := Bucket(|chain|, chain);
    TotalUpdate(bs, b, x);
    forall id ensures Pointing(bs[b := x], id) == Pointing(bs, id) - PointingIn(bs[b].chain, id) + PointingIn(chain, id) {
      PointingUpdate(bs, b, x, id);
    }
  }

  lemma {:induction false} PointingRemove(chain: seq<Conn>, at: nat, id: Sid)
    requires at < |chain|
    ensures PointingIn(Without(chain, at), id) ==
            PointingIn(chain, id) - if chain[at].sock == Some(id) then 1 else 0
  {
    PointingConcat(chain[..at], chain[at + 1..], id);
    PointingConcat(chain[..at], chain[at..], id);
    PointingConcat([chain[at]], chain[at + 1..], id);
    assert chain[..at] + chain[at..] == chain && [chain[at]] + chain[at + 1..] == chain[at..];
    assert [chain[at]][..0] == [];
  }

  lemma PointingChange(chain: seq<Conn>, at: nat, c: Conn, id: Sid)
    requires at < |chain|
    ensures PointingIn(chain[at := c], id) ==
            PointingIn(chain, id) - (if chain[at].sock == Some(id) then 1 else 0) + if c.sock == Some(id) then 1 else 0
  {
    var r := chain[at := c];
    PointingRemove(chain, at, id);
    PointingRemove(r, at, id);
    assert Without(r, at) == Without(chain, at);
  }

  lemma PointingCons(c: Conn, chain: seq<Conn>, id: Sid)
    ensures PointingIn([c] + chain, id) == PointingIn(chain, id) + if c.sock == Some(id) then 1 else 0
  {
    PointingRemove([c] + chain, 0, id);
    assert Without([c] + chain, 0) == chain;
  }

  lemma ConsGood(hash: Quintuple -> nat, ticks: seq<int>, chain: seq<Conn>, c: Conn)
    requires GoodChain(hash, ticks, chain, Home(hash, c.key)) && Settled(ticks, c.tick, c.reg)
    requires Lookup(ticks, chain, c.key) == None
    ensures GoodChain(hash, ticks, [c] + chain, Home(hash, c.key))
    ensures Lookup(ticks, [c] + chain, c.key) == (if Live(ticks, c) then Some(c) else None)
    ensures forall k :: k != c.key ==> Lookup(ticks, [c] + chain, k) == Lookup(ticks, chain, k)
  {
    AddKeeps(ticks, chain, c);
    hide LiveFirst, AllSettled, Lookup, Live, Settled;
  }

  /** A new entry at the head of its chain. */
  lemma InsertConn(hash: Quintuple -> nat, ticks: seq<int>, bs: seq<Bucket>, c: Conn)
    requires GoodTable(hash, ticks, bs) && At(hash, ticks, bs, c.key) == None && Settled(ticks, c.tick, c.reg)
    ensures var b := Home(hash, c.key);
            var r := bs[b := Bucket(|bs[b].chain| + 1, [c] + bs[b].chain)];
            && GoodTable(hash, ticks, r) && Total(r) == Total(bs) + 1
            && At(hash, ticks, r, c.key) == (if Live(ticks, c) then Some(c) else None)
            && (forall k :: k != c.key ==> At(hash, ticks, r, k) == At(hash, ticks, bs, k))
            && (forall id :: Pointing(r, id) == Pointing(bs, id) + if c.sock == Some(id) then 1 else 0)
  {
    hide GoodChain, Lookup, Pointing, PointingIn, Total, Settled, Live;
    var b := Home(hash, c.key);
    var chain := bs[b].chain;
    ConsGood(hash, ticks, chain, c);
    SetBucket(hash, ticks, bs, b, [c] + chain);
    hide GoodTable, Home;
    forall id ensures PointingIn([c] + chain, id) == PointingIn(chain, id) + if c.sock == Some(id) then 1 else 0 {
      PointingCons(c, chain, id);
    }
  }

  lemma DropGood(hash: Quintuple -> nat, ticks: seq<int>, chain: seq<Conn>, key: Quintuple, id: Sid)
    requires GoodChain(hash, ticks, chain, Home(hash, key))
    ensures GoodChain(hash, ticks, DropFirst(chain, key), Home(hash, key))
    ensures PointingIn(DropFirst(chain, key), id) <= PointingIn(chain, id)
    ensures Lookup(ticks, chain, key).Some? ==>
              PointingIn(DropFirst(chain, key), id) ==
              PointingIn(chain, id) - if Lookup(ticks, chain, key).value.sock == Some(id) then 1 else 0
  {
    DeleteRemovesLive(ticks, chain, key);
    var at, r := FirstKey(chain, key), DropFirst(chain, key);
    if at < |chain| {
      assert forall i :: 0 <= i < |r| ==> r[i] == if i < at then chain[i] else chain[i + 1];
      PointingRemove(chain, at, id);
    }
    var i := LookupFinds(ticks, chain, key);
    hide AllSettled, Lookup, PointingIn;
    if Lookup(ticks, chain, key).Some? {
      assert i == at;
    }
  }

  /** The first entry of a key leaves the table. */
  lemma DeleteConn(hash: Quintuple -> nat, ticks: seq<int>, bs: seq<Bucket>, key: Quintuple)
    requires GoodTable(hash, ticks, bs)
    ensures var b := Home(hash, key);
            var chain := DropFirst(bs[b].chain, key);
            var r := bs[b := Bucket(|chain|, chain)];
            && GoodTable(hash, ticks, r) && At(hash, ticks, r, key) == None
            && Total(r) == Total(bs) - |bs[b].chain| + |chain|
            && (forall k :: k != key ==> At(hash, ticks, r, k) == At(hash, ticks, bs, k))
            && (forall id :: Pointing(r, id) <= Pointing(bs, id))
            && (At(hash, ticks, bs, key).Some? ==>
                  forall id :: Pointing(r, id) == Pointing(bs, id) - if At(hash, ticks, bs, key).value.sock == Some(id) then 1 else 0)
  {
    hide GoodChain, Lookup, Pointing, PointingIn, Total, DropFirst;
    var b := Home(hash, key);
    var was, chain := bs[b].chain, DropFirst(bs[b].chain, key);
    DropGood(hash, ticks, was, key, 0);
    DropLookup(hash, ticks, was, key);
    SetBucket(hash, ticks, bs, b, chain);
    hide GoodTable, Home;
    forall id
      ensures PointingIn(chain, id) <= PointingIn(was, id)
      ensures Lookup(ticks, was, key).Some? ==>
                PointingIn(chain, id) == PointingIn(was, id) - if Lookup(ticks, was, key).value.sock == Some(id) then 1 else 0
    {
      DropGood(hash, ticks, was, key, id);
    }
  }

  lemma DropLookup(hash: Quintuple -> nat, ticks: seq<int>, chain: seq<Conn>, key: Quintuple)
    requires GoodChain(hash, ticks, chain, Home(hash, key))
    ensures Lookup(ticks, DropFirst(chain, key), key) == None
    ensures forall k :: k != key ==> Lookup(ticks, DropFirst(chain, key), k) == Lookup(ticks, chain, k)
  {
    DeleteRemovesLive(ticks, chain, key);
  }

  /** A live entry changes, but not its key and its ticks. */
  lemma WriteConn(hash: Quintuple -> nat, ticks: seq<int>, bs: seq<Bucket>, at: nat, c: Conn)
    requires GoodTable(hash, ticks, bs) && Live(ticks, c) && at < |bs[Home(hash, c.key)].chain|
    requires var d := bs[Home(hash, c.key)].chain[at]; c.key == d.key && c.tick == d.tick && c.reg == d.reg && c.sock == d.sock
    ensures var b := Home(hash, c.key);
            var r := bs[b := Bucket(bs[b].size, bs[b].chain[at := c])];
            && GoodTable(hash, ticks, r) && Total(r) == Total(bs)
            && At(hash, ticks, r, c.key) == Some(c)
            && (forall k :: k != c.key ==> At(hash, ticks, r, k) == At(hash, ticks, bs, k))
            && (forall id :: Pointing(r, id) == Pointing(bs, id))
  {
    var b := Home(hash, c.key);
    var chain := bs[b].chain;
    UpdateKeeps(ticks, chain, at, c);
    forall id ensures PointingIn(chain[at := c], id) == PointingIn(chain, id) { PointingChange(chain, at, c, id); }
    SetBucket(hash, ticks, bs, b, chain[at := c]);
    hide GoodTable, GoodChain, Lookup, Pointing, PointingIn, Total;
  }

  /** No connection points to a freed sock, and no sock counts fewer connections than point to it. */
  ghost predicate Counted(bs: seq<Bucket>, socks: map<Sid, Sock>) {
    forall id :: Pointing(bs, id) <= if id in socks then socks[id].conNum else 0
  }

  /** The tick of a slot moves on. */
  lemma BumpTable(hash: Quintuple -> nat, ticks: seq<int>, bs: seq<Bucket>, slot: nat)
    requires GoodTable(hash, ticks, bs) && slot < |ticks|
    ensures var t := ticks[slot := ticks[slot] + 1];
            && GoodTable(hash, t, bs)
            && forall k :: At(hash, t, bs, k) ==
                 match At(hash, ticks, bs, k) case None => None case Some(c) => if c.tick == Slot(slot) then None else Some(c)
  {
    hide Lookup, LiveFirst, AllSettled;
    forall b | 0 <= b < |bs| ensures GoodChain(hash, ticks[slot := ticks[slot] + 1], bs[b].chain, b) {
      BumpKeeps(ticks, bs[b].chain, slot);
    }
    forall k ensures At(hash, ticks[slot := ticks[slot] + 1], bs, k) ==
                 match At(hash, ticks, bs, k) case None => None case Some(c) => if c.tick == Slot(slot) then None else Some(c) {
      BumpKeeps(ticks, bs[Home(hash, k)].chain, slot);
    }
  }

  /** Any ticks may have moved on. */
  lemma LaterTable(hash: Quintuple -> nat, a: seq<int>, t: seq<int>, bs: seq<Bucket>)
    requires GoodTable(hash, a, bs) && Later(a, t)
    ensures GoodTable(hash, t, bs) && forall k :: At(hash, t, bs, k) == Kept(t, At(hash, a, bs, k))
  {
    hide Lookup, LiveFirst, AllSettled, Later, Kept;
    forall b | 0 <= b < |bs| ensures GoodChain(hash, t, bs[b].chain, b) {
      LaterChain(a, t, bs[b].chain);
    }
    forall k ensures At(hash, t, bs, k) == Kept(t, At(hash, a, bs, k)) {
      assert GoodChain(hash, a, bs[Home(hash, k)].chain, Home(hash, k));
      LaterLookup(a, t, bs[Home(hash, k)].chain, k);
    }
  }

  /** The count of a sock goes down when a connection that points to it leaves. */
  function Uncount(socks: map<Sid, Sock>, sock: Option<Sid>): map<Sid, Sock> {
    if sock.Some? && sock.value in socks then
      socks[sock.value := socks[sock.value].(conNum := socks[sock.value].conNum - 1)]
    else socks
  }

  function Count(socks: map<Sid, Sock>, sock: Option<Sid>): map<Sid, Sock> {
    if sock.Some? && sock.value in socks then
      socks[sock.value := socks[sock.value].(conNum := socks[sock.value].conNum + 1)]
    else socks
  }

  /** A live sock that listens on the address. */
  predicate Listens(ticks: seq<int>, socks: map<Sid, Sock>, id: Sid, ip: nat, port: nat) {
    id in socks && socks[id].ip == ip && socks[id].port == port && IsOn(ticks, socks[id].tick, socks[id].reg)
  }

  /** What a key maps to points to its sock. */
  lemma MappedPoints(hash: Quintuple -> nat, ticks: seq<int>, bs: seq<Bucket>, key: Quintuple, id: Sid)
    requires |bs| == CONN_BUCKETS && At(hash, ticks, bs, key).Some? && At(hash, ticks, bs, key).value.sock == Some(id)
    ensures Pointing(bs, id) > 0
  {
    var i := LookupFinds(ticks, bs[Home(hash, key)].chain, key);
    PointingIsMember(bs[Home(hash, key)].chain, id);
    PointingSomewhere(bs, id);
  }

  /** An entry leaves the table and its sock is told: the count it is subtracted from is positive. */
  lemma LeaveCounted(bs: seq<Bucket>, socks: map<Sid, Sock>, b: nat, at: nat)
    requires Counted(bs, socks) && b < |bs| && at < |bs[b].chain|
    ensures var c := bs[b].chain[at];
            var r := bs[b := Bucket(bs[b].size - 1, Without(bs[b].chain, at))];
            && (c.sock.Some? ==> c.sock.value in socks && socks[c.sock.value].conNum > 0)
            && Counted(r, Uncount(socks, c.sock)) && Counted(r, socks) && Total(r) == Total(bs) - 1
  {
    var c, chain := bs[b].chain[at], bs[b].chain;
    var x := Bucket(bs[b].size - 1, Without(chain, at));
    TotalUpdate(bs, b, x);
    if c.sock.Some? {
      PointingIsMember(chain, c.sock.value);
      PointingSomewhere(bs, c.sock.value);
    }
    hide Pointing, PointingIn, Total;
    forall id ensures Pointing(bs[b := x], id) == Pointing(bs, id) - if c.sock == Some(id) then 1 else 0 {
      PointingUpdate(bs, b, x, id);
      PointingRemove(chain, at, id);
    }
  }

  /** An entry changes, but not the sock it points to. */
  lemma ChangeCounted(bs: seq<Bucket>, socks: map<Sid, Sock>, b: nat, at: nat, c: Conn)
    requires Counted(bs, socks) && b < |bs| && at < |bs[b].chain| && c.sock == bs[b].chain[at].sock
    ensures var r := bs[b := Bucket(bs[b].size, bs[b].chain[at := c])];
            Counted(r, socks) && Total(r) == Total(bs)
  {
    var x := Bucket(bs[b].size, bs[b].chain[at := c]);
    TotalUpdate(bs, b, x);
    hide Pointing, PointingIn, Total;
    forall id ensures Pointing(bs[b := x], id) == Pointing(bs, id) {
      PointingUpdate(bs, b, x, id);
      PointingChange(bs[b].chain, at, c, id);
    }
  }

  /** One more entry of a chain is aged. */
  lemma AgeSnoc(chain: seq<Conn>, i: nat)
    requires i < |chain|
    ensures Age(chain[..i + 1]) == Age(chain[..i]) + match AgeConn(chain[i]) case None => [] case Some(c) => [c]
  {
    assert chain[..i + 1][..i] == chain[..i];
  }

  lemma SweepSnoc(looks: seq<seq<int>>, chain: seq<Conn>, i: nat, look: seq<int>)
    requires |looks| == i < |chain|
    ensures Sweep(looks + [look], chain[..i + 1]) == Sweep(looks, chain[..i]) + if Live(look, chain[i]) then [chain[i]] else []
  {
    assert chain[..i + 1][..i] == chain[..i];
    assert (looks + [look])[..i] == looks;
  }

  ghost predicate IsAged(a: seq<Bucket>, r: seq<Bucket>) {
    |r| == |a| && forall b :: 0 <= b < |a| ==> r[b] == Bucket(|Age(a[b].chain)|, Age(a[b].chain))
  }

  lemma AgeChainGood(hash: Quintuple -> nat, ticks: seq<int>, chain: seq<Conn>, b: nat)
    requires GoodChain(hash, ticks, chain, b)
    ensures GoodChain(hash, ticks, Age(chain), b)
  {
    AgeFacts(ticks, chain);
    AgeSources(chain);
    var r := Age(chain);
    forall j | 0 <= j < |r| ensures Home(hash, r[j].key) == b {
      assert r[j] in r;
      var i :| 0 <= i < |chain| && AgeConn(chain[i]) == Some(r[j]);
    }
  }

  /** After aging every key maps to its aged connection. */
  lemma AgeTable(hash: Quintuple -> nat, ticks: seq<int>, a: seq<Bucket>, r: seq<Bucket>)
    requires GoodTable(hash, ticks, a) && IsAged(a, r)
    ensures GoodTable(hash, ticks, r) && forall k :: At(hash, ticks, r, k) == Aged(At(hash, ticks, a, k))
  {
    forall b | 0 <= b < |r| ensures GoodChain(hash, ticks, r[b].chain, b) { AgeChainGood(hash, ticks, a[b].chain, b); }
    forall k ensures At(hash, ticks, r, k) == Aged(At(hash, ticks, a, k)) {
      assert GoodChain(hash, ticks, a[Home(hash, k)].chain, Home(hash, k));
      AgeLookup(ticks, a[Home(hash, k)].chain, k);
    }
  }

  /** One chain is swept while ticks may move on: every entry that is left was live before, and at the end no key maps to
      anything else. */
  lemma SweepTable(hash: Quintuple -> nat, a: seq<int>, looks: seq<seq<int>>, t: seq<int>, bs: seq<Bucket>, b: nat)
    requires GoodTable(hash, a, bs) && Later(a, t) && b < CONN_BUCKETS && |looks| == |bs[b].chain| && Between(a, looks, t)
    ensures var c := Sweep(looks, bs[b].chain);
            && GoodTable(hash, t, bs[b := Bucket(|c|, c)])
            && (forall k :: At(hash, t, bs[b := Bucket(|c|, c)], k) == At(hash, t, bs, k))
            && (forall i :: 0 <= i < |c| ==> Live(a, c[i]))
  {
    var chain, c := bs[b].chain, Sweep(looks, bs[b].chain);
    LaterTable(hash, a, t, bs);
    SweptGood(hash, a, looks, t, chain, b);
    hide GoodChain, Lookup, Sweep, Between, Later, Live;
    SetBucket(hash, t, bs, b, c);
    hide GoodTable;
    forall k ensures At(hash, t, bs[b := Bucket(|c|, c)], k) == At(hash, t, bs, k) {
      if Home(hash, k) == b { SweptLookup(hash, a, looks, t, chain, b, k); }
    }
  }

  lemma SweptGood(hash: Quintuple -> nat, a: seq<int>, looks: seq<seq<int>>, t: seq<int>, chain: seq<Conn>, b: nat)
    requires GoodChain(hash, a, chain, b) && Later(a, t) && |looks| == |chain| && Between(a, looks, t)
    ensures var c := Sweep(looks, chain); GoodChain(hash, t, c, b) && forall i :: 0 <= i < |c| ==> Live(a, c[i])
  {
    SweepFacts(a, looks, t, chain);
    LaterChain(a, t, Sweep(looks, chain));
    hide LiveFirst, AllSettled, Between, Later, Live, Sweep;
    var c := Sweep(looks, chain);
    forall i | 0 <= i < |c| ensures Home(hash, c[i].key) == b && Live(a, c[i]) {
      assert c[i] in c;
    }
  }

  lemma SweptLookup(hash: Quintuple -> nat, a: seq<int>, looks: seq<seq<int>>, t: seq<int>, chain: seq<Conn>, b: nat, k: Quintuple)
    requires GoodChain(hash, a, chain, b) && Later(a, t) && |looks| == |chain| && Between(a, looks, t)
    ensures Lookup(t, Sweep(looks, chain), k) == Lookup(t, chain, k)
  {
    SweepLookup(a, looks, t, chain, k);
  }

  function MatchCount(chain: seq<Conn>, ip: nat, port: nat, tid: nat): nat {
    if chain == [] then 0
    else var n := |chain| - 1; MatchCount(chain[..n], ip, port, tid) + if Matches(chain[n], ip, port, tid) then 1 else 0
  }

  /** The number of entries of the table that match. */
  function Matching(bs: seq<Bucket>, ip: nat, port: nat, tid: nat): nat {
    if bs == [] then 0 else Matching(bs[..|bs| - 1], ip, port, tid) + MatchCount(bs[|bs| - 1].chain, ip, port, tid)
  }

  lemma MatchingSnoc(bs: seq<Bucket>, b: nat, ip: nat, port: nat, tid: nat)
    requires b < |bs|
    ensures Matching(bs[..b + 1], ip, port, tid) == Matching(bs[..b], ip, port, tid) + MatchCount(bs[b].chain, ip, port, tid)
  {
    hide MatchCount;
    assert bs[..b + 1][..b] == bs[..b];
  }

  lemma {:induction false} NothingMatches(bs: seq<Bucket>, ip: nat, port: nat, tid: nat)
    requires Total(bs) == 0
    ensures Matching(bs, ip, port, tid) == 0
  {
    if bs != [] { NothingMatches(bs[..|bs| - 1], ip, port, tid); }
  }

  lemma RecoverSnoc(chain: seq<Conn>, i: nat, ip: nat, port: nat, tid: nat, id: Sid)
    requires i < |chain|
    ensures Recover(chain[..i + 1], ip, port, tid, id) ==
            Recover(chain[..i], ip, port, tid, id) + [RecoverConn(chain[i], ip, port, tid, id)]
    ensures MatchCount(chain[..i + 1], ip, port, tid) ==
            MatchCount(chain[..i], ip, port, tid) + if Matches(chain[i], ip, port, tid) then 1 else 0
  {
    assert chain[..i + 1][..i] == chain[..i];
  }

  /** A recovered sock is pointed to by matching connections only. */
  lemma {:induction false} RecoverPointing(chain: seq<Conn>, ip: nat, port: nat, tid: nat, id: Sid, j: Sid)
    ensures var r := Recover(chain, ip, port, tid, id);
            && (j != id ==> PointingIn(r, j) == PointingIn(chain, j))
            && PointingIn(r, id) <= PointingIn(chain, id) + MatchCount(chain, ip, port, tid)
  {
    if chain != [] {
      var n := |chain| - 1;
      RecoverPointing(chain[..n], ip, port, tid, id, j);
      assert Recover(chain, ip, port, tid, id)[..n] == Recover(chain[..n], ip, port, tid, id);
    }
  }

  ghost predicate IsRecovered(a: seq<Bucket>, r: seq<Bucket>, ip: nat, port: nat, tid: nat, id: Sid) {
    |r| == |a| && forall b :: 0 <= b < |a| ==> r[b] == Bucket(a[b].size, Recover(a[b].chain, ip, port, tid, id))
  }

  lemma RecoverTable(hash: Quintuple -> nat, ticks: seq<int>, a: seq<Bucket>, r: seq<Bucket>, ip: nat, port: nat, tid: nat, id: Sid)
    requires GoodTable(hash, ticks, a) && IsRecovered(a, r, ip, port, tid, id)
    ensures GoodTable(hash, ticks, r)
    ensures forall k :: At(hash, ticks, r, k) == Recovered(At(hash, ticks, a, k), ip, port, tid, id)
  {
    forall b | 0 <= b < |r| ensures GoodChain(hash, ticks, r[b].chain, b) {
      RecoverLookup(ticks, a[b].chain, Quintuple(0, 0, 0, 0, 0), ip, port, tid, id);
    }
    forall k ensures At(hash, ticks, r, k) == Recovered(At(hash, ticks, a, k), ip, port, tid, id) {
      assert GoodChain(hash, ticks, a[Home(hash, k)].chain, Home(hash, k));
      RecoverLookup(ticks, a[Home(hash, k)].chain, k, ip, port, tid, id);
    }
  }

  // ----- the sock chains -----

  function SockHome(hash: (nat, nat) -> nat, ip: nat, port: nat): (b: nat)
    ensures b < SOCK_BUCKETS
  {
    hash(ip, port) % SOCK_BUCKETS
  }

  predicate Distinct(ids: seq<Sid>) {
    forall i, j :: 0 <= i < j < |ids| ==> ids[i] != ids[j]
  }

  /** The chains hold exactly the socks in memory, each in its own place and once. */
  ghost predicate GoodSocks(hash: (nat, nat) -> nat, ticks: seq<int>, socks: map<Sid, Sock>, chains: seq<seq<Sid>>) {
    && |chains| == SOCK_BUCKETS
    && (forall b :: 0 <= b < |chains| ==> Distinct(chains[b]))
    && (forall b, i :: 0 <= b < |chains| && 0 <= i < |chains[b]| ==>
          chains[b][i] in socks && SockHome(hash, socks[chains[b][i]].ip, socks[chains[b][i]].port) == b)
    && (forall id :: id in socks ==> id in chains[SockHome(hash, socks[id].ip, socks[id].port)])
    && (forall id :: id in socks ==> Settled(ticks, socks[id].tick, socks[id].reg))
  }

  function Lens(chains: seq<seq<Sid>>): nat {
    if chains == [] then 0 else Lens(chains[..|chains| - 1]) + |chains[|chains| - 1]|
  }

  lemma {:induction false} LensUpdate(chains: seq<seq<Sid>>, b: nat, x: seq<Sid>)
    requires b < |chains|
    ensures Lens(chains[b := x]) == Lens(chains) - |chains[b]| + |x|
  {
    var n := |chains| - 1;
    if b < n {
      LensUpdate(chains[..n], b, x);
      assert chains[b := x][..n] == chains[..n][b := x];
    } else {
      assert chains[b := x][..n] == chains[..n];
    }
  }

  lemma RemoveId(ids: seq<Sid>, at: nat)
    requires Distinct(ids) && at < |ids|
    ensures var x := ids[..at] + ids[at + 1..];
            && Distinct(x) && |x| == |ids| - 1 && forall j :: j in x <==> j in ids && j != ids[at]
  {
    var x := ids[..at] + ids[at + 1..];
    assert forall i :: 0 <= i < |x| ==> x[i] == if i < at then ids[i] else ids[i + 1];
    forall j | j in ids && j != ids[at] ensures j in x {
      var i :| 0 <= i < |ids| && ids[i] == j;
      assert x[if i < at then i else i - 1] == j;
    }
  }

  /** Freeing one sock: the chains stay good, and the counts stay right exactly if no connection points to it. */
  lemma FreeSock(hash: (nat, nat) -> nat, ticks: seq<int>, socks: map<Sid, Sock>, chains: seq<seq<Sid>>, b: nat, at: nat)
    requires GoodSocks(hash, ticks, socks, chains) && b < SOCK_BUCKETS && at < |chains[b]|
    ensures var x := chains[b][..at] + chains[b][at + 1..];
            && GoodSocks(hash, ticks, socks - {chains[b][at]}, chains[b := x])
            && Lens(chains[b := x]) == Lens(chains) - 1
  {
    var id, x := chains[b][at], chains[b][..at] + chains[b][at + 1..];
    var s, cs := socks - {id}, chains[b := x];
    LensUpdate(chains, b, x);
    RemoveId(chains[b], at);
    hide Lens, Settled, Distinct, SockHome;
    forall h, i | 0 <= h < |cs| && 0 <= i < |cs[h]|
      ensures cs[h][i] in s && SockHome(hash, s[cs[h][i]].ip, s[cs[h][i]].port) == h
    {
      assert cs[h][i] in cs[h];
      var k :| 0 <= k < |chains[h]| && chains[h][k] == cs[h][i];
      assert chains[b][at] == id;
    }
  }

  lemma FreeCounted(bs: seq<Bucket>, socks: map<Sid, Sock>, id: Sid)
    requires Counted(bs, socks)
    ensures Counted(bs, socks - {id}) <==> Pointing(bs, id) == 0
  {
    hide Pointing;
    if Counted(bs, socks - {id}) { assert Pointing(bs, id) <= 0; }
  }

  /** A new sock at the head of its chain. */
  lemma InsertSock(hash: (nat, nat) -> nat, ticks: seq<int>, socks: map<Sid, Sock>, chains: seq<seq<Sid>>, id: Sid, s: Sock)
    requires GoodSocks(hash, ticks, socks, chains) && id !in socks && Settled(ticks, s.tick, s.reg)
    ensures var b := SockHome(hash, s.ip, s.port);
            && GoodSocks(hash, ticks, socks[id := s], chains[b := [id] + chains[b]])
            && Lens(chains[b := [id] + chains[b]]) == Lens(chains) + 1
  {
    var b := SockHome(hash, s.ip, s.port);
    var x := [id] + chains[b];
    LensUpdate(chains, b, x);
    hide Lens, Settled, SockHome;
    assert Distinct(x) by {
      forall i, j | 0 <= i < j < |x| ensures x[i] != x[j] {
        if i == 0 { assert chains[b][j - 1] in socks; }
      }
    }
    hide Distinct;
    var cs, ss := chains[b := x], socks[id := s];
    forall h, i | 0 <= h < |cs| && 0 <= i < |cs[h]|
      ensures cs[h][i] in ss && SockHome(hash, ss[cs[h][i]].ip, ss[cs[h][i]].port) == h
    {
      if h == b && i > 0 { assert x[i] == chains[b][i - 1]; }
    }
  }

  /** The ticks and the count of a sock are written. */
  lemma WriteSock(hash: (nat, nat) -> nat, ticks: seq<int>, socks: map<Sid, Sock>, chains: seq<seq<Sid>>, id: Sid, s: Sock)
    requires GoodSocks(hash, ticks, socks, chains) && id in socks && s.ip == socks[id].ip && s.port == socks[id].port
    requires Settled(ticks, s.tick, s.reg)
    ensures GoodSocks(hash, ticks, socks[id := s], chains)
  {
    hide Settled, Distinct, SockHome;
  }

  lemma LaterSocks(hash: (nat, nat) -> nat, a: seq<int>, t: seq<int>, socks: map<Sid, Sock>, chains: seq<seq<Sid>>)
    requires GoodSocks(hash, a, socks, chains) && Later(a, t)
    ensures GoodSocks(hash, t, socks, chains)
    ensures forall id :: id in socks && IsOn(t, socks[id].tick, socks[id].reg) ==> IsOn(a, socks[id].tick, socks[id].reg)
  {
    forall id | id in socks
      ensures Settled(t, socks[id].tick, socks[id].reg)
              && (IsOn(t, socks[id].tick, socks[id].reg) ==> IsOn(a, socks[id].tick, socks[id].reg))
    {
      OnBefore(a, t, socks[id].tick, socks[id].reg);
    }
    hide Distinct, SockHome, Settled, IsOn, Later;
  }

  /** Freeing socks keeps the counts right exactly if no connection points to any of them. */
  lemma FreeManyCounted(bs: seq<Bucket>, a: map<Sid, Sock>, b: map<Sid, Sock>)
    requires Counted(bs, a) && forall id :: id in b ==> id in a && b[id] == a[id]
    ensures Counted(bs, b) <==> forall id :: id in a && id !in b ==> Pointing(bs, id) == 0
  {
    hide Pointing;
    if Counted(bs, b) {
      forall id | id in a && id !in b ensures Pointing(bs, id) == 0 { assert Pointing(bs, id) <= 0; }
    }
  }
}
