/** The TCP send path of one socket: one application thread appends bytes, one stack thread hands them to lwip.

    One action is one access to shared memory.  The send ring appears as the log of all packet buffers ever
    enqueued with unbounded cursors, which is what FourCursorRing proves of it.  An Id names one allocation of
    a packet buffer; SendRecycle says what happens when its memory is freed and allocated anew.  Absent entries
    of `next` are NULL, of `last` the buffer itself; `closed` holds the buffers with allow_in == 0.  The fields
    from `used` on are history. */
module SendPath {

  type Byte = x: int | 0 <= x < 256
  type Id = nat

  const MAX: nat := 1460  // MBUF_MAX_DATA_LEN

  datatype Ptr = Null | To(id: Id)

  /** What the application does with the last released buffer. */
  datatype Job = Merge(bytes: seq<Byte>) | Attach(ids: seq<Id>, payloads: seq<seq<Byte>>)

  datatype AppPc = AppIdle
    | LastLoaded(tail: nat, job: Job)       // cons.tail was loaded
    | LastLocked(p: Id, job: Job)           // the spin lock was taken
    | LastAllowed(p: Id, job: Job)          // allow_in was seen set
    | MergeCopy(p: Id, chunk: seq<Byte>)    // the length is stored, the bytes are not
    | AttachLast(p: Id, lastId: Id)         // the new chain is linked, `last` is not moved
    | Holding(p: Id)                        // ready to unlock
    | BuffFilled(payloads: seq<seq<Byte>>)
    | DirectFilled(ids: seq<Id>, payloads: seq<seq<Byte>>)
    | DirectLast(p: Id, lastId: Id)

  /** The next access inside write_lwip_data(remain). */
  datatype StackPc = StackIdle
    | PreLock(remain: nat) | PreLocked(remain: nat) | PreMove
    | TakeLast(remain: nat)
    | DeqLoad(remain: nat) | DeqStore(remain: nat) | CountOver(remain: nat)
    | RingLock(remain: nat) | RingLocked(remain: nat) | RingOpen(remain: nat) | RingMove

  datatype State = State(
    cap: nat, ring: seq<Id>, consTail: nat, prodTail: nat, prodHead: nat,
    data: map<Id, seq<Byte>>, len: map<Id, nat>, next: map<Id, Id>, last: map<Id, Id>, closed: set<Id>,
    appLock: Ptr, stackLock: Ptr, preDel: Ptr, lastData: Ptr, inHand: bool,
    apc: AppPc, spc: StackPc,
    used: set<Id>,             // every buffer ever allocated
    stream: seq<Id>,           // the buffers in the order in which the application released them
    start: seq<nat>,           // where in the stream the chain of each released ring buffer starts, and the end
    done: nat, preEnd: nat, lastEnd: nat,  // stream[..done] is confirmed; then the chains of preDel and lastData
    accepted: seq<Byte>, confirmed: seq<Byte>,
    given: map<Id, seq<Byte>>) // what write_lwip_data has returned, with the bytes it had then

  datatype Action =
    | LoadTail(job: Job) | App | AllocFails
    | BuffFill(payloads: seq<seq<Byte>>)
    | DirectFill(ids: seq<Id>, payloads: seq<seq<Byte>>)
    | CallWrite(remain: nat) | Stack | WriteOver | Replenish(ids: seq<Id>)

  function Init(cap: nat): State {
    State(cap, [], 0, 0, 0, map[], map[], map[], map[], {}, Null, Null, Null, Null, false,
          AppIdle, StackIdle, {}, [], [0], 0, 0, 0, [], [], map[])
  }

  function Data(s: State, p: Id): seq<Byte> { if p in s.data then s.data[p] else [] }
  function Len(s: State, p: Id): nat { if p in s.len then s.len[p] else 0 }
  function NextOf(next: map<Id, Id>, p: Id): Ptr { if p in next then To(next[p]) else Null }
  function LastOf(s: State, p: Id): Id { if p in s.last then s.last[p] else p }
  function Min(a: int, b: int): int { if a < b then a else b }

  function Flat(payloads: seq<seq<Byte>>): seq<Byte> {
    if payloads == [] then [] else Flat(payloads[..|payloads| - 1]) + payloads[|payloads| - 1]
  }

  function ButLast(q: seq<nat>): seq<nat> { if q == [] then [] else q[..|q| - 1] }

  predicate Distinct(ids: seq<Id>) {
    forall i, j :: 0 <= i < j < |ids| ==> ids[i] != ids[j]
  }

  /** Freshly allocated buffers. */
  predicate Fresh(s: State, ids: seq<Id>) {
    Distinct(ids) && forall i :: 0 <= i < |ids| ==> ids[i] !in s.used
  }

  predicate Payloads(payloads: seq<seq<Byte>>) {
    payloads != [] && forall i :: 0 <= i < |payloads| ==> 0 < |payloads[i]| <= MAX
  }

  /** data and len of ids[i] become payloads[i]. */
  function SetData(data: map<Id, seq<Byte>>, ids: seq<Id>, payloads: seq<seq<Byte>>): map<Id, seq<Byte>>
    requires |ids| == |payloads|
  {
    if ids == [] then data
    else SetData(data, ids[..|ids| - 1], payloads[..|ids| - 1])[ids[|ids| - 1] := payloads[|ids| - 1]]
  }

  function SetLen(len: map<Id, nat>, ids: seq<Id>, payloads: seq<seq<Byte>>): map<Id, nat>
    requires |ids| == |payloads|
  {
    if ids == [] then len
    else SetLen(len, ids[..|ids| - 1], payloads[..|ids| - 1])[ids[|ids| - 1] := |payloads[|ids| - 1]|]
  }

  /** pbufs[i - 1]->next = pbufs[i]. */
  function Link(next: map<Id, Id>, ids: seq<Id>): map<Id, Id> {
    if |ids| <= 1 then next else Link(next, ids[..|ids| - 1])[ids[|ids| - 2] := ids[|ids| - 1]]
  }

  // ----- the application thread: merge, attach, fill -----

  function UnlockApp(s: State): State { s.(appLock := Null, apc := AppIdle) }

  /** Allocate, fill and link the new chain, then attach_pbuf->last->next = pbufs[0]. */
  function DoAttach(s: State, p: Id, ids: seq<Id>, payloads: seq<seq<Byte>>): State
    requires |ids| == |payloads| > 0
  {
    var n := |s.stream| + |ids|;
    var open := s.consTail >= s.prodTail;
    s.(data := SetData(s.data, ids, payloads), len := SetLen(s.len, ids, payloads),
       next := Link(s.next, ids)[LastOf(s, p) := ids[0]], used := s.used + (set i | i in ids),
       apc := AttachLast(p, ids[|ids| - 1]),
       stream := s.stream + ids, start := ButLast(s.start) + [n],
       preEnd := if open then n else s.preEnd, lastEnd := if open then n else s.lastEnd,
       accepted := s.accepted + Flat(payloads))
  }

  /** gazelle_ring_read_over after app_buff_write: every filled buffer is a chain of its own. */
  function DoBuffOver(s: State, payloads: seq<seq<Byte>>): State
    requires s.prodTail <= s.prodHead <= |s.ring|
  {
    s.(prodTail := s.prodHead, apc := AppIdle,
       stream := s.stream + s.ring[s.prodTail..s.prodHead],
       start := s.start + seq(s.prodHead - s.prodTail, i => |s.stream| + i + 1),
       accepted := s.accepted + Flat(payloads))
  }

  /** gazelle_ring_read_over after app_direct_write. */
  function DoDirectOver(s: State, ids: seq<Id>, payloads: seq<seq<Byte>>): State
    requires ids != []
  {
    s.(prodTail := s.prodHead, apc := DirectLast(ids[0], ids[|ids| - 1]),
       stream := s.stream + ids, start := s.start + [|s.stream| + |ids|],
       accepted := s.accepted + Flat(payloads))
  }

  /** The cursor test and the check of the other lock. */
  function TakeAppLock(s: State, tail: nat, job: Job): State {
    if s.prodTail <= tail || s.prodTail - tail > s.cap || s.prodTail > |s.ring| then s.(apc := AppIdle)
    else var p := s.ring[s.prodTail - 1];
         if s.stackLock == To(p) then s.(apc := AppIdle)
         else s.(appLock := To(p), apc := LastLocked(p, job))
  }

  function BeginMerge(s: State, p: Id, bytes: seq<Byte>): State {
    if p in s.next || Len(s, p) >= MAX then UnlockApp(s)
    else var k := Min(MAX - Len(s, p), |bytes|);
         s.(len := s.len[p := Len(s, p) + k], apc := MergeCopy(p, bytes[..k]))
  }

  function BeginAttach(s: State, p: Id, ids: seq<Id>, payloads: seq<seq<Byte>>): State {
    if !Fresh(s, ids) || |ids| != |payloads| || !Payloads(payloads) then UnlockApp(s)
    else DoAttach(s, p, ids, payloads)
  }

  function StepApp(s: State): State {
    match s.apc
    case AppIdle => s
    case LastLoaded(tail, job) => TakeAppLock(s, tail, job)
    case LastLocked(p, job) => if p in s.closed then UnlockApp(s) else s.(apc := LastAllowed(p, job))
    case LastAllowed(p, Merge(bytes)) => BeginMerge(s, p, bytes)
    case LastAllowed(p, Attach(ids, payloads)) => BeginAttach(s, p, ids, payloads)
    case MergeCopy(p, chunk) =>
      s.(data := s.data[p := Data(s, p) + chunk], accepted := s.accepted + chunk, apc := Holding(p))
    case AttachLast(p, l) => s.(last := s.last[p := l], apc := Holding(p))
    case Holding(p) => UnlockApp(s)
    case BuffFilled(payloads) => if s.prodTail <= s.prodHead <= |s.ring| then DoBuffOver(s, payloads) else s
    case DirectFilled(ids, payloads) => if ids == [] then s else DoDirectOver(s, ids, payloads)
    case DirectLast(p, l) => s.(last := s.last[p := l], apc := AppIdle)
  }

  /** gazelle_ring_read of as many idle buffers as there are payloads, and the copying into them. */
  function DoBuffFill(s: State, payloads: seq<seq<Byte>>): State {
    var h := s.prodHead + |payloads|;
    if s.apc != AppIdle || !Payloads(payloads) || h > |s.ring| then s
    else var ids := s.ring[s.prodHead..h];
         s.(data := SetData(s.data, ids, payloads), len := SetLen(s.len, ids, payloads),
            prodHead := h, apc := BuffFilled(payloads))
  }

  /** One idle buffer of the ring, with new buffers chained behind it. */
  function DoDirectFill(s: State, ids: seq<Id>, payloads: seq<seq<Byte>>): State {
    if s.apc != AppIdle || !Payloads(payloads) || s.prodHead >= |s.ring| || !Fresh(s, ids)
       || ids == [] || |ids| + 1 != |payloads| then s
    else var all := [s.ring[s.prodHead]] + ids;
         s.(data := SetData(s.data, all, payloads), len := SetLen(s.len, all, payloads),
            next := Link(s.next, all), used := s.used + (set i | i in ids),
            prodHead := s.prodHead + 1, apc := DirectFilled(all, payloads))
  }

  // ----- the stack thread: write_lwip_data, write_lwip_over, replenish -----

  function ReturnNull(s: State): State { s.(spc := StackIdle) }

  function Close(s: State, p: Id): State { s.(closed := s.closed + {p}, stackLock := Null) }

  /** Cut p off its chain and return it to lwip. */
  function Return(s: State, p: Id): State {
    s.(next := s.next - {p}, preEnd := s.done + 1, spc := StackIdle, inHand := true,
       given := s.given[p := Data(s, p)])
  }

  function Dequeue(s: State, r: nat): State {
    if s.consTail >= |s.ring| || s.consTail + 1 >= |s.start| then s
    else s.(consTail := s.consTail + 1, preDel := To(s.ring[s.consTail]), spc := CountOver(r),
            preEnd := s.start[s.consTail + 1], lastEnd := s.start[s.consTail + 1])
  }

  function TakeLastData(s: State, p: Id, r: nat): State {
    if Len(s, p) > r then ReturnNull(s)
    else Return(s.(preDel := To(p), lastData := NextOf(s.next, p)), p)
  }

  function StepStack(s: State): State {
    match s.spc
    case StackIdle => s
    case DeqLoad(r) => if s.prodTail <= s.consTail then ReturnNull(s) else s.(spc := DeqStore(r))
    case DeqStore(r) => Dequeue(s, r)
    case TakeLast(r) => if s.lastData.Null? then s else TakeLastData(s, s.lastData.id, r)
    case _ =>
      if s.preDel.Null? then s
      else StepPre(s, s.preDel.id)
  }

  function TakeStackLock(s: State, p: Id, next: StackPc): State {
    if s.appLock == To(p) then s else s.(stackLock := To(p), spc := next)
  }

  /** Under the lock: the size test, then allow_in is cleared and the lock dropped. */
  function TryClose(s: State, p: Id, r: nat, next: StackPc): State {
    if Len(s, p) > r then ReturnNull(s.(stackLock := Null)) else Close(s, p).(spc := next)
  }

  /** The steps on the buffer in send_pre_del. */
  function StepPre(s: State, p: Id): State {
    match s.spc
    case PreLock(r) => TakeStackLock(s, p, PreLocked(r))
    case PreLocked(r) => TryClose(s, p, r, PreMove)
    case PreMove => Return(if p in s.next then s.(lastData := NextOf(s.next, p)) else s, p)
    case CountOver(r) => s.(spc := if s.prodTail == s.consTail then RingLock(r) else RingOpen(r))
    case RingLock(r) => TakeStackLock(s, p, RingLocked(r))
    case RingLocked(r) => TryClose(s, p, r, RingMove)
    case RingOpen(r) => if Len(s, p) > r then ReturnNull(s) else s.(spc := RingMove)
    case RingMove => Return(s.(lastData := NextOf(s.next, p)), p)
    case _ => s
  }

  function DoCallWrite(s: State, r: nat): State {
    if s.spc != StackIdle then s
    else s.(inHand := false,
            spc := if s.preDel.To? then PreLock(r) else if s.lastData.To? then TakeLast(r) else DeqLoad(r))
  }

  /** lwip confirms the buffer it was given last. */
  function DoWriteOver(s: State): State {
    if s.spc != StackIdle || !s.inHand || s.preDel.Null? then s
    else s.(preDel := Null, inHand := false, done := s.done + 1, confirmed := s.confirmed + Data(s, s.preDel.id))
  }

  function DoReplenish(s: State, ids: seq<Id>): State {
    if s.spc != StackIdle || !Fresh(s, ids) || |s.ring| + |ids| > s.consTail + s.cap then s
    else s.(ring := s.ring + ids, used := s.used + (set i | i in ids))
  }

  function Step(s: State, a: Action): State {
    match a
    case LoadTail(job) => if s.apc != AppIdle then s else s.(apc := LastLoaded(s.consTail, job))
    case App => StepApp(s)
    case AllocFails => if s.apc.LastAllowed? && s.apc.job.Attach? then UnlockApp(s) else s
    case BuffFill(payloads) => DoBuffFill(s, payloads)
    case DirectFill(ids, payloads) => DoDirectFill(s, ids, payloads)
    case CallWrite(r) => DoCallWrite(s, r)
    case Stack => StepStack(s)
    case WriteOver => DoWriteOver(s)
    case Replenish(ids) => DoReplenish(s, ids)
  }

  function Run(s: State, trace: seq<Action>): State {
    if trace == [] then s else Step(Run(s, trace[..|trace| - 1]), trace[|trace| - 1])
  }

  /** The bytes of a list of buffers. */
  function Bytes(data: map<Id, seq<Byte>>, ids: seq<Id>): seq<Byte> {
    if ids == [] then []
    else var p := ids[|ids| - 1];
         Bytes(data, ids[..|ids| - 1]) + if p in data then data[p] else []
  }
}
