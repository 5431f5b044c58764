/** The four-cursor ring as a transition system of its two threads.

    The owner enqueues and dequeues; the reader looks at objects in place and then releases them.
    A cursor is a 32-bit word that wraps; an operation loads the other thread's cursor once, at its
    start, and then copies slot by slot, so that load may be stale by the time it is used.
    `log`, `taken`, `seen` and `released` are history: all objects ever enqueued, dequeued, read and
    the number of objects ever released. */
module FourCursorRing {

  const WORD: nat := 0x1_0000_0000

  type Word = x: int | 0 <= x < WORD

  /** Unsigned 32-bit arithmetic. */
  function Wrap(x: int): Word { x % WORD }

  datatype OwnerPc<T> = OwnerIdle
    | Enqueuing(objs: seq<T>, copied: nat)
    | Dequeuing(n: nat, got: seq<T>)

  datatype ReaderPc<T> = ReaderIdle | Reading(n: nat, got: seq<T>)

  datatype State<T> = State(
    slots: seq<T>,
    consTail: Word, consHead: Word, prodTail: Word, prodHead: Word,
    owner: OwnerPc<T>, reader: ReaderPc<T>,
    log: seq<T>, taken: seq<T>, seen: seq<T>, released: nat)

  datatype Action<T> =
    | EnqueueLoad(objs: seq<T>) | EnqueueCopy | EnqueueStore
    | DequeueLoad(max: nat) | DequeueCopy | DequeueStore
    | ReadLoad(max: nat) | ReadCopy | ReadStore
    | ReadOver

  /** The capacity of an rte_ring is one less than its power-of-two size, and the mask is the capacity:
      masking a cursor is taking it modulo the size. */
  ghost predicate GoodSize(size: nat) {
    2 <= size <= WORD && WORD % size == 0
  }

  /** cursor & mask */
  function Index(cursor: nat, size: nat): (i: nat)
    requires size > 0
    ensures i < size
  {
    cursor % size
  }

  function Slot<T>(s: State<T>, cursor: nat): T
    requires |s.slots| > 0
  {
    s.slots[Index(cursor, |s.slots|)]
  }

  function Min(a: int, b: int): int { if a < b then a else b }

  function Step<T>(s: State<T>, a: Action<T>): State<T>
    requires |s.slots| > 0
    ensures |Step(s, a).slots| == |s.slots|
  {
    match a
    case EnqueueLoad(objs) =>
      if s.owner != OwnerIdle || |objs| > Wrap(|s.slots| - 1 + s.consTail - s.consHead) then s
      else s.(owner := Enqueuing(objs, 0))
    case EnqueueCopy =>
      if !s.owner.Enqueuing? || s.owner.copied >= |s.owner.objs| then s
      else var k := s.owner.copied;
           s.(slots := s.slots[Index(s.consHead + k, |s.slots|) := s.owner.objs[k]],
              owner := s.owner.(copied := k + 1))
    case EnqueueStore =>
      if !s.owner.Enqueuing? || s.owner.copied < |s.owner.objs| then s
      else s.(consHead := Wrap(s.consHead + |s.owner.objs|), owner := OwnerIdle, log := s.log + s.owner.objs)
    case DequeueLoad(max) =>
      var n := Min(max, Wrap(s.prodTail - s.consTail));
      if s.owner != OwnerIdle || n == 0 then s else s.(owner := Dequeuing(n, []))
    case DequeueCopy =>
      if !s.owner.Dequeuing? || |s.owner.got| >= s.owner.n then s
      else s.(owner := s.owner.(got := s.owner.got + [Slot(s, s.consTail + |s.owner.got|)]))
    case DequeueStore =>
      if !s.owner.Dequeuing? || |s.owner.got| < s.owner.n then s
      else s.(consTail := Wrap(s.consTail + s.owner.n), owner := OwnerIdle, taken := s.taken + s.owner.got)
    case ReadLoad(max) =>
      var n := Min(max, Wrap(s.consHead - s.prodHead));
      if s.reader != ReaderIdle || n == 0 then s else s.(reader := Reading(n, []))
    case ReadCopy =>
      if !s.reader.Reading? || |s.reader.got| >= s.reader.n then s
      else s.(reader := s.reader.(got := s.reader.got + [Slot(s, s.prodHead + |s.reader.got|)]))
    case ReadStore =>
      if !s.reader.Reading? || |s.reader.got| < s.reader.n then s
      else s.(prodHead := Wrap(s.prodHead + s.reader.n), reader := ReaderIdle, seen := s.seen + s.reader.got)
    case ReadOver =>
      if s.reader != ReaderIdle then s else s.(prodTail := s.prodHead, released := |s.seen|)
  }

  function Run<T>(s: State<T>, trace: seq<Action<T>>): State<T>
    requires |s.slots| > 0
    ensures |Run(s, trace).slots| == |s.slots|
  {
    if trace == [] then s else Step(Run(s, trace[..|trace| - 1]), trace[|trace| - 1])
  }

  ghost predicate Fresh<T>(s: State<T>) {
    && GoodSize(|s.slots|)
    && s.consTail == s.consHead == s.prodTail == s.prodHead == 0
    && s.owner == OwnerIdle && s.reader == ReaderIdle
    && s.log == s.taken == s.seen == [] && s.released == 0
  }

  // ----- the invariant -----

  /** The cursors are the lengths of the histories, modulo 2^32, and the histories nest. */
  ghost predicate Cursors<T>(s: State<T>) {
    && s.consTail == Wrap(|s.taken|) && s.consHead == Wrap(|s.log|)
    && s.prodTail == Wrap(s.released) && s.prodHead == Wrap(|s.seen|)
    && |s.taken| <= s.released <= |s.seen| <= |s.log| <= |s.taken| + |s.slots| - 1
  }

  /** Everything not yet dequeued is in its slot. */
  ghost predicate Stored<T>(slots: seq<T>, log: seq<T>, from: nat) {
    |slots| > 0 && forall i :: from <= i < |log| ==> slots[Index(i, |slots|)] == log[i]
  }

  /** Even the slot of the object dequeued last is still untouched. */
  ghost function Kept<T>(taken: seq<T>): nat {
    if taken == [] then 0 else |taken| - 1
  }

  ghost predicate OwnerFacts<T>(owner: OwnerPc<T>, slots: seq<T>, log: seq<T>, taken: seq<T>, released: nat) {
    match owner
    case OwnerIdle => true
    case Enqueuing(objs, k) =>
      && k <= |objs| && |log| + |objs| <= |taken| + |slots| - 1
      && Stored(slots, log + objs[..k], Kept(taken))
    case Dequeuing(n, got) =>
      && |got| <= n && |taken| + n <= released <= |log|
      && got == log[|taken|..|taken| + |got|]
  }

  ghost predicate ReaderFacts<T>(reader: ReaderPc<T>, log: seq<T>, seen: seq<T>) {
    match reader
    case ReaderIdle => true
    case Reading(n, got) =>
      && |got| <= n && |seen| + n <= |log|
      && got == log[|seen|..|seen| + |got|]
  }

  ghost predicate Inv<T>(s: State<T>) {
    && GoodSize(|s.slots|)
    && Cursors(s)
    && s.taken == s.log[..|s.taken|] && s.seen == s.log[..|s.seen|]
    && Stored(s.slots, s.log, Kept(s.taken))
    && OwnerFacts(s.owner, s.slots, s.log, s.taken, s.released) && ReaderFacts(s.reader, s.log, s.seen)
  }

  // ----- modular arithmetic -----

  /** A wrapped cursor addresses the same slot as the true one, because the size divides 2^32. */
  lemma WrapKeepsSlot(x: nat, k: nat, size: nat)
    requires GoodSize(size)
    ensures Index(Wrap(x) + k, size) == Index(x + k, size)
  {
    var q, c := x / WORD, WORD / size;
    assert x == Wrap(x) + WORD * q;
    assert WORD == size * c;
    assert x + k == Wrap(x) + k + size * (c * q) by {
      assert WORD * q == size * (c * q);
    }
    ModShift(Wrap(x) + k, c * q, size);
  }

  lemma MulMonotone(a: int, b: int, size: nat)
    requires a <= b
    ensures a * size <= b * size
  {
  }

  lemma MulStrict(a: int, b: int, size: nat)
    requires a < b
    ensures a * size + size <= b * size
  {
    MulMonotone(a + 1, b, size);
    assert (a + 1) * size == a * size + size;
  }

  /** Quotient and remainder are unique. */
  lemma DivisionIsUnique(x: int, q: int, r: int, size: nat)
    requires x == q * size + r && 0 <= r < size
    ensures x % size == r && x / size == q
  {
    var p := x / size;
    assert x == p * size + x % size;
    if p < q { MulStrict(p, q, size); } else if p > q { MulStrict(q, p, size); }
  }

  lemma ModShift(a: nat, m: nat, size: nat)
    requires size > 0
    ensures (a + size * m) % size == a % size
  {
    var q, r := a / size, a % size;
    assert a == q * size + r;
    assert (q + m) * size == q * size + size * m;
    DivisionIsUnique(a + size * m, q + m, r, size);
  }

  /** Unsigned subtraction of two wrapped cursors gives their true distance while that is below 2^32. */
  lemma WrapDistance(a: int, b: int, d: int)
    requires 0 <= d + a - b < WORD
    ensures Wrap(d + Wrap(a) - Wrap(b)) == d + a - b
  {
    var qa, qb := a / WORD, b / WORD;
    assert a == Wrap(a) + WORD * qa && b == Wrap(b) + WORD * qb;
    var x := d + Wrap(a) - Wrap(b);
    assert x == (d + a - b) + WORD * (qb - qa);
    assert x % WORD == d + a - b;
  }

  lemma WrapAdd(a: int, n: int)
    ensures Wrap(Wrap(a) + n) == Wrap(a + n)
  {
  }

  /** The test of the reader on the last released object: is anything released beyond the tail it loaded? */
  lemma LastTest(released: nat, before: nat)
    requires before <= released < before + WORD
    ensures Wrap(Wrap(Wrap(released) - 1) + 1) == Wrap(released)
    ensures Wrap(Wrap(released) - Wrap(before)) == released - before
    ensures Wrap(released) == Wrap(before) <==> released == before
  {
    WrapAdd(released, -1);
    WrapAdd(released - 1, 1);
    WrapDistance(released, before, 0);
  }

  /** Two different cursors less than a ring apart address different slots. */
  lemma SlotsDiffer(i: nat, j: nat, size: nat)
    requires i < j < i + size
    ensures Index(i, size) != Index(j, size)
  {
    var p, q := i / size, j / size;
    assert i == p * size + i % size && j == q * size + j % size;
    if p < q { MulStrict(p, q, size); } else if p > q { MulStrict(q, p, size); }
  }

  // ----- preservation -----

  lemma FreshInv<T>(s: State<T>)
    requires Fresh(s)
    ensures Inv(s)
  {
  }

  /** The three unsigned differences the operations compute are the true distances. */
  lemma CountsAreExact<T>(s: State<T>)
    requires Inv(s)
    ensures |s.slots| >= 2 && |s.taken| <= s.released <= |s.seen| <= |s.log| <= |s.taken| + |s.slots| - 1
    ensures Wrap(s.prodTail - s.consTail) == s.released - |s.taken|
    ensures Wrap(s.consHead - s.prodHead) == |s.log| - |s.seen|
    ensures Wrap(s.consHead - s.consTail) == |s.log| - |s.taken|
    ensures Wrap(|s.slots| - 1 + s.consTail - s.consHead) == |s.slots| - 1 - (|s.log| - |s.taken|)
  {
    WrapDistance(s.released, |s.taken|, 0);
    WrapDistance(|s.log|, |s.seen|, 0);
    WrapDistance(|s.log|, |s.taken|, 0);
    WrapDistance(|s.taken|, |s.log|, |s.slots| - 1);
  }

  /** Copying one object into its slot keeps every object that is still needed. */
  lemma CopyIn<T>(slots: seq<T>, log: seq<T>, from: nat, x: T)
    requires Stored(slots, log, from) && from <= |log| < from + |slots|
    ensures Stored(slots[Index(|log|, |slots|) := x], log + [x], from)
  {
    forall i | from <= i < |log| ensures Index(i, |slots|) != Index(|log|, |slots|) {
      SlotsDiffer(i, |log|, |slots|);
    }
  }

  lemma EnqueueCopyKeepsInv<T>(s: State<T>)
    requires Inv(s) && s.owner.Enqueuing? && s.owner.copied < |s.owner.objs|
    ensures Inv(Step(s, EnqueueCopy))
  {
    hide ReaderFacts;
    var objs, k := s.owner.objs, s.owner.copied;
    WrapKeepsSlot(|s.log|, k, |s.slots|);
    CopyIn(s.slots, s.log + objs[..k], Kept(s.taken), objs[k]);
    assert s.log + objs[..k] + [objs[k]] == s.log + objs[..k + 1];
    var t := Step(s, EnqueueCopy);
    assert Stored(t.slots, t.log + objs[..k + 1], Kept(t.taken));
    assert forall i :: Kept(t.taken) <= i < |t.log| ==> (t.log + objs[..k + 1])[i] == t.log[i];
  }

  lemma EnqueueStoreKeepsInv<T>(s: State<T>)
    requires Inv(s) && s.owner.Enqueuing? && s.owner.copied >= |s.owner.objs|
    ensures Inv(Step(s, EnqueueStore))
  {
    hide Index;
    var objs := s.owner.objs;
    assert objs[..|objs|] == objs;
    WrapAdd(|s.log|, |objs|);
    var t := Step(s, EnqueueStore);
    assert forall n :: 0 <= n <= |s.log| ==> t.log[..n] == s.log[..n];
    if s.reader.Reading? {
      assert t.log[|s.seen|..|s.seen| + |s.reader.got|] == s.log[|s.seen|..|s.seen| + |s.reader.got|];
    }
  }

  lemma DequeueCopyKeepsInv<T>(s: State<T>)
    requires Inv(s) && s.owner.Dequeuing? && |s.owner.got| < s.owner.n
    ensures Inv(Step(s, DequeueCopy))
    ensures Step(s, DequeueCopy) ==
            s.(owner := Dequeuing(s.owner.n, s.owner.got + [Slot(s, s.consTail + |s.owner.got|)]))
  {
    hide ReaderFacts;
    var k := |s.taken| + |s.owner.got|;
    WrapKeepsSlot(|s.taken|, |s.owner.got|, |s.slots|);
    assert Slot(s, s.consTail + |s.owner.got|) == s.log[k];
    assert s.log[|s.taken|..k] + [s.log[k]] == s.log[|s.taken|..k + 1];
  }

  lemma DequeueStoreKeepsInv<T>(s: State<T>)
    requires Inv(s) && s.owner.Dequeuing? && |s.owner.got| >= s.owner.n
    ensures Inv(Step(s, DequeueStore))
    ensures Step(s, DequeueStore) ==
            s.(consTail := Wrap(s.consTail + s.owner.n), owner := OwnerIdle, taken := s.taken + s.owner.got)
  {
    hide ReaderFacts;
    WrapAdd(|s.taken|, s.owner.n);
    assert s.taken + s.owner.got == s.log[..|s.taken| + s.owner.n];
  }

  lemma ReadCopyKeepsInv<T>(s: State<T>)
    requires Inv(s) && s.reader.Reading? && |s.reader.got| < s.reader.n
    ensures Inv(Step(s, ReadCopy))
    ensures Step(s, ReadCopy) ==
            s.(reader := Reading(s.reader.n, s.reader.got + [Slot(s, s.prodHead + |s.reader.got|)]))
  {
    hide OwnerFacts;
    var k := |s.seen| + |s.reader.got|;
    WrapKeepsSlot(|s.seen|, |s.reader.got|, |s.slots|);
    assert Slot(s, s.prodHead + |s.reader.got|) == s.log[k];
    assert s.log[|s.seen|..k] + [s.log[k]] == s.log[|s.seen|..k + 1];
  }

  lemma ReadStoreKeepsInv<T>(s: State<T>)
    requires Inv(s) && s.reader.Reading? && |s.reader.got| >= s.reader.n
    ensures Inv(Step(s, ReadStore))
    ensures Step(s, ReadStore) ==
            s.(prodHead := Wrap(s.prodHead + s.reader.n), reader := ReaderIdle, seen := s.seen + s.reader.got)
  {
    hide OwnerFacts;
    WrapAdd(|s.seen|, s.reader.n);
    assert s.seen + s.reader.got == s.log[..|s.seen| + s.reader.n];
  }

  lemma LoadKeepsInv<T>(s: State<T>, a: Action<T>)
    requires Inv(s) && (a.EnqueueLoad? || a.DequeueLoad? || a.ReadLoad? || a.ReadOver?)
    ensures Inv(Step(s, a))
  {
    hide Index;
    hide Stored;
    CountsAreExact(s);
    if a.EnqueueLoad? { assert s.log + a.objs[..0] == s.log; }
  }

  lemma StepKeepsInv<T>(s: State<T>, a: Action<T>)
    requires Inv(s)
    ensures Inv(Step(s, a))
  {
    hide Inv;
    match a
    case EnqueueLoad(_) => LoadKeepsInv(s, a);
    case EnqueueCopy => if s.owner.Enqueuing? && s.owner.copied < |s.owner.objs| { EnqueueCopyKeepsInv(s); }
    case EnqueueStore => if s.owner.Enqueuing? && s.owner.copied >= |s.owner.objs| { EnqueueStoreKeepsInv(s); }
    case DequeueLoad(_) => LoadKeepsInv(s, a);
    case DequeueCopy => if s.owner.Dequeuing? && |s.owner.got| < s.owner.n { DequeueCopyKeepsInv(s); }
    case DequeueStore => if s.owner.Dequeuing? && |s.owner.got| >= s.owner.n { DequeueStoreKeepsInv(s); }
    case ReadLoad(_) => LoadKeepsInv(s, a);
    case ReadCopy => if s.reader.Reading? && |s.reader.got| < s.reader.n { ReadCopyKeepsInv(s); }
    case ReadStore => if s.reader.Reading? && |s.reader.got| >= s.reader.n { ReadStoreKeepsInv(s); }
    case ReadOver => LoadKeepsInv(s, a);
  }

  lemma {:induction false} RunKeepsInv<T>(s: State<T>, trace: seq<Action<T>>)
    requires Inv(s)
    ensures Inv(Run(s, trace))
  {
    if trace != [] {
      RunKeepsInv(s, trace[..|trace| - 1]);
      StepKeepsInv(Run(s, trace[..|trace| - 1]), trace[|trace| - 1]);
    }
  }

  // ----- the promises -----

  /** In every interleaving of the two threads reads and dequeues follow enqueue order, only released objects
      are dequeued, the cursors stay in their order across any number of wraps, and everything not
      dequeued is still in its slot. */
  lemma {:induction false} RingOnEveryRun<T>(s0: State<T>, trace: seq<Action<T>>)
    requires Fresh(s0)
    ensures var s := Run(s0, trace);
            && |s.taken| <= s.released <= |s.seen| <= |s.log| <= |s.taken| + |s0.slots| - 1
            && s.taken <= s.log && s.seen <= s.log
            && s.consTail == Wrap(|s.taken|) && s.prodTail == Wrap(s.released)
            && s.prodHead == Wrap(|s.seen|) && s.consHead == Wrap(|s.log|)
            && forall i :: |s.taken| <= i < |s.log| ==> s.slots[Index(i, |s.slots|)] == s.log[i]
  {
    FreshInv(s0);
    RunKeepsInv(s0, trace);
  }

  /** An enqueue is refused exactly when the free room is too small, whatever the reader is doing. */
  lemma RefusedIffNoRoom<T>(s: State<T>, objs: seq<T>)
    requires Inv(s) && s.owner == OwnerIdle
    ensures Step(s, EnqueueLoad(objs)) == s <==> |s.log| + |objs| > |s.taken| + |s.slots| - 1
  {
    CountsAreExact(s);
  }

  /** The word cons.tail a thread loaded some time ago, and the slot of the last released object: the object is
      still there even if it has been dequeued in between, because a ring is never filled completely.
      This is what lets the reader look at the last released object with a stale tail. */
  lemma {:induction false} LastReleasedIsIntact<T>(s: State<T>, t: State<T>, trace: seq<Action<T>>)
    requires Inv(s) && t == Run(s, trace) && t.released == s.released > |s.taken|
    ensures Slot(t, Wrap(t.prodTail - 1)) == s.log[s.released - 1]
    ensures |t.log| >= s.released && t.log[s.released - 1] == s.log[s.released - 1]
  {
    hide Run, Stored, OwnerFacts, ReaderFacts, Slot;
    RunKeepsInv(s, trace);
    LogGrows(s, trace);
    LastSlot(t);
  }

  lemma LastSlot<T>(t: State<T>)
    requires Inv(t)
    ensures t.prodTail == Wrap(t.released) && |t.slots| >= 2
    ensures t.released > 0 ==> Slot(t, Wrap(t.prodTail - 1)) == t.log[t.released - 1]
  {
    if t.released == 0 { return; }
    var i := t.released - 1;
    WrapAdd(t.released, -1);
    WrapKeepsSlot(i, 0, |t.slots|);
    assert t.slots[Index(i, |t.slots|)] == t.log[i];
  }

  lemma {:induction false} LogGrows<T>(s: State<T>, trace: seq<Action<T>>)
    requires |s.slots| > 0
    ensures s.log <= Run(s, trace).log
  {
    if trace != [] { LogGrows(s, trace[..|trace| - 1]); }
  }
}
