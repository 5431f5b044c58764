/** The ring functions themselves, on an array of slots and four wrapping words.  `owner` and `reader` are what the two
    threads have in their local variables, and `history` is every access made so far.  In the operations that end in
    Amid, `env(k)` is what the other thread does before the k-th access; each access is one step of the run. */
module RteRingCode {
  import opened FourCursorRing

  /** The other thread does nothing. */
  ghost predicate Quiet<T>(env: nat -> seq<Action<T>>) { forall k: nat :: env(k) == [] }

  lemma OneMore<T>(s0: State<T>, trace: seq<Action<T>>, a: Action<T>)
    requires |s0.slots| > 0 && Inv(Run(s0, trace))
    ensures Run(s0, trace + [a]) == Step(Run(s0, trace), a) && Inv(Run(s0, trace + [a]))
  {
    hide Inv, Step;
    assert (trace + [a])[..|trace|] == trace;
    StepKeepsInv(Run(s0, trace), a);
  }

  class RteRing<T(0)> {
    const slots: array<T>
    var consTail: Word
    var consHead: Word
    var prodTail: Word
    var prodHead: Word
    var owner: OwnerPc<T>
    var reader: ReaderPc<T>
    ghost var log: seq<T>
    ghost var taken: seq<T>
    ghost var seen: seq<T>
    ghost var released: nat
    ghost var first: State<T>
    ghost var history: seq<Action<T>>

    ghost function View(): State<T>
      reads this, slots
    {
      State(slots[..], consTail, consHead, prodTail, prodHead, owner, reader, log, taken, seen, released)
    }

    /** Whatever the two threads are doing, the ring is where a run from an empty ring has led. */
    ghost predicate Sound()
      reads this, slots
    {
      Fresh(first) && View() == Run(first, history) && Inv(View())
    }

    /** Sound, with no operation under way. */
    ghost predicate Valid()
      reads this, slots
    {
      Sound() && owner.OwnerIdle? && reader.ReaderIdle?
    }

    function Capacity(): int { slots.Length - 1 }

    /** The cursors never leave their order, and what was read or dequeued is what was enqueued first. */
    lemma Bounds()
      requires Sound()
      ensures |taken| <= released <= |seen| <= |log| <= |taken| + Capacity()
      ensures taken <= log && seen <= log
    {
      CountsAreExact(View());
    }

    lemma Words()
      requires Sound()
      ensures prodTail == Wrap(released) && consTail == Wrap(|taken|) && Capacity() < WORD
    {
      hide Index, Wrap;
    }

    lemma LastStays()
      requires Sound()
      ensures released > 0 ==> slots[Index(Wrap(prodTail - 1), slots.Length)] == log[released - 1]
    {
      LastSlot(View());
    }

    lemma ReaderBounds()
      requires Sound() && reader.Reading?
      ensures |reader.got| <= reader.n
    {
      hide Index, Wrap, Run;
    }

    constructor (size: nat)
      requires GoodSize(size)
      ensures Valid() && fresh(slots) && slots.Length == size
      ensures log == taken == seen == [] && released == 0
    {
      slots := new T[size];
      consTail, consHead, prodTail, prodHead := 0, 0, 0, 0;
      owner, reader := OwnerIdle, ReaderIdle;
      log, taken, seen, released, history := [], [], [], 0, [];
      new;
      first := View();
      FreshInv(View());
    }

    // ----- the accesses, each of them one step -----

    method LoadRoom(objs: seq<T>) returns (ok: bool)
      requires Sound() && owner.OwnerIdle?
      modifies `owner, `history
      ensures Sound() && View() == Step(old(View()), EnqueueLoad(objs)) && history == old(history) + [EnqueueLoad(objs)]
      ensures ok == (|objs| <= Capacity() - (|log| - |taken|)) && owner == if ok then Enqueuing(objs, 0) else OwnerIdle
    {
      hide Inv, Index, Wrap, Run;
      CountsAreExact(View());
      OneMore(first, history, EnqueueLoad(objs));
      history := history + [EnqueueLoad(objs)];
      var head: int, tail: int := consHead, consTail;
      var entries := Wrap(Capacity() + tail - head);
      ok := |objs| <= entries;
      if ok {
        owner := Enqueuing(objs, 0);
      }
    }

    method CopyIn()
      requires Sound() && owner.Enqueuing? && owner.copied < |owner.objs|
      modifies slots, `owner, `history
      ensures Sound() && View() == Step(old(View()), EnqueueCopy) && history == old(history) + [EnqueueCopy]
      ensures owner == old(owner).(copied := old(owner).copied + 1)
    {
      hide Inv, Index, Wrap, Run;
      CountsAreExact(View());
      OneMore(first, history, EnqueueCopy);
      history := history + [EnqueueCopy];
      slots[Index(consHead + owner.copied, slots.Length)] := owner.objs[owner.copied];
      owner := owner.(copied := owner.copied + 1);
    }

    method StoreConsHead()
      requires Sound() && owner.Enqueuing? && owner.copied >= |owner.objs|
      modifies `consHead, `owner, `log, `history
      ensures Sound() && View() == Step(old(View()), EnqueueStore) && history == old(history) + [EnqueueStore]
      ensures log == old(log) + old(owner).objs && owner.OwnerIdle?
    {
      hide Inv, Index, Wrap, Run;
      OneMore(first, history, EnqueueStore);
      history := history + [EnqueueStore];
      log := log + owner.objs;
      consHead := Wrap(consHead + |owner.objs|);
      owner := OwnerIdle;
    }

    method LoadReleased(max: nat) returns (n: nat)
      requires Sound() && owner.OwnerIdle?
      modifies `owner, `history
      ensures Sound() && View() == Step(old(View()), DequeueLoad(max)) && history == old(history) + [DequeueLoad(max)]
      ensures n == Min(max, released - |taken|) && owner == if n == 0 then OwnerIdle else Dequeuing(n, [])
    {
      hide Inv, Index, Wrap, Run;
      CountsAreExact(View());
      OneMore(first, history, DequeueLoad(max));
      history := history + [DequeueLoad(max)];
      var prod: int, cons: int := prodTail, consTail;
      n := Min(max, Wrap(prod - cons));
      if n != 0 {
        owner := Dequeuing(n, []);
      }
    }

    method CopyOut()
      requires Sound() && owner.Dequeuing? && |owner.got| < owner.n
      modifies `owner, `history
      ensures Sound() && View() == Step(old(View()), DequeueCopy) && history == old(history) + [DequeueCopy]
      ensures owner.Dequeuing? && owner.n == old(owner).n && |owner.got| == |old(owner).got| + 1
    {
      hide Inv, Index, Wrap, Run;
      CountsAreExact(View());
      OneMore(first, history, DequeueCopy);
      history := history + [DequeueCopy];
      owner := owner.(got := owner.got + [slots[Index(consTail + |owner.got|, slots.Length)]]);
    }

    method StoreConsTail()
      requires Sound() && owner.Dequeuing? && |owner.got| >= owner.n
      modifies `consTail, `owner, `taken, `history
      ensures Sound() && View() == Step(old(View()), DequeueStore) && history == old(history) + [DequeueStore]
      ensures taken == old(taken) + old(owner).got && owner.OwnerIdle?
    {
      hide Inv, Index, Wrap, Run;
      OneMore(first, history, DequeueStore);
      history := history + [DequeueStore];
      taken := taken + owner.got;
      consTail := Wrap(consTail + owner.n);
      owner := OwnerIdle;
    }

    method LoadEnqueued(max: nat) returns (n: nat)
      requires Sound() && reader.ReaderIdle?
      modifies `reader, `history
      ensures Sound() && View() == Step(old(View()), ReadLoad(max)) && history == old(history) + [ReadLoad(max)]
      ensures n == Min(max, |log| - |seen|) && reader == if n == 0 then ReaderIdle else Reading(n, [])
    {
      hide Inv, Index, Wrap, Run;
      CountsAreExact(View());
      OneMore(first, history, ReadLoad(max));
      history := history + [ReadLoad(max)];
      var cons: int, prod: int := consHead, prodHead;
      n := Min(max, Wrap(cons - prod));
      if n != 0 {
        reader := Reading(n, []);
      }
    }

    method Look()
      requires Sound() && reader.Reading? && |reader.got| < reader.n
      modifies `reader, `history
      ensures Sound() && View() == Step(old(View()), ReadCopy) && history == old(history) + [ReadCopy]
      ensures reader.Reading? && reader.n == old(reader).n && |reader.got| == |old(reader).got| + 1
    {
      hide Inv, Index, Wrap, Run;
      CountsAreExact(View());
      OneMore(first, history, ReadCopy);
      history := history + [ReadCopy];
      reader := reader.(got := reader.got + [slots[Index(prodHead + |reader.got|, slots.Length)]]);
    }

    method StoreProdHead()
      requires Sound() && reader.Reading? && |reader.got| >= reader.n
      modifies `prodHead, `reader, `seen, `history
      ensures Sound() && View() == Step(old(View()), ReadStore) && history == old(history) + [ReadStore]
      ensures seen == old(seen) + old(reader).got && reader.ReaderIdle?
    {
      hide Inv, Index, Wrap, Run;
      OneMore(first, history, ReadStore);
      history := history + [ReadStore];
      seen := seen + reader.got;
      prodHead := Wrap(prodHead + reader.n);
      reader := ReaderIdle;
    }

    /** gazelle_ring_read_over. */
    method ReadOver()
      requires Sound() && reader.ReaderIdle?
      modifies `prodTail, `released, `history
      ensures Sound() && View() == Step(old(View()), Action.ReadOver) && history == old(history) + [Action.ReadOver]
      ensures released == |seen| && (old(Valid()) ==> Valid())
    {
      hide Inv, Index, Wrap, Run;
      OneMore(first, history, Action.ReadOver);
      history := history + [Action.ReadOver];
      prodTail := prodHead;
      released := |seen|;
    }

    // ----- the turns of the other thread -----

    /** What the owner does while the reader is in the middle of an operation. */
    method OwnerTurn(acts: seq<Action<T>>)
      requires Sound()
      modifies slots, `consHead, `consTail, `owner, `log, `taken, `history
      ensures Sound() && old(log) <= log && old(taken) <= taken
      ensures old(history) <= history && (acts == [] ==> history == old(history))
      ensures acts == [] ==> owner == old(owner) && log == old(log) && taken == old(taken)
    {
      hide Sound, View, Step;
      for k := 0 to |acts|
        invariant Sound() && old(log) <= log && old(taken) <= taken && old(history) <= history
        invariant k == 0 ==> history == old(history) && owner == old(owner) && log == old(log) && taken == old(taken)
      {
        match acts[k] {
          case EnqueueLoad(objs) => if owner.OwnerIdle? { var _ := LoadRoom(objs); }
          case EnqueueCopy => if owner.Enqueuing? && owner.copied < |owner.objs| { CopyIn(); }
          case EnqueueStore => if owner.Enqueuing? && owner.copied >= |owner.objs| { StoreConsHead(); }
          case DequeueLoad(max) => if owner.OwnerIdle? { var _ := LoadReleased(max); }
          case DequeueCopy => if owner.Dequeuing? && |owner.got| < owner.n { CopyOut(); }
          case DequeueStore => if owner.Dequeuing? && |owner.got| >= owner.n { StoreConsTail(); }
          case _ =>
        }
      }
    }

    /** What the reader does while the owner is in the middle of an operation. */
    method ReaderTurn(acts: seq<Action<T>>)
      requires Sound()
      modifies `prodHead, `prodTail, `reader, `seen, `released, `history
      ensures Sound() && old(seen) <= seen && old(released) <= released
      ensures old(history) <= history && (acts == [] ==> history == old(history))
      ensures acts == [] ==> reader == old(reader) && seen == old(seen) && released == old(released)
    {
      hide Sound, View, Step;
      for k := 0 to |acts|
        invariant Sound() && old(seen) <= seen && old(released) <= released && old(history) <= history
        invariant k == 0 ==> history == old(history) && reader == old(reader) && seen == old(seen) && released == old(released)
      {
        Bounds();
        match acts[k] {
          case ReadLoad(max) => if reader.ReaderIdle? { var _ := LoadEnqueued(max); }
          case ReadCopy => if reader.Reading? && |reader.got| < reader.n { Look(); }
          case ReadStore => if reader.Reading? && |reader.got| >= reader.n { StoreProdHead(); }
          case ReadOver => if reader.ReaderIdle? { ReadOver(); }
          case _ =>
        }
      }
    }

    // ----- the operations, with the other thread moving before each of their accesses -----

    method CopyAllIn(objs: seq<T>, env: nat -> seq<Action<T>>)
      requires Sound() && owner == Enqueuing(objs, 0)
      modifies slots, `owner, `prodHead, `prodTail, `reader, `seen, `released, `history
      ensures Sound() && owner == Enqueuing(objs, |objs|) && old(history) <= history
      ensures old(seen) <= seen && old(released) <= released
      ensures Quiet(env) ==> reader == old(reader) && seen == old(seen) && released == old(released)
    {
      hide Sound, View, Step;
      for k := 0 to |objs|
        invariant Sound() && owner == Enqueuing(objs, k) && old(history) <= history
        invariant old(seen) <= seen && old(released) <= released
        invariant Quiet(env) ==> reader == old(reader) && seen == old(seen) && released == old(released)
      {
        ReaderTurn(env(k + 1));
        CopyIn();
      }
    }

    /** gazelle_ring_sp_enqueue: all or nothing. */
    method SpEnqueueAmid(objs: seq<T>, env: nat -> seq<Action<T>>) returns (n: nat)
      requires Sound() && owner.OwnerIdle?
      modifies this, slots
      ensures Sound() && owner.OwnerIdle? && first == old(first) && old(history) <= history
      ensures taken == old(taken) && old(seen) <= seen && old(released) <= released
      ensures n == if |objs| > Capacity() - (|old(log)| - |taken|) then 0 else |objs|
      ensures log == old(log) + objs[..n]
      ensures Quiet(env) ==> reader == old(reader) && seen == old(seen) && released == old(released)
    {
      hide Sound, View, Step;
      ReaderTurn(env(0));
      var ok := LoadRoom(objs);
      if !ok {
        return 0;
      }
      CopyAllIn(objs, env);
      ReaderTurn(env(|objs| + 1));
      StoreConsHead();
      return |objs|;
    }

    method CopyAllOut(n: nat, env: nat -> seq<Action<T>>)
      requires Sound() && owner == Dequeuing(n, [])
      modifies `owner, `prodHead, `prodTail, `reader, `seen, `released, `history
      ensures Sound() && owner.Dequeuing? && owner.n == n == |owner.got| && old(history) <= history
      ensures old(seen) <= seen && old(released) <= released
      ensures Quiet(env) ==> reader == old(reader) && seen == old(seen) && released == old(released)
    {
      hide Sound, View, Step;
      for k := 0 to n
        invariant Sound() && owner.Dequeuing? && owner.n == n && |owner.got| == k && old(history) <= history
        invariant old(seen) <= seen && old(released) <= released
        invariant Quiet(env) ==> reader == old(reader) && seen == old(seen) && released == old(released)
      {
        ReaderTurn(env(k + 1));
        CopyOut();
      }
    }

    /** gazelle_ring_sc_dequeue; `loaded` objects were released when it looked. */
    method ScDequeueAmid(max: nat, env: nat -> seq<Action<T>>) returns (got: seq<T>, ghost loaded: nat)
      requires Sound() && owner.OwnerIdle?
      modifies this
      ensures Sound() && owner.OwnerIdle? && first == old(first) && old(history) <= history
      ensures log == old(log) && old(seen) <= seen && old(released) <= loaded <= released
      ensures |got| == Min(max, loaded - |old(taken)|) && taken == old(taken) + got
      ensures Quiet(env) ==> reader == old(reader) && seen == old(seen) && released == old(released)
    {
      hide Sound, View, Step;
      ReaderTurn(env(0));
      Bounds();
      loaded := released;
      var n := LoadReleased(max);
      if n == 0 {
        return [], loaded;
      }
      CopyAllOut(n, env);
      ReaderTurn(env(n + 1));
      got := owner.got;
      StoreConsTail();
    }

    method LookAtAll(n: nat, env: nat -> seq<Action<T>>)
      requires Sound() && reader == Reading(n, [])
      modifies `reader, slots, `consHead, `consTail, `owner, `log, `taken, `history
      ensures Sound() && reader.Reading? && reader.n == n == |reader.got| && old(history) <= history
      ensures old(log) <= log && old(taken) <= taken
      ensures Quiet(env) ==> owner == old(owner) && log == old(log) && taken == old(taken)
    {
      hide Sound, View, Step;
      for k := 0 to n
        invariant Sound() && reader.Reading? && reader.n == n && |reader.got| == k && old(history) <= history
        invariant old(log) <= log && old(taken) <= taken
        invariant Quiet(env) ==> owner == old(owner) && log == old(log) && taken == old(taken)
      {
        OwnerTurn(env(k + 1));
        Look();
      }
    }

    /** gazelle_ring_read; `loaded` objects were enqueued when it looked. */
    method ReadAmid(max: nat, env: nat -> seq<Action<T>>) returns (got: seq<T>, ghost loaded: nat)
      requires Sound() && reader.ReaderIdle?
      modifies this, slots
      ensures Sound() && reader.ReaderIdle? && first == old(first) && old(history) <= history
      ensures released == old(released) && old(log) <= log && old(taken) <= taken
      ensures |old(log)| <= loaded <= |log| && |got| == Min(max, loaded - |old(seen)|) && seen == old(seen) + got
      ensures Quiet(env) ==> owner == old(owner) && log == old(log) && taken == old(taken)
    {
      hide Sound, View, Step;
      OwnerTurn(env(0));
      Bounds();
      loaded := |log|;
      var n := LoadEnqueued(max);
      if n == 0 {
        return [], loaded;
      }
      LookAtAll(n, env);
      OwnerTurn(env(n + 1));
      got := reader.got;
      StoreProdHead();
    }

    /** gazelle_ring_readlast up to the spin lock.  `loaded` objects were dequeued when it looked: it finds the last
        released object exactly when that had not been dequeued yet, and it finds it even if it is dequeued since. */
    method ReadLast(env: nat -> seq<Action<T>>) returns (last: seq<T>, ghost loaded: nat)
      requires Sound()
      modifies slots, `consHead, `consTail, `owner, `log, `taken, `history
      ensures Sound() && old(history) <= history && old(log) <= log && old(taken) <= taken
      ensures |old(taken)| <= loaded <= |taken| && loaded <= released <= |old(log)|
      ensures last == if loaded == released then [] else [old(log)[released - 1]]
    {
      hide Sound, View, Wrap, Index;
      Bounds();
      OwnerTurn(env(0));
      Bounds();
      loaded := |taken|;
      Words();
      var tail: int := consTail;
      OwnerTurn(env(1));
      var index: int := Wrap(prodTail - 1);
      LastTest(released, loaded);
      Words();
      if Wrap(index + 1) == tail || Wrap(Wrap(index + 1) - tail) > Capacity() {
        return [], loaded;
      }
      OwnerTurn(env(2));
      LastStays();
      return [slots[Index(index, slots.Length)]], loaded;
    }

    /** The four count helpers. */
    method Counts() returns (readover: nat, readable: nat, count: nat, free: int)
      requires Sound()
      ensures readover == released - |taken| && readable == |log| - |seen|
      ensures count == |log| - |taken| && free == Capacity() - count >= 0
    {
      hide Inv, Index, Wrap, Run;
      CountsAreExact(View());
      readover := Wrap(prodTail - consTail);
      readable := Wrap(consHead - prodHead);
      count := Wrap(consHead - consTail);
      free := Capacity() - count;
    }
  }
}
