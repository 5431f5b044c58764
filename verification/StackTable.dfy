/** The stack table, and the walk over the stack array of an instance that logs out.  The walk deletes by thread id: the
    first stack of its bucket with that id goes, whichever stack of the array was meant.  Thread ids can repeat: a stack
    whose registration could not be answered stays in table and array, and the thread may register again. */
module StackTable {

  type Stid = nat

  const BUCKETS: nat := 32   // GAZELLE_MAX_STACK_HTABLE_SIZE

  datatype Option<T> = None | Some(value: T)

  datatype Stack = Stack(id: Stid, tid: nat)

  /** tid_hash_fn(tid) % GAZELLE_MAX_STACK_HTABLE_SIZE */
  function Home(hash: nat -> nat, tid: nat): (b: nat)
    ensures b < BUCKETS
  {
    hash(tid) % BUCKETS
  }

  // ----- one chain -----

  /** gazelle_stack_del_by_tid on the chain of the thread: the stack it frees, and what it leaves. */
  function Hit(chain: seq<Stack>, tid: nat): Option<Stack> {
    if chain == [] then None else if chain[0].tid == tid then Some(chain[0]) else Hit(chain[1..], tid)
  }

  function Drop(chain: seq<Stack>, tid: nat): seq<Stack> {
    if chain == [] then [] else if chain[0].tid == tid then chain[1..] else [chain[0]] + Drop(chain[1..], tid)
  }

  function AsSeq(o: Option<Stack>): seq<Stack> { match o case None => [] case Some(s) => [s] }

  predicate Distinct(ss: seq<Stack>) {
    forall i, j :: 0 <= i < j < |ss| ==> ss[i] != ss[j]
  }

  /** What is left of a chain without the stacks that are gone. */
  function Minus(chain: seq<Stack>, gone: seq<Stack>): (r: seq<Stack>)
    ensures forall s :: s in r <==> s in chain && s !in gone
  {
    if chain == [] then []
    else if chain[0] in gone then Minus(chain[1..], gone) else [chain[0]] + Minus(chain[1..], gone)
  }

  // ----- the table, and the walk over an array of stacks -----

  /** Each stack is in the chain of its thread id, once. */
  ghost predicate Good(hash: nat -> nat, chains: seq<seq<Stack>>) {
    && |chains| == BUCKETS
    && forall b :: 0 <= b < |chains| ==>
         Distinct(chains[b]) && forall i :: 0 <= i < |chains[b]| ==> Home(hash, chains[b][i].tid) == b
  }

  function Chain(hash: nat -> nat, chains: seq<seq<Stack>>, tid: nat): seq<Stack>
    requires |chains| == BUCKETS
  {
    chains[Home(hash, tid)]
  }

  function After(hash: nat -> nat, chains: seq<seq<Stack>>, places: seq<Stack>): (r: seq<seq<Stack>>)
    requires |chains| == BUCKETS
    ensures |r| == BUCKETS
  {
    if places == [] then chains
    else var r, tid := After(hash, chains, places[..|places| - 1]), places[|places| - 1].tid;
         r[Home(hash, tid) := Drop(Chain(hash, r, tid), tid)]
  }

  /** The stacks the walk frees, in order. */
  function Freed(hash: nat -> nat, chains: seq<seq<Stack>>, places: seq<Stack>): (f: seq<Stack>)
    requires |chains| == BUCKETS
    ensures |f| <= |places|
  {
    if places == [] then []
    else var n := |places| - 1;
         Freed(hash, chains, places[..n]) + AsSeq(Hit(Chain(hash, After(hash, chains, places[..n]), places[n].tid), places[n].tid))
  }

  /** No stack is looked at after it was freed, and in the end all are freed. */
  ghost predicate Clean(hash: nat -> nat, chains: seq<seq<Stack>>, places: seq<Stack>)
    requires |chains| == BUCKETS
  {
    && (forall k :: 0 <= k < |places| ==> places[k] !in Freed(hash, chains, places[..k]))
    && (forall k :: 0 <= k < |places| ==> places[k] in Freed(hash, chains, places))
  }

  /** From the head of the chain to s there are only stacks of other threads and stacks of `before`. */
  predicate Ahead(chain: seq<Stack>, s: Stack, before: seq<Stack>) {
    chain != [] && (chain[0] == s || ((chain[0].tid != s.tid || chain[0] in before) && Ahead(chain[1..], s, before)))
  }

  /** Every stack of the array has only stacks of other threads and of lower array index ahead of it in its chain. */
  ghost predicate InOrder(hash: nat -> nat, chains: seq<seq<Stack>>, places: seq<Stack>)
    requires |chains| == BUCKETS
  {
    forall k :: 0 <= k < |places| ==> Ahead(Chain(hash, chains, places[k].tid), places[k], places[..k])
  }

  /** The array of an instance: distinct stacks of the table. */
  ghost predicate Registered(hash: nat -> nat, chains: seq<seq<Stack>>, places: seq<Stack>) {
    && Good(hash, chains) && Distinct(places)
    && forall k :: 0 <= k < |places| ==> places[k] in Chain(hash, chains, places[k].tid)
  }

  // ----- the first stack of a thread among those left -----

  lemma {:induction false} HitLeft(chain: seq<Stack>, gone: seq<Stack>, s: Stack)
    ensures Hit(Minus(chain, gone), s.tid) == Some(s) <==> s !in gone && Ahead(chain, s, gone)
  {
    if chain != [] {
      HitLeft(chain[1..], gone, s);
      assert ([chain[0]] + Minus(chain[1..], gone))[1..] == Minus(chain[1..], gone);
    }
  }

  lemma {:induction false} HitIsListed(chain: seq<Stack>, tid: nat)
    ensures var h := Hit(chain, tid);
            && (h.Some? ==> h.value in chain && h.value.tid == tid)
            && (h.None? ==> forall s :: s in chain ==> s.tid != tid)
  {
    if chain != [] { HitIsListed(chain[1..], tid); }
  }

  /** Dropping what is hit leaves the others. */
  lemma {:induction false} DropLeft(chain: seq<Stack>, gone: seq<Stack>, s: Stack)
    requires Distinct(chain) && Hit(Minus(chain, gone), s.tid) == Some(s)
    ensures Drop(Minus(chain, gone), s.tid) == Minus(chain, gone + [s])
  {
    var rest := chain[1..];
    assert ([chain[0]] + Minus(rest, gone))[1..] == Minus(rest, gone);
    if chain[0] !in gone && chain[0].tid == s.tid {
      MinusOther(rest, gone, s);
    } else {
      DropLeft(rest, gone, s);
    }
  }

  lemma {:induction false} MinusOther(chain: seq<Stack>, gone: seq<Stack>, s: Stack)
    requires s !in chain
    ensures Minus(chain, gone + [s]) == Minus(chain, gone)
  {
    if chain != [] { MinusOther(chain[1..], gone, s); }
  }

  lemma {:induction false} MinusNone(chain: seq<Stack>)
    ensures Minus(chain, []) == chain
  {
    if chain != [] { MinusNone(chain[1..]); }
  }

  // ----- the walk -----

  lemma PrefixRegistered(hash: nat -> nat, chains: seq<seq<Stack>>, places: seq<Stack>, k: nat)
    requires Registered(hash, chains, places) && k <= |places|
    ensures Registered(hash, chains, places[..k])
    ensures InOrder(hash, chains, places) ==> InOrder(hash, chains, places[..k])
  {
    hide Good, Ahead, Home;
    assert forall i :: 0 <= i < k ==> places[..k][..i] == places[..i];
  }

  lemma LastIsNew(before: seq<Stack>, s: Stack)
    requires Distinct(before + [s])
    ensures s !in before
  {
    assert (before + [s])[|before|] == s;
    assert forall i :: 0 <= i < |before| ==> (before + [s])[i] == before[i];
  }

  lemma OneStep(hash: nat -> nat, chains: seq<seq<Stack>>, before: seq<Stack>, s: Stack)
    requires |chains| == BUCKETS
    ensures var r := After(hash, chains, before);
            && After(hash, chains, before + [s]) == r[Home(hash, s.tid) := Drop(r[Home(hash, s.tid)], s.tid)]
            && Freed(hash, chains, before + [s]) == Freed(hash, chains, before) + AsSeq(Hit(r[Home(hash, s.tid)], s.tid))
  {
    assert (before + [s])[..|before|] == before;
  }

  /** In order, each stack of the array is freed when it is looked at. */
  lemma {:induction false} InOrderWalk(hash: nat -> nat, chains: seq<seq<Stack>>, places: seq<Stack>)
    requires Registered(hash, chains, places) && InOrder(hash, chains, places)
    ensures Freed(hash, chains, places) == places
    ensures forall b :: 0 <= b < BUCKETS ==> After(hash, chains, places)[b] == Minus(chains[b], places)
  {
    if places == [] {
      forall b | 0 <= b < BUCKETS ensures After(hash, chains, places)[b] == Minus(chains[b], places) { MinusNone(chains[b]); }
    } else {
      var n := |places| - 1;
      var s, before := places[n], places[..n];
      assert before + [s] == places;
      PrefixRegistered(hash, chains, places, n);
      InOrderWalk(hash, chains, before);
      assert Ahead(Chain(hash, chains, s.tid), s, before);
      NextInOrder(hash, chains, before, s);
      OneStep(hash, chains, before, s);
      hide After, Freed, Hit, Drop, Minus, Registered, InOrder, Home;
    }
  }

  lemma NextInOrder(hash: nat -> nat, chains: seq<seq<Stack>>, before: seq<Stack>, s: Stack)
    requires Registered(hash, chains, before + [s]) && Ahead(Chain(hash, chains, s.tid), s, before)
    ensures var c := Minus(Chain(hash, chains, s.tid), before);
            Hit(c, s.tid) == Some(s) && Drop(c, s.tid) == Minus(Chain(hash, chains, s.tid), before + [s])
    ensures forall b :: 0 <= b < BUCKETS && b != Home(hash, s.tid) ==> Minus(chains[b], before + [s]) == Minus(chains[b], before)
  {
    LastIsNew(before, s);
    assert (before + [s])[|before|] == s;
    HitLeft(Chain(hash, chains, s.tid), before, s);
    DropLeft(Chain(hash, chains, s.tid), before, s);
    hide Ahead, Hit, Drop, Minus;
    forall b | 0 <= b < BUCKETS && b != Home(hash, s.tid) ensures Minus(chains[b], before + [s]) == Minus(chains[b], before) {
      assert s !in chains[b];
      MinusOther(chains[b], before, s);
    }
  }

  /** The first stack of the array that is out of order. */
  lemma {:induction false} FirstWrong(hash: nat -> nat, chains: seq<seq<Stack>>, places: seq<Stack>) returns (k: nat)
    requires Registered(hash, chains, places) && !InOrder(hash, chains, places)
    ensures k < |places| && InOrder(hash, chains, places[..k])
    ensures !Ahead(Chain(hash, chains, places[k].tid), places[k], places[..k])
  {
    var n := |places| - 1;
    PrefixRegistered(hash, chains, places, n);
    hide Good, Home, Ahead;
    assert forall i :: 0 <= i < n ==> places[..n][..i] == places[..i];
    if InOrder(hash, chains, places[..n]) {
      k := n;
    } else {
      k := FirstWrong(hash, chains, places[..n]);
    }
  }

  /** Another stack is freed in its place, and not one that was freed before. */
  lemma WrongHit(hash: nat -> nat, chains: seq<seq<Stack>>, places: seq<Stack>, k: nat) returns (b: Stack)
    requires Registered(hash, chains, places) && k < |places| && InOrder(hash, chains, places[..k])
    requires !Ahead(Chain(hash, chains, places[k].tid), places[k], places[..k])
    ensures Freed(hash, chains, places[..k + 1]) == places[..k] + [b] && b !in places[..k + 1]
  {
    var s, before := places[k], places[..k];
    assert places[..k + 1] == before + [s];
    PrefixRegistered(hash, chains, places, k);
    PrefixRegistered(hash, chains, places, k + 1);
    LastIsNew(before, s);
    InOrderWalk(hash, chains, before);
    OneStep(hash, chains, before, s);
    assert s in Chain(hash, chains, s.tid);
    hide After, Freed, Registered, InOrder, Home;
    var left := Minus(Chain(hash, chains, s.tid), before);
    HitLeft(Chain(hash, chains, s.tid), before, s);
    HitIsListed(left, s.tid);
    hide Ahead, Hit, Minus;
    b := Hit(left, s.tid).value;
  }

  lemma {:induction false} FreedGrows(hash: nat -> nat, chains: seq<seq<Stack>>, places: seq<Stack>, k: nat)
    requires |chains| == BUCKETS && k <= |places|
    ensures Freed(hash, chains, places[..k]) <= Freed(hash, chains, places)
  {
    hide After, Hit;
    if k < |places| {
      var n := |places| - 1;
      FreedGrows(hash, chains, places[..n], k);
      assert places[..n][..k] == places[..k];
    } else {
      assert places[..k] == places;
    }
  }

  ghost function Elements(ss: seq<Stack>): set<Stack> { set s | s in ss }

  lemma {:induction false} ElementCount(ss: seq<Stack>)
    ensures |Elements(ss)| <= |ss| && (Distinct(ss) ==> |Elements(ss)| == |ss|)
  {
    if ss != [] {
      var n := |ss| - 1;
      ElementCount(ss[..n]);
      assert Elements(ss) == Elements(ss[..n]) + {ss[n]};
      assert Distinct(ss) ==> ss[n] !in ss[..n];
    }
  }

  /** A list that is not longer than `places` and has another member misses one of them. */
  lemma OneIsMissing(places: seq<Stack>, freed: seq<Stack>, b: Stack)
    requires Distinct(places) && |freed| <= |places| && b in freed && b !in places
    ensures exists k :: 0 <= k < |places| && places[k] !in freed
  {
    ElementCount(places);
    ElementCount(freed);
    hide Distinct;
    if forall k :: 0 <= k < |places| ==> places[k] in freed {
      Bigger(Elements(places) + {b}, Elements(freed));
    }
  }

  lemma Bigger(a: set<Stack>, b: set<Stack>)
    requires a <= b
    ensures |a| <= |b|
  {
    assert b == a + (b - a);
  }

  /** The walk looks at no freed stack and frees all of the array if and only if the array is in order. */
  lemma CleanIffInOrder(hash: nat -> nat, chains: seq<seq<Stack>>, places: seq<Stack>)
    requires Registered(hash, chains, places)
    ensures Clean(hash, chains, places) <==> InOrder(hash, chains, places)
  {
    if InOrder(hash, chains, places) {
      OrderIsClean(hash, chains, places);
    } else {
      var k := FirstWrong(hash, chains, places);
      var b := WrongHit(hash, chains, places, k);
      DisorderShows(hash, chains, places, k, b);
    }
  }

  lemma OrderIsClean(hash: nat -> nat, chains: seq<seq<Stack>>, places: seq<Stack>)
    requires Registered(hash, chains, places) && InOrder(hash, chains, places)
    ensures Clean(hash, chains, places)
  {
    InOrderWalk(hash, chains, places);
    forall k | 0 <= k < |places| ensures places[k] !in Freed(hash, chains, places[..k]) {
      PrefixRegistered(hash, chains, places, k);
      InOrderWalk(hash, chains, places[..k]);
    }
  }

  lemma DisorderShows(hash: nat -> nat, chains: seq<seq<Stack>>, places: seq<Stack>, k: nat, b: Stack)
    requires |chains| == BUCKETS && Distinct(places) && k < |places|
    requires Freed(hash, chains, places[..k + 1]) == places[..k] + [b] && b !in places[..k + 1]
    ensures !Clean(hash, chains, places)
  {
    hide Freed;
    var f := Freed(hash, chains, places[..k + 1]);
    assert f[k] == b;
    if b in places {
      var m :| 0 <= m < |places| && places[m] == b;
      assert m > k;
      FreedGrows(hash, chains, places[..m], k + 1);
      assert places[..m][..k + 1] == places[..k + 1];
      assert Freed(hash, chains, places[..m])[k] == b;
    } else {
      FreedGrows(hash, chains, places, k + 1);
      assert Freed(hash, chains, places)[k] == b;
      OneIsMissing(places, Freed(hash, chains, places), b);
    }
  }

  /** The thread whose first registration was not answered registers again: its second stack is at the head of the chain
      and behind the first one in the array. */
  lemma RetryIsOutOfOrder(hash: nat -> nat, tid: nat)
    ensures var b, places := Home(hash, tid), [Stack(1, tid), Stack(2, tid)];
            var chains := seq(BUCKETS, i => if i == b then [Stack(2, tid), Stack(1, tid)] else []);
            Registered(hash, chains, places) && !Clean(hash, chains, places)
  {
    var b, places := Home(hash, tid), [Stack(1, tid), Stack(2, tid)];
    var chains := seq(BUCKETS, i => if i == b then [Stack(2, tid), Stack(1, tid)] else []);
    assert places[..0] == [];
    assert !Ahead(Chain(hash, chains, tid), places[0], places[..0]);
    CleanIffInOrder(hash, chains, places);
  }

  // ----- the code -----

  /** The stacks in the array, by index. */
  function Places(slots: seq<Option<Stack>>): seq<Stack> {
    if slots == [] then [] else Places(slots[..|slots| - 1]) + AsSeq(slots[|slots| - 1])
  }

  lemma PlacesSnoc(slots: seq<Option<Stack>>, i: nat)
    requires i < |slots|
    ensures Places(slots[..i + 1]) == Places(slots[..i]) + AsSeq(slots[i])
  {
    assert slots[..i + 1][..i] == slots[..i];
  }

  lemma {:induction false} PlacesPrefix(slots: seq<Option<Stack>>, i: nat)
    requires i <= |slots|
    ensures Places(slots[..i]) <= Places(slots)
  {
    if i < |slots| {
      PlacesPrefix(slots[..|slots| - 1], i);
      assert slots[..|slots| - 1][..i] == slots[..i];
    } else {
      assert slots[..i] == slots;
    }
  }

  /** The walk along the chain stops at the first stack of the thread. */
  lemma {:induction false} HitAt(chain: seq<Stack>, tid: nat, i: nat)
    requires i <= |chain| && (i < |chain| ==> chain[i].tid == tid) && forall k :: 0 <= k < i ==> chain[k].tid != tid
    ensures Hit(chain, tid) == if i < |chain| then Some(chain[i]) else None
    ensures Drop(chain, tid) == if i < |chain| then chain[..i] + chain[i + 1..] else chain
  {
    if i > 0 {
      HitAt(chain[1..], tid, i - 1);
      if i < |chain| { assert [chain[0]] + (chain[1..][..i - 1] + chain[1..][i..]) == chain[..i] + chain[i + 1..]; }
      else { assert [chain[0]] + chain[1..] == chain; }
    } else if chain != [] {
      assert [] + chain[1..] == chain[1..] && chain[..0] == [];
    }
  }

  class StackHtable {
    const hash: nat -> nat
    var chains: seq<seq<Stack>>
    var freed: seq<Stack>   // the memory given back in this walk

    constructor (hash: nat -> nat, chains: seq<seq<Stack>>)
      ensures this.hash == hash && this.chains == chains && freed == []
    {
      this.hash, this.chains, freed := hash, chains, [];
    }

    /** gazelle_stack_del_by_tid, with its walk along the chain. */
    method DelByTid(tid: nat)
      requires |chains| == BUCKETS
      modifies this
      ensures chains == old(chains)[Home(hash, tid) := Drop(old(chains)[Home(hash, tid)], tid)]
      ensures freed == old(freed) + AsSeq(Hit(old(chains)[Home(hash, tid)], tid))
    {
      hide Home, Hit, Drop;
      var b := Home(hash, tid);
      var chain := chains[b];
      var i := 0;
      while i < |chain| && chain[i].tid != tid
        invariant i <= |chain| && forall k :: 0 <= k < i ==> chain[k].tid != tid
      {
        i := i + 1;
      }
      HitAt(chain, tid, i);
      if i < |chain| {
        freed := freed + [chain[i]];
        chains := chains[b := chain[..i] + chain[i + 1..]];
      } else {
        assert chains[b := chain] == chains;
      }
    }

    /** Where the walk over `seen` leads from the chains it began with. */
    ghost predicate Walked(was: seq<seq<Stack>>, seen: seq<Stack>)
      reads this
    {
      && |was| == BUCKETS && freed == Freed(hash, was, seen) && chains == After(hash, was, seen)
      && SeenClean(hash, was, seen)
    }

    /** handle_stack_logout */
    method Visit(s: Stack, ghost was: seq<seq<Stack>>, ghost seen: seq<Stack>)
      requires Walked(was, seen) && s !in freed
      modifies this
      ensures Walked(was, seen + [s])
    {
      hide Home, Freed, After, SeenClean;
      OneStep(hash, was, seen, s);
      SeenOneMore(hash, was, seen, s);
      DelByTid(s.tid);
    }

    /** handle_inst_logout_for_reg_thrd_ring, up to the first look at a stack that is freed.  It gets through with all of
        the array freed if and only if the array is in order. */
    method LogoutStacks(slots: seq<Option<Stack>>) returns (ok: bool)
      requires Registered(hash, chains, Places(slots)) && freed == []
      modifies this
      ensures ok && AllIn(Places(slots), freed) <==> InOrder(hash, old(chains), Places(slots))
      ensures ok ==> Walked(old(chains), Places(slots))
    {
      hide Registered, Good, InOrder, Home, Freed, After, Places, Clean, SeenClean, AllIn;
      ghost var was, places := chains, Places(slots);
      CleanIffInOrder(hash, was, places);
      Nothing(hash, was, slots);
      var i := 0;
      ghost var seen := [];
      while i < |slots|
        invariant i <= |slots| && Walked(was, seen) && seen == Places(slots[..i])
      {
        OneMorePlace(slots, i);
        if slots[i].Some? {
          var s := slots[i].value;
          if s in freed {
            TouchedIsNotClean(hash, was, places, seen, s);
            return false;
          }
          Visit(s, was, seen);
          seen := seen + [s];
        }
        i := i + 1;
      }
      AllPlaces(slots);
      SeenAll(hash, was, places);
      return true;
    }
  }

  lemma OneMorePlace(slots: seq<Option<Stack>>, i: nat)
    requires i < |slots|
    ensures slots[i].None? ==> Places(slots[..i + 1]) == Places(slots[..i])
    ensures slots[i].Some? ==> Places(slots[..i + 1]) == Places(slots[..i]) + [slots[i].value] <= Places(slots)
  {
    PlacesSnoc(slots, i);
    PlacesPrefix(slots, i + 1);
  }

  lemma AllPlaces(slots: seq<Option<Stack>>)
    ensures Places(slots[..|slots|]) == Places(slots)
  {
    assert slots[..|slots|] == slots;
  }

  predicate AllIn(places: seq<Stack>, freed: seq<Stack>) { forall s :: s in places ==> s in freed }

  ghost predicate SeenClean(hash: nat -> nat, chains: seq<seq<Stack>>, places: seq<Stack>)
    requires |chains| == BUCKETS
  {
    forall k :: 0 <= k < |places| ==> places[k] !in Freed(hash, chains, places[..k])
  }

  lemma Nothing(hash: nat -> nat, chains: seq<seq<Stack>>, slots: seq<Option<Stack>>)
    requires Registered(hash, chains, Places(slots))
    ensures |chains| == BUCKETS && Places(slots[..0]) == []
    ensures Freed(hash, chains, []) == [] && After(hash, chains, []) == chains && SeenClean(hash, chains, [])
  {
    assert slots[..0] == [];
  }

  lemma SeenOneMore(hash: nat -> nat, chains: seq<seq<Stack>>, before: seq<Stack>, s: Stack)
    requires |chains| == BUCKETS && SeenClean(hash, chains, before) && s !in Freed(hash, chains, before)
    ensures SeenClean(hash, chains, before + [s])
  {
    hide Freed;
    assert (before + [s])[..|before|] == before;
    assert forall k :: 0 <= k < |before| ==> (before + [s])[..k] == before[..k];
  }

  lemma SeenAll(hash: nat -> nat, chains: seq<seq<Stack>>, places: seq<Stack>)
    requires |chains| == BUCKETS && SeenClean(hash, chains, places)
    ensures Clean(hash, chains, places) <==> AllIn(places, Freed(hash, chains, places))
  {
    hide Freed;
    assert forall k :: 0 <= k < |places| ==> places[k] in places;
  }

  lemma TouchedIsNotClean(hash: nat -> nat, chains: seq<seq<Stack>>, places: seq<Stack>, before: seq<Stack>, s: Stack)
    requires |chains| == BUCKETS && before + [s] <= places && s in Freed(hash, chains, before)
    ensures !Clean(hash, chains, places)
  {
    hide Freed;
    assert places[|before|] == s && places[..|before|] == before;
  }
}
