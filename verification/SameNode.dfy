/** The byte ring between two processes on one node.  Byte number p, counted from 1, lives at index p & MASK; sndend
    and sndbegin are the numbers of the last byte sent and received.  One action is one access: loading the other
    side's counter, copying one byte, storing one's own counter, so that a loaded counter may be stale. */
module SameNodeRing {
  import FourCursorRing

  type Byte = x: int | 0 <= x < 256

  datatype SenderPc = SendIdle | Sending(bytes: seq<Byte>, copied: nat)
  datatype ReceiverPc = RecvIdle | Receiving(n: nat, got: seq<Byte>)

  datatype State = State(mem: seq<Byte>, begin: nat, end: nat, sender: SenderPc, receiver: ReceiverPc,
                         sent: seq<Byte>, received: seq<Byte>)  // the last two are history

  datatype Action = SendLoad(bytes: seq<Byte>) | SendCopy | SendStore | RecvLoad(len: nat) | RecvCopy | RecvStore

  /** p & SAME_NODE_RING_MASK, the length being a power of two. */
  function Index(p: nat, len: nat): (i: nat)
    requires len > 0
    ensures i < len
  {
    p % len
  }

  function Min(a: int, b: int): int { if a < b then a else b }

  function Step(s: State, a: Action): State
    requires |s.mem| > 0
    ensures |Step(s, a).mem| == |s.mem|
  {
    match a
    case SendLoad(bytes) =>
      if s.sender != SendIdle || s.end >= s.begin + |s.mem| then s
      else s.(sender := Sending(bytes[..Min(|s.mem| - (s.end - s.begin), |bytes|)], 0))
    case SendCopy =>
      if !s.sender.Sending? || s.sender.copied >= |s.sender.bytes| then s
      else var k := s.sender.copied;
           s.(mem := s.mem[Index(s.end + 1 + k, |s.mem|) := s.sender.bytes[k]], sender := s.sender.(copied := k + 1))
    case SendStore =>
      if !s.sender.Sending? || s.sender.copied < |s.sender.bytes| then s
      else s.(end := s.end + |s.sender.bytes|, sender := SendIdle, sent := s.sent + s.sender.bytes)
    case RecvLoad(len) =>
      if s.receiver != RecvIdle || s.end <= s.begin then s
      else s.(receiver := Receiving(Min(s.end - s.begin, len), []))
    case RecvCopy =>
      if !s.receiver.Receiving? || |s.receiver.got| >= s.receiver.n then s
      else s.(receiver := s.receiver.(got := s.receiver.got + [s.mem[Index(s.begin + 1 + |s.receiver.got|, |s.mem|)]]))
    case RecvStore =>
      if !s.receiver.Receiving? || |s.receiver.got| < s.receiver.n then s
      else s.(begin := s.begin + s.receiver.n, receiver := RecvIdle, received := s.received + s.receiver.got)
  }

  function Run(s: State, trace: seq<Action>): State
    requires |s.mem| > 0
    ensures |Run(s, trace).mem| == |s.mem|
  {
    if trace == [] then s else Step(Run(s, trace[..|trace| - 1]), trace[|trace| - 1])
  }

  function Fresh(mem: seq<Byte>): State { State(mem, 0, 0, SendIdle, RecvIdle, [], []) }

  /** The bytes after number `from` are in place. */
  ghost predicate Stored(mem: seq<Byte>, bytes: seq<Byte>, from: nat) {
    |mem| > 0 && forall p {:trigger Index(p, |mem|)} :: from < p <= |bytes| ==> mem[Index(p, |mem|)] == bytes[p - 1]
  }

  ghost predicate Inv(s: State) {
    && |s.mem| > 0
    && s.begin <= s.end == |s.sent| && s.end <= s.begin + |s.mem|
    && s.received == s.sent[..s.begin]
    && Stored(s.mem, s.sent, s.begin)
    && (s.sender.Sending? ==>
          && s.sender.copied <= |s.sender.bytes| <= s.begin + |s.mem| - s.end
          && Stored(s.mem, s.sent + s.sender.bytes[..s.sender.copied], s.begin))
    && (s.receiver.Receiving? ==>
          && |s.receiver.got| <= s.receiver.n <= s.end - s.begin
          && s.receiver.got == s.sent[s.begin..s.begin + |s.receiver.got|])
  }

  /** A byte less than a ring length ahead does not overwrite one that is still needed. */
  lemma CopyIn(mem: seq<Byte>, bytes: seq<Byte>, from: nat, x: Byte)
    requires Stored(mem, bytes, from) && from <= |bytes| < from + |mem|
    ensures Stored(mem[Index(|bytes| + 1, |mem|) := x], bytes + [x], from)
  {
    forall p | from < p <= |bytes| ensures Index(p, |mem|) != Index(|bytes| + 1, |mem|) {
      FourCursorRing.SlotsDiffer(p, |bytes| + 1, |mem|);
    }
  }

  lemma SendCopyKeepsInv(s: State)
    requires Inv(s) && s.sender.Sending? && s.sender.copied < |s.sender.bytes|
    ensures Inv(Step(s, SendCopy))
  {
    hide Index;
    var b, k := s.sender.bytes, s.sender.copied;
    CopyIn(s.mem, s.sent + b[..k], s.begin, b[k]);
    assert s.sent + b[..k] + [b[k]] == s.sent + b[..k + 1];
    var t := Step(s, SendCopy);
    forall p {:trigger Index(p, |t.mem|)} | s.begin < p <= s.end ensures t.mem[Index(p, |t.mem|)] == s.sent[p - 1] {
      assert (s.sent + b[..k + 1])[p - 1] == s.sent[p - 1];
    }
  }

  lemma SendStoreKeepsInv(s: State)
    requires Inv(s) && s.sender.Sending? && s.sender.copied >= |s.sender.bytes|
    ensures Inv(Step(s, SendStore))
  {
    hide Index;
    var b := s.sender.bytes;
    assert b[..|b|] == b;
    assert (s.sent + b)[..s.begin] == s.sent[..s.begin];
    if s.receiver.Receiving? {
      var m := s.begin + |s.receiver.got|;
      assert (s.sent + b)[s.begin..m] == s.sent[s.begin..m];
    }
  }

  lemma RecvKeepsInv(s: State, a: Action)
    requires Inv(s) && (a.RecvCopy? || a.RecvStore?)
    ensures Inv(Step(s, a))
  {
    hide Index;
    if s.receiver.Receiving? {
      var m := s.begin + |s.receiver.got|;
      if m < s.end {
        assert s.mem[Index(m + 1, |s.mem|)] == s.sent[m];
        assert s.sent[s.begin..m] + [s.sent[m]] == s.sent[s.begin..m + 1];
      }
      assert s.sent[..s.begin] + s.sent[s.begin..m] == s.sent[..m];
    }
  }

  lemma StepKeepsInv(s: State, a: Action)
    requires Inv(s)
    ensures Inv(Step(s, a))
  {
    match a
    case SendLoad(bytes) => hide Index; assert s.sent + bytes[..0] == s.sent;
    case SendCopy => hide Inv; if s.sender.Sending? && s.sender.copied < |s.sender.bytes| { SendCopyKeepsInv(s); }
    case SendStore => hide Inv; if s.sender.Sending? && s.sender.copied >= |s.sender.bytes| { SendStoreKeepsInv(s); }
    case RecvLoad(_) => hide Index, Stored;
    case RecvCopy => RecvKeepsInv(s, a); hide Inv;
    case RecvStore => RecvKeepsInv(s, a); hide Inv;
  }

  lemma {:induction false} RunKeepsInv(s: State, trace: seq<Action>)
    requires Inv(s)
    ensures Inv(Run(s, trace))
  {
    assert |s.mem| > 0;
    hide Inv, Step;
    if trace != [] {
      RunKeepsInv(s, trace[..|trace| - 1]);
      StepKeepsInv(Run(s, trace[..|trace| - 1]), trace[|trace| - 1]);
    }
  }

  /** In every interleaving of sends and receives of any sizes the bytes received are the first bytes sent, the ring
      never holds more than its length, and every byte not received is still in its place. */
  lemma {:induction false} BytesOnEveryRun(mem: seq<Byte>, trace: seq<Action>)
    requires mem != []
    ensures var s := Run(Fresh(mem), trace);
            && s.received <= s.sent && |s.received| == s.begin && |s.sent| == s.end
            && 0 <= s.end - s.begin <= |mem|
            && forall p {:trigger Index(p, |mem|)} :: s.begin < p <= s.end ==> s.mem[Index(p, |mem|)] == s.sent[p - 1]
  {
    RunKeepsInv(Fresh(mem), trace);
  }

  /** A send is refused exactly when the ring is full, and a receive when it is empty. */
  lemma RefusedIff(s: State, bytes: seq<Byte>, len: nat)
    requires Inv(s) && s.sender == SendIdle && s.receiver == RecvIdle
    ensures Step(s, SendLoad(bytes)) == s <==> |s.sent| - |s.received| == |s.mem|
    ensures Step(s, RecvLoad(len)) == s <==> s.sent == s.received
  {
  }

  // ----- copying in two pieces -----

  /** Byte by byte from position `at` on, each at its own index. */
  function Written(mem: seq<Byte>, at: nat, bytes: seq<Byte>): (m: seq<Byte>)
    requires |mem| > 0
    ensures |m| == |mem|
  {
    if bytes == [] then mem
    else var n := |bytes| - 1; Written(mem, at, bytes[..n])[Index(at + n, |mem|) := bytes[n]]
  }

  function Fetched(mem: seq<Byte>, at: nat, n: nat): (r: seq<Byte>)
    requires |mem| > 0
    ensures |r| == n
  {
    if n == 0 then [] else Fetched(mem, at, n - 1) + [mem[Index(at + n - 1, |mem|)]]
  }

  lemma IndexAhead(at: nat, k: nat, len: nat)
    requires len > 0 && k < len
    ensures Index(at + k, len) == if Index(at, len) + k < len then Index(at, len) + k else Index(at, len) + k - len
  {
    var q, r := at / len, at % len;
    assert at == q * len + r;
    if r + k < len {
      FourCursorRing.DivisionIsUnique(at + k, q, r + k, len);
    } else {
      assert (q + 1) * len == q * len + len;
      FourCursorRing.DivisionIsUnique(at + k, q + 1, r + k - len, len);
    }
  }

  /** What memcpy of one piece, or of two at the wrap, leaves. */
  function Pieces(mem: seq<Byte>, i: nat, bytes: seq<Byte>): seq<Byte>
    requires i < |mem| && |bytes| <= |mem|
  {
    if i + |bytes| > |mem| then
      var k := |mem| - i; bytes[k..] + mem[|bytes| - k..i] + bytes[..k]
    else mem[..i] + bytes + mem[i + |bytes|..]
  }

  /** Index p holds byte p - i of the first piece, or byte p + |mem| - i of the second, or what it held. */
  lemma PiecesAt(mem: seq<Byte>, i: nat, bytes: seq<Byte>, p: nat)
    requires i < |mem| && |bytes| <= |mem| && p < |mem|
    ensures |Pieces(mem, i, bytes)| == |mem|
    ensures Pieces(mem, i, bytes)[p] ==
            if i <= p < i + |bytes| then bytes[p - i]
            else if p + |mem| < i + |bytes| then bytes[p + |mem| - i]
            else mem[p]
  {
  }

  lemma PiecesSnoc(mem: seq<Byte>, i: nat, bytes: seq<Byte>)
    requires i < |mem| && 0 < |bytes| <= |mem|
    ensures var n := |bytes| - 1;
            && |Pieces(mem, i, bytes[..n])| == |mem|
            && Pieces(mem, i, bytes) == Pieces(mem, i, bytes[..n])[(if i + n < |mem| then i + n else i + n - |mem|) := bytes[n]]
  {
    hide Pieces;
    var n := |bytes| - 1;
    PiecesAt(mem, i, bytes, 0);
    PiecesAt(mem, i, bytes[..n], 0);
    forall p | 0 <= p < |mem|
      ensures Pieces(mem, i, bytes)[p] == Pieces(mem, i, bytes[..n])[(if i + n < |mem| then i + n else i + n - |mem|) := bytes[n]][p]
    {
      PiecesAt(mem, i, bytes, p);
      PiecesAt(mem, i, bytes[..n], p);
    }
  }

  lemma {:induction false} PiecesAreBytewise(mem: seq<Byte>, at: nat, bytes: seq<Byte>)
    requires 0 < |mem| && |bytes| <= |mem|
    ensures Pieces(mem, Index(at, |mem|), bytes) == Written(mem, at, bytes)
  {
    if bytes != [] {
      PiecesAreBytewise(mem, at, bytes[..|bytes| - 1]);
      IndexAhead(at, |bytes| - 1, |mem|);
      hide Index, Pieces;
      PiecesSnoc(mem, Index(at, |mem|), bytes);
    }
  }

  lemma {:induction false} FetchedPieces(mem: seq<Byte>, at: nat, n: nat)
    requires 0 < |mem| && n <= |mem|
    ensures var i := Index(at, |mem|);
            Fetched(mem, at, n) == if i + n > |mem| then mem[i..] + mem[..n - (|mem| - i)] else mem[i..i + n]
  {
    hide Index;
    if n > 0 {
      var i := Index(at, |mem|);
      var m := |mem| - i;
      FetchedPieces(mem, at, n - 1);
      IndexAhead(at, n - 1, |mem|);
      if n <= m {
        assert mem[i..i + n] == mem[i..i + n - 1] + [mem[i + n - 1]];
      } else {
        assert n - 1 == m ==> mem[i..i + n - 1] == mem[i..] + mem[..n - 1 - m];
        assert mem[i..] + mem[..n - m] == mem[i..] + mem[..n - 1 - m] + [mem[n - 1 - m]];
      }
    }
  }

  /** The steps of the system that copy one byte each, taken together. */
  lemma {:induction false} CopyingIsWritten(s: State, k: nat)
    requires |s.mem| > 0 && s.sender.Sending? && s.sender.copied == 0 && k <= |s.sender.bytes|
    ensures Run(s, seq(k, i => SendCopy)) ==
            s.(mem := Written(s.mem, s.end + 1, s.sender.bytes[..k]), sender := Sending(s.sender.bytes, k))
  {
    hide Index;
    if k > 0 {
      CopyingIsWritten(s, k - 1);
      var trace, less := seq(k, i => SendCopy), seq(k - 1, i => SendCopy);
      assert trace[..k - 1] == less;
      assert Run(s, trace) == Step(Run(s, less), SendCopy);
      hide Run;
      assert s.sender.bytes[..k][..k - 1] == s.sender.bytes[..k - 1];
    }
  }

  lemma {:induction false} CopyingIsFetched(s: State, k: nat)
    requires |s.mem| > 0 && s.receiver.Receiving? && s.receiver.got == [] && k <= s.receiver.n
    ensures Run(s, seq(k, i => RecvCopy)) == s.(receiver := Receiving(s.receiver.n, Fetched(s.mem, s.begin + 1, k)))
  {
    hide Index;
    if k > 0 {
      CopyingIsFetched(s, k - 1);
      var trace, less := seq(k, i => RecvCopy), seq(k - 1, i => RecvCopy);
      assert trace[..k - 1] == less;
      assert Run(s, trace) == Step(Run(s, less), RecvCopy);
      hide Run;
      var got := Fetched(s.mem, s.begin + 1, k - 1);
      assert |got| == k - 1 && Index(s.begin + 1 + |got|, |s.mem|) == Index(s.begin + 1 + k - 1, |s.mem|);
    }
  }

  lemma OneMore(s0: State, trace: seq<Action>, a: Action)
    requires |s0.mem| > 0 && Inv(Run(s0, trace))
    ensures Run(s0, trace + [a]) == Step(Run(s0, trace), a) && Inv(Run(s0, trace + [a]))
  {
    hide Inv, Step;
    assert (trace + [a])[..|trace|] == trace;
    StepKeepsInv(Run(s0, trace), a);
  }

  lemma Counters(s: State)
    requires Inv(s)
    ensures s.begin <= s.end <= s.begin + |s.mem| && |s.received| == s.begin && |s.sent| == s.end && |s.mem| > 0
    ensures s.sender.Sending? ==> s.sender.copied <= |s.sender.bytes| <= |s.mem|
    ensures s.receiver.Receiving? ==> |s.receiver.got| <= s.receiver.n <= |s.mem|
  {
  }

  /** The ring in shared memory, and the two functions on it.  `sender` and `receiver` are what the two sides have in
      their local variables, and `env(k)` is what the other side does before the k-th access. */
  class ByteRing {
    const mem: array<Byte>
    var sndbegin: nat
    var sndend: nat
    var sender: SenderPc
    var receiver: ReceiverPc
    ghost var sent: seq<Byte>
    ghost var received: seq<Byte>
    ghost var first: seq<Byte>
    ghost var history: seq<Action>

    ghost function View(): State
      reads this, mem
    {
      State(mem[..], sndbegin, sndend, sender, receiver, sent, received)
    }

    /** Whatever the two sides are doing, the ring is where a run from a fresh one has led. */
    ghost predicate Sound()
      reads this, mem
    {
      first != [] && View() == Run(Fresh(first), history) && Inv(View())
    }

    constructor (len: nat)
      requires len > 0
      ensures Sound() && sender == SendIdle && receiver == RecvIdle
      ensures fresh(mem) && mem.Length == len && sent == received == []
    {
      mem := new Byte[len];
      sndbegin, sndend, sent, received, history := 0, 0, [], [], [];
      sender, receiver := SendIdle, RecvIdle;
      new;
      first := mem[..];
    }

    // ----- the accesses, each of them one step -----

    method LoadBegin(buf: seq<Byte>) returns (ok: bool)
      requires Sound() && sender.SendIdle?
      modifies `sender, `history
      ensures Sound() && View() == Step(old(View()), SendLoad(buf)) && history == old(history) + [SendLoad(buf)]
      ensures sndend == |sent| <= sndbegin + mem.Length && ok == (sndend < sndbegin + mem.Length)
      ensures sender == if ok then Sending(buf[..Min(mem.Length - (sndend - sndbegin), |buf|)], 0) else SendIdle
    {
      hide Inv, Run;
      Counters(View());
      OneMore(Fresh(first), history, SendLoad(buf));
      history := history + [SendLoad(buf)];
      var curBegin, curEnd := sndbegin, sndend;
      if curEnd >= curBegin + mem.Length {
        return false;
      }
      sender := Sending(buf[..Min(mem.Length - (curEnd - curBegin), |buf|)], 0);
      return true;
    }

    method PutByte(at: nat)
      requires Sound() && sender.Sending? && sender.copied < |sender.bytes|
      requires mem.Length > 0 && at == Index(sndend + 1 + sender.copied, mem.Length)
      modifies mem, `sender, `history
      ensures Sound() && View() == Step(old(View()), SendCopy) && history == old(history) + [SendCopy]
      ensures sender == Sending(old(sender).bytes, old(sender).copied + 1)
    {
      hide Inv, Run, Index;
      OneMore(Fresh(first), history, SendCopy);
      history := history + [SendCopy];
      mem[at] := sender.bytes[sender.copied];
      sender := sender.(copied := sender.copied + 1);
    }

    method StoreEnd()
      requires Sound() && sender.Sending? && sender.copied >= |sender.bytes|
      modifies `sndend, `sender, `sent, `history
      ensures Sound() && View() == Step(old(View()), SendStore) && history == old(history) + [SendStore]
      ensures sent == old(sent) + old(sender).bytes && sender == SendIdle
    {
      hide Inv, Run, Index;
      Counters(View());
      OneMore(Fresh(first), history, SendStore);
      history := history + [SendStore];
      sndend := sndend + |sender.bytes|;
      sent := sent + sender.bytes;
      sender := SendIdle;
    }

    method LoadEnd(len: nat) returns (ok: bool)
      requires Sound() && receiver.RecvIdle?
      modifies `receiver, `history
      ensures Sound() && View() == Step(old(View()), RecvLoad(len)) && history == old(history) + [RecvLoad(len)]
      ensures sndbegin == |received| <= |sent| && ok == (|received| != |sent|)
      ensures receiver == if ok then Receiving(Min(|sent| - |received|, len), []) else RecvIdle
    {
      hide Inv, Run;
      Counters(View());
      OneMore(Fresh(first), history, RecvLoad(len));
      history := history + [RecvLoad(len)];
      var curBegin, curEnd := sndbegin, sndend;
      if curBegin == curEnd {
        return false;
      }
      receiver := Receiving(Min(curEnd - curBegin, len), []);
      return true;
    }

    method GetByte(at: nat)
      requires Sound() && receiver.Receiving? && |receiver.got| < receiver.n
      requires mem.Length > 0 && at == Index(sndbegin + 1 + |receiver.got|, mem.Length)
      modifies `receiver, `history
      ensures Sound() && View() == Step(old(View()), RecvCopy) && history == old(history) + [RecvCopy]
      ensures receiver.Receiving? && receiver.n == old(receiver).n && |receiver.got| == |old(receiver).got| + 1
    {
      hide Inv, Run, Index;
      OneMore(Fresh(first), history, RecvCopy);
      history := history + [RecvCopy];
      receiver := receiver.(got := receiver.got + [mem[at]]);
    }

    method StoreBegin()
      requires Sound() && receiver.Receiving? && |receiver.got| >= receiver.n
      modifies `sndbegin, `receiver, `received, `history
      ensures Sound() && View() == Step(old(View()), RecvStore) && history == old(history) + [RecvStore]
      ensures received == old(received) + old(receiver).got && receiver == RecvIdle
    {
      hide Inv, Run, Index;
      OneMore(Fresh(first), history, RecvStore);
      history := history + [RecvStore];
      sndbegin := sndbegin + receiver.n;
      received := received + receiver.got;
      receiver := RecvIdle;
    }

    lemma Lengths()
      requires Sound()
      ensures sndbegin == |received| <= |sent| == sndend <= sndbegin + mem.Length && mem.Length > 0
      ensures sender.Sending? ==> |sender.bytes| <= mem.Length
      ensures receiver.Receiving? ==> receiver.n <= mem.Length
    {
      Counters(View());
    }

    // ----- the turns of the other side -----

    method SenderTurn(acts: seq<Action>)
      requires Sound()
      modifies mem, `sndend, `sender, `sent, `history
      ensures Sound() && old(sent) <= sent && old(history) <= history
    {
      hide Sound, View, Step, Index;
      for k := 0 to |acts|
        invariant Sound() && old(sent) <= sent && old(history) <= history
      {
        Lengths();
        match acts[k] {
          case SendLoad(bytes) => if sender.SendIdle? { var _ := LoadBegin(bytes); }
          case SendCopy =>
            if sender.Sending? && sender.copied < |sender.bytes| { PutByte(Index(sndend + 1 + sender.copied, mem.Length)); }
          case SendStore => if sender.Sending? && sender.copied >= |sender.bytes| { StoreEnd(); }
          case _ =>
        }
      }
    }

    method ReceiverTurn(acts: seq<Action>)
      requires Sound()
      modifies `sndbegin, `receiver, `received, `history
      ensures Sound() && old(received) <= received && old(history) <= history
    {
      hide Sound, View, Step, Index;
      for k := 0 to |acts|
        invariant Sound() && old(received) <= received && old(history) <= history
      {
        Lengths();
        match acts[k] {
          case RecvLoad(len) => if receiver.RecvIdle? { var _ := LoadEnd(len); }
          case RecvCopy =>
            if receiver.Receiving? && |receiver.got| < receiver.n { GetByte(Index(sndbegin + 1 + |receiver.got|, mem.Length)); }
          case RecvStore => if receiver.Receiving? && |receiver.got| >= receiver.n { StoreBegin(); }
          case _ =>
        }
      }
    }

    // ----- the two functions -----

    /** One memcpy of the sender: n bytes to the index `at` and those behind it, with the receiver moving between them. */
    method CopyTo(at: nat, n: nat, env: nat -> seq<Action>)
      requires Sound() && sender.Sending? && sender.copied + n <= |sender.bytes|
      requires at + n <= mem.Length && (n > 0 ==> at == Index(sndend + 1 + sender.copied, mem.Length))
      modifies mem, `sender, `sndbegin, `receiver, `received, `history
      ensures Sound() && sender == Sending(old(sender).bytes, old(sender).copied + n)
      ensures old(received) <= received && old(history) <= history
    {
      hide Sound, View, Step, Index;
      var c := sender.copied;
      for k := 0 to n
        invariant Sound() && sender == Sending(old(sender).bytes, c + k)
        invariant old(received) <= received && old(history) <= history
      {
        ReceiverTurn(env(c + k + 1));
        IndexAhead(sndend + 1 + c, k, mem.Length);
        PutByte(at + k);
      }
    }

    /** One memcpy, or two at the wrap. */
    method CopyAllTo(actLen: nat, env: nat -> seq<Action>)
      requires Sound() && sender.Sending? && sender.copied == 0 && actLen == |sender.bytes|
      modifies mem, `sender, `sndbegin, `receiver, `received, `history
      ensures Sound() && sender == Sending(old(sender).bytes, actLen)
      ensures old(received) <= received && old(history) <= history
    {
      hide Sound, View, Step, Index;
      Lengths();
      var i := Index(sndend + 1, mem.Length);
      if i + actLen > mem.Length {
        var actLen1 := mem.Length - i;
        CopyTo(i, actLen1, env);
        IndexAhead(sndend + 1, actLen1, mem.Length);
        CopyTo(0, actLen - actLen1, env);
      } else {
        CopyTo(i, actLen, env);
      }
    }

    /** gazelle_same_node_ring_send; `loaded` bytes were received when it looked. */
    method Send(buf: seq<Byte>, env: nat -> seq<Action>) returns (r: int, ghost loaded: nat)
      requires Sound() && sender.SendIdle?
      modifies this, mem
      ensures Sound() && sender.SendIdle? && first == old(first) && old(history) <= history
      ensures |old(received)| <= loaded <= |received| && old(received) <= received && |old(sent)| <= loaded + mem.Length
      ensures var n := Min(mem.Length - (|old(sent)| - loaded), |buf|);
              sent == old(sent) + buf[..n] && r == if n == 0 then -1 else n
    {
      hide Sound, View, Step, Index;
      ReceiverTurn(env(0));
      Lengths();
      loaded := |received|;
      var ok := LoadBegin(buf);
      if !ok {
        return -1, loaded;
      }
      var actLen := |sender.bytes|;
      CopyAllTo(actLen, env);
      ReceiverTurn(env(actLen + 1));
      StoreEnd();
      return if actLen == 0 then -1 else actLen, loaded;
    }

    /** One memcpy of the receiver. */
    method CopyFrom(at: nat, n: nat, env: nat -> seq<Action>)
      requires Sound() && receiver.Receiving? && |receiver.got| + n <= receiver.n
      requires at + n <= mem.Length && (n > 0 ==> at == Index(sndbegin + 1 + |receiver.got|, mem.Length))
      modifies `receiver, mem, `sndend, `sender, `sent, `history
      ensures Sound() && receiver.Receiving? && receiver.n == old(receiver).n && |receiver.got| == |old(receiver).got| + n
      ensures old(sent) <= sent && old(history) <= history
    {
      hide Sound, View, Step, Index;
      var c := |receiver.got|;
      for k := 0 to n
        invariant Sound() && receiver.Receiving? && receiver.n == old(receiver).n && |receiver.got| == c + k
        invariant old(sent) <= sent && old(history) <= history
      {
        SenderTurn(env(c + k + 1));
        IndexAhead(sndbegin + 1 + c, k, mem.Length);
        GetByte(at + k);
      }
    }

    method CopyAllFrom(actLen: nat, env: nat -> seq<Action>)
      requires Sound() && receiver.Receiving? && receiver.got == [] && actLen == receiver.n
      modifies `receiver, mem, `sndend, `sender, `sent, `history
      ensures Sound() && receiver.Receiving? && receiver.n == actLen == |receiver.got|
      ensures old(sent) <= sent && old(history) <= history
    {
      hide Sound, View, Step, Index;
      Lengths();
      var i := Index(sndbegin + 1, mem.Length);
      if i + actLen > mem.Length {
        var actLen1 := mem.Length - i;
        CopyFrom(i, actLen1, env);
        IndexAhead(sndbegin + 1, actLen1, mem.Length);
        CopyFrom(0, actLen - actLen1, env);
      } else {
        CopyFrom(i, actLen, env);
      }
    }

    /** gazelle_same_node_ring_recv; `loaded` bytes were sent when it looked. */
    method Recv(len: nat, env: nat -> seq<Action>) returns (r: int, buf: seq<Byte>, ghost loaded: nat)
      requires Sound() && receiver.RecvIdle?
      modifies this, mem
      ensures Sound() && receiver.RecvIdle? && first == old(first) && old(history) <= history
      ensures |old(sent)| <= loaded <= |sent| && old(sent) <= sent && |old(received)| <= loaded
      ensures received == old(received) + buf && |buf| == Min(loaded - |old(received)|, len)
      ensures r == if loaded == |old(received)| then -1 else |buf|
    {
      hide Sound, View, Step, Index;
      SenderTurn(env(0));
      Lengths();
      loaded := |sent|;
      var ok := LoadEnd(len);
      if !ok {
        return -1, [], loaded;
      }
      var actLen := receiver.n;
      CopyAllFrom(actLen, env);
      SenderTurn(env(actLen + 1));
      buf := receiver.got;
      StoreBegin();
      return actLen, buf, loaded;
    }
  }
}
