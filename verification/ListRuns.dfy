/** Whole runs over one buffer list: which calls succeed, and that the bytes pass through in
    order. */
module ListRuns {
  import opened Offsets
  import opened ByteBuffer
  import opened Chunks
  import opened BufferList

  /** One call on the list; Take reads the first n bytes of the first buffer and advances
      over them. */
  datatype Op = Push(str: seq<Byte>) | PushData(data: seq<Byte>) | Pop | Take(n: nat) | Aggregate(max: nat)

  /** What the callers have to keep: legal sizes, and strings without the terminator. */
  predicate Legal(op: Op) {
    match op
    case Push(str) => 0 !in str && |str| + 1 < BUF_SIZE_MAX
    case PushData(data) => |data| < BUF_SIZE_MAX
    case _ => true
  }

  predicate AllLegal(ops: seq<Op>) {
    forall op :: op in ops ==> Legal(op)
  }

  /** The list as its users see it, with all they have sent and received. */
  datatype State = State(chunks: seq<Chunk>, size: int, max: int, sent: seq<Byte>, received: seq<Byte>) {
    ghost predicate Accepts() {
      max == 0 || size < max
    }

    /** A push that is not accepted changes nothing. */
    ghost function Pushed(c: Chunk): State {
      if Accepts() then State(chunks + [c], size + 1, max, sent + c, received) else this
    }

    ghost function Popped(): State {
      if chunks == [] then this else State(chunks[1..], size - 1, max, sent, received + chunks[0])
    }

    /** Only bytes of the first chunk can be read; once all are read the chunk is gone. */
    ghost function Taken(n: nat): State {
      if chunks == [] || n > |chunks[0]| then this
      else if n == |chunks[0]| then Popped()
      else State(chunks[0 := chunks[0][n..]], size, max, sent, received + chunks[0][..n])
    }

    ghost function Step(op: Op): State {
      match op
      case Push(str) => Pushed(str)
      case PushData(data) => Pushed(data)
      case Pop => Popped()
      case Take(n) => Taken(n)
      case Aggregate(m) => State(Aggregated(chunks, m), size, max, sent, received)
    }

    /** What was received, followed by what the list holds, is what it held at first,
        followed by what was sent. */
    ghost predicate Balanced(first: seq<Byte>) {
      received + Flatten(chunks) == first + sent
    }

    ghost function Excess(): int {
      |received| + |Flatten(chunks)| - |sent|
    }
  }

  ghost function After(s: State, ops: seq<Op>): State {
    if ops == [] then s else After(s, ops[..|ops| - 1]).Step(ops[|ops| - 1])
  }

  // ---- the stream

  /** A merge that meets a chunk which is too long. */
  ghost predicate Drops(s: State, op: Op) {
    op.Aggregate? && !Lossless(s.chunks, op.max)
  }

  ghost predicate LosslessRun(s: State, ops: seq<Op>) {
    ops == [] || (LosslessRun(s, ops[..|ops| - 1]) && !Drops(After(s, ops[..|ops| - 1]), ops[|ops| - 1]))
  }

  lemma FlattenCons(cs: seq<Chunk>)
    requires cs != []
    ensures Flatten(cs) == cs[0] + Flatten(cs[1..])
  {
  }

  lemma PushFlows(s: State, c: Chunk, first: seq<Byte>)
    ensures s.Pushed(c).Excess() == s.Excess()
    ensures s.Balanced(first) ==> s.Pushed(c).Balanced(first)
  {
    hide Flatten;
    FlattenJoin(s.chunks, [c]);
    One(c);
    Associate(s.received, Flatten(s.chunks), c);
    Associate(first, s.sent, c);
  }

  lemma TakeFlows(s: State, n: nat, first: seq<Byte>)
    ensures s.Taken(n).Excess() == s.Excess()
    ensures s.Balanced(first) ==> s.Taken(n).Balanced(first)
  {
    hide Flatten;
    var cs := s.chunks;
    if cs != [] && n <= |cs[0]| {
      FlattenCons(cs);
      FlattenCons(cs[0 := cs[0][n..]]);
      assert cs[0 := cs[0][n..]][1..] == cs[1..];
      Cut(s.received, cs[0], n, Flatten(cs[1..]));
    }
  }

  lemma Cut(a: Chunk, c: Chunk, n: nat, rest: Chunk)
    requires n <= |c|
    ensures a + c[..n] + (c[n..] + rest) == a + (c + rest)
    ensures a + c + rest == a + (c + rest)
  {
  }

  lemma PopIsTake(s: State)
    ensures s.Popped() == if s.chunks == [] then s else s.Taken(|s.chunks[0]|)
  {
  }

  lemma StepFlows(s: State, op: Op, first: seq<Byte>)
    ensures s.Step(op).Excess() <= s.Excess()
    ensures s.Step(op).Excess() == s.Excess() <==> !Drops(s, op)
    ensures s.Balanced(first) && !Drops(s, op) ==> s.Step(op).Balanced(first)
  {
    hide Flatten, Lossless, Aggregated;
    match op {
      case Push(str) => PushFlows(s, str, first);
      case PushData(data) => PushFlows(s, data, first);
      case Pop =>
        PopIsTake(s);
        if s.chunks != [] { TakeFlows(s, |s.chunks[0]|, first); }
      case Take(n) => TakeFlows(s, n, first);
      case Aggregate(max) => StreamKeptIff(s.chunks, max);
    }
  }

  /** Over any run the stream balances exactly if no merge met a chunk too long to be
      copied; nothing that was dropped comes back. */
  lemma {:induction false} BalancedIff(s: State, ops: seq<Op>, first: seq<Byte>)
    requires s.Balanced(first)
    ensures After(s, ops).Balanced(first) <==> LosslessRun(s, ops)
    ensures After(s, ops).Excess() <= |first|
    ensures After(s, ops).Excess() == |first| <==> LosslessRun(s, ops)
  {
    hide Flatten, Drops, State.Step;
    assert |s.received + Flatten(s.chunks)| == |first + s.sent|;
    if ops != [] {
      var before, op := ops[..|ops| - 1], ops[|ops| - 1];
      BalancedIff(s, before, first);
      StepFlows(After(s, before), op, first);
      var t := After(s, ops);
      if t.Balanced(first) { assert |t.received + Flatten(t.chunks)| == |first + t.sent|; }
    }
  }

  ghost predicate SmallMerges(ops: seq<Op>) {
    forall op :: op in ops ==> op.Aggregate? ==> op.max < BUF_SIZE_MAX
  }

  /** A condition on the calls alone: with chunks of legal size, and merging up to less than
      BUF_SIZE_MAX, nothing is ever dropped. */
  lemma {:induction false} SmallMergesKeep(s: State, ops: seq<Op>)
    requires ShortBehind(s.chunks) && AllLegal(ops) && SmallMerges(ops)
    ensures LosslessRun(s, ops) && ShortBehind(After(s, ops).chunks)
  {
    hide Lossless, Aggregated;
    if ops != [] {
      var before, op := ops[..|ops| - 1], ops[|ops| - 1];
      SmallMergesKeep(s, before);
      assert op in ops;
      if op.Aggregate? { SmallMerge(After(s, before).chunks, op.max); }
    }
  }

  /** A new list without a limit. */
  ghost function Fresh(): State {
    State([], 0, 0, [], [])
  }

  ghost predicate MergesAt(ops: seq<Op>, max: nat) {
    forall op :: op in ops ==> op.Aggregate? ==> op.max == max
  }

  /** Merging up to max is safe in all legal runs exactly if max is below BUF_SIZE_MAX. */
  lemma SafeLimitIff(max: nat)
    ensures (forall ops :: AllLegal(ops) && MergesAt(ops, max) ==> After(Fresh(), ops).Balanced([])) <==> max < BUF_SIZE_MAX
  {
    hide After, State.Step, Flatten, Lossless;
    NothingYet();
    if max < BUF_SIZE_MAX {
      forall ops | AllLegal(ops) && MergesAt(ops, max) ensures After(Fresh(), ops).Balanced([]) {
        SmallMergesKeep(Fresh(), ops);
        BalancedIff(Fresh(), ops, []);
      }
    } else {
      LosingRun(max);
    }
  }

  lemma NothingYet()
    ensures Fresh().Balanced([])
  {
  }

  /** Two pushes that reach the limit together, a merge, one more push and a merge: the
      first two chunks are gone. */
  lemma LosingRun(max: nat)
    requires max >= BUF_SIZE_MAX
    ensures exists ops :: AllLegal(ops) && MergesAt(ops, max) && !After(Fresh(), ops).Balanced([])
  {
    hide Flatten, Aggregated, Kept, CountFrom, Lossless;
    var a, c := seq<Byte>(BUF_SIZE_MAX / 2, _ => 1), seq<Byte>(1, _ => 2);
    var push, merge := PushData(a), Aggregate(max);
    var ops := [push, push, merge, PushData(c), merge];
    AggregateCanLose(a, a, c, max);
    FiveCalls(Fresh(), push, push, merge, PushData(c), merge);
    assert [] + [a] + [a] == [a, a] && [a + a] + [c] == [a + a, c] && [] + a + a + c == a + a + c;
    var s := State([c], 3, 0, a + a + c, []);
    assert After(Fresh(), ops) == s;
    One(c);
    assert |[] + Flatten(s.chunks)| == 1;
  }

  lemma FiveCalls(s: State, a: Op, b: Op, c: Op, d: Op, e: Op)
    ensures After(s, [a, b, c, d, e]) == s.Step(a).Step(b).Step(c).Step(d).Step(e)
  {
    hide State.Step, After;
    RunStep(s, [], a);
    RunStep(s, [a], b);
    RunStep(s, [a, b], c);
    RunStep(s, [a, b, c], d);
    RunStep(s, [a, b, c, d], e);
    assert [] + [a] == [a] && [a] + [b] == [a, b] && [a, b] + [c] == [a, b, c];
    assert [a, b, c] + [d] == [a, b, c, d] && [a, b, c, d] + [e] == [a, b, c, d, e];
  }

  lemma RunStep(s: State, ops: seq<Op>, op: Op)
    ensures After(s, ops + [op]) == After(s, ops).Step(op)
    ensures After(s, []) == s
  {
    assert (ops + [op])[..|ops|] == ops;
  }

  // ---- the reads

  /** A read within the first chunk delivers the next bytes of the stream; a chunk that has
      been read completely is gone. Any other read delivers nothing. */
  lemma TakeMeaning(s: State, n: nat)
    ensures var t, whole := s.Step(Take(n)), Flatten(s.chunks);
      if s.chunks != [] && n <= |s.chunks[0]|
      then && n <= |whole| && t.received == s.received + whole[..n] && Flatten(t.chunks) == whole[n..] && t.sent == s.sent
           && |t.chunks| == |s.chunks| - (if n == |s.chunks[0]| then 1 else 0)
      else t == s
  {
    hide Flatten;
    if s.chunks != [] && n <= |s.chunks[0]| {
      var c, rest := s.chunks[0], s.chunks[1..];
      FlattenCons(s.chunks);
      Begins(c, Flatten(rest), n);
      FlattenCons(s.chunks[0 := c[n..]]);
      assert s.chunks[0 := c[n..]][1..] == rest;
    }
  }

  lemma Begins(c: Chunk, rest: Chunk, n: nat)
    requires n <= |c|
    ensures (c + rest)[..n] == c[..n] && (c + rest)[n..] == c[n..] + rest
    ensures n == |c| ==> (c + rest)[n..] == rest && c[..n] == c
  {
  }

  ghost function Pops(n: nat): seq<Op> {
    if n == 0 then [] else Pops(n - 1) + [Pop]
  }

  lemma {:induction false} PopsDeliver(s: State, n: nat)
    requires n <= |s.chunks|
    ensures After(s, Pops(n)) == State(s.chunks[n..], s.size - n, s.max, s.sent, s.received + Flatten(s.chunks[..n]))
  {
    hide Flatten;
    if n == 0 {
      FlattenNone();
      assert s.chunks[..0] == [] && s.chunks[0..] == s.chunks && s.received + [] == s.received;
    } else {
      PopsDeliver(s, n - 1);
      RunStep(s, Pops(n - 1), Pop);
      assert s.chunks[..n] == s.chunks[..n - 1] + [s.chunks[n - 1]];
      FlattenJoin(s.chunks[..n - 1], [s.chunks[n - 1]]);
      One(s.chunks[n - 1]);
      Associate(s.received, Flatten(s.chunks[..n - 1]), s.chunks[n - 1]);
    }
  }

  /** Whatever the run, if its merges are small: once the list is emptied by pops, all that
      it held and all that was sent has been received, in order. */
  lemma EverythingArrives(s: State, ops: seq<Op>)
    requires s.sent == s.received == [] && ShortBehind(s.chunks) && AllLegal(ops) && SmallMerges(ops)
    ensures var t := After(s, ops);
      var u := After(t, Pops(|t.chunks|));
      u.chunks == [] && u.received == Flatten(s.chunks) + t.sent
  {
    hide Flatten, After, State.Step, ShortBehind, SmallMerges, LosslessRun, Pops;
    var first, t := Flatten(s.chunks), After(s, ops);
    assert [] + first == first + [];
    SmallMergesKeep(s, ops);
    BalancedIff(s, ops, first);
    PopsDeliver(t, |t.chunks|);
    assert t.chunks[..|t.chunks|] == t.chunks;
  }

  // ---- the pushes

  ghost function Pushes(ops: seq<Op>): nat {
    if ops == [] then 0 else Pushes(ops[..|ops| - 1]) + var op := ops[|ops| - 1]; if op.Push? || op.PushData? then 1 else 0
  }

  ghost function AllPushed(ops: seq<Op>): seq<Byte> {
    if ops == [] then []
    else
      AllPushed(ops[..|ops| - 1]) +
      match ops[|ops| - 1]
      case Push(str) => str
      case PushData(data) => data
      case _ => []
  }

  /** Without a limit, or with room for all pushes at the start, everything is sent. */
  lemma {:induction false} AllSent(s: State, ops: seq<Op>)
    requires s.max == 0 || s.size + Pushes(ops) <= s.max
    ensures After(s, ops).sent == s.sent + AllPushed(ops)
    ensures After(s, ops).max == s.max && After(s, ops).size <= s.size + Pushes(ops)
  {
    hide Aggregated;
    if ops != [] {
      AllSent(s, ops[..|ops| - 1]);
    }
  }

  // ---- the calls

  ghost function StateOf(l: List, sent: seq<Byte>, received: seq<Byte>): State
    reads l
  {
    State(l.chunks, l.size, l.maxSize, sent, received)
  }

  method DoPop(l: List, ghost sent: seq<Byte>, received: seq<Byte>) returns (now: seq<Byte>)
    requires l.Valid()
    modifies l
    ensures l.Valid() && l.Repr == old(l.Repr) && StateOf(l, sent, now) == old(StateOf(l, sent, received)).Popped()
  {
    hide Flatten, List.Valid, Slice;
    now := received;
    var b := l.Peek();
    if b != null {
      now := received + if b.data == null then [] else Slice(b.data[..], b.offset, b.offset + b.len);
    }
    l.Pop();
  }

  method DoTake(l: List, n: nat, ghost sent: seq<Byte>, received: seq<Byte>) returns (now: seq<Byte>)
    requires l.Valid()
    modifies l, l.Repr
    ensures l.Valid() && l.Repr == old(l.Repr) && StateOf(l, sent, now) == old(StateOf(l, sent, received)).Taken(n)
  {
    hide Flatten, List.Valid, Slice;
    now := received;
    var b := l.Peek();
    if b != null && n <= b.len {
      var got := if b.data == null then [] else Slice(b.data[..], b.offset, b.offset + n);
      if b.data != null { TakeSlice(b.data[..], b.offset, b.offset + b.len, n); }
      Whole(l.chunks[0], n);
      now := received + got;
      l.Advance(n);
    }
  }

  lemma Whole(c: Chunk, n: nat)
    requires n <= |c|
    ensures n == |c| ==> c[..n] == c
  {
  }

  method DoPush(l: List, op: Op, sent: seq<Byte>, ghost received: seq<Byte>) returns (now: seq<Byte>)
    requires l.Valid() && Legal(op) && (op.Push? || op.PushData?)
    modifies l, l.Repr
    ensures l.Valid() && fresh(l.Repr - old(l.Repr)) && StateOf(l, now, received) == old(StateOf(l, sent, received)).Step(op)
  {
    hide Flatten, List.Valid, Slice;
    now := sent;
    var data := if op.Push? then op.str else op.data;
    if l.maxSize == 0 || l.size < l.maxSize { now := sent + data; }
    if op.Push? { l.Push(data); } else { var _ := l.PushData(data); }
  }

  /** Any run of pushes, pops, reads and merges: which pushes are accepted and which reads
      succeed, and what the list holds afterwards, follows from the calls; the stream
      balances exactly if no merge dropped a chunk, for certain if all chunks behind the
      first are of legal size and all merges stay below the limit; without a limit, or with
      room for all, every push is accepted. */
  method Run(l: List, ops: seq<Op>) returns (sent: seq<Byte>, received: seq<Byte>)
    requires l.Valid() && AllLegal(ops)
    modifies l, l.Repr
    ensures l.Valid()
    ensures StateOf(l, sent, received) == After(old(StateOf(l, [], [])), ops)
    ensures received + Flatten(l.chunks) == Flatten(old(l.chunks)) + sent <==> LosslessRun(old(StateOf(l, [], [])), ops)
    ensures ShortBehind(old(l.chunks)) && SmallMerges(ops) ==> received + Flatten(l.chunks) == Flatten(old(l.chunks)) + sent
    ensures l.maxSize == 0 || old(l.size) + Pushes(ops) <= l.maxSize ==> sent == AllPushed(ops)
  {
    hide Flatten, List.Valid, Lossless, Aggregated, After, State.Step, State.Popped, State.Taken, SmallMerges, ShortBehind,
         LosslessRun, AllPushed, Pushes;
    sent, received := [], [];
    ghost var s := StateOf(l, [], []);
    RunEnds(s, ops);
    for i := 0 to |ops|
      invariant l.Valid() && fresh(l.Repr - old(l.Repr))
      invariant StateOf(l, sent, received) == After(s, ops[..i])
    {
      var op := ops[i];
      assert op in ops;
      StepAt(s, ops, i, op);
      match op {
        case Push(_) => sent := DoPush(l, op, sent, received);
        case PushData(_) => sent := DoPush(l, op, sent, received);
        case Pop => received := DoPop(l, sent, received);
        case Take(n) => received := DoTake(l, n, sent, received);
        case Aggregate(max) => l.Aggregate(max);
      }
    }
  }

  lemma StepAt(s: State, ops: seq<Op>, i: nat, op: Op)
    requires i < |ops| && op == ops[i]
    ensures After(s, ops[..i + 1]) == After(s, ops[..i]).Step(op)
    ensures var t := After(s, ops[..i]);
      match op
      case Pop => t.Step(op) == t.Popped()
      case Take(n) => t.Step(op) == t.Taken(n)
      case Aggregate(m) => t.Step(op) == t.(chunks := Aggregated(t.chunks, m))
      case _ => true
  {
    hide After, State.Popped, State.Taken, Aggregated;
    RunStep(s, ops[..i], op);
    assert ops[..i] + [op] == ops[..i + 1];
  }

  /** What the run as a whole means, for a state without history. */
  lemma RunEnds(s: State, ops: seq<Op>)
    requires AllLegal(ops) && s.sent == s.received == []
    ensures After(s, ops[..0]) == s && After(s, ops[..|ops|]) == After(s, ops) && After(s, ops).max == s.max
    ensures var t := After(s, ops);
      && (t.received + Flatten(t.chunks) == Flatten(s.chunks) + t.sent <==> LosslessRun(s, ops))
      && (ShortBehind(s.chunks) && SmallMerges(ops) ==> LosslessRun(s, ops))
      && (t.max == 0 || s.size + Pushes(ops) <= t.max ==> t.sent == AllPushed(ops))
  {
    hide State.Step, Flatten, SmallMerges, ShortBehind, LosslessRun, AllPushed, Pushes;
    assert ops[..|ops|] == ops && ops[..0] == [];
    var first := Flatten(s.chunks);
    assert [] + first == first + [];
    BalancedIff(s, ops, first);
    LimitStays(s, ops);
    if ShortBehind(s.chunks) && SmallMerges(ops) { SmallMergesKeep(s, ops); }
    if s.max == 0 || s.size + Pushes(ops) <= s.max {
      AllSent(s, ops);
      assert [] + AllPushed(ops) == AllPushed(ops);
    }
  }

  lemma {:induction false} LimitStays(s: State, ops: seq<Op>)
    ensures After(s, ops).max == s.max
  {
    hide Aggregated;
    if ops != [] { LimitStays(s, ops[..|ops| - 1]); }
  }
}
