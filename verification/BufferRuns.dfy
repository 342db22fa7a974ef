/** Whole runs over one buffer: what goes in comes out, in order. */
module BufferRuns {
  import opened Offsets
  import opened ByteBuffer

  /** A number written in one, two or four bytes. */
  datatype Field = U8(x: int) | U16(x: int) | U32(x: int) {
    function Width(): nat {
      match this
      case U8(_) => 1
      case U16(_) => 2
      case U32(_) => 4
    }

    ghost function Value(): int {
      x % Width256(Width())
    }
  }

  ghost function Encoding(fs: seq<Field>): seq<Byte> {
    if fs == [] then [] else BigEndian(fs[0].x, fs[0].Width()) + Encoding(fs[1..])
  }

  lemma {:induction false} EncodingSnoc(fs: seq<Field>, f: Field)
    ensures Encoding(fs + [f]) == Encoding(fs) + BigEndian(f.x, f.Width())
  {
    hide BigEndian;
    if fs == [] {
      assert Encoding([f][1..]) == [];
    } else {
      EncodingSnoc(fs[1..], f);
      assert (fs + [f])[1..] == fs[1..] + [f];
    }
  }

  lemma AppendedTwice(d: Deque, x: seq<Byte>, y: seq<Byte>)
    ensures d.Appended(x).Appended(y) == d.Appended(x + y)
  {
    assert d.bytes + (x + y) == (d.bytes + x) + y;
  }

  lemma AppendedNothing(d: Deque)
    ensures d.Appended([]) == d
  {
  }

  method WriteField(b: Buffer, f: Field) returns (ok: bool)
    requires b.Valid()
    modifies b`len, b.data
    ensures b.Valid() && ok == (b.data != null && f.Width() <= old(b.View()).back)
    ensures b.View() == if ok then old(b.View()).Appended(BigEndian(f.x, f.Width())) else old(b.View())
  {
    hide BigEndian;
    match f {
      case U8(x) => ok := b.WriteU8(x);
      case U16(x) => ok := b.WriteU16(x);
      case U32(x) => ok := b.WriteU32(x);
    }
  }

  /** Write fields until one does not fit. */
  method WriteFields(b: Buffer, fs: seq<Field>) returns (n: nat)
    requires b.Valid()
    modifies b`len, b.data
    ensures b.Valid() && n <= |fs|
    ensures b.View() == old(b.View()).Appended(Encoding(fs[..n]))
    ensures n < |fs| ==> b.data == null || fs[n].Width() > b.View().back
  {
    hide BigEndian, Encoding, Deque.Appended;
    n := 0;
    assert fs[..0] == [];
    NothingEncoded();
    AppendedNothing(b.View());
    ghost var first := b.View();
    while n < |fs|
      invariant b.Valid() && n <= |fs|
      invariant b.View() == first.Appended(Encoding(fs[..n]))
    {
      var ok := WriteField(b, fs[n]);
      if !ok { return; }
      EncodingSnoc(fs[..n], fs[n]);
      assert fs[..n] + [fs[n]] == fs[..n + 1];
      AppendedTwice(first, Encoding(fs[..n]), BigEndian(fs[n].x, fs[n].Width()));
      n := n + 1;
    }
  }

  lemma NothingEncoded()
    ensures Encoding([]) == []
  {
  }

  /** Read a number of the given width; -1 if there is too little left. */
  method ReadWidth(b: Buffer, width: nat) returns (x: int)
    requires b.Valid() && width in {1, 2, 4}
    modifies b`offset, b`len
    ensures b.Valid() && (x == -1 <==> old(b.len) < width)
    ensures b.View() == if x != -1 then old(b.View()).Dropped(width) else old(b.View())
    ensures x != -1 ==> x == Number(old(b.Contents())[..width])
  {
    hide Number;
    if width == 1 {
      x := b.ReadU8();
    } else if width == 2 {
      x := b.ReadU16();
    } else {
      var good;
      x, good := b.ReadU32();
      if !good { x := -1; }
    }
  }

  lemma FirstField(fs: seq<Field>, rest: seq<Byte>)
    requires fs != []
    ensures var s, w := Encoding(fs) + rest, fs[0].Width();
      |s| >= w && Number(s[..w]) == fs[0].Value() && s[w..] == Encoding(fs[1..]) + rest
  {
    hide BigEndian, Number, Width256, Encoding;
    NumberOfBigEndian(fs[0].x, fs[0].Width());
    EncodingCons(fs);
    Parts(BigEndian(fs[0].x, fs[0].Width()), Encoding(fs[1..]), rest);
  }

  lemma EncodingCons(fs: seq<Field>)
    requires fs != []
    ensures Encoding(fs) == BigEndian(fs[0].x, fs[0].Width()) + Encoding(fs[1..])
  {
  }

  lemma Parts(a: seq<Byte>, b: seq<Byte>, c: seq<Byte>)
    ensures (a + b + c)[..|a|] == a && (a + b + c)[|a|..] == b + c
  {
  }

  /** Fields read back in the order in which they were written have the same values. */
  method ReadFields(b: Buffer, widths: seq<nat>, ghost fs: seq<Field>, ghost rest: seq<Byte>) returns (xs: seq<int>)
    requires b.Valid() && b.Contents() == Encoding(fs) + rest
    requires |widths| == |fs| && forall i :: 0 <= i < |fs| ==> widths[i] == fs[i].Width()
    modifies b`offset, b`len
    ensures b.Valid() && b.Contents() == rest
    ensures |xs| == |fs| && forall i :: 0 <= i < |fs| ==> xs[i] == fs[i].Value()
  {
    hide Encoding, Number, Width256;
    xs := [];
    assert fs[0..] == fs;
    for i := 0 to |widths|
      invariant b.Valid() && b.Contents() == Encoding(fs[i..]) + rest
      invariant |xs| == i && forall j :: 0 <= j < i ==> xs[j] == fs[j].Value()
    {
      FirstField(fs[i..], rest);
      var x := ReadWidth(b, widths[i]);
      assert fs[i..][1..] == fs[i + 1..];
      xs := xs + [x];
    }
    assert fs[|fs|..] == [];
    NothingEncoded();
  }

  // ---- runs

  /** One call of a run: write behind, write in front, or read. */
  datatype Op = Put(bytes: seq<Byte>) | PutFront(bytes: seq<Byte>) | Take(n: int)

  /** The buffer as its users see it, with what they have written behind the content, what
      they have written in front of it (the latest first), and what they have read. */
  datatype State = State(d: Deque, sent: seq<Byte>, headers: seq<Byte>, received: seq<Byte>) {
    /** A call that does not succeed changes nothing. */
    ghost function Step(op: Op): State {
      match op
      case Put(b) => if |b| < BUF_SIZE_MAX && |b| <= d.back then State(d.Appended(b), sent + b, headers, received) else this
      case PutFront(b) => if |b| <= d.front then State(d.Prepended(b), sent, b + headers, received) else this
      case Take(n) => if 0 <= n <= |d.bytes| then State(d.Dropped(n), sent, headers, received + d.bytes[..n]) else this
    }
  }

  ghost function Start(d: Deque): State {
    State(d, [], [], [])
  }

  ghost function After(s: State, ops: seq<Op>): State {
    if ops == [] then s else After(s, ops[..|ops| - 1]).Step(ops[|ops| - 1])
  }

  lemma RunStep(s: State, ops: seq<Op>, op: Op)
    ensures After(s, ops + [op]) == After(s, ops).Step(op)
    ensures After(s, []) == s
  {
    assert (ops + [op])[..|ops|] == ops;
  }

  lemma {:induction false} RunJoin(s: State, a: seq<Op>, b: seq<Op>)
    ensures After(s, a + b) == After(After(s, a), b)
  {
    hide State.Step;
    if b == [] {
      assert a + b == a;
    } else {
      RunJoin(s, a, b[..|b| - 1]);
      assert (a + b)[..|a + b| - 1] == a + b[..|b| - 1];
    }
  }

  /** The three things that a run never changes: what was there and what was written is what
      was read and what is still there, and each of the two free spaces lost what was
      written to it; the space in front gained what was read. */
  ghost predicate Kept(d: Deque, s: State) {
    && multiset(s.received) + multiset(s.d.bytes) == multiset(s.headers) + multiset(d.bytes) + multiset(s.sent)
    && s.d.front == d.front + |s.received| - |s.headers|
    && s.d.back == d.back - |s.sent|
  }

  lemma KeptStep(d: Deque, s: State, op: Op)
    requires Kept(d, s)
    ensures Kept(d, s.Step(op))
  {
    var r, now, h, was, t := multiset(s.received), multiset(s.d.bytes), multiset(s.headers), multiset(d.bytes), multiset(s.sent);
    match op {
      case Put(b) => GrowBehind(r, now, h + was, t, multiset(b));
      case PutFront(b) => GrowInFront(r, now, h, was, t, multiset(b));
      case Take(n) => if 0 <= n <= |s.d.bytes| { Divided(s.received, s.d.bytes, n); }
    }
  }

  lemma GrowBehind(r: multiset<Byte>, now: multiset<Byte>, was: multiset<Byte>, t: multiset<Byte>, x: multiset<Byte>)
    requires r + now == was + t
    ensures r + (now + x) == was + (t + x)
  {
    assert r + (now + x) == (r + now) + x;
    assert was + (t + x) == (was + t) + x;
  }

  lemma GrowInFront(r: multiset<Byte>, now: multiset<Byte>, h: multiset<Byte>, was: multiset<Byte>, t: multiset<Byte>, x: multiset<Byte>)
    requires r + now == h + was + t
    ensures r + (x + now) == x + h + was + t
  {
    assert r + (x + now) == x + (r + now);
    assert x + h + was + t == x + (h + was + t);
  }

  lemma Divided(received: seq<Byte>, bytes: seq<Byte>, n: nat)
    requires n <= |bytes|
    ensures multiset(received + bytes[..n]) + multiset(bytes[n..]) == multiset(received) + multiset(bytes)
  {
    assert bytes == bytes[..n] + bytes[n..];
  }

  /** Without writes in front, the bytes come out in the order in which they went in. */
  ghost predicate InOrder(first: seq<Byte>, s: State) {
    s.received + s.d.bytes == first + s.sent
  }

  lemma InOrderStep(first: seq<Byte>, s: State, op: Op)
    requires InOrder(first, s) && !op.PutFront?
    ensures InOrder(first, s.Step(op))
  {
    match op {
      case Put(b) =>
        assert s.received + (s.d.bytes + b) == (s.received + s.d.bytes) + b;
        assert first + (s.sent + b) == (first + s.sent) + b;
      case Take(n) =>
        if 0 <= n <= |s.d.bytes| {
          assert s.d.bytes == s.d.bytes[..n] + s.d.bytes[n..];
          assert (s.received + s.d.bytes[..n]) + s.d.bytes[n..] == s.received + (s.d.bytes[..n] + s.d.bytes[n..]);
        }
    }
  }

  /** Without reads, the content grows at both ends. */
  ghost predicate Wrapped(first: seq<Byte>, s: State) {
    s.received == [] && s.d.bytes == s.headers + first + s.sent
  }

  lemma WrappedStep(first: seq<Byte>, s: State, op: Op)
    requires Wrapped(first, s) && !op.Take?
    ensures Wrapped(first, s.Step(op))
  {
    match op {
      case Put(b) => assert (s.headers + first + s.sent) + b == s.headers + first + (s.sent + b);
      case PutFront(b) => assert b + (s.headers + first + s.sent) == b + s.headers + first + s.sent;
    }
  }

  ghost predicate NoFronts(ops: seq<Op>) {
    forall op :: op in ops ==> !op.PutFront?
  }

  ghost predicate NoTakes(ops: seq<Op>) {
    forall op :: op in ops ==> !op.Take?
  }

  lemma {:induction false} Conserved(d: Deque, ops: seq<Op>)
    ensures var s := After(Start(d), ops);
      && Kept(d, s)
      && (NoFronts(ops) ==> InOrder(d.bytes, s))
      && (NoTakes(ops) ==> Wrapped(d.bytes, s))
  {
    hide Kept, InOrder, Wrapped, State.Step;
    if ops == [] {
      NothingDone(d);
    } else {
      var before, op := ops[..|ops| - 1], ops[|ops| - 1];
      Conserved(d, before);
      var s := After(Start(d), before);
      assert op in ops;
      KeptStep(d, s, op);
      if !op.PutFront? && InOrder(d.bytes, s) { InOrderStep(d.bytes, s, op); }
      if !op.Take? && Wrapped(d.bytes, s) { WrappedStep(d.bytes, s, op); }
    }
  }

  lemma NothingDone(d: Deque)
    ensures Kept(d, Start(d)) && InOrder(d.bytes, Start(d)) && Wrapped(d.bytes, Start(d))
  {
  }

  // ---- what a caller can know beforehand

  /** All that the run tries to write behind the content. */
  ghost function AllPut(ops: seq<Op>): seq<Byte> {
    if ops == [] then []
    else AllPut(ops[..|ops| - 1]) + if ops[|ops| - 1].Put? then ops[|ops| - 1].bytes else []
  }

  /** All that it tries to write in front, the latest first. */
  ghost function AllFront(ops: seq<Op>): seq<Byte> {
    if ops == [] then []
    else (if ops[|ops| - 1].PutFront? then ops[|ops| - 1].bytes else []) + AllFront(ops[..|ops| - 1])
  }

  ghost predicate ShortPuts(ops: seq<Op>) {
    forall op :: op in ops ==> op.Put? ==> |op.bytes| < BUF_SIZE_MAX
  }

  /** All writes behind the content succeed, wherever the reads are, exactly if each is short
      and they fit the room all together. */
  lemma {:induction false} PutsFitIff(s: State, ops: seq<Op>)
    requires 0 <= s.d.back
    ensures var t, all := After(s, ops), AllPut(ops);
      && (t.sent == s.sent + all <==> ShortPuts(ops) && |all| <= s.d.back)
      && |t.sent| <= |s.sent| + |all| && (|t.sent| == |s.sent| + |all| ==> t.sent == s.sent + all)
      && 0 <= t.d.back == s.d.back - (|t.sent| - |s.sent|)
  {
    if ops != [] {
      var before, op := ops[..|ops| - 1], ops[|ops| - 1];
      PutsFitIff(s, before);
      ShortSnoc(before, op);
      assert before + [op] == ops;
      PutStep(After(s, before), s.sent, AllPut(before), op);
    }
  }

  lemma ShortSnoc(ops: seq<Op>, op: Op)
    ensures ShortPuts(ops + [op]) <==> ShortPuts(ops) && (op.Put? ==> |op.bytes| < BUF_SIZE_MAX)
  {
    assert forall o :: o in ops + [op] <==> o in ops || o == op;
  }

  lemma PutStep(s: State, first: seq<Byte>, all: seq<Byte>, op: Op)
    requires 0 <= s.d.back && |s.sent| <= |first| + |all| && (|s.sent| == |first| + |all| ==> s.sent == first + all)
    ensures var t, more := s.Step(op), all + if op.Put? then op.bytes else [];
      && |t.sent| <= |first| + |more| && (|t.sent| == |first| + |more| ==> t.sent == first + more)
      && (t.sent == first + more <==>
          s.sent == first + all && (op.Put? ==> |op.bytes| < BUF_SIZE_MAX && |op.bytes| <= s.d.back))
  {
    var b := if op.Put? then op.bytes else [];
    assert first + (all + b) == (first + all) + b;
    assert |s.sent| == |first + all| ==> s.sent == first + all;
  }

  /** Writes in front that fit the room there all together succeed. */
  lemma {:induction false} FrontsFit(s: State, ops: seq<Op>)
    requires |AllFront(ops)| <= s.d.front
    ensures After(s, ops).headers == AllFront(ops) + s.headers
    ensures After(s, ops).d.front >= s.d.front - |AllFront(ops)|
  {
    if ops != [] {
      FrontsFit(s, ops[..|ops| - 1]);
    }
  }

  // ---- headers

  /** Each header is written in front, the latest is read first. */
  ghost function Around(hs: seq<seq<Byte>>): seq<Op> {
    if hs == [] then [] else [PutFront(hs[0])] + Around(hs[1..]) + [Take(|hs[0]|)]
  }

  ghost function Peeled(hs: seq<seq<Byte>>): seq<Byte> {
    if hs == [] then [] else Peeled(hs[1..]) + hs[0]
  }

  /** Headers that fit the room in front come off as they went on, and leave the content and
      the room as they were. */
  lemma {:induction false} HeadersComeOff(s: State, hs: seq<seq<Byte>>)
    requires |Peeled(hs)| <= s.d.front
    ensures After(s, Around(hs)) == State(s.d, s.sent, Peeled(hs) + s.headers, s.received + Peeled(hs))
    decreases |hs|
  {
    if hs == [] {
      assert s.received + [] == s.received && [] + s.headers == s.headers;
    } else {
      var h, inner := hs[0], Around(hs[1..]);
      var s1 := s.Step(PutFront(h));
      RunStep(s, [], PutFront(h));
      assert [] + [PutFront(h)] == [PutFront(h)];
      RunJoin(s, [PutFront(h)], inner);
      RunStep(s, [PutFront(h)] + inner, Take(|h|));
      HeadersComeOff(s1, hs[1..]);
      HeaderOff(s, h, Peeled(hs[1..]));
    }
  }

  lemma HeaderOff(s: State, h: seq<Byte>, inner: seq<Byte>)
    requires |h| <= s.d.front
    ensures var s1 := s.Step(PutFront(h));
      State(s1.d, s1.sent, inner + s1.headers, s1.received + inner).Step(Take(|h|))
      == State(s.d, s.sent, inner + h + s.headers, s.received + (inner + h))
  {
    assert inner + (h + s.headers) == inner + h + s.headers;
    assert (s.received + inner) + h == s.received + (inner + h);
    assert (h + s.d.bytes)[..|h|] == h && (h + s.d.bytes)[|h|..] == s.d.bytes;
  }

  // ---- the calls

  method DoStep(b: Buffer, op: Op, sent: seq<Byte>, headers: seq<Byte>, received: seq<Byte>)
    returns (sent': seq<Byte>, headers': seq<Byte>, received': seq<Byte>)
    requires b.Valid()
    modifies b`offset, b`len, b.data
    ensures b.Valid() && b.capacity == old(b.capacity)
    ensures State(b.View(), sent', headers', received') == State(old(b.View()), sent, headers, received).Step(op)
  {
    hide Deque.Appended, Deque.Prepended, Slice;
    sent', headers', received' := sent, headers, received;
    NothingMoves(b.View(), sent, headers, received);
    if b.data == null { NoMemory(b); }
    match op {
      case Put(bytes) =>
        var ok := b.Write(bytes);
        if ok { sent' := sent + bytes; }
      case PutFront(bytes) =>
        var ok := b.WritePrepend(bytes);
        if ok { headers' := bytes + headers; }
      case Take(n) =>
        var ok, got := b.Read(n);
        if ok { received' := received + got; }
    }
  }

  lemma NoMemory(b: Buffer)
    requires b.Valid() && b.data == null
    ensures b.View() == Deque(0, [], 0)
  {
  }

  /** Moving no bytes changes nothing. */
  lemma NothingMoves(d: Deque, sent: seq<Byte>, headers: seq<Byte>, received: seq<Byte>)
    ensures d.Appended([]) == d && d.Prepended([]) == d && d.Dropped(0) == d
    ensures sent + [] == sent && [] + headers == headers && received + d.bytes[..0] == received
  {
  }

  /** Any run of writes at both ends and reads: which calls succeed and what the buffer holds
      afterwards follows from the calls; the bytes are conserved, and the bytes behind and
      in front lie in order; all writes behind succeed exactly if they are short and fit
      together, all in front if they fit together. */
  method Run(b: Buffer, ops: seq<Op>) returns (sent: seq<Byte>, headers: seq<Byte>, received: seq<Byte>)
    requires b.Valid()
    modifies b`offset, b`len, b.data
    ensures b.Valid() && b.capacity == old(b.capacity)
    ensures State(b.View(), sent, headers, received) == After(Start(old(b.View())), ops)
    ensures Kept(old(b.View()), State(b.View(), sent, headers, received))
    ensures NoFronts(ops) ==> received + b.Contents() == old(b.Contents()) + sent
    ensures NoTakes(ops) ==> b.Contents() == headers + old(b.Contents()) + sent
    ensures sent == AllPut(ops) <==> ShortPuts(ops) && |AllPut(ops)| <= old(b.View()).back
    ensures |AllFront(ops)| <= old(b.View()).front ==> headers == AllFront(ops)
  {
    hide State.Step, After, Kept, NoFronts, NoTakes, AllPut, AllFront, ShortPuts;
    sent, headers, received := [], [], [];
    ghost var d := b.View();
    RunEnds(d, ops);
    for i := 0 to |ops|
      invariant b.Valid() && b.capacity == old(b.capacity) && b.data == old(b.data)
      invariant State(b.View(), sent, headers, received) == After(Start(d), ops[..i])
    {
      RunStep(Start(d), ops[..i], ops[i]);
      assert ops[..i] + [ops[i]] == ops[..i + 1];
      sent, headers, received := DoStep(b, ops[i], sent, headers, received);
    }
  }

  lemma RunEnds(d: Deque, ops: seq<Op>)
    requires 0 <= d.front && 0 <= d.back
    ensures After(Start(d), ops[..0]) == Start(d) && After(Start(d), ops[..|ops|]) == After(Start(d), ops)
    ensures var s := After(Start(d), ops);
      && Kept(d, s)
      && (NoFronts(ops) ==> s.received + s.d.bytes == d.bytes + s.sent)
      && (NoTakes(ops) ==> s.d.bytes == s.headers + d.bytes + s.sent)
      && (s.sent == AllPut(ops) <==> ShortPuts(ops) && |AllPut(ops)| <= d.back)
      && (|AllFront(ops)| <= d.front ==> s.headers == AllFront(ops))
  {
    hide State.Step, Kept, NoFronts, NoTakes, AllPut, AllFront, ShortPuts;
    assert ops[..|ops|] == ops && ops[..0] == [];
    Conserved(d, ops);
    PutsFitIff(Start(d), ops);
    assert [] + AllPut(ops) == AllPut(ops) && AllFront(ops) + [] == AllFront(ops);
    if |AllFront(ops)| <= d.front { FrontsFit(Start(d), ops); }
  }
}
