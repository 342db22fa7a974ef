/** struct buffer_list of buffer.c: a linked queue of buffers. */
module BufferList {
  import opened Offsets
  import opened ByteBuffer
  import opened Chunks

  class Entry {
    var buf: Buffer
    var next: Entry?

    constructor (b: Buffer)
      ensures buf == b && next == null
    {
      buf := b;
      next := null;
    }
  }

  /** The objects that an entry brings along. */
  ghost function Own(e: Entry): set<object>
    reads e`buf, e.buf`data
  {
    {e, e.buf} + if e.buf.data == null then {} else {e.buf.data}
  }

  lemma OwnsItself(e: Entry)
    ensures e in Own(e) && e.buf in Own(e)
  {
  }

  /** A new entry with a copy of the data. */
  method NewEntry(data: seq<Byte>) returns (e: Entry)
    requires |data| < BUF_SIZE_MAX
    ensures e.next == null && fresh(Own(e))
    ensures Holding(e, data, Own(e)) && e.buf.capacity == |data|
  {
    var b := new Buffer.Alloc(|data|);
    var _ := b.Write(data);
    e := new Entry(b);
  }

  /** The entry and its buffer belong to the list, and the buffer holds the chunk. */
  ghost predicate Holding(e: Entry, c: Chunk, repr: set<object>)
    reads e`buf, e.buf, e.buf.data
  {
    && e in repr && e.buf in repr && e.buf.data != null && e.buf.data in repr
    && e.buf.Valid() && e.buf.Contents() == c
  }

  /** Two entries do not share their buffers or memory. */
  ghost predicate Apart(d: Entry, e: Entry)
    reads d`buf, e`buf, d.buf`data, e.buf`data
  {
    d != e && d.buf != e.buf && d.buf.data != e.buf.data
  }

  /** The entries hold the chunks, each in its own memory. */
  ghost predicate AllHold(es: seq<Entry>, cs: seq<Chunk>, repr: set<object>)
    reads repr
  {
    && |es| == |cs|
    && (forall i :: 0 <= i < |es| ==> es[i] in repr && es[i].buf in repr && es[i].buf.data in repr && Holding(es[i], cs[i], repr))
    && (forall i, j :: 0 <= i < j < |es| ==> Apart(es[i], es[j]))
  }

  /** The links run through the entries, and from the last one to end. */
  ghost predicate Chain(es: seq<Entry>, end: Entry?)
    reads es`next
  {
    forall i {:trigger es[i].next} :: 0 <= i < |es| ==> es[i].next == if i + 1 < |es| then es[i + 1] else end
  }

  lemma AllHoldSnoc(es: seq<Entry>, cs: seq<Chunk>, e: Entry, c: Chunk, repr: set<object>)
    requires |es| == |cs| && Holding(e, c, repr)
    requires forall i :: 0 <= i < |es| ==> Holding(es[i], cs[i], repr) && Apart(es[i], e)
    requires forall i, j :: 0 <= i < j < |es| ==> Apart(es[i], es[j])
    ensures AllHold(es + [e], cs + [c], repr)
  {
  }

  lemma ChainSnoc(es: seq<Entry>, e: Entry)
    requires Chain(es, e)
    ensures Chain(es + [e], e.next)
  {
    var all := es + [e];
    forall i | 0 <= i < |all| ensures all[i].next == if i + 1 < |all| then all[i + 1] else e.next {
      if i < |es| {
        var d := es[i];
        assert d.next == if i + 1 < |es| then es[i + 1] else e;
        assert all[i] == d;
        if i + 1 < |es| {
          assert all[i + 1] == es[i + 1];
        } else {
          assert all[i + 1] == e;
        }
      } else {
        assert all[i] == e;
      }
    }
  }

  lemma Items(es: seq<Entry>, cs: seq<Chunk>, repr: set<object>)
    requires AllHold(es, cs, repr)
    ensures |es| == |cs|
    ensures forall i :: 0 <= i < |es| ==> es[i] in repr && Holding(es[i], cs[i], repr)
    ensures forall i, j :: 0 <= i < j < |es| ==> Apart(es[i], es[j]) && es[i] != es[j]
  {
  }

  lemma AppendHolds(es: seq<Entry>, cs: seq<Chunk>, repr: set<object>, e: Entry, c: Chunk, own: set<object>)
    requires AllHold(es, cs, repr) && Holding(e, c, own)
    requires own == Own(e) && own !! repr
    ensures AllHold(es + [e], cs + [c], repr + own)
  {
    AllHoldSnoc(es, cs, e, c, repr + own);
  }

  /** Link an entry behind another one. */
  method SetNext(t: Entry, e: Entry, ghost es: seq<Entry>, ghost cs: seq<Chunk>, ghost repr: set<object>)
    requires AllHold(es, cs, repr) && es != [] && t == es[|es| - 1] && Chain(es, t.next)
    modifies t`next
    ensures Chain(es, e) && AllHold(es, cs, repr)
  {
    hide AllHold, Holding, Apart;
    Items(es, cs, repr);
    t.next := e;
    Gathered(es, cs, repr);
  }

  lemma NoChain(end: Entry?)
    ensures Chain([], end)
  {
  }

  lemma LastLink(es: seq<Entry>, end: Entry?)
    requires es != [] && Chain(es, end)
    ensures es[|es| - 1].next == end
  {
    var d := es[|es| - 1];
    assert d.next == end;
  }

  lemma LastIn(es: seq<Entry>, cs: seq<Chunk>, repr: set<object>)
    requires es != [] && AllHold(es, cs, repr)
    ensures es[|es| - 1] in repr
  {
  }

  lemma Gathered(es: seq<Entry>, cs: seq<Chunk>, repr: set<object>)
    requires |es| == |cs|
    requires forall i :: 0 <= i < |es| ==> Holding(es[i], cs[i], repr)
    requires forall i, j :: 0 <= i < j < |es| ==> Apart(es[i], es[j])
    ensures AllHold(es, cs, repr)
  {
  }

  lemma SameLength(es: seq<Entry>, cs: seq<Chunk>, repr: set<object>)
    requires AllHold(es, cs, repr)
    ensures |es| == |cs|
  {
  }

  lemma HoldingIs(e: Entry, c: Chunk, repr: set<object>)
    requires e in repr && e.buf in repr && e.buf.data != null && e.buf.data in repr && e.buf.Valid() && e.buf.Contents() == c
    ensures Holding(e, c, repr)
  {
  }

  // ---- dropping entries in front

  lemma ChainDrop(es: seq<Entry>, end: Entry?, n: nat)
    requires Chain(es, end) && n <= |es|
    ensures Chain(es[n..], end)
  {
    var rest := es[n..];
    forall i | 0 <= i < |rest| ensures rest[i].next == if i + 1 < |rest| then rest[i + 1] else end {
      assert es[n + i].next == if n + i + 1 < |es| then es[n + i + 1] else end;
    }
  }

  lemma ChainAt(es: seq<Entry>, end: Entry?, i: nat)
    requires Chain(es, end) && i < |es|
    ensures es[i].next == if i + 1 < |es| then es[i + 1] else end
  {
  }

  lemma HoldsDrop(es: seq<Entry>, cs: seq<Chunk>, repr: set<object>, n: nat)
    requires AllHold(es, cs, repr) && n <= |es|
    ensures AllHold(es[n..], cs[n..], repr)
  {
  }

  lemma HoldsAt(es: seq<Entry>, cs: seq<Chunk>, repr: set<object>, i: nat)
    requires AllHold(es, cs, repr) && i < |es|
    ensures |es| == |cs| && Holding(es[i], cs[i], repr)
    ensures es[i] in repr && es[i].buf in repr && es[i].buf.data != null && es[i].buf.data in repr
    ensures es[i].buf.Valid() && es[i].buf.Contents() == cs[i]
  {
  }

  // ---- a new entry in front

  lemma ChainCons(f: Entry, es: seq<Entry>, end: Entry?)
    requires Chain(es, end) && f.next == if es == [] then end else es[0]
    ensures Chain([f] + es, end)
  {
    var all := [f] + es;
    forall i | 0 <= i < |all| ensures all[i].next == if i + 1 < |all| then all[i + 1] else end {
      if i > 0 {
        var d := es[i - 1];
        assert d.next == if i < |es| then es[i] else end;
        assert all[i] == d;
        if i + 1 < |all| { assert all[i + 1] == es[i]; }
      } else {
        assert all[i] == f;
      }
    }
  }

  lemma ConsHolds(es: seq<Entry>, cs: seq<Chunk>, repr: set<object>, f: Entry, c: Chunk, own: set<object>)
    requires AllHold(es, cs, repr) && Holding(f, c, own)
    requires own == Own(f) && own !! repr
    ensures AllHold([f] + es, [c] + cs, repr + own)
  {
    hide AllHold, Holding, Apart, Own;
    var all, cc, more := [f] + es, [c] + cs, repr + own;
    Items(es, cs, repr);
    HoldingGrows(f, c, own, more);
    OwnsItself(f);
    forall i | 0 <= i < |all| ensures Holding(all[i], cc[i], more) {
      if i > 0 {
        assert all[i] == es[i - 1] && cc[i] == cs[i - 1];
        HoldingGrows(es[i - 1], cs[i - 1], repr, more);
      }
    }
    forall i, j | 0 <= i < j < |all| ensures Apart(all[i], all[j]) {
      assert all[j] == es[j - 1];
      if i > 0 {
        assert all[i] == es[i - 1];
      } else {
        FreshApart(f, c, own, es[j - 1], cs[j - 1], repr);
      }
    }
    Gathered(all, cc, more);
  }

  lemma HoldingGrows(e: Entry, c: Chunk, repr: set<object>, more: set<object>)
    requires Holding(e, c, repr) && repr <= more
    ensures Holding(e, c, more)
  {
  }

  lemma FreshApart(f: Entry, c: Chunk, own: set<object>, e: Entry, d: Chunk, repr: set<object>)
    requires Holding(f, c, own) && Holding(e, d, repr) && own !! repr
    ensures Apart(f, e)
  {
  }

  lemma OtherBuffers(es: seq<Entry>, cs: seq<Chunk>, repr: set<object>, k: nat)
    requires AllHold(es, cs, repr) && k < |es|
    ensures forall i :: 0 <= i < |es| && i != k ==> es[i].buf != es[k].buf
  {
    forall i | 0 <= i < |es| && i != k ensures es[i].buf != es[k].buf {
      if i < k { assert Apart(es[i], es[k]); } else { assert Apart(es[k], es[i]); }
    }
  }

  method Skip(b: Buffer, n: int)
    requires b.Valid() && b.data != null && 0 <= n <= b.len
    modifies b`offset, b`len
    ensures b.Valid() && b.Contents() == old(b.Contents())[n..]
  {
    var _ := b.Advance(n);
    assert b.Contents() == b.View().bytes;
  }

  /** Read past bytes of the first buffer. */
  method AdvanceFirst(e: Entry, n: int, ghost es: seq<Entry>, ghost cs: seq<Chunk>, ghost repr: set<object>)
    requires AllHold(es, cs, repr) && es != [] && e == es[0] && 0 <= n <= |cs[0]|
    modifies e.buf
    ensures AllHold(es, cs[0 := cs[0][n..]], repr)
  {
    hide Holding, Apart, AllHold;
    Items(es, cs, repr);
    HoldsAt(es, cs, repr, 0);
    OtherBuffers(es, cs, repr, 0);
    Skip(e.buf, n);
    ghost var next := cs[0 := cs[0][n..]];
    HoldingIs(es[0], next[0], repr);
    Gathered(es, next, repr);
  }

  method Shorten(b: Buffer, n: nat)
    requires b.Valid() && b.data != null && n <= b.len
    modifies b`len
    ensures b.Valid() && b.Contents() == old(b.Contents())[..n]
  {
    b.len := n;
  }

  /** Shorten the content of the last buffer. */
  method CutLast(e: Entry, n: nat, ghost es: seq<Entry>, ghost cs: seq<Chunk>, ghost repr: set<object>)
    requires AllHold(es, cs, repr) && es != [] && e == es[|es| - 1] && |cs| == |es| && n <= |cs[|es| - 1]|
    modifies e.buf
    ensures AllHold(es, cs[|es| - 1 := cs[|es| - 1][..n]], repr)
  {
    hide Holding, Apart, AllHold;
    ghost var l := |es| - 1;
    Items(es, cs, repr);
    HoldsAt(es, cs, repr, l);
    OtherBuffers(es, cs, repr, l);
    Shorten(e.buf, n);
    ghost var next := cs[l := cs[l][..n]];
    HoldingIs(es[l], next[l], repr);
    Gathered(es, next, repr);
  }

  class List {
    var head: Entry?
    var tail: Entry?
    var size: int
    var maxSize: int

    /** The entries from head to tail, and what they hold. */
    ghost var entries: seq<Entry>
    ghost var chunks: seq<Chunk>
    ghost var Repr: set<object>

    ghost predicate Ends()
      reads this
    {
      && head == (if entries == [] then null else entries[0])
      && tail == (if entries == [] then null else entries[|entries| - 1])
    }

    /** The counter is at least the number of entries (merging does not reduce it) and stays
        within a positive limit; such a list never counts itself full while it is empty. A
        list with a negative limit takes nothing. */
    ghost predicate Counted()
      reads this
    {
      && |entries| <= size
      && (maxSize > 0 ==> size <= maxSize && size - |entries| < maxSize)
    }

    ghost predicate Valid()
      reads this, Repr
    {
      this !in Repr && AllHold(entries, chunks, Repr) && Chain(entries, null) && Ends() && Counted()
    }

    constructor (max: int)
      ensures Valid() && fresh(Repr) && chunks == [] && size == 0 && maxSize == max
    {
      head, tail, size, maxSize := null, null, 0, max;
      entries, chunks, Repr := [], [], {};
    }

    method Reset()
      requires Valid()
      modifies this
      ensures Valid() && chunks == [] && size == 0 && maxSize == old(maxSize)
    {
      head, tail, size := null, null, 0;
      entries, chunks, Repr := [], [], {};
    }

    /** buffer_list_push_data. */
    method PushData(data: seq<Byte>) returns (e: Entry?)
      requires Valid() && |data| < BUF_SIZE_MAX
      modifies this, Repr
      ensures Valid() && fresh(Repr - old(Repr)) && maxSize == old(maxSize)
      ensures (e != null) == (maxSize == 0 || old(size) < maxSize)
      ensures e == null ==> chunks == old(chunks) && size == old(size)
      ensures e != null ==> chunks == old(chunks) + [data] && size == old(size) + 1 && e == tail && e.buf.capacity == |data|
    {
      hide AllHold, Holding, Apart, Chain;
      if maxSize != 0 && size >= maxSize { return null; }
      e := NewEntry(data);
      Attach(e, data);
    }

    /** Link a new entry behind the last one, or make it the first. */
    method LinkLast(e: Entry, ghost data: seq<Byte>, ghost own: set<object>)
      requires AllHold(entries, chunks, Repr) && Chain(entries, null) && Ends() && this !in Repr && e !in Repr
      requires Holding(e, data, own)
      modifies this`head, this`tail, Repr
      ensures AllHold(entries, chunks, Repr) && Chain(entries, e) && Holding(e, data, own) && unchanged(e, e.buf)
      ensures tail == e && head == if entries == [] then e else entries[0]
    {
      hide AllHold, Holding, Apart, Chain;
      if tail != null {
        LastLink(entries, null);
        LastIn(entries, chunks, Repr);
        SetNext(tail, e, entries, chunks, Repr);
      } else {
        NoChain(e);
        head := e;
      }
      tail := e;
    }

    /** Put a new entry behind the last one. */
    method Attach(e: Entry, ghost data: seq<Byte>)
      requires Valid() && (maxSize == 0 || size < maxSize)
      requires Holding(e, data, Own(e)) && e.next == null && Own(e) !! Repr && this !in Own(e)
      modifies this, Repr
      ensures Valid() && Repr == old(Repr) + old(Own(e)) && unchanged(e, e.buf) && maxSize == old(maxSize)
      ensures chunks == old(chunks) + [data] && size == old(size) + 1 && e == tail
    {
      hide AllHold, Holding, Apart, Chain, Own;
      ghost var es, cs, repr, own := entries, chunks, Repr, Own(e);
      OwnsItself(e);
      size := size + 1;
      LinkLast(e, data, own);
      entries, chunks, Repr := es + [e], cs + [data], repr + own;
      AppendHolds(es, cs, repr, e, data, own);
      ChainSnoc(es, e);
    }

    /** buffer_list_push: the terminator is stored but not counted. */
    method Push(str: seq<Byte>)
      requires Valid() && 0 !in str && |str| + 1 < BUF_SIZE_MAX
      modifies this, Repr
      ensures Valid() && fresh(Repr - old(Repr)) && maxSize == old(maxSize)
      ensures var ok := maxSize == 0 || old(size) < maxSize;
        chunks == (if ok then old(chunks) + [str] else old(chunks)) && size == if ok then old(size) + 1 else old(size)
    {
      hide AllHold, Holding, Apart, Chain;
      ghost var was := chunks;
      var e := PushData(str + [0]);
      if e != null {
        ghost var n := |entries| - 1;
        HoldsAt(entries, chunks, Repr, n);
        CutLast(e, |str|, entries, chunks, Repr);
        chunks := chunks[n := chunks[n][..|str|]];
        assert chunks == was + [str];
      }
    }

    /** buffer_list_peek. */
    method Peek() returns (b: Buffer?)
      requires Valid()
      ensures (b == null) == (chunks == [])
      ensures b != null ==> b.Valid() && b.Contents() == chunks[0]
    {
      if head == null { return null; }
      HoldsAt(entries, chunks, Repr, 0);
      return head.buf;
    }

    /** buffer_list_pop. */
    method Pop()
      requires Valid()
      modifies this
      ensures Valid() && Repr == old(Repr) && maxSize == old(maxSize)
      ensures if old(chunks) == [] then chunks == [] && size == old(size)
              else chunks == old(chunks)[1..] && size == old(size) - 1
    {
      hide AllHold, Holding, Apart, Chain;
      SameLength(entries, chunks, Repr);
      if head != null {
        ghost var es := entries;
        ChainAt(es, null, 0);
        ChainDrop(es, null, 1);
        HoldsDrop(es, chunks, Repr, 1);
        head := head.next;
        size := size - 1;
        if head == null { tail := null; }
        entries, chunks := es[1..], chunks[1..];
      }
    }

    /** buffer_list_advance. Advancing beyond the first buffer is a fatal error. */
    method Advance(n: int)
      requires Valid() && (chunks != [] ==> 0 <= n <= |chunks[0]|)
      modifies this, Repr
      ensures Valid() && Repr == old(Repr) && maxSize == old(maxSize)
      ensures chunks == if old(chunks) == [] then []
                        else if |old(chunks)[0]| == n then old(chunks)[1..]
                        else old(chunks)[0 := old(chunks)[0][n..]]
      ensures size == old(size) - if old(chunks) != [] && |old(chunks)[0]| == n then 1 else 0
    {
      hide AllHold, Holding, Apart, Chain;
      SameLength(entries, chunks, Repr);
      if head != null {
        HoldsAt(entries, chunks, Repr, 0);
        AdvanceFirst(head, n, entries, chunks, Repr);
        chunks := chunks[0 := chunks[0][n..]];
        HoldsAt(entries, chunks, Repr, 0);
        if head.buf.len == 0 { Pop(); }
      }
    }

    /** The first loop of buffer_list_aggregate: how many entries to merge, their size, and
        the entry behind them. */
    method CountMerge(max: nat) returns (count: nat, total: nat, more: Entry?)
      requires Valid()
      ensures count == CountFrom(chunks, max, 0) <= |entries| == |chunks|
      ensures total == |Flatten(chunks[..count])|
      ensures more == if count < |entries| then entries[count] else null
    {
      hide AllHold, Holding, Apart, Chain, Flatten, CountFrom;
      SameLength(entries, chunks, Repr);
      count, total, more := 0, 0, head;
      assert chunks[0..] == chunks && chunks[..0] == [];
      FlattenNone();
      while more != null && total <= max
        invariant count <= |entries| && more == if count < |entries| then entries[count] else null
        invariant total == |Flatten(chunks[..count])|
        invariant CountFrom(chunks, max, 0) == count + CountFrom(chunks[count..], max, total)
        decreases |entries| - count
      {
        CountNext(chunks, max, total, count);
        HoldsAt(entries, chunks, Repr, count);
        ChainAt(entries, null, count);
        total := total + more.buf.len;
        more := more.next;
        count := count + 1;
      }
      CountDone(chunks[count..], max, total);
    }

    /** The second loop: copy the merged buffers, whether or not the copy succeeds. */
    method CopyMerged(count: nat, b: Buffer)
      requires Valid() && count <= |chunks| && b !in Repr && b.Valid() && b.data != null && b.data !in Repr
      requires b.View() == Deque(0, [], |Flatten(chunks[..count])|)
      modifies b`len, b.data
      ensures Valid() && b.Valid() && b.Contents() == Kept(chunks[..count])
    {
      hide AllHold, Holding, Apart, Chain, Flatten, Kept, Ends, Counted;
      SameLength(entries, chunks, Repr);
      FirstIs();
      var e := head;
      ghost var room := |Flatten(chunks[..count])|;
      assert chunks[..0] == [];
      FlattenNone();
      for i := 0 to count
        invariant Valid() && b.Valid() && b.data == old(b.data)
        invariant e == if i < |entries| then entries[i] else null
        invariant b.View().bytes == Kept(chunks[..i]) && b.View().back == room - |Kept(chunks[..i])|
      {
        HoldsAt(entries, chunks, Repr, i);
        ChainAt(entries, null, i);
        KeptNext(chunks, i, count);
        var next := e.next;
        var _ := b.Copy(e.buf);
        e := next;
      }
    }

    lemma FirstIs()
      requires Ends()
      ensures head == if 0 < |entries| then entries[0] else null
    {
    }

    /** buffer_list_aggregate: the stream is the same afterwards exactly if all merged chunks
        could be copied. */
    method Aggregate(max: nat)
      requires Valid()
      modifies this
      ensures Valid() && fresh(Repr - old(Repr)) && maxSize == old(maxSize) && size == old(size)
      ensures chunks == Aggregated(old(chunks), max)
      ensures Flatten(chunks) == Flatten(old(chunks)) <==> Lossless(old(chunks), max)
      ensures (forall c :: c in old(chunks) ==> |c| < BUF_SIZE_MAX) ==> |chunks| <= 1 || |chunks[0]| > max
      ensures |chunks| < |old(chunks)| ==> |chunks[0]| - |old(chunks)[|old(chunks)| - |chunks|]| <= max
    {
      hide AllHold, Holding, Apart, Chain, Flatten, Lossless, Kept, CountFrom;
      MergeMeaning(chunks, max);
      SameLength(entries, chunks, Repr);
      if head != null {
        var count, total, more := CountMerge(max);
        if count >= 2 {
          var b := new Buffer.Malloc(total);
          CopyMerged(count, b);
          var f := new Entry(b);
          PutMerged(f, more, count, Kept(chunks[..count]));
        }
      } else {
        CountDone(chunks, max, 0);
      }
    }

    /** Replace the first entries by the new one. */
    method PutMerged(f: Entry, more: Entry?, ghost count: nat, ghost data: seq<Byte>)
      requires Valid() && 2 <= count <= |entries| && more == if count < |entries| then entries[count] else null
      requires Own(f) !! Repr && this !in Own(f) && f.buf.data != null && f.buf.Valid() && f.buf.Contents() == data
      modifies this, f`next
      ensures Valid() && Repr == old(Repr) + old(Own(f)) && maxSize == old(maxSize) && size == old(size)
      ensures chunks == [data] + old(chunks)[count..]
    {
      hide AllHold, Holding, Apart, Chain, Flatten, Kept, Own;
      ghost var es, cs, repr, own := entries, chunks, Repr, Own(f);
      OwnHolds(f, data);
      SameLength(es, cs, repr);
      ChainDrop(es, null, count);
      HoldsDrop(es, cs, repr, count);
      NotIn(f, es, cs, repr, own);
      head := f;
      f.next := more;
      if more == null { tail := f; }
      entries, chunks, Repr := [f] + es[count..], [data] + cs[count..], repr + own;
      ConsHolds(es[count..], cs[count..], repr, f, data, own);
      ChainCons(f, es[count..], null);
    }
  }

  lemma OwnHolds(f: Entry, c: Chunk)
    requires f.buf.data != null && f.buf.Valid() && f.buf.Contents() == c
    ensures f in Own(f) && Holding(f, c, Own(f))
  {
  }

  lemma NotIn(f: Entry, es: seq<Entry>, cs: seq<Chunk>, repr: set<object>, own: set<object>)
    requires AllHold(es, cs, repr) && f in own && own !! repr
    ensures f !in es
  {
  }
}
