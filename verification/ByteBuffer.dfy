/** struct buffer of buffer.h and buffer.c: a double-ended queue of bytes in a fixed piece
    of memory. */
module ByteBuffer {
  import opened Offsets

  const BUF_SIZE_MAX: int := 1000000

  /** What a buffer is for its users: the bytes, the room before and the room behind them. */
  datatype Deque = Deque(front: int, bytes: seq<Byte>, back: int) {
    ghost function Appended(b: seq<Byte>): Deque {
      Deque(front, bytes + b, back - |b|)
    }

    ghost function Prepended(b: seq<Byte>): Deque {
      Deque(front - |b|, b + bytes, back)
    }

    ghost function Dropped(n: int): Deque
      requires 0 <= n <= |bytes|
    {
      Deque(front + n, bytes[n..], back)
    }

    /** The memory never grows or shrinks. */
    ghost function Capacity(): int {
      front + |bytes| + back
    }
  }

  // ---- slices of memory

  /** Where the bytes of a slice and of an overwritten memory come from. */
  lemma SliceMeaning(m: seq<Byte>, a: int, b: int, k: int)
    requires 0 <= a <= k < b <= |m|
    ensures Slice(m, a, b)[k - a] == m[k]
  {
  }

  lemma OverwriteMeaning(m: seq<Byte>, p: int, piece: seq<Byte>, k: int)
    requires 0 <= p && p + |piece| <= |m| && 0 <= k < |m|
    ensures Overwrite(m, p, piece)[k] == if p <= k < p + |piece| then piece[k - p] else m[k]
  {
  }

  /** What a buffer shows is what its memory holds from the offset on. */
  lemma ViewMeaning(b: Buffer)
    requires b.Valid()
    ensures b.View().front == b.offset && b.View().back == b.capacity - b.offset - b.len && |b.View().bytes| == b.len
    ensures b.View().bytes == b.Contents()
    ensures b.data != null ==> forall k :: b.offset <= k < b.offset + b.len ==> b.Contents()[k - b.offset] == b.data[k]
  {
  }

  function Slice(m: seq<Byte>, a: int, b: int): (s: seq<Byte>)
    requires 0 <= a <= b <= |m|
    ensures |s| == b - a
  {
    m[a..b]
  }

  /** The memory with a piece copied to position p. */
  function Overwrite(m: seq<Byte>, p: int, piece: seq<Byte>): (r: seq<Byte>)
    requires 0 <= p && p + |piece| <= |m|
    ensures |r| == |m|
  {
    m[..p] + piece + m[p + |piece|..]
  }

  lemma DropSlice(m: seq<Byte>, a: int, b: int, n: int)
    requires 0 <= a && 0 <= n && a + n <= b <= |m|
    ensures Slice(m, a, b)[n..] == Slice(m, a + n, b)
  {
  }

  lemma TakeSlice(m: seq<Byte>, a: int, b: int, n: int)
    requires 0 <= a && 0 <= n && a + n <= b <= |m|
    ensures Slice(m, a, b)[..n] == Slice(m, a, a + n)
  {
  }

  lemma Divide(s: seq<Byte>, n: int)
    requires 0 <= n <= |s|
    ensures s[..n] + s[n..] == s
  {
  }

  lemma JoinSlices(m: seq<Byte>, a: int, b: int, c: int)
    requires 0 <= a <= b <= c <= |m|
    ensures Slice(m, a, b) + Slice(m, b, c) == Slice(m, a, c)
  {
  }

  /** Copying behind a slice, in front of one, or over nothing else than itself. */
  lemma OverwriteBehind(m: seq<Byte>, a: int, p: int, piece: seq<Byte>)
    requires 0 <= a <= p && p + |piece| <= |m|
    ensures Slice(Overwrite(m, p, piece), a, p + |piece|) == Slice(m, a, p) + piece
  {
  }

  lemma OverwriteBefore(m: seq<Byte>, p: int, piece: seq<Byte>, b: int)
    requires 0 <= p && p + |piece| <= b <= |m|
    ensures Slice(Overwrite(m, p, piece), p, b) == piece + Slice(m, p + |piece|, b)
  {
  }

  class Buffer {
    var capacity: int
    var offset: int
    var len: int
    var data: array?<Byte>

    ghost predicate Valid()
      reads this
    {
      && 0 <= offset && 0 <= len && offset + len <= capacity
      && (if data == null then capacity == 0 else capacity <= data.Length)
    }

    ghost function Contents(): (s: seq<Byte>)
      requires Valid()
      reads this, data
      ensures |s| == len
    {
      if data == null then [] else Slice(data[..], offset, offset + len)
    }

    ghost function View(): (d: Deque)
      requires Valid()
      reads this, data
      ensures d.Capacity() == capacity
    {
      Deque(offset, Contents(), capacity - offset - len)
    }

    /** alloc_buf. Larger requests are a fatal error. */
    constructor Alloc(size: nat)
      requires size < BUF_SIZE_MAX
      ensures Valid() && data != null && fresh(data)
      ensures View() == Deque(0, [], size)
    {
      capacity, offset, len := size, 0, 0;
      data := new Byte[size](_ => 0);
    }

    /** alloc_buf_gc: only the first byte is cleared. */
    constructor AllocGc(size: nat)
      requires size < BUF_SIZE_MAX
      ensures Valid() && data != null && fresh(data) && data.Length == size
      ensures View() == Deque(0, [], size) && (size > 0 ==> data[0] == 0)
    {
      capacity, offset, len := size, 0, 0;
      var a := new Byte[size];
      if size > 0 { a[0] := 0; }
      data := a;
    }

    /** Memory of any size, taken from malloc directly. */
    constructor Malloc(size: nat)
      ensures Valid() && data != null && fresh(data)
      ensures View() == Deque(0, [], size)
    {
      capacity, offset, len := size, 0, 0;
      data := new Byte[size](_ => 0);
    }

    /** buf_set_read: a buffer over existing data. */
    constructor SetRead(a: array<Byte>, size: nat)
      requires size < BUF_SIZE_MAX && size <= a.Length
      ensures Valid() && data == a && View() == Deque(0, a[..size], 0)
    {
      capacity, offset, len := size, 0, size;
      data := a;
    }

    predicate BufValid()
      reads this
    {
      data != null && len >= 0
    }

    predicate Safe(n: int)
      reads this
    {
      BufValid() && 0 <= n < BUF_SIZE_MAX && offset + len + n <= capacity
    }

    predicate SafeBidir(n: int)
      reads this
    {
      BufValid() && -BUF_SIZE_MAX <= n < BUF_SIZE_MAX && len + n >= 0 && offset + (len + n) <= capacity
    }

    /** buf_init. */
    method Init(off: int) returns (ok: bool)
      requires Valid()
      modifies this`offset, this`len
      ensures Valid() && ok == (0 <= off <= capacity && data != null)
      ensures View() == if ok then Deque(off, [], capacity - off) else old(View())
    {
      if off < 0 || off > capacity || data == null { return false; }
      len := 0;
      offset := off;
      return true;
    }

    /** buf_inc_len: the bytes that become part of the content are what memory holds. */
    method IncLen(n: int) returns (ok: bool)
      requires Valid()
      modifies this`len
      ensures Valid() && ok == (data != null && -BUF_SIZE_MAX <= n < BUF_SIZE_MAX && 0 <= old(len) + n <= capacity - offset)
      ensures !ok ==> View() == old(View())
      ensures ok && n >= 0 ==> View() == old(View()).Appended(Slice(data[..], offset + old(len), offset + old(len) + n))
      ensures ok && n < 0 ==> View() == Deque(offset, old(Contents())[..old(len) + n], old(View()).back - n)
    {
      hide Slice, Overwrite;
      if !SafeBidir(n) { return false; }
      if n >= 0 {
        JoinSlices(data[..], offset, offset + len, offset + len + n);
      } else {
        TakeSlice(data[..], offset, offset + len, len + n);
      }
      len := len + n;
      return true;
    }

    /** buf_prepend. The index of the new space, or -1. */
    method Prepend(size: int) returns (p: int)
      requires Valid()
      modifies this`offset, this`len
      ensures Valid() && p == if data != null && 0 <= size <= old(offset) then old(offset) - size else -1
      ensures p < 0 ==> View() == old(View())
      ensures p >= 0 ==> offset == p && View() == old(View()).Prepended(Slice(data[..], p, p + size))
    {
      hide Slice, Overwrite;
      if !BufValid() || size < 0 || size > offset { return -1; }
      JoinSlices(data[..], offset - size, offset, offset + len);
      offset := offset - size;
      len := len + size;
      return offset;
    }

    /** buf_advance. */
    method Advance(size: int) returns (ok: bool)
      requires Valid()
      modifies this`offset, this`len
      ensures Valid() && ok == (data != null && 0 <= size <= old(len))
      ensures View() == if ok then old(View()).Dropped(size) else old(View())
      ensures ok ==> offset == old(offset) + size && Contents() == old(Contents())[size..]
    {
      hide Slice, Overwrite;
      if !BufValid() || size < 0 || len < size { return false; }
      DropSlice(data[..], offset, offset + len, size);
      offset := offset + size;
      len := len - size;
      return true;
    }

    /** buf_write_alloc. */
    method WriteAlloc(size: int) returns (p: int)
      requires Valid()
      modifies this`len
      ensures Valid()
      ensures p == if data != null && 0 <= size < BUF_SIZE_MAX && offset + old(len) + size <= capacity then offset + old(len) else -1
      ensures p < 0 ==> View() == old(View())
      ensures p >= 0 ==> View() == old(View()).Appended(Slice(data[..], p, p + size))
    {
      hide Slice, Overwrite;
      if !Safe(size) { return -1; }
      JoinSlices(data[..], offset, offset + len, offset + len + size);
      var ret := offset + len;
      len := len + size;
      return ret;
    }

    /** buf_read_alloc. */
    method ReadAlloc(size: int) returns (p: int)
      requires Valid()
      modifies this`offset, this`len
      ensures Valid() && p == if data != null && 0 <= size <= old(len) then old(offset) else -1
      ensures View() == if p >= 0 then old(View()).Dropped(size) else old(View())
      ensures p >= 0 ==> Slice(data[..], p, p + size) == old(Contents())[..size]
    {
      hide Slice, Overwrite;
      if size < 0 || len < size { return -1; }
      if data != null {
        DropSlice(data[..], offset, offset + len, size);
        TakeSlice(data[..], offset, offset + len, size);
      }
      var ret := if data == null then -1 else offset;
      offset := offset + size;
      len := len - size;
      return ret;
    }

    /** buf_write. */
    method Write(src: seq<Byte>) returns (ok: bool)
      requires Valid()
      modifies this`len, data
      ensures Valid() && ok == (data != null && |src| < BUF_SIZE_MAX && |src| <= old(View()).back)
      ensures View() == if ok then old(View()).Appended(src) else old(View())
      ensures ok ==> offset == old(offset) && Contents() == old(Contents()) + src
      ensures !ok && data != null ==> data[..] == old(data[..])
    {
      hide Slice, Overwrite;
      var p := WriteAlloc(|src|);
      if p < 0 { return false; }
      OverwriteBehind(data[..], offset, p, src);
      CopyIn(data, p, src);
      return true;
    }

    /** buf_write_prepend. */
    method WritePrepend(src: seq<Byte>) returns (ok: bool)
      requires Valid()
      modifies this`offset, this`len, data
      ensures Valid() && ok == (data != null && |src| <= old(View()).front)
      ensures View() == if ok then old(View()).Prepended(src) else old(View())
      ensures ok ==> offset == old(offset) - |src| && Contents() == src + old(Contents())
      ensures !ok && data != null ==> data[..] == old(data[..])
    {
      hide Slice, Overwrite;
      var p := Prepend(|src|);
      if p < 0 { return false; }
      OverwriteBefore(data[..], p, src, offset + len);
      CopyIn(data, p, src);
      return true;
    }

    /** buf_read: the bytes are handed out. */
    method Read(size: int) returns (ok: bool, dest: seq<Byte>)
      requires Valid()
      modifies this`offset, this`len
      ensures Valid() && ok == (data != null && 0 <= size <= old(len))
      ensures View() == if ok then old(View()).Dropped(size) else old(View())
      ensures dest == if ok then old(Contents())[..size] else []
      ensures ok ==> dest + Contents() == old(Contents())
    {
      hide Slice, Overwrite;
      ghost var was := Contents();
      var p := ReadAlloc(size);
      if p < 0 { return false, []; }
      Divide(was, size);
      return true, Slice(data[..], p, p + size);
    }

    /** buf_copy. */
    method Copy(src: Buffer) returns (ok: bool)
      requires Valid() && src.Valid() && src != this && (data != null ==> src.data != data)
      modifies this`len, data
      ensures Valid() && ok == (data != null && src.len < BUF_SIZE_MAX && src.len <= old(View()).back)
      ensures View() == if ok then old(View()).Appended(src.Contents()) else old(View())
      ensures !ok && data != null ==> data[..] == old(data[..])
    {
      hide Slice, Overwrite;
      ok := Write(if src.data == null then [] else Slice(src.data[..], src.offset, src.offset + src.len));
    }

    /** buf_copy_n: what was read is gone from the source even if it does not fit. */
    method CopyN(src: Buffer, n: int) returns (ok: bool)
      requires Valid() && src.Valid() && src != this && (data != null ==> src.data != data)
      modifies this`len, data, src`offset, src`len
      ensures Valid() && src.Valid()
      ensures var read := src.data != null && 0 <= n <= old(src.len);
        && src.View() == (if read then old(src.View()).Dropped(n) else old(src.View()))
        && ok == (read && data != null && n < BUF_SIZE_MAX && n <= old(View()).back)
        && View() == if ok then old(View()).Appended(old(src.Contents())[..n]) else old(View())
      ensures !ok && data != null ==> data[..] == old(data[..])
    {
      hide Slice, Overwrite, Deque.Appended, Deque.Dropped;
      var p := src.ReadAlloc(n);
      if p < 0 { return false; }
      ok := Write(Slice(src.data[..], p, p + n));
    }

    /** buf_copy_range: overwrite the content from dest_index on, extending it if needed. If
        the index lies beyond the end, what memory holds in between becomes part of it. */
    method CopyRange(at: int, src: Buffer, from: int, n: int) returns (ok: bool)
      requires Valid() && src.Valid() && src != this && (data != null ==> src.data != data)
      modifies this`len, data
      ensures Valid() && ok == (0 <= from && 0 <= n && from + n <= src.len && 0 <= at && offset + at + n <= capacity)
      ensures !ok ==> View() == old(View()) && (data != null ==> data[..] == old(data[..]))
      ensures ok && at <= old(len) ==> Contents() == Overlaid(old(Contents()), at, src.Contents()[from..from + n])
      ensures ok && at > old(len) ==>
        (var gap := if data == null then [] else Slice(old(data[..]), offset + old(len), offset + at);
         Contents() == old(Contents()) + gap + src.Contents()[from..from + n])
      ensures ok ==> offset == old(offset) && len == if at + n > old(len) then at + n else old(len)
    {
      hide Overlaid, Slice, Overwrite;
      if from < 0 || n < 0 || from + n > src.len || at < 0 || offset + at + n > capacity { return false; }
      if n > 0 {
        var piece := Slice(src.data[..], src.offset, src.offset + src.len)[from..from + n];
        if at <= len { OverlaidSlice(data[..], offset, len, at, piece); } else { BeyondSlice(data[..], offset, len, at, piece); }
        CopyIn(data, offset + at, piece);
      } else if at <= len {
        OverlaidNone(Contents(), at, src.Contents()[from..from + n]);
      } else {
        JoinSlices(data[..], offset, offset + len, offset + at);
      }
      if at + n > len { len := at + n; }
      return true;
    }

    /** buf_assign: the destination is emptied even if the content does not fit. */
    method Assign(src: Buffer) returns (ok: bool)
      requires Valid() && src.Valid() && src != this && (data != null ==> src.data != data)
      modifies this`offset, this`len, data
      ensures Valid()
      ensures var init := data != null && src.offset <= capacity;
        && ok == (init && src.len < BUF_SIZE_MAX && src.offset + src.len <= capacity)
        && View() == if !init then old(View())
                     else if ok then Deque(src.offset, src.Contents(), capacity - src.offset - src.len)
                     else Deque(src.offset, [], capacity - src.offset)
      ensures !ok && data != null ==> data[..] == old(data[..])
    {
      hide Slice, Overwrite;
      ok := Init(src.offset);
      if ok { ok := Copy(src); }
    }

    /** A second buffer over the same memory, as a C assignment makes it. */
    constructor Alias(src: Buffer)
      requires src.Valid()
      ensures Valid() && data == src.data && View() == src.View()
    {
      hide Slice, Overwrite;
      capacity, offset, len, data := src.capacity, src.offset, src.len, src.data;
    }

    /** buf_copy_excess: cut the source to n bytes and append the rest to this buffer. If the
        rest does not fit it is lost. */
    method CopyExcess(src: Buffer, n: int) returns (ok: bool)
      requires Valid() && src.Valid() && src != this && (data != null ==> src.data != data)
      modifies this`len, data, src`len
      ensures Valid() && src.Valid()
      ensures var cut := 0 <= n < old(src.len);
        && src.Contents() == (if cut then old(src.Contents())[..n] else old(src.Contents())) && src.offset == old(src.offset)
        && ok == (0 <= n && (cut ==> data != null && old(src.len) - n < BUF_SIZE_MAX && old(src.len) - n <= old(View()).back))
        && View() == if cut && ok then old(View()).Appended(old(src.Contents())[n..]) else old(View())
      ensures !(0 <= n < old(src.len) && ok) && data != null ==> data[..] == old(data[..])
    {
      hide Slice, Overwrite;
      if n < 0 { return false; }
      if src.len <= n { return true; }
      ok := CopyCut(src, n);
    }

    method CopyCut(src: Buffer, n: nat) returns (ok: bool)
      requires Valid() && src.Valid() && src != this && (data != null ==> src.data != data) && n < src.len
      modifies this`len, data, src`len
      ensures Valid() && src.Valid() && src.len == n && src.Contents() == old(src.Contents())[..n]
      ensures ok == (data != null && old(src.len) - n < BUF_SIZE_MAX && old(src.len) - n <= old(View()).back)
      ensures View() == if ok then old(View()).Appended(old(src.Contents())[n..]) else old(View())
      ensures !ok && data != null ==> data[..] == old(data[..])
    {
      hide Slice, Overwrite;
      var b := new Buffer.Alias(src);
      if src.data != null { TakeSlice(src.data[..], src.offset, src.offset + src.len, n); }
      src.len := n;
      ok := b.Advance(n);
      if !ok { return false; }
      ok := Copy(b);
    }

    /** buf_write_u8, buf_write_u16 and buf_write_u32: the number modulo its width, high
        byte first. */
    method WriteU8(x: int) returns (ok: bool)
      requires Valid()
      modifies this`len, data
      ensures Valid() && ok == (data != null && 1 <= old(View()).back)
      ensures View() == if ok then old(View()).Appended(BigEndian(x, 1)) else old(View())
      ensures ok ==> Contents() == old(Contents()) + [x % 256]
    {
      ok := Write([x % 0x100]);
      assert BigEndian(x / 0x100, 0) == [];
    }

    method WriteU16(x: int) returns (ok: bool)
      requires Valid()
      modifies this`len, data
      ensures Valid() && ok == (data != null && 2 <= old(View()).back)
      ensures View() == if ok then old(View()).Appended(BigEndian(x, 2)) else old(View())
      ensures ok ==> Contents() == old(Contents()) + [x / 0x100 % 256, x % 256]
    {
      var y := x % 0x1_0000;
      TwoBytes(x);
      Halves(x);
      ok := Write([y / 0x100, y % 0x100]);
    }

    method WriteU32(x: int) returns (ok: bool)
      requires Valid()
      modifies this`len, data
      ensures Valid() && ok == (data != null && 4 <= old(View()).back)
      ensures View() == if ok then old(View()).Appended(BigEndian(x, 4)) else old(View())
      ensures ok ==> Contents() == old(Contents()) + [x / 0x100_0000 % 256, x / 0x1_0000 % 256, x / 0x100 % 256, x % 256]
    {
      var y := x % 0x1_0000_0000;
      FourBytes(x);
      Quarters(x);
      ok := Write([y / 0x100_0000, y / 0x1_0000 % 0x100, y / 0x100 % 0x100, y % 0x100]);
    }

    /** buf_read_u8 and buf_read_u16: -1 if the buffer holds too little. */
    method ReadU8() returns (x: int)
      requires Valid()
      modifies this`offset, this`len
      ensures Valid() && (x == -1 <==> old(len) < 1)
      ensures View() == if x >= 0 then old(View()).Dropped(1) else old(View())
      ensures x != -1 ==> x == Number(old(Contents())[..1]) == old(Contents())[0]
    {
      if data == null || len < 1 { return -1; }
      x := data[offset];
      assert Contents()[..1] == [data[offset]];
      var _ := Advance(1);
    }

    method ReadU16() returns (x: int)
      requires Valid()
      modifies this`offset, this`len
      ensures Valid() && (x == -1 <==> old(len) < 2)
      ensures View() == if x >= 0 then old(View()).Dropped(2) else old(View())
      ensures x != -1 ==> x == Number(old(Contents())[..2])
      ensures x != -1 ==> x == 0x100 * (old(Contents())[0] as int) + old(Contents())[1] as int
    {
      var ok, b := Read(2);
      if !ok { return -1; }
      NumberTwo(b);
      return 0x100 * (b[0] as int) + b[1];
    }

    /** buf_read_u32: 0 and not good if the buffer holds too little. */
    method ReadU32() returns (x: int, good: bool)
      requires Valid()
      modifies this`offset, this`len
      ensures Valid() && good == (old(len) >= 4)
      ensures View() == if good then old(View()).Dropped(4) else old(View())
      ensures x == if good then Number(old(Contents())[..4]) else 0
      ensures good ==> (var c := old(Contents());
        x == 0x100_0000 * (c[0] as int) + 0x1_0000 * (c[1] as int) + 0x100 * (c[2] as int) + c[3] as int)
    {
      var ok, b := Read(4);
      if !ok { return 0, false; }
      NumberFour(b);
      return ((b[0] as int * 0x100 + b[1]) * 0x100 + b[2]) * 0x100 + b[3], true;
    }
  }

  /** The bytes with a piece written over them at position at, and longer if it ends later. */
  ghost function Overlaid(bytes: seq<Byte>, at: nat, piece: seq<Byte>): seq<Byte>
    requires at <= |bytes|
  {
    bytes[..at] + piece + if at + |piece| <= |bytes| then bytes[at + |piece|..] else []
  }

  lemma OverlaidMeaning(bytes: seq<Byte>, at: nat, piece: seq<Byte>, i: nat)
    requires at <= |bytes| && i < |Overlaid(bytes, at, piece)|
    ensures |Overlaid(bytes, at, piece)| == if at + |piece| > |bytes| then at + |piece| else |bytes|
    ensures Overlaid(bytes, at, piece)[i] == if at <= i < at + |piece| then piece[i - at] else bytes[i]
  {
  }

  lemma OverlaidNone(bytes: seq<Byte>, at: nat, piece: seq<Byte>)
    requires at <= |bytes| && piece == []
    ensures Overlaid(bytes, at, piece) == bytes
  {
  }

  lemma OverlaidSlice(m: seq<Byte>, offset: nat, len: nat, at: nat, piece: seq<Byte>)
    requires at <= len && offset + len <= |m| && offset + at + |piece| <= |m|
    ensures Slice(Overwrite(m, offset + at, piece), offset, offset + (if at + |piece| > len then at + |piece| else len))
      == Overlaid(Slice(m, offset, offset + len), at, piece)
  {
  }

  lemma BeyondSlice(m: seq<Byte>, offset: nat, len: nat, at: nat, piece: seq<Byte>)
    requires len < at && offset + at + |piece| <= |m|
    ensures Slice(Overwrite(m, offset + at, piece), offset, offset + at + |piece|)
      == Slice(m, offset, offset + len) + Slice(m, offset + len, offset + at) + piece
  {
    OverwriteBehind(m, offset, offset + at, piece);
    JoinSlices(m, offset, offset + len, offset + at);
  }

  /** memcpy into a buffer's memory. */
  method CopyIn(a: array<Byte>, p: nat, src: seq<Byte>)
    requires p + |src| <= a.Length
    modifies a
    ensures a[..] == Overwrite(old(a[..]), p, src)
  {
    hide Overwrite;
    ghost var m := a[..];
    assert src[..0] == [];
    OverwriteNothing(m, p);
    for i := 0 to |src|
      invariant a[..] == Overwrite(m, p, src[..i])
    {
      OverwriteNext(m, p, src, i);
      a[p + i] := src[i];
    }
    assert src[..|src|] == src;
  }

  lemma OverwriteNothing(m: seq<Byte>, p: int)
    requires 0 <= p <= |m|
    ensures Overwrite(m, p, []) == m
  {
  }

  lemma OverwriteNext(m: seq<Byte>, p: int, src: seq<Byte>, i: nat)
    requires i < |src| && 0 <= p && p + |src| <= |m|
    ensures Overwrite(m, p, src[..i])[p + i := src[i]] == Overwrite(m, p, src[..i + 1])
  {
  }

  // ---- numbers in network order

  /** The n low bytes of x, high byte first. */
  ghost function BigEndian(x: int, n: nat): (s: seq<Byte>)
    ensures |s| == n
    decreases n
  {
    if n == 0 then [] else BigEndian(x / 256, n - 1) + [x % 256]
  }

  ghost function Number(s: seq<Byte>): (x: nat) {
    if s == [] then 0 else Number(s[..|s| - 1]) * 256 + s[|s| - 1]
  }

  lemma OneByte(x: int)
    ensures BigEndian(x, 1) == [x % 256]
  {
    assert BigEndian(x / 256, 0) == [];
  }

  lemma TwoBytes(x: int)
    ensures var y := x % 0x1_0000; BigEndian(x, 2) == [y / 0x100, y % 0x100]
  {
    OneByte(x / 256);
    Halves(x);
    assert BigEndian(x, 2) == BigEndian(x / 256, 1) + [x % 256];
  }

  lemma Halves(x: int)
    ensures x % 0x1_0000 / 0x100 == x / 0x100 % 0x100 && x % 0x1_0000 % 0x100 == x % 0x100
  {
    ModSplit(x, 0x100);
  }

  lemma FourBytes(x: int)
    ensures var y := x % 0x1_0000_0000;
      BigEndian(x, 4) == [y / 0x100_0000, y / 0x1_0000 % 0x100, y / 0x100 % 0x100, y % 0x100]
  {
    var h := x / 0x1_0000;
    assert h == x / 256 / 256;
    assert BigEndian(x, 4) == BigEndian(x / 256, 3) + [x % 256];
    assert BigEndian(x / 256, 3) == BigEndian(h, 2) + [x / 256 % 256];
    TwoBytes(h);
    TwoBytes(x);
    LowHalves(x);
  }

  lemma LowHalves(x: int)
    ensures var y, hi, lo := x % 0x1_0000_0000, x / 0x1_0000 % 0x1_0000, x % 0x1_0000;
      && y / 0x100_0000 == hi / 0x100 && y / 0x1_0000 % 0x100 == hi % 0x100
      && y / 0x100 % 0x100 == lo / 0x100 && y % 0x100 == lo % 0x100
  {
    var y, hi, lo := x % 0x1_0000_0000, x / 0x1_0000 % 0x1_0000, x % 0x1_0000;
    assert y == hi * 0x1_0000 + lo by {
      assert x == (x / 0x1_0000 / 0x1_0000) * 0x1_0000_0000 + hi * 0x1_0000 + lo;
    }
    Places(y, hi / 0x100, hi % 0x100, lo / 0x100, lo % 0x100);
  }

  lemma Places(y: int, a: nat, b: nat, c: nat, d: nat)
    requires a < 256 && b < 256 && c < 256 && d < 256 && y == a * 0x100_0000 + b * 0x1_0000 + c * 0x100 + d
    ensures y / 0x100_0000 == a && y / 0x1_0000 % 0x100 == b && y / 0x100 % 0x100 == c && y % 0x100 == d
  {
    assert y / 0x1_0000 == a * 0x100 + b;
    assert y / 0x100 == a * 0x1_0000 + b * 0x100 + c;
  }

  lemma Quarters(x: int)
    ensures var y := x % 0x1_0000_0000;
      && y / 0x100_0000 == x / 0x100_0000 % 256 && y / 0x1_0000 % 0x100 == x / 0x1_0000 % 256
      && y / 0x100 % 0x100 == x / 0x100 % 256 && y % 0x100 == x % 256
  {
    LowHalves(x);
    Halves(x / 0x1_0000);
    Halves(x);
  }

  lemma NumberTwo(s: seq<Byte>)
    requires |s| == 2
    ensures Number(s) == 0x100 * (s[0] as int) + s[1]
  {
    assert s[..1][..0] == [];
    assert Number(s[..1]) == s[0];
  }

  lemma NumberFour(s: seq<Byte>)
    requires |s| == 4
    ensures Number(s) == ((s[0] as int * 0x100 + s[1]) * 0x100 + s[2]) * 0x100 + s[3]
  {
    NumberTwo(s[..2]);
    assert s[..3][..2] == s[..2];
    assert Number(s[..3]) == Number(s[..2]) * 256 + s[2];
  }

  ghost function Width256(n: nat): (p: nat)
    ensures p > 0
  {
    if n == 0 then 1 else 256 * Width256(n - 1)
  }

  /** Reading back gives the number modulo its width. */
  lemma {:induction false} NumberOfBigEndian(x: int, n: nat)
    ensures Number(BigEndian(x, n)) == x % Width256(n)
    decreases n
  {
    if n > 0 {
      NumberOfBigEndian(x / 256, n - 1);
      var s := BigEndian(x, n);
      assert s[..n - 1] == BigEndian(x / 256, n - 1);
      ModSplit(x, Width256(n - 1));
    }
  }

  lemma ModSplit(x: int, w: nat)
    requires w > 0
    ensures x % (256 * w) == x / 256 % w * 256 + x % 256
  {
    var q := x / 256 / w;
    var r := x / 256 % w * 256 + x % 256;
    assert x == q * (256 * w) + r;
    ModUnique(x, 256 * w, q, r);
  }

  lemma ModUnique(x: int, m: nat, q: int, r: int)
    requires m > 0 && x == q * m + r && 0 <= r < m
    ensures x % m == r
  {
    var d := x / m - q;
    assert d * m == r - x % m;
    if d > 0 {
      AtLeastOnce(d, m);
      assert false;
    } else if d < 0 {
      AtLeastOnce(-d, m);
      assert false;
    }
  }

  lemma AtLeastOnce(d: int, m: int)
    requires d > 0 && m > 0
    ensures d * m >= m
  {
    assert (d - 1) * m >= 0;
  }
}
