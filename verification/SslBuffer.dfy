/**
 The sliding byte buffer of ssl/ssl_buffer.cc: data is appended at the end, consumed
 from the front, and the memory is replaced when the capacity does not suffice.
 */
module SslBuffers {
  import opened Octets

  const ALIGN_PAYLOAD: nat := 8
  const MAX_CAP: nat := 0xffff

  class SslBuffer {
    var buf: array?<byte>
    var offset: nat
    var size: nat
    var cap: nat

    ghost function Repr(): set<object>
      reads this
    {
      if buf == null then {this} else {this, buf}
    }

    ghost function Memory(): (s: seq<byte>)
      reads `buf, buf
      ensures |s| == if buf == null then 0 else buf.Length
    {
      if buf == null then [] else buf[..]
    }

    ghost predicate Valid()
      reads this
    {
      && size <= cap <= MAX_CAP
      && offset + cap <= if buf == null then 0 else buf.Length
    }

    ghost function Contents(): (s: seq<byte>)
      requires Valid()
      reads this, buf
      ensures |s| == size
    {
      Memory()[offset..offset + size]
    }

    /** The room behind the contents, which a caller fills before DidWrite. */
    ghost function Remaining(): (s: seq<byte>)
      requires Valid()
      reads this, buf
      ensures |s| == cap - size
    {
      Memory()[offset + size..offset + cap]
    }

    /** The bytes that data() and size() describe. */
    method Data() returns (s: seq<byte>)
      requires Valid()
      ensures s == Contents()
    {
      s := if buf == null then [] else buf[..][offset..offset + size];
    }

    constructor ()
      ensures Valid() && Contents() == [] && buf == null
    {
      buf, offset, size, cap := null, 0, 0, 0;
    }

    method Clear()
      modifies this
      ensures Valid() && Contents() == [] && buf == null
    {
      buf, offset, size, cap := null, 0, 0, 0;
    }

    /**
     `address` is where the allocator would place new memory; it only decides how the
     contents are aligned.
     */
    method EnsureCap(headerLen: nat, newCap: nat, address: nat) returns (ok: bool)
      requires Valid()
      modifies this
      ensures Valid()
      ensures ok == (newCap <= MAX_CAP)
      ensures Contents() == old(Contents())
      ensures cap == if ok && old(cap) < newCap then newCap else old(cap)
      ensures fresh(Repr() - old(Repr()))
      ensures buf != old(buf) ==>
        buf != null && fresh(buf) && offset < ALIGN_PAYLOAD && (address + offset + headerLen) % ALIGN_PAYLOAD == 0
    {
      hide Contents, Memory;
      if newCap > MAX_CAP {
        return false;
      }
      if cap >= newCap {
        return true;
      }
      Reallocate((0 - headerLen - address) % ALIGN_PAYLOAD, newCap);
      return true;
    }

    /** Moves the contents to position `newOffset` of new memory. */
    method Reallocate(newOffset: nat, newCap: nat)
      requires Valid() && newOffset < ALIGN_PAYLOAD && cap < newCap <= MAX_CAP
      modifies this
      ensures Valid() && Contents() == old(Contents())
      ensures offset == newOffset && cap == newCap && size == old(size) && buf != null && fresh(buf)
    {
      hide Patched;
      var newBuf := new byte[newCap + ALIGN_PAYLOAD - 1](_ => 0);
      if buf != null {
        var contents := Data();
        ghost var was := newBuf[..];
        Copy(newBuf, newOffset, contents);
        PatchedParts(was, newOffset, contents, newOffset, newOffset + size);
      }
      buf, offset, cap := newBuf, newOffset, newCap;
    }

    method CopyBehind(data: seq<byte>)
      requires Valid() && |data| <= cap - size
      modifies buf
      ensures Memory() == Patched(old(Memory()), offset + size, data)
    {
      if buf != null {
        Copy(buf, offset + size, data);
      }
    }

    /** Copies `data` to the front of the remaining room, without counting it as contents. */
    method Fill(data: seq<byte>)
      requires Valid() && |data| <= cap - size
      modifies buf
      ensures Valid() && Contents() == old(Contents())
      ensures Remaining() == data + old(Remaining())[|data|..]
    {
      hide Memory, Patched;
      ghost var n, was := offset + size, Memory();
      CopyBehind(data);
      PatchedRoom(was, offset, n, data, offset + cap);
    }

    lemma PatchedRoom(was: seq<byte>, a: nat, n: nat, data: seq<byte>, c: nat)
      requires a <= n && n + |data| <= c <= |was|
      ensures var now := Patched(was, n, data);
        now[a..n] == was[a..n] && now[n..c] == data + was[n..c][|data|..]
    {
      hide Patched;
      PatchedParts(was, n, data, a, c);
      SplitSlice(was, n, n + |data|, c);
      SplitSlice(Patched(was, n, data), n, n + |data|, c);
    }

    method DidWrite(newSize: nat)
      requires Valid() && newSize <= cap - size
      modifies this
      ensures Valid() && cap == old(cap) && buf == old(buf)
      ensures Contents() == old(Contents()) + old(Remaining())[..newSize]
      ensures Remaining() == old(Remaining())[newSize..]
    {
      hide Memory;
      ghost var n, memory := offset + size, Memory();
      SplitSlice(memory, offset, n, n + newSize);
      SplitSlice(memory, n, n + newSize, offset + cap);
      size := size + newSize;
      assert Memory() == memory;
    }

    method Consume(len: nat)
      requires Valid() && len <= size
      modifies this
      ensures Valid() && buf == old(buf)
      ensures Contents() == old(Contents())[len..]
      ensures Remaining() == old(Remaining())
    {
      hide Memory;
      ghost var memory := Memory();
      SplitSlice(memory, offset, offset + len, offset + size);
      offset := offset + len;
      size := size - len;
      cap := cap - len;
      assert Memory() == memory;
    }

    method DiscardConsumed()
      requires Valid()
      modifies this
      ensures Valid() && Contents() == old(Contents())
      ensures if Contents() == [] then buf == null
              else buf == old(buf) && Remaining() == old(Remaining())
    {
      if size == 0 {
        Clear();
      }
    }

    /** Appends `data` the way every caller does: copy it into the room, then count it. */
    method Append(data: seq<byte>)
      requires Valid() && |data| <= cap - size
      modifies this, buf
      ensures Valid() && Contents() == old(Contents()) + data
      ensures cap == old(cap) && buf == old(buf)
    {
      Fill(data);
      DidWrite(|data|);
    }
  }
}
