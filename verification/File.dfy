/**
 In-memory files: a list of page-sized buffers, of which only the last may be partly filled.

 What a file holds is the concatenation of its buffers. Running out of memory is a parameter: the
 number of allocations that still succeed. A buffer is allocated with the capacity of a page, so
 that growing it within a page allocates nothing.
 */
module FileModule {
  import opened Arith

  type Byte = x: int | 0 <= x < 256

  datatype Option<+T> = None | Some(value: T)

  datatype Error = OutOfMemory | PermissionError | InvalidOffset

  datatype Result = Ok(value: nat) | Err(error: Error)

  const BASE_PAGE_SIZE: nat := 4096

  // ----- contents

  ghost function Contents(m: seq<seq<Byte>>): (c: seq<Byte>) {
    if m == [] then [] else Contents(m[..|m| - 1]) + m[|m| - 1]
  }

  function Zeros(n: nat): (z: seq<Byte>)
    ensures |z| == n
  {
    seq(n, i => 0)
  }

  /** `c` with `data` in place of what was at `offset`. */
  function Overlay(c: seq<Byte>, offset: nat, data: seq<Byte>): (r: seq<Byte>)
    requires offset + |data| <= |c|
    ensures |r| == |c|
  {
    c[..offset] + data + c[offset + |data|..]
  }

  function Grown(c: seq<Byte>, size: nat): (r: seq<Byte>)
    ensures |r| == if size > |c| then size else |c|
  {
    if size > |c| then c + Zeros(size - |c|) else c
  }

  /** What a file holds after writing `data` at `offset`: zeros up to the offset, then the data. */
  function Written(c: seq<Byte>, offset: nat, data: seq<Byte>): (r: seq<Byte>)
    ensures |r| == if offset + |data| > |c| then offset + |data| else |c|
  {
    Overlay(Grown(c, offset + |data|), offset, data)
  }

  /** What a failed write leaves: its first step fills the last page up with zeros. */
  function Padded(c: seq<Byte>): (r: seq<Byte>)
    ensures c <= r && |r| % BASE_PAGE_SIZE == 0 && |r| < |c| + BASE_PAGE_SIZE
    ensures forall i :: |c| <= i < |r| ==> r[i] == 0
  {
    assert |c| == BASE_PAGE_SIZE * (|c| / BASE_PAGE_SIZE) + |c| % BASE_PAGE_SIZE;
    if |c| % BASE_PAGE_SIZE == 0 then c else c + Zeros(BASE_PAGE_SIZE - |c| % BASE_PAGE_SIZE)
  }

  /** All buffers are full, but for the last one, which is not empty. */
  ghost predicate Packed(m: seq<seq<Byte>>) {
    && (forall i :: 0 <= i < |m| - 1 ==> |m[i]| == BASE_PAGE_SIZE)
    && (m != [] ==> 0 < |m[|m| - 1]| <= BASE_PAGE_SIZE)
  }

  /** The same, with empty buffers allowed at the end. */
  ghost predicate Loose(m: seq<seq<Byte>>) {
    && (forall i :: 0 <= i < |m| ==> |m[i]| <= BASE_PAGE_SIZE)
    && (forall i, j :: 0 <= i < j < |m| && |m[j]| > 0 ==> |m[i]| == BASE_PAGE_SIZE)
  }

  lemma {:induction false} FullLength(m: seq<seq<Byte>>)
    requires forall i :: 0 <= i < |m| ==> |m[i]| == BASE_PAGE_SIZE
    ensures |Contents(m)| == |m| * BASE_PAGE_SIZE
  {
    if m != [] {
      FullLength(m[..|m| - 1]);
    }
  }

  lemma PackedLength(m: seq<seq<Byte>>)
    requires Packed(m)
    ensures |Contents(m)| == if m == [] then 0 else (|m| - 1) * BASE_PAGE_SIZE + |m[|m| - 1]|
  {
    if m != [] {
      FullLength(m[..|m| - 1]);
    }
  }

  lemma {:induction false} ContentsAppend(m: seq<seq<Byte>>, n: seq<seq<Byte>>)
    ensures Contents(m + n) == Contents(m) + Contents(n)
  {
    if n == [] {
      assert m + n == m;
    } else {
      assert (m + n)[..|m + n| - 1] == m + n[..|n| - 1];
      ContentsAppend(m, n[..|n| - 1]);
    }
  }

  lemma SingleContents(b: seq<Byte>)
    ensures Contents([b]) == b
  {
    assert [b][..0] == [];
  }

  /** Replacing a buffer by one of the same length replaces that part of the contents. */
  lemma ContentsUpdate(m: seq<seq<Byte>>, k: nat, b: seq<Byte>)
    requires Packed(m) && k < |m| && |b| == |m[k]|
    ensures Packed(m[k := b])
    ensures k * BASE_PAGE_SIZE + |b| <= |Contents(m)|
    ensures Contents(m)[k * BASE_PAGE_SIZE..k * BASE_PAGE_SIZE + |b|] == m[k]
    ensures Contents(m[k := b]) == Overlay(Contents(m), k * BASE_PAGE_SIZE, b)
  {
    var before, after := m[..k], m[k + 1..];
    assert m == before + ([m[k]] + after);
    assert m[k := b] == before + ([b] + after);
    ContentsAppend(before, [m[k]] + after);
    ContentsAppend([m[k]], after);
    ContentsAppend(before, [b] + after);
    ContentsAppend([b], after);
    SingleContents(m[k]);
    SingleContents(b);
    FullLength(before);
  }

  /** The room in the last buffer is what the last page lacks. */
  lemma PaddedIsFull(m: seq<seq<Byte>>)
    requires Packed(m)
    ensures |Padded(Contents(m))| == |m| * BASE_PAGE_SIZE
  {
    PackedLength(m);
    if m != [] {
      var last := |m[|m| - 1]|;
      if last == BASE_PAGE_SIZE {
        DivUnique(BASE_PAGE_SIZE, |m|, 0);
      } else {
        DivUnique(BASE_PAGE_SIZE, |m| - 1, last);
      }
    }
  }

  /** Replacing the last buffer by a longer one. */
  lemma ContentsExtend(m: seq<seq<Byte>>, extra: seq<Byte>)
    requires Packed(m) && m != [] && |m[|m| - 1]| + |extra| <= BASE_PAGE_SIZE
    ensures var m' := m[|m| - 1 := m[|m| - 1] + extra]; Packed(m') && Contents(m') == Contents(m) + extra
  {
    var m' := m[|m| - 1 := m[|m| - 1] + extra];
    assert m'[..|m| - 1] == m[..|m| - 1];
  }

  /** The room in the last buffer. */
  function Free(m: seq<seq<Byte>>): (n: int) {
    if m == [] then 0 else BASE_PAGE_SIZE - |m[|m| - 1]|
  }

  /** Growing within the last page. */
  function Stretched(m: seq<seq<Byte>>, n: nat): seq<seq<Byte>> {
    if m == [] then [] else m[|m| - 1 := m[|m| - 1] + Zeros(n)]
  }

  lemma StretchedContents(m: seq<seq<Byte>>, n: nat)
    requires Packed(m) && n <= Free(m)
    ensures Packed(Stretched(m, n)) && Contents(Stretched(m, n)) == Grown(Contents(m), |Contents(m)| + n)
    ensures |Padded(Contents(m))| == |Contents(m)| + Free(m)
    ensures n == Free(m) ==> Contents(Stretched(m, n)) == Padded(Contents(m)) && Free(Stretched(m, n)) == 0
  {
    PackedLength(m);
    PaddedIsFull(m);
    if m != [] {
      ContentsExtend(m, Zeros(n));
    }
  }

  /** New buffers behind full ones. */
  lemma AppendedContents(m: seq<seq<Byte>>, n: seq<seq<Byte>>, c: seq<Byte>, size: nat)
    requires Packed(m) && Free(m) == 0 && Packed(n) && n != []
    requires Contents(m) == Padded(c) && size > |Padded(c)| && Contents(n) == Zeros(size - |Padded(c)|)
    ensures Packed(m + n) && Contents(m + n) == Grown(c, size)
  {
    ContentsAppend(m, n);
  }

  /** Pages of zeros. */
  lemma {:induction false} ContentsZeros(m: seq<seq<Byte>>)
    requires forall i :: 0 <= i < |m| ==> m[i] == Zeros(BASE_PAGE_SIZE)
    ensures Contents(m) == Zeros(|m| * BASE_PAGE_SIZE)
  {
    if m != [] {
      ContentsZeros(m[..|m| - 1]);
    }
  }

  // ----- arithmetic of buffers

  function Ceil(bytes: nat, bufferSize: nat): (n: nat)
    requires bufferSize > 0
    ensures bytes <= n * bufferSize < bytes + bufferSize
  {
    var val := bytes / bufferSize;
    assert bytes == bufferSize * val + bytes % bufferSize;
    if bytes > val * bufferSize then val + 1 else val
  }

  function OffsetToBuffernum(offset: nat, bufferSize: nat): (n: nat)
    requires bufferSize > 0
    ensures n * bufferSize <= offset < (n + 1) * bufferSize
  {
    assert offset == bufferSize * (offset / bufferSize) + offset % bufferSize;
    offset / bufferSize
  }

  /** Allocations a growing file needs once its last page is full: the list, its pages, and appending them. */
  function Needed(c: seq<Byte>, size: nat): (n: nat)
    requires size > |Padded(c)|
    ensures n >= 3 && (n - 3) * BASE_PAGE_SIZE < size - |Padded(c)| <= (n - 2) * BASE_PAGE_SIZE
  {
    2 + Ceil(size - |Padded(c)|, BASE_PAGE_SIZE)
  }

  // ----- files

  class File {
    var mcache: seq<seq<Byte>>
    const modes: nat

    ghost predicate Valid()
      reads this
    {
      Packed(mcache)
    }

    constructor (modes: nat)
      ensures Valid() && Contents(mcache) == [] && this.modes == modes
    {
      mcache := [];
      this.modes := modes;
    }

    /** The size counts the bytes held; empty buffers at the end are looked through. */
    method GetSize() returns (size: nat)
      requires Loose(mcache)
      ensures size == |Contents(mcache)|
    {
      var count := |mcache|;
      if count == 0 {
        return 0;
      } else if count == 1 {
        SingleContents(mcache[0]);
        assert mcache == [mcache[0]];
        return |mcache[count - 1]|;
      } else if |mcache[count - 1]| == 0 {
        size := 0;
        var i := 0;
        while i < count && |mcache[i]| != 0
          invariant 0 <= i <= count
          invariant size == |Contents(mcache[..i])|
        {
          assert mcache[..i + 1][..i] == mcache[..i];
          size := size + |mcache[i]|;
          i := i + 1;
        }
        NothingAfter(mcache, i);
      } else {
        assert Packed(mcache) by {
          assert |mcache[count - 1]| > 0;
        }
        PackedLength(mcache);
        return (count - 1) * BASE_PAGE_SIZE + |mcache[count - 1]|;
      }
    }

    /**
     Grow to `newLen` bytes of which the new ones are zero. It fails exactly when the pages beyond
     the last one cannot be allocated, and then the last page has been filled up all the same.
     */
    method IncreaseFileSize(currLen: nat, newLen: nat, memory: nat) returns (ok: bool)
      requires Valid() && currLen == |Contents(mcache)| && (newLen == 0 || newLen >= currLen)
      modifies this`mcache
      ensures Valid()
      ensures ok <==> newLen <= |Padded(old(Contents(mcache)))| || memory >= Needed(old(Contents(mcache)), newLen)
      ensures Contents(mcache) == if ok then Grown(old(Contents(mcache)), newLen) else Padded(old(Contents(mcache)))
    {
      if newLen == 0 {
        return true;
      }
      hide Contents;
      ghost var c := Contents(mcache);
      var free := Free(mcache);
      var addNew := newLen - currLen;
      StretchedContents(mcache, if addNew <= free then addNew else free);
      if addNew <= free {
        // No new buffer is needed
        mcache := Stretched(mcache, addNew);
        return true;
      }
      mcache := Stretched(mcache, free);
      PackedLength(mcache);
      var count := Ceil(addNew - free, BASE_PAGE_SIZE);
      var buffers := NewBuffers(count, newLen, currLen + free, memory);
      if buffers.None? || memory < count + 2 {
        return false;
      }
      AppendedContents(mcache, buffers.value, c, newLen);
      mcache := mcache + buffers.value;
      ok := true;
    }

    /** Copy the bytes from `startOffset` to `endOffset` to the front of the user's slice. */
    method ReadFile(userSlice: array<Byte>, startOffset: nat, endOffset: nat) returns (copied: nat)
      requires Valid() && startOffset <= endOffset <= |Contents(mcache)| && endOffset - startOffset <= userSlice.Length
      modifies userSlice
      ensures copied == endOffset - startOffset
      ensures userSlice[..] == Overlay(old(userSlice[..]), 0, Contents(mcache)[startOffset..endOffset])
    {
      hide Contents, Overlay;
      ghost var c, was := Contents(mcache), userSlice[..];
      var bufferNum: nat := OffsetToBuffernum(startOffset, BASE_PAGE_SIZE);
      var offsetInBuffer: nat := startOffset - bufferNum * BASE_PAGE_SIZE;
      var len := endOffset - startOffset;
      copied := 0;
      OverlayNothing(was, 0);
      assert c[startOffset..startOffset] == [];
      while copied < len
        invariant copied <= len
        invariant Here(startOffset + copied, bufferNum, offsetInBuffer) || copied == len
        invariant userSlice[..] == Overlay(was, 0, c[startOffset..startOffset + copied])
      {
        Locate(mcache, startOffset + copied, bufferNum, offsetInBuffer);
        var useful := |mcache[bufferNum]| - offsetInBuffer;
        var n := if len - copied >= useful then useful else len - copied;
        Chunk(mcache, bufferNum, offsetInBuffer, n);
        CopyFromSlice(userSlice, copied, mcache[bufferNum][offsetInBuffer..offsetInBuffer + n]);
        OverlayTwice(was, 0, c[startOffset..startOffset + copied], c[startOffset + copied..startOffset + copied + n]);
        assert c[startOffset..startOffset + copied] + c[startOffset + copied..startOffset + copied + n]
            == c[startOffset..startOffset + copied + n];
        copied := copied + n;
        bufferNum, offsetInBuffer := bufferNum + 1, 0;
      }
    }

    /**
     Write the first `len` bytes of the user's slice at `startOffset`. Zeros fill the gap when the
     offset lies behind the end, even for an empty write. A write that runs out of memory still
     leaves the last page filled up with zeros.
     */
    method WriteFile(userSlice: seq<Byte>, len: nat, startOffset: nat, memory: nat) returns (r: Result)
      requires Valid() && len <= |userSlice|
      modifies this`mcache
      ensures Valid()
      ensures r == Ok(len) || r == Err(OutOfMemory)
      ensures r.Ok? <==> Fits(old(Contents(mcache)), startOffset + len, memory)
      ensures r.Ok? ==> Contents(mcache) == Written(old(Contents(mcache)), startOffset, userSlice[..len])
      ensures r.Err? ==> Contents(mcache) == Padded(old(Contents(mcache)))
    {
      hide Contents, Overlay, Padded, Needed;
      PackedIsLoose(mcache);
      var currLen := GetSize();
      var newLen := startOffset + len;
      if newLen > 0 && newLen > currLen {
        var ok := IncreaseFileSize(currLen, newLen, memory);
        if !ok {
          return Err(OutOfMemory);
        }
      }
      Copy(userSlice, len, startOffset);
      return Ok(len);
    }

    /** The copying loop of a write into a file that is large enough. */
    method Copy(userSlice: seq<Byte>, len: nat, startOffset: nat)
      requires Valid() && len <= |userSlice| && startOffset + len <= |Contents(mcache)|
      modifies this`mcache
      ensures Valid() && Contents(mcache) == Overlay(old(Contents(mcache)), startOffset, userSlice[..len])
    {
      hide Contents, Overlay;
      ghost var c := Contents(mcache);
      var bufferNum: nat := OffsetToBuffernum(startOffset, BASE_PAGE_SIZE);
      var offsetInBuffer: nat := startOffset - bufferNum * BASE_PAGE_SIZE;
      var copied := 0;
      OverlayNothing(c, startOffset);
      assert userSlice[..0] == [];
      while copied < len
        invariant copied <= len && Valid() && |Contents(mcache)| == |c|
        invariant Here(startOffset + copied, bufferNum, offsetInBuffer) || copied == len
        invariant Contents(mcache) == Overlay(c, startOffset, userSlice[..copied])
      {
        Locate(mcache, startOffset + copied, bufferNum, offsetInBuffer);
        var useful := BASE_PAGE_SIZE - offsetInBuffer;
        var n := if len - copied >= useful then useful else len - copied;
        var data := userSlice[copied..copied + n];
        ChunkUpdate(mcache, bufferNum, offsetInBuffer, data);
        OverlayTwice(c, startOffset, userSlice[..copied], data);
        assert userSlice[..copied] + data == userSlice[..copied + n];
        mcache := mcache[bufferNum := Overlay(mcache[bufferNum], offsetInBuffer, data)];
        copied := copied + n;
        bufferNum, offsetInBuffer := bufferNum + 1, 0;
      }
    }

    method FileTruncate()
      modifies this`mcache
      ensures Valid() && Contents(mcache) == []
    {
      mcache := [];
    }
  }

  /** The file can grow to `size` bytes. */
  predicate Fits(c: seq<Byte>, size: nat, memory: nat) {
    size <= |Padded(c)| || memory >= Needed(c, size)
  }

  method CopyFromSlice(dst: array<Byte>, at: nat, src: seq<Byte>)
    requires at + |src| <= dst.Length
    modifies dst
    ensures dst[..] == Overlay(old(dst[..]), at, src)
  {
    forall i | 0 <= i < |src| {
      dst[at + i] := src[i];
    }
  }

  lemma OverlayNothing(c: seq<Byte>, offset: nat)
    requires offset <= |c|
    ensures Overlay(c, offset, []) == c
  {
  }

  /** Writing one piece after the other writes both. */
  lemma OverlayTwice(c: seq<Byte>, offset: nat, a: seq<Byte>, b: seq<Byte>)
    requires offset + |a| + |b| <= |c|
    ensures Overlay(Overlay(c, offset, a), offset + |a|, b) == Overlay(c, offset, a + b)
  {
  }

  /** The buffers that hold the zeros from `size` to `newLen`, or nothing when memory runs out. */
  method NewBuffers(count: nat, newLen: nat, size: nat, memory: nat) returns (r: Option<seq<seq<Byte>>>)
    requires size < newLen && size % BASE_PAGE_SIZE == 0 && count == Ceil(newLen - size, BASE_PAGE_SIZE)
    ensures r.Some? <==> memory >= count + 1
    ensures r.Some? ==> |r.value| == count && Packed(r.value) && Contents(r.value) == Zeros(newLen - size)
  {
    if memory == 0 {
      return None;
    }
    var left := memory - 1;
    var buffers: seq<seq<Byte>> := [];
    while |buffers| < count
      invariant |buffers| <= count && 0 <= left == memory - 1 - |buffers|
      invariant forall i :: 0 <= i < |buffers| ==> buffers[i] == Zeros(BASE_PAGE_SIZE)
    {
      if left == 0 {
        return None;
      }
      left := left - 1;
      buffers := buffers + [Zeros(BASE_PAGE_SIZE)];
    }
    ContentsZeros(buffers);
    if newLen % BASE_PAGE_SIZE != 0 {
      var sure := (count - 1) * BASE_PAGE_SIZE;
      var last := newLen - (size + sure);
      var front := buffers[..count - 1];
      assert buffers[..count - 1] == buffers[count - 1 := Zeros(last)][..count - 1];
      ContentsZeros(front);
      buffers := buffers[count - 1 := Zeros(last)];
    }
    r := Some(buffers);
  }

  /** The position `pos` is this offset in this buffer. */
  ghost predicate Here(pos: nat, bufferNum: nat, offset: nat) {
    pos == bufferNum * BASE_PAGE_SIZE + offset && offset < BASE_PAGE_SIZE
  }

  /** A position within the contents is within its buffer, and only the last buffer ends before its page does. */
  lemma Locate(m: seq<seq<Byte>>, pos: nat, bufferNum: nat, offset: nat)
    requires Packed(m) && pos < |Contents(m)| && Here(pos, bufferNum, offset)
    ensures bufferNum < |m| && offset < |m[bufferNum]|
    ensures |m[bufferNum]| == BASE_PAGE_SIZE || |Contents(m)| - pos == |m[bufferNum]| - offset
  {
    PackedLength(m);
  }

  lemma Chunk(m: seq<seq<Byte>>, bufferNum: nat, offset: nat, n: nat)
    requires Packed(m) && bufferNum < |m| && offset + n <= |m[bufferNum]|
    ensures var pos := bufferNum * BASE_PAGE_SIZE + offset;
      pos + n <= |Contents(m)| && Contents(m)[pos..pos + n] == m[bufferNum][offset..offset + n]
  {
    ContentsUpdate(m, bufferNum, m[bufferNum]);
    hide Contents;
    var base := bufferNum * BASE_PAGE_SIZE;
    assert Contents(m)[base + offset..base + offset + n] ==
      Contents(m)[base..base + |m[bufferNum]|][offset..offset + n];
  }

  lemma ChunkUpdate(m: seq<seq<Byte>>, bufferNum: nat, offset: nat, data: seq<Byte>)
    requires Packed(m) && bufferNum < |m| && offset + |data| <= |m[bufferNum]|
    ensures var m', pos := m[bufferNum := Overlay(m[bufferNum], offset, data)], bufferNum * BASE_PAGE_SIZE + offset;
      Packed(m') && pos + |data| <= |Contents(m)| && Contents(m') == Overlay(Contents(m), pos, data)
  {
    ContentsUpdate(m, bufferNum, m[bufferNum]);
    ContentsUpdate(m, bufferNum, Overlay(m[bufferNum], offset, data));
    hide Contents, Overlay;
    OverlayInner(Contents(m), bufferNum * BASE_PAGE_SIZE, m[bufferNum], offset, data);
  }

  /** Replacing part of a part. */
  lemma OverlayInner(c: seq<Byte>, base: nat, b: seq<Byte>, offset: nat, data: seq<Byte>)
    requires base + |b| <= |c| && c[base..base + |b|] == b && offset + |data| <= |b|
    ensures Overlay(c, base, Overlay(b, offset, data)) == Overlay(c, base + offset, data)
  {
    assert b[..offset] == c[base..base + offset];
    assert b[offset + |data|..] == c[base + offset + |data|..base + |b|];
    assert c[..base] + c[base..base + offset] == c[..base + offset];
    assert c[base + offset + |data|..base + |b|] + c[base + |b|..] == c[base + offset + |data|..];
  }

  lemma PackedIsLoose(m: seq<seq<Byte>>)
    requires Packed(m)
    ensures Loose(m)
  {
  }

  /** Buffers after an empty one add nothing. */
  lemma {:induction false} NothingAfter(m: seq<seq<Byte>>, i: nat)
    requires Loose(m) && i <= |m| && (i < |m| ==> m[i] == [])
    ensures |Contents(m)| == |Contents(m[..i])|
    decreases |m|
  {
    if i == |m| {
      assert m[..i] == m;
    } else {
      var rest := m[..|m| - 1];
      assert |m[i]| != BASE_PAGE_SIZE && m[|m| - 1] == [];
      assert rest[..i] == m[..i];
      NothingAfter(rest, i);
    }
  }

  // ----- what reading and writing mean together

  /** A write is read back, leaves the bytes around it alone, and fills a gap with zeros. */
  lemma WrittenBytes(c: seq<Byte>, offset: nat, data: seq<Byte>)
    ensures Written(c, offset, data)[offset..offset + |data|] == data
    ensures forall i :: 0 <= i < |Written(c, offset, data)| && !(offset <= i < offset + |data|) ==>
      Written(c, offset, data)[i] == if i < |c| then c[i] else 0
  {
  }

  /** Writes to separate ranges commute. */
  lemma WritesCommute(c: seq<Byte>, o1: nat, d1: seq<Byte>, o2: nat, d2: seq<Byte>)
    requires o1 + |d1| <= o2 || o2 + |d2| <= o1
    ensures Written(Written(c, o1, d1), o2, d2) == Written(Written(c, o2, d2), o1, d1)
  {
    var a, b := Written(Written(c, o1, d1), o2, d2), Written(Written(c, o2, d2), o1, d1);
    forall i | 0 <= i < |a| ensures a[i] == b[i] {
      WrittenByte(Written(c, o1, d1), o2, d2, i);
      WrittenByte(Written(c, o2, d2), o1, d1, i);
      WrittenByte(c, o1, d1, i);
      WrittenByte(c, o2, d2, i);
    }
  }

  /** The byte at `i` after a write, where there is nothing counted as zero. */
  lemma WrittenByte(c: seq<Byte>, offset: nat, data: seq<Byte>, i: nat)
    ensures ByteAt(Written(c, offset, data), i) ==
      if offset <= i < offset + |data| then data[i - offset] else ByteAt(c, i)
  {
  }

  function ByteAt(c: seq<Byte>, i: nat): Byte {
    if i < |c| then c[i] else 0
  }
}
