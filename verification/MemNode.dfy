/**
 Nodes of the in-memory file system: a directory, or a file with its access modes.
 */
module MemNodeModule {
  import opened Arith
  import opened FileModule

  const S_IRUSR: nat := 0x4
  const S_IWUSR: nat := 0x2

  datatype FileType = Directory | Regular

  /** What a node holds. */
  datatype Node = Node(ftype: FileType, modes: nat, contents: seq<Byte>)

  /** The bit is set. */
  predicate Has(bits: nat, bit: nat)
    requires bit > 0
  {
    (bits / bit) % 2 == 1
  }

  /** Bits above and below do not matter; every number is of one of these two forms. */
  lemma HasBit(high: nat, low: nat, bit: nat)
    requires low < bit
    ensures Has(bit * (2 * high + 1) + low, bit) && !Has(bit * (2 * high) + low, bit)
  {
    DivUnique(bit, 2 * high + 1, low);
    DivUnique(bit, 2 * high, low);
  }

  predicate Readable(n: Node) {
    n.ftype.Regular? && Has(n.modes, S_IRUSR)
  }

  predicate Writable(n: Node) {
    n.ftype.Regular? && Has(n.modes, S_IWUSR)
  }

  /** The bytes a read of at most `len` bytes at `offset` returns: as many as there are, up to `len`. */
  function Slice(c: seq<Byte>, offset: nat, len: nat): (r: seq<Byte>)
    ensures |r| == if offset >= |c| then 0 else if |c| - offset <= len then |c| - offset else len
    ensures forall i :: 0 <= i < |r| ==> r[i] == c[offset + i]
  {
    if offset > |c| then [] else if |c| - offset <= len then c[offset..] else c[offset..offset + len]
  }

  /** Reading on from where a read stopped continues it, also at the end of the file. */
  lemma SliceJoin(c: seq<Byte>, offset: nat, m: nat, n: nat)
    ensures Slice(c, offset, m) + Slice(c, offset + |Slice(c, offset, m)|, n) == Slice(c, offset, m + n)
  {
  }

  lemma SliceNothing(c: seq<Byte>, offset: nat)
    ensures Slice(c, offset, 0) == []
  {
  }

  class MemNode {
    const ftype: FileType
    const file: File?

    ghost predicate Valid()
      reads file
    {
      ftype.Regular? ==> file != null && file.Valid()
    }

    /** What the node holds. */
    ghost function Abs(): Node
      reads file
      requires Valid()
    {
      if ftype.Directory? then Node(Directory, 0, []) else Node(Regular, file.modes, Contents(file.mcache))
    }

    constructor (modes: nat, ftype: FileType)
      ensures Valid() && this.ftype == ftype && (file != null ==> fresh(file))
      ensures Abs() == Node(ftype, if ftype.Regular? then modes else 0, [])
    {
      this.ftype := ftype;
      if ftype.Regular? {
        var f := new File(modes);
        this.file := f;
      } else {
        this.file := null;
      }
    }

    /** Write the whole buffer at `offset`: permission first, then memory. */
    method Write(buffer: seq<Byte>, offset: nat, memory: nat) returns (r: Result)
      requires Valid()
      modifies file
      ensures Valid()
      ensures r == Err(PermissionError) <==> !Writable(old(Abs()))
      ensures r == Ok(|buffer|) <==> Writable(old(Abs())) && Fits(old(Abs()).contents, offset + |buffer|, memory)
      ensures r.Ok? ==> r.value == |buffer|
      ensures r.Err? ==> r.error.PermissionError? || r.error.OutOfMemory?
      ensures r.Ok? ==> Abs() == old(Abs()).(contents := Written(old(Abs()).contents, offset, buffer))
      ensures r == Err(PermissionError) ==> Abs() == old(Abs())
      ensures r == Err(OutOfMemory) ==> Abs() == old(Abs()).(contents := Padded(old(Abs()).contents))
    {
      hide Contents, Written, Padded, Fits;
      if !ftype.Regular? || !Has(file.modes, S_IWUSR) {
        return Err(PermissionError);
      }
      assert buffer[..|buffer|] == buffer;
      r := file.WriteFile(buffer, |buffer|, offset, memory);
    }

    /**
     Read at most a buffer full from `offset`. The check for an invalid offset before the copy never
     fires: the offsets it compares were computed from the size just before.
     */
    method Read(buffer: array<Byte>, offset: nat) returns (r: Result)
      requires Valid()
      modifies buffer
      ensures r == Err(PermissionError) || r.Ok?
      ensures r.Err? <==> !Readable(old(Abs()))
      ensures r.Ok? ==> r.value == |Slice(old(Abs()).contents, offset, buffer.Length)|
      ensures r.Ok? ==> buffer[..] == Overlay(old(buffer[..]), 0, Slice(old(Abs()).contents, offset, buffer.Length))
      ensures r.Ok? ==> var size := |old(Abs()).contents|;
        r.value == if offset >= size then 0 else if size - offset <= buffer.Length then size - offset else buffer.Length
      ensures r.Ok? ==> forall i :: 0 <= i < r.value ==> buffer[i] == old(Abs()).contents[offset + i]
      ensures r.Ok? ==> forall i :: r.value <= i < buffer.Length ==> buffer[i] == old(buffer[i])
      ensures r.Err? ==> buffer[..] == old(buffer[..])
    {
      hide Contents;
      if !ftype.Regular? || !Has(file.modes, S_IRUSR) {
        return Err(PermissionError);
      }
      PackedIsLoose(file.mcache);
      var size := file.GetSize();
      if offset > size {
        return Ok(0);
      }
      var bytes := if size - offset <= buffer.Length then size - offset else buffer.Length;
      var newOffset := offset + bytes;
      if bytes == 0 {
        return Ok(0);
      }
      var size' := file.GetSize();
      if offset >= newOffset || newOffset > size' {
        return Err(InvalidOffset);
      }
      var copied := file.ReadFile(buffer, offset, newOffset);
      return Ok(copied);
    }

    method Truncate() returns (r: Result)
      requires Valid()
      modifies file
      ensures Valid()
      ensures r.Err? <==> !Writable(old(Abs()))
      ensures r.Err? ==> r == Err(PermissionError) && Abs() == old(Abs())
      ensures r.Ok? ==> Abs() == old(Abs()).(contents := [])
    {
      if !ftype.Regular? || !Has(file.modes, S_IWUSR) {
        return Err(PermissionError);
      }
      file.FileTruncate();
      return Ok(0);
    }
  }
}
