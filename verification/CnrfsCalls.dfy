/**
 What the operations of the file system node answer, and what programs see that use several of
 them: when each succeeds, that written bytes are read back, and that reading through a file
 returns all of it. The statements are about names, descriptors and bytes.
 */
module CnrfsCalls {
  import opened FileModule
  import opened MemNodeModule
  import opened Cnrfs
  import opened CnrfsIndex

  // ----- when an operation succeeds

  /** A descriptor through which the file it names may be written. */
  ghost predicate CanWrite(s: State, pid: nat, fd: nat) {
    GetFd(s, pid, fd).Some? &&
    var d := GetFd(s, pid, fd).value;
    Has(d.flags, O_WRONLY) && d.mnode in s.mnodes &&
    s.mnodes[d.mnode].ftype == Regular && Has(s.mnodes[d.mnode].modes, S_IWUSR)
  }

  /** Some descriptor of the process is free. */
  ghost predicate HasFree(s: State, pid: nat) {
    pid in s.procs && exists f :: 0 <= f < |s.procs[pid]| && s.procs[pid][f].None?
  }

  /** The operation is carried out. */
  ghost predicate Succeeds(s: State, op: Op) {
    match op
    case ProcessAdd(pid) => pid !in s.procs
    case ProcessRemove(pid) => pid in s.procs
    case FileOpen(pid, name, flags, modes) =>
      && HasFree(s, pid)
      && (if name in View(s)
          then Has(flags, O_TRUNC) ==> View(s)[name].ftype == Regular && Has(View(s)[name].modes, S_IWUSR)
          else Has(flags, O_CREAT))
    case FileWrite(pid, fd, _, _, _) => CanWrite(s, pid, fd)
    case FileClose(pid, fd) => GetFd(s, pid, fd).Some?
    case FileDelete(pid, name) => pid in s.procs && name in View(s)
    case FileRename(pid, oldname, newname) => pid in s.procs && oldname in View(s) && oldname != newname
    case MkDir(pid, name, _) => pid in s.procs && name !in View(s)
  }

  predicate Refusal(r: Response) {
    r.Failed? || r.Panic?
  }

  lemma OpenSucceeds(s: State, op: Op)
    requires Index(s) && op.FileOpen?
    ensures Refusal(Apply(s, op).1) <==> !Succeeds(s, op)
  {
    hide Has, Index, View, OthersKept;
    ViewKeys(s);
    if op.pid in s.procs {
      var fid := FirstFree(s.procs[op.pid]);
    }
  }

  /** Every operation, in every state: it succeeds exactly if this condition holds. */
  lemma SucceedsIff(s: State, op: Op)
    requires Index(s)
    ensures Refusal(Apply(s, op).1) <==> !Succeeds(s, op)
  {
    hide Has, View, ApplyOpen;
    ViewKeys(s);
    if op.FileOpen? {
      OpenSucceeds(s, op);
    } else if op.FileRename? && op.oldname in s.files && op.oldname != op.newname {
      RenameIndex(s, op.oldname, op.newname);
    }
  }

  // ----- and why it does not

  /** A descriptor open for writing whose file is gone. */
  ghost predicate Dangling(s: State, pid: nat, fd: nat) {
    GetFd(s, pid, fd).Some? && Has(GetFd(s, pid, fd).value.flags, O_WRONLY) &&
    GetFd(s, pid, fd).value.mnode !in s.mnodes
  }

  /** A write at the end of a file. */
  ghost predicate Appends(s: State, op: Op)
    requires op.FileWrite? && GetFd(s, op.pid, op.fd).Some?
  {
    op.offset.Cursor? && Has(GetFd(s, op.pid, op.fd).value.flags, O_APPEND)
  }

  ghost predicate MayOpen(s: State, op: Op)
    requires op.FileOpen?
  {
    op.name in View(s) || Has(op.flags, O_CREAT)
  }

  /** What is wrong with an operation that is answered with this error. */
  ghost predicate Wrong(s: State, op: Op, e: KError) {
    match e
    case FileDescForPidAlreadyAdded => op.ProcessAdd? && op.pid in s.procs
    case NoFileDescForPid => op.ProcessRemove? && op.pid !in s.procs
    case NoProcessFoundForPid => (op.FileDelete? || op.FileRename? || op.MkDir?) && op.pid !in s.procs
    case InvalidFileDescriptor => op.FileClose? && op.pid in s.procs && GetFd(s, op.pid, op.fd).None?
    case AlreadyPresent => op.MkDir? && op.pid in s.procs && op.name in View(s)
    case NotSupported => op.FileOpen? && op.pid in s.procs && !HasFree(s, op.pid) && MayOpen(s, op)
    case InvalidFile =>
      || (op.FileDelete? && op.pid in s.procs && op.name !in View(s))
      || (op.FileRename? && op.pid in s.procs && (op.oldname !in View(s) || op.oldname == op.newname))
      || (op.FileWrite? && Dangling(s, op.pid, op.fd) && !Appends(s, op))
    case NotPermitted =>
      || (op.FileOpen? && !MayOpen(s, op))
      || (op.FileOpen? && HasFree(s, op.pid) && MayOpen(s, op) && !Succeeds(s, op))
      || (op.FileWrite? && op.pid in s.procs && op.fd < |s.procs[op.pid]| &&
        !CanWrite(s, op.pid, op.fd) && !Dangling(s, op.pid, op.fd))
    case NoMemory => false
  }

  /** The calling process or descriptor does not exist at all, or an append finds its file gone. */
  ghost predicate Panics(s: State, op: Op) {
    || (op.FileOpen? && op.pid !in s.procs && MayOpen(s, op))
    || (op.FileClose? && op.pid !in s.procs)
    || (op.FileWrite? && (op.pid !in s.procs || op.fd >= |s.procs[op.pid]|))
    || (op.FileWrite? && Dangling(s, op.pid, op.fd) && Appends(s, op))
  }

  lemma OpenRefused(s: State, op: Op, e: KError)
    requires Index(s) && op.FileOpen?
    ensures Apply(s, op).1 == Failed(e) <==> Wrong(s, op, e)
    ensures Apply(s, op).1 == Panic <==> Panics(s, op)
  {
    hide Has, Index, View, OthersKept;
    ViewKeys(s);
    if op.pid in s.procs {
      var fid := FirstFree(s.procs[op.pid]);
    }
  }

  lemma WriteRefused(s: State, op: Op, e: KError)
    requires op.FileWrite?
    ensures Apply(s, op).1 == Failed(e) <==> Wrong(s, op, e)
    ensures Apply(s, op).1 == Panic <==> Panics(s, op)
  {
    hide Has, View, Written;
  }

  lemma RenameRefused(s: State, op: Op, e: KError)
    requires Index(s) && op.FileRename?
    ensures Apply(s, op).1 == Failed(e) <==> Wrong(s, op, e)
    ensures Apply(s, op).1 != Panic
  {
    hide View, Index;
    ViewKeys(s);
    if op.oldname in s.files && op.oldname != op.newname {
      RenameIndex(s, op.oldname, op.newname);
    }
  }

  /** Every error, in every state: it is the answer exactly to the operations it describes. */
  lemma RefusedIff(s: State, op: Op, e: KError)
    requires Index(s)
    ensures Apply(s, op).1 == Failed(e) <==> Wrong(s, op, e)
    ensures Apply(s, op).1 == Panic <==> Panics(s, op)
  {
    hide Has, View, Index, ApplyOpen, ApplyWrite, FsRename, HasFree, CanWrite, Dangling;
    ViewKeys(s);
    if op.FileOpen? {
      OpenRefused(s, op, e);
    } else if op.FileWrite? {
      WriteRefused(s, op, e);
    } else if op.FileRename? {
      RenameRefused(s, op, e);
    }
  }

  // ----- reading

  function Min(a: nat, b: nat): nat {
    if a <= b then a else b
  }

  /** The bytes from `at` on, at most `len` of them. */
  ghost predicate BytesAt(data: seq<Byte>, c: seq<Byte>, at: nat, len: nat) {
    && |data| == (if at >= |c| then 0 else Min(len, |c| - at))
    && forall i :: 0 <= i < |data| ==> data[i] == c[at + i]
  }

  /** A read returns the bytes that are there, moves the cursor past them if it reads at the cursor, and no more. */
  lemma ReadMeaning(s: State, pid: nat, fd: nat, len: nat, offset: Offset)
    requires CanRead(s, pid, fd)
    ensures
      var d := GetFd(s, pid, fd).value;
      var (s', r, data) := ApplyRead(s, pid, fd, len, offset);
      && BytesAt(data, s.mnodes[d.mnode].contents, if offset.Cursor? then d.offset else offset.at, len)
      && r == FileAccessed(|data|) && s' == s.(procs := s'.procs) && OthersKept(s, s', pid, fd)
      && GetFd(s', pid, fd) == Some(if offset.Cursor? then d.(offset := d.offset + |data|) else d)
  {
    hide Has, OthersKept;
    var d := GetFd(s, pid, fd).value;
    var (s', r, data) := ApplyRead(s, pid, fd, len, offset);
    SetKeeps(s, pid, fd, Some(d), s.(procs := SetFd(s, pid, fd, Some(d)).procs));
    assert s.procs[pid][fd := Some(d)] == s.procs[pid] && s.procs[pid := s.procs[pid]] == s.procs;
    if offset.Cursor? {
      SetKeeps(s, pid, fd, Some(d.(offset := d.offset + |data|)), s');
    }
  }

  /** Otherwise it returns nothing, and says what is missing: the process, descriptor, file or permission. */
  lemma ReadRefused(s: State, pid: nat, fd: nat, len: nat, offset: Offset)
    requires !CanRead(s, pid, fd)
    ensures
      var (s', r, data) := ApplyRead(s, pid, fd, len, offset);
      && s' == s && data == [] && Refusal(r)
      && (r == Failed(NoProcessFoundForPid) <==> pid !in s.procs)
      && (r == Panic <==> pid in s.procs && fd >= |s.procs[pid]|)
      && (r == Failed(InvalidFile) <==>
        GetFd(s, pid, fd).Some? && Has(GetFd(s, pid, fd).value.flags, O_RDONLY) &&
        GetFd(s, pid, fd).value.mnode !in s.mnodes)
      && (r.Failed? ==> r.error in {NoProcessFoundForPid, InvalidFile, NotPermitted})
  {
    hide Has;
  }

  /** Reading on at the cursor for as long as there is something returns the whole rest of the file. */
  lemma ReadsWhole(s: State, pid: nat, fd: nat, lens: seq<nat>)
    requires CanRead(s, pid, fd)
    requires
      var d := GetFd(s, pid, fd).value;
      d.offset <= |s.mnodes[d.mnode].contents| <= d.offset + Sum(lens)
    ensures
      var d := GetFd(s, pid, fd).value;
      ReadRun(s, pid, fd, lens).1 == s.mnodes[d.mnode].contents[d.offset..]
  {
    ReadsConcatenate(s, pid, fd, lens);
    hide ReadRun, Sum;
  }

  // ----- writing

  /** Where a write through this descriptor goes: where it says, at the end of the file, or at the cursor. */
  ghost function Place(s: State, pid: nat, fd: nat, offset: Offset): nat
    requires CanWrite(s, pid, fd)
  {
    var d := GetFd(s, pid, fd).value;
    if offset.Explicit? then offset.at
    else if Has(d.flags, O_APPEND) then |s.mnodes[d.mnode].contents|
    else d.offset
  }

  /** The state after a write: one file, and the cursor if it was used. */
  lemma WriteDone(s: State, op: Op)
    requires op.FileWrite? && CanWrite(s, op.pid, op.fd)
    ensures
      var d, at, s' := GetFd(s, op.pid, op.fd).value, Place(s, op.pid, op.fd, op.offset), Apply(s, op).0;
      var c := Written(s.mnodes[d.mnode].contents, at, op.data);
      && Apply(s, op).1 == FileAccessed(|op.data|)
      && s' == s.(procs := s'.procs, mnodes := s.mnodes[d.mnode := s.mnodes[d.mnode].(contents := c)])
      && OthersKept(s, s', op.pid, op.fd)
      && GetFd(s', op.pid, op.fd) == Some(if op.offset.Cursor? then d.(offset := at + |op.data|) else d)
  {
    hide Has, Written, OthersKept;
    var d, s' := GetFd(s, op.pid, op.fd).value, Apply(s, op).0;
    SetKeeps(s, op.pid, op.fd, Some(d), s.(procs := SetFd(s, op.pid, op.fd, Some(d)).procs));
    assert s.procs[op.pid][op.fd := Some(d)] == s.procs[op.pid] && s.procs[op.pid := s.procs[op.pid]] == s.procs;
    if op.offset.Cursor? {
      SetKeeps(s, op.pid, op.fd, Some(d.(offset := Place(s, op.pid, op.fd, op.offset) + |op.data|)), s');
    } else {
      SetKeeps(s, op.pid, op.fd, Some(d), s');
    }
  }

  lemma BytesWritten(data: seq<Byte>, c: seq<Byte>, at: nat, written: seq<Byte>)
    requires BytesAt(data, Written(c, at, written), at, |written|)
    ensures data == written
  {
    hide Written;
    WrittenBytes(c, at, written);
    var c' := Written(c, at, written);
    forall i | 0 <= i < |written| ensures c'[at + i] == written[i] {
      assert c'[at..at + |written|][i] == written[i];
    }
  }

  /** What was written is read back from where it was written, through any descriptor of the file. */
  lemma ReadBack(s: State, op: Op, pid: nat, fd: nat)
    requires op.FileWrite? && CanWrite(s, op.pid, op.fd) && CanRead(s, pid, fd)
    requires GetFd(s, pid, fd).value.mnode == GetFd(s, op.pid, op.fd).value.mnode
    ensures
      var s', at := Apply(s, op).0, Place(s, op.pid, op.fd, op.offset);
      var (_, r, data) := ApplyRead(s', pid, fd, |op.data|, Explicit(at));
      r == FileAccessed(|op.data|) && data == op.data
  {
    var m, s', at := GetFd(s, pid, fd).value.mnode, Apply(s, op).0, Place(s, op.pid, op.fd, op.offset);
    WriteDone(s, op);
    hide Has, Written, Apply, Place;
    assert GetFd(s', pid, fd).Some? && GetFd(s', pid, fd).value.mnode == m &&
      GetFd(s', pid, fd).value.flags == GetFd(s, pid, fd).value.flags;
    ReadMeaning(s', pid, fd, |op.data|, Explicit(at));
    var data := ApplyRead(s', pid, fd, |op.data|, Explicit(at)).2;
    BytesWritten(data, s.mnodes[m].contents, at, op.data);
  }

  // ----- opening

  /** The bytes of a file that is opened for reading, by name, are the first ones read through its descriptor. */
  lemma OpenThenRead(s: State, pid: nat, name: string, flags: nat, modes: nat, len: nat)
    requires Index(s) && name in View(s) && HasFree(s, pid) && Has(flags, O_RDONLY) && !Has(flags, O_TRUNC)
    requires Readable(View(s)[name])
    ensures
      var (s', r) := Apply(s, FileOpen(pid, name, flags, modes));
      && r.FileOpened? && CanRead(s', pid, r.fd)
      && var (_, r', data) := ApplyRead(s', pid, r.fd, len, Cursor);
         r' == FileAccessed(|data|) && BytesAt(data, View(s)[name].contents, 0, len)
  {
    var op := FileOpen(pid, name, flags, modes);
    var (s', r) := Apply(s, op);
    SucceedsIff(s, op);
    ApplyMeaning(s, op);
    ViewKeys(s);
    ViewKeys(s');
    hide Has, Index, View, Apply, OthersKept, Lowest;
    ReadMeaning(s', pid, r.fd, len, Cursor);
  }

  // ----- a run of writes at the cursor

  /** Writes through one descriptor that does not append. */
  ghost predicate WritesOn(s: State, pid: nat, fd: nat) {
    CanWrite(s, pid, fd) && !Has(GetFd(s, pid, fd).value.flags, O_APPEND)
  }

  lemma TwiceByte(c: seq<Byte>, at: nat, a: seq<Byte>, b: seq<Byte>, i: nat)
    ensures ByteAt(Written(Written(c, at, a), at + |a|, b), i) == ByteAt(Written(c, at, a + b), i)
  {
    hide Written, ByteAt;
    WrittenByte(Written(c, at, a), at + |a|, b, i);
    WrittenByte(c, at, a, i);
    WrittenByte(c, at, a + b, i);
  }

  lemma WrittenTwice(c: seq<Byte>, at: nat, a: seq<Byte>, b: seq<Byte>)
    ensures Written(Written(c, at, a), at + |a|, b) == Written(c, at, a + b)
  {
    hide Written, ByteAt;
    var x, y := Written(Written(c, at, a), at + |a|, b), Written(c, at, a + b);
    forall i: nat | i < |x| ensures x[i] == y[i] {
      TwiceByte(c, at, a, b, i);
      assert x[i] == ByteAt(x, i) && y[i] == ByteAt(y, i) by {
        AtByte(x, i);
        AtByte(y, i);
      }
    }
  }

  lemma AtByte(c: seq<Byte>, i: nat)
    requires i < |c|
    ensures ByteAt(c, i) == c[i]
  {
  }

  function Joined(datas: seq<seq<Byte>>): seq<Byte> {
    if datas == [] then [] else datas[0] + Joined(datas[1..])
  }

  function CursorWrites(s: State, pid: nat, fd: nat, datas: seq<seq<Byte>>): State
    decreases |datas|
  {
    if datas == [] then s else CursorWrites(Apply(s, FileWrite(pid, fd, 0, datas[0], Cursor)).0, pid, fd, datas[1..])
  }

  /** Any number of writes at the cursor come to the same as one write of everything at once. */
  lemma {:induction false} WritesConcatenate(s: State, pid: nat, fd: nat, datas: seq<seq<Byte>>)
    requires WritesOn(s, pid, fd) && datas != []
    ensures
      var d, s' := GetFd(s, pid, fd).value, CursorWrites(s, pid, fd, datas);
      && WritesOn(s', pid, fd) && GetFd(s', pid, fd) == Some(d.(offset := d.offset + |Joined(datas)|))
      && s'.mnodes == s.mnodes[d.mnode := s.mnodes[d.mnode].(
           contents := Written(s.mnodes[d.mnode].contents, d.offset, Joined(datas)))]
    decreases |datas|
  {
    hide Has, Written, Apply, OthersKept;
    var op := FileWrite(pid, fd, 0, datas[0], Cursor);
    WriteDone(s, op);
    var d, s1 := GetFd(s, pid, fd).value, Apply(s, op).0;
    var c := s.mnodes[d.mnode].contents;
    if |datas| == 1 {
      assert datas[1..] == [] && Joined(datas) == datas[0] + [] == datas[0];
    } else {
      WritesConcatenate(s1, pid, fd, datas[1..]);
      WrittenTwice(c, d.offset, datas[0], Joined(datas[1..]));
      Twice(s.mnodes, d.mnode, s1.mnodes[d.mnode],
        s1.mnodes[d.mnode].(contents := Written(c, d.offset, Joined(datas))));
    }
  }

  lemma Twice(m: map<nat, Node>, k: nat, a: Node, b: Node)
    ensures m[k := a][k := b] == m[k := b]
  {
  }
}
