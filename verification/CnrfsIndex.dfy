/**
 The name index and the descriptor cursors of the file system node.

 Over every run, names and nodes stay in bijection and mnode numbers are never used again, so that
 the node behaves like a map from names to what the named file or directory holds.
 */
module CnrfsIndex {
  import opened FileModule
  import opened MemNodeModule
  import opened Cnrfs

  // ----- the index

  ghost predicate Named(s: State, k: nat) {
    exists n :: n in s.files && s.files[n] == k
  }

  /** Names and nodes are in bijection, and every mnode is below the next one to be given out. */
  ghost predicate Index(s: State) {
    && (forall n :: n in s.files ==> s.files[n] in s.mnodes)
    && (forall n, m :: n in s.files && m in s.files && s.files[n] == s.files[m] ==> n == m)
    && (forall k :: k in s.mnodes ==> k < s.next && Named(s, k))
  }

  /** What the names stand for. */
  ghost function View(s: State): (v: map<string, Node>)
    ensures forall n :: n in v ==> n in s.files && s.files[n] in s.mnodes
  {
    map n | n in s.files && s.files[n] in s.mnodes :: s.mnodes[s.files[n]]
  }

  lemma ViewKeys(s: State)
    requires Index(s)
    ensures forall n :: n in s.files <==> n in View(s)
    ensures forall n :: n in s.files ==> s.files[n] in s.mnodes && View(s)[n] == s.mnodes[s.files[n]]
    ensures forall k :: k in s.mnodes ==> Named(s, k)
  {
    hide Named;
  }

  lemma BootIndex()
    ensures Index(Boot())
  {
    var s := Boot();
    assert s.files[ROOT] == ROOT_MNODE;
  }

  lemma CreateView(s: State, name: string, node: Node)
    requires Index(s)
    ensures View(FsCreate(s, name, node)) == View(s)[name := node]
  {
    hide Named;
  }

  lemma CreateIndex(s: State, name: string, node: Node)
    requires Index(s) && name !in s.files
    ensures Index(FsCreate(s, name, node)) && View(FsCreate(s, name, node)) == View(s)[name := node]
  {
    var s' := FsCreate(s, name, node);
    CreateView(s, name, node);
    hide View;
    forall k | k in s'.mnodes ensures k < s'.next && Named(s', k) {
      if k == s.next {
        assert s'.files[name] == k;
      } else {
        assert Named(s, k);
        var n :| n in s.files && s.files[n] == k;
        assert s'.files[n] == k;
      }
    }
  }

  lemma DeleteIndex(s: State, name: string)
    requires Index(s) && name in s.files
    ensures Index(FsDelete(s, name)) && View(FsDelete(s, name)) == View(s) - {name}
  {
    var s' := FsDelete(s, name);
    assert View(s') == View(s) - {name} by {
      hide Named;
    }
    hide View;
    forall k | k in s'.mnodes ensures k < s'.next && Named(s', k) {
      assert Named(s, k);
      var n :| n in s.files && s.files[n] == k;
      assert s'.files[n] == k;
    }
  }

  /** Giving a file a name that is free. */
  function Moved(s: State, oldname: string, newname: string): State
    requires oldname in s.files
  {
    s.(files := (s.files - {oldname})[newname := s.files[oldname]])
  }

  lemma MoveIndex(s: State, oldname: string, newname: string)
    requires Index(s) && oldname in s.files && newname !in s.files
    ensures Index(Moved(s, oldname, newname))
  {
    var s' := Moved(s, oldname, newname);
    forall k | k in s'.mnodes ensures k < s'.next && Named(s', k) {
      assert Named(s, k);
      var n :| n in s.files && s.files[n] == k;
      assert s'.files[if n == oldname then newname else n] == k;
    }
  }

  lemma MoveView(s: State, oldname: string, newname: string)
    requires Index(s) && oldname in s.files && newname !in s.files
    ensures View(Moved(s, oldname, newname)) == (View(s) - {oldname})[newname := View(s)[oldname]]
  {
    hide Named;
  }

  /** Renaming between different names: the file moves, the old target is gone, all other files are as they were. */
  lemma RenameIndex(s: State, oldname: string, newname: string)
    requires Index(s) && oldname in s.files && oldname != newname
    ensures var (s', e) := FsRename(s, oldname, newname);
      && e.None? && Index(s')
      && View(s') == (View(s) - {oldname})[newname := View(s)[oldname]]
      && newname in s'.files && s'.files[newname] == s.files[oldname]
  {
    hide Index, View;
    ViewKeys(s);
    var d := if newname in s.files then FsDelete(s, newname) else s;
    if newname in s.files {
      DeleteIndex(s, newname);
    }
    MoveIndex(d, oldname, newname);
    MoveView(d, oldname, newname);
    assert FsRename(s, oldname, newname) == (Moved(d, oldname, newname), None);
    assert (View(s) - {newname} - {oldname})[newname := View(s)[oldname]] ==
      (View(s) - {oldname})[newname := View(s)[oldname]];
  }

  /** Renaming a file to its own name deletes it and fails. */
  lemma RenameToItself(s: State, name: string)
    requires Index(s) && name in s.files
    ensures FsRename(s, name, name) == (FsDelete(s, name), Some(InvalidFile))
    ensures View(FsRename(s, name, name).0) == View(s) - {name}
  {
    DeleteIndex(s, name);
  }

  /** Changing what a node holds changes what its one name stands for. */
  lemma NodeIndex(s: State, mnode: nat, node: Node)
    requires Index(s) && mnode in s.mnodes
    ensures Index(s.(mnodes := s.mnodes[mnode := node]))
    ensures forall n :: n in s.files && s.files[n] == mnode ==>
      View(s.(mnodes := s.mnodes[mnode := node])) == View(s)[n := node]
  {
    var s' := s.(mnodes := s.mnodes[mnode := node]);
    forall k | k in s'.mnodes ensures k < s'.next && Named(s', k) {
      assert Named(s, k);
    }
    forall n | n in s.files && s.files[n] == mnode ensures View(s') == View(s)[n := node] {
    }
  }

  /** Descriptors are no part of the index. */
  lemma ProcsIndex(s: State, procs: map<nat, seq<Option<Fd>>>)
    requires Index(s)
    ensures Index(s.(procs := procs)) && View(s.(procs := procs)) == View(s)
  {
    var s' := s.(procs := procs);
    forall k | k in s'.mnodes ensures k < s'.next && Named(s', k) {
      assert Named(s, k);
    }
  }

  /** The name of the file an open descriptor refers to, while that file exists. */
  ghost predicate Names(s: State, pid: nat, fd: nat, name: string) {
    GetFd(s, pid, fd).Some? && name in s.files && s.files[name] == GetFd(s, pid, fd).value.mnode
  }

  /** What an operation that is carried out does to the files; the rest of the files stays as it is. */
  ghost predicate Meaning(s: State, op: Op, s': State, r: Response) {
    var v, v' := View(s), View(s');
    match r
    case FileOpened(fd) =>
      op.FileOpen? &&
      (if op.name !in v then v' == v[op.name := Node(Regular, op.modes, [])]
       else if Has(op.flags, O_TRUNC) then v' == v[op.name := v[op.name].(contents := [])]
       else v' == v)
    case FileAccessed(len) =>
      op.FileWrite? && len == |op.data| &&
      exists name, at :: name in v && Names(s, op.pid, op.fd, name) &&
        WriteAt(s, GetFd(s, op.pid, op.fd).value, op.offset) == Some(at) &&
        v' == v[name := v[name].(contents := Written(v[name].contents, at, op.data))]
    case FileDeleted => op.FileDelete? && op.name in v && v' == v - {op.name}
    case FileRenamed =>
      op.FileRename? && op.oldname in v && op.oldname != op.newname &&
        v' == (v - {op.oldname})[op.newname := v[op.oldname]]
    case DirCreated => op.MkDir? && op.name !in v && v' == v[op.name := Node(Directory, 0, [])]
    case Failed(e) =>
      if op.FileRename? && op.pid in s.procs && op.oldname == op.newname && op.oldname in v then v' == v - {op.oldname}
      else v' == v
    case _ => v' == v
  }

  // ----- what an operation does to the descriptors

  /** The lowest number that is not in use. */
  ghost predicate Lowest(s: State, pid: nat, fd: nat) {
    && pid in s.procs && fd < |s.procs[pid]| && GetFd(s, pid, fd).None?
    && forall f :: 0 <= f < fd ==> GetFd(s, pid, f).Some?
  }

  /** Every other descriptor, of every process, is as it was. */
  ghost predicate OthersKept(s: State, s': State, pid: nat, fd: nat) {
    && s'.procs.Keys == s.procs.Keys
    && (forall p :: p in s.procs ==> |s'.procs[p]| == |s.procs[p]|)
    && (forall p: nat, f: nat :: p != pid || f != fd ==> GetFd(s', p, f) == GetFd(s, p, f))
  }

  ghost predicate FdMeaning(s: State, op: Op, s': State, r: Response) {
    match r
    case FileOpened(fd) =>
      && op.FileOpen? && Lowest(s, op.pid, fd) && OthersKept(s, s', op.pid, fd) && Names(s', op.pid, fd, op.name)
      && GetFd(s', op.pid, fd).value.flags == op.flags && GetFd(s', op.pid, fd).value.offset == 0
    case FileAccessed(len) =>
      op.FileWrite? && GetFd(s, op.pid, op.fd).Some? &&
      var d := GetFd(s, op.pid, op.fd).value;
      var at := WriteAt(s, d, op.offset);
      if op.offset.Explicit? then s'.procs == s.procs
      else at.Some? && OthersKept(s, s', op.pid, op.fd) &&
           GetFd(s', op.pid, op.fd) == Some(d.(offset := at.value + len))
    case FileClosed(fd) =>
      && op.FileClose? && fd == op.fd && GetFd(s, op.pid, fd).Some? && GetFd(s', op.pid, fd).None?
      && OthersKept(s, s', op.pid, fd)
    case ProcessAdded(pid) =>
      && op == ProcessAdd(pid) && pid !in s.procs && s'.procs.Keys == s.procs.Keys + {pid}
      && |s'.procs[pid]| == MAX_FILES_PER_PROCESS && (forall f: nat :: GetFd(s', pid, f).None?)
      && (forall p :: p in s.procs ==> s'.procs[p] == s.procs[p])
    case ProcessRemoved(pid) =>
      && op == ProcessRemove(pid) && pid in s.procs && s'.procs.Keys == s.procs.Keys - {pid}
      && (forall p :: p in s'.procs ==> s'.procs[p] == s.procs[p])
    case _ => s'.procs == s.procs
  }

  lemma SetKeeps(s: State, pid: nat, fd: nat, x: Option<Fd>, s': State)
    requires pid in s.procs && fd < |s.procs[pid]| && s'.procs == SetFd(s, pid, fd, x).procs
    ensures OthersKept(s, s', pid, fd) && GetFd(s', pid, fd) == x
  {
  }

  lemma OpenFds(s: State, op: Op)
    requires op.FileOpen?
    ensures FdMeaning(s, op, Apply(s, op).0, Apply(s, op).1)
  {
    hide Has, OthersKept, Writable;
    var (s', r) := Apply(s, op);
    if r.FileOpened? {
      var m := if op.name in s.files then s.files[op.name] else s.next;
      SetKeeps(s, op.pid, r.fd, Some(Fd(m, op.flags, 0)), s');
    }
  }

  lemma WriteFds(s: State, op: Op)
    requires op.FileWrite?
    ensures FdMeaning(s, op, Apply(s, op).0, Apply(s, op).1)
  {
    hide Has, OthersKept, Writable, Written;
    var (s', r) := Apply(s, op);
    if r.FileAccessed? && op.offset.Cursor? {
      var d := GetFd(s, op.pid, op.fd).value;
      var at := WriteAt(s, d, op.offset);
      SetKeeps(s, op.pid, op.fd, Some(d.(offset := at.value + |op.data|)), s');
    }
  }

  /** What every operation does to the descriptors. */
  lemma ApplyFds(s: State, op: Op)
    ensures FdMeaning(s, op, Apply(s, op).0, Apply(s, op).1)
  {
    hide ApplyOpen, ApplyWrite, OthersKept;
    match op
    case FileOpen(_, _, _, _) => OpenFds(s, op);
    case FileWrite(_, _, _, _, _) => WriteFds(s, op);
    case FileClose(pid, fd) => if Apply(s, op).1.FileClosed? { SetKeeps(s, pid, fd, None, Apply(s, op).0); }
    case _ =>
  }

  // ----- every operation

  lemma OpenMeaning(s: State, pid: nat, name: string, flags: nat, modes: nat)
    requires Index(s)
    ensures var (s', r) := ApplyOpen(s, pid, name, flags, modes);
      Index(s') && Meaning(s, FileOpen(pid, name, flags, modes), s', r)
  {
    hide Has, Named, Index, View;
    ViewKeys(s);
    var procs := ApplyOpen(s, pid, name, flags, modes).0.procs;
    if pid in s.procs && FirstFree(s.procs[pid]).Some? {
      if name !in s.files {
        CreateIndex(s, name, Node(Regular, modes, []));
        ProcsIndex(FsCreate(s, name, Node(Regular, modes, [])), procs);
      } else if Has(flags, O_TRUNC) {
        var m := s.files[name];
        var node := s.mnodes[m].(contents := []);
        NodeIndex(s, m, node);
        ProcsIndex(s.(mnodes := s.mnodes[m := node]), procs);
      } else {
        ProcsIndex(s, procs);
      }
    }
  }

  /** What a write that is carried out changes. */
  lemma WriteState(s: State, op: Op) returns (at: nat)
    requires op.FileWrite? && Apply(s, op).1.FileAccessed?
    ensures GetFd(s, op.pid, op.fd).Some? && WriteAt(s, GetFd(s, op.pid, op.fd).value, op.offset) == Some(at)
    ensures Apply(s, op).1 == FileAccessed(|op.data|)
    ensures var m, s' := GetFd(s, op.pid, op.fd).value.mnode, Apply(s, op).0;
      && m in s.mnodes
      && s' == s.(procs := s'.procs,
        mnodes := s.mnodes[m := s.mnodes[m].(contents := Written(s.mnodes[m].contents, at, op.data))])
  {
    hide Has, Written;
    at := WriteAt(s, GetFd(s, op.pid, op.fd).value, op.offset).value;
  }

  lemma WriteFails(s: State, op: Op)
    requires op.FileWrite? && !Apply(s, op).1.FileAccessed?
    ensures Apply(s, op).0 == s && (Apply(s, op).1.Failed? || Apply(s, op).1.Panic?)
  {
    hide Has, Written;
  }

  lemma WriteMeaning(s: State, op: Op)
    requires Index(s) && op.FileWrite? && Apply(s, op).1.FileAccessed?
    ensures var (s', r) := Apply(s, op);
      Index(s') && Meaning(s, op, s', r)
  {
    hide Index, View, Apply;
    var s' := Apply(s, op).0;
    var at := WriteState(s, op);
    ViewKeys(s);
    var m := GetFd(s, op.pid, op.fd).value.mnode;
    var node := s.mnodes[m].(contents := Written(s.mnodes[m].contents, at, op.data));
    NodeIndex(s, m, node);
    ProcsIndex(s.(mnodes := s.mnodes[m := node]), s'.procs);
    assert Named(s, m);
    var name :| name in s.files && s.files[name] == m;
    assert name in View(s) && Names(s, op.pid, op.fd, name);
    assert WriteAt(s, GetFd(s, op.pid, op.fd).value, op.offset) == Some(at);
  }

  /** An operation that fails or panics changes no file; but renaming a file to itself deletes it. */
  lemma FailureMeaning(s: State, op: Op)
    requires Index(s) && (Apply(s, op).1.Failed? || Apply(s, op).1.Panic?)
    ensures Apply(s, op).0 == s <==>
      !(op.FileRename? && op.oldname == op.newname && op.oldname in s.files && op.pid in s.procs)
  {
    hide Index, View, Has;
    if op.FileRename? && op.oldname in s.files {
      if op.oldname != op.newname {
        RenameIndex(s, op.oldname, op.newname);
      } else if op.pid in s.procs {
        RenameToItself(s, op.oldname);
        assert op.oldname !in Apply(s, op).0.files;
      }
    }
  }

  /** Every operation keeps the bijection, and does to the map of files just what it is called. */
  lemma ApplyMeaning(s: State, op: Op)
    requires Index(s)
    ensures var (s', r) := Apply(s, op);
      Index(s') && Meaning(s, op, s', r) && FdMeaning(s, op, s', r)
  {
    ApplyFds(s, op);
    hide Index, View, Has, ApplyOpen, ApplyWrite, FsRename, FdMeaning;
    ViewKeys(s);
    match op
    case FileOpen(pid, name, flags, modes) => OpenMeaning(s, pid, name, flags, modes);
    case FileWrite(_, _, _, _, _) =>
      if Apply(s, op).1.FileAccessed? { WriteMeaning(s, op); } else { WriteFails(s, op); }
    case FileDelete(pid, name) => if name in s.files { DeleteIndex(s, name); }
    case FileRename(pid, oldname, newname) => RenameMeaning(s, op);
    case MkDir(pid, name, modes) => if name !in s.files { CreateIndex(s, name, Node(Directory, 0, [])); }
    case _ => ProcsIndex(s, Apply(s, op).0.procs);
  }

  lemma RenameMeaning(s: State, op: Op)
    requires Index(s) && op.FileRename?
    ensures var (s', r) := Apply(s, op);
      Index(s') && Meaning(s, op, s', r)
  {
    hide Index, View, Has;
    ViewKeys(s);
    if op.oldname in s.files {
      if op.oldname != op.newname {
        RenameIndex(s, op.oldname, op.newname);
      } else {
        RenameToItself(s, op.oldname);
        DeleteIndex(s, op.oldname);
      }
    }
  }

  // ----- whole runs

  function RunOps(s: State, ops: seq<Op>): State
    decreases |ops|
  {
    if ops == [] then s else RunOps(Apply(s, ops[0]).0, ops[1..])
  }

  /** From the start, whatever is applied: names and nodes are in bijection. */
  lemma {:induction false} RunIndex(s: State, ops: seq<Op>)
    requires Index(s)
    ensures Index(RunOps(s, ops))
    decreases |ops|
  {
    hide Apply, Index;
    if ops == [] {
    } else {
      ApplyMeaning(s, ops[0]);
      RunIndex(Apply(s, ops[0]).0, ops[1..]);
    }
  }

  lemma ApplyNeverReuses(s: State, op: Op, m: nat)
    requires m < s.next && m !in s.mnodes
    ensures s.next <= Apply(s, op).0.next && m !in Apply(s, op).0.mnodes
  {
    hide Has, Written;
  }

  /** The number of a deleted file is not given to another one in any later state. */
  lemma {:induction false} NeverReused(s: State, ops: seq<Op>, m: nat)
    requires m < s.next && m !in s.mnodes
    ensures s.next <= RunOps(s, ops).next && m !in RunOps(s, ops).mnodes
    decreases |ops|
  {
    hide Apply;
    if ops == [] {
    } else {
      ApplyNeverReuses(s, ops[0], m);
      NeverReused(Apply(s, ops[0]).0, ops[1..], m);
    }
  }

  /** So a descriptor that outlived its file reaches no other file: writing and reading through it fail. */
  lemma DeadDescriptor(s: State, ops: seq<Op>, pid: nat, fd: nat, mnode: nat, data: seq<Byte>, offset: Offset, len: nat)
    requires s.next > mnode && mnode !in s.mnodes
    requires GetFd(RunOps(s, ops), pid, fd).Some? && GetFd(RunOps(s, ops), pid, fd).value.mnode == mnode
    ensures var r := RunOps(s, ops);
      && Apply(r, FileWrite(pid, fd, mnode, data, offset)).0 == r
      && !Apply(r, FileWrite(pid, fd, mnode, data, offset)).1.FileAccessed?
      && ApplyRead(r, pid, fd, len, offset).0 == r && ApplyRead(r, pid, fd, len, offset).2 == []
  {
    hide Has, Written;
    NeverReused(s, ops, mnode);
    hide RunOps;
  }

  // ----- cursors

  /** A read leaves a replica as it was exactly when it does not move a cursor. */
  lemma ReadKeepsReplica(s: State, pid: nat, fd: nat, len: nat, offset: Offset)
    ensures var (s', r, data) := ApplyRead(s, pid, fd, len, offset); s' == s <==> offset.Explicit? || data == []
  {
    hide Has;
    var (s', r, data) := ApplyRead(s, pid, fd, len, offset);
    if offset.Cursor? && r.FileAccessed? {
      var d := s.procs[pid][fd].value;
      if data == [] {
        assert s.procs[pid][fd := Some(d)] == s.procs[pid];
        assert s.procs[pid := s.procs[pid]] == s.procs;
      } else {
        assert s'.procs[pid][fd].value.offset != d.offset;
      }
    }
  }

  function Sum(lens: seq<nat>): nat {
    if lens == [] then 0 else lens[0] + Sum(lens[1..])
  }

  /** Reads at the cursor, one after the other: the bytes they return in a row, and the state after them. */
  function ReadRun(s: State, pid: nat, fd: nat, lens: seq<nat>): (State, seq<Byte>)
    decreases |lens|
  {
    if lens == [] then (s, [])
    else
      var (s1, _, data) := ApplyRead(s, pid, fd, lens[0], Cursor);
      var (s2, more) := ReadRun(s1, pid, fd, lens[1..]);
      (s2, data + more)
  }

  /** The descriptor may be read through. */
  ghost predicate CanRead(s: State, pid: nat, fd: nat) {
    GetFd(s, pid, fd).Some? &&
    var d := GetFd(s, pid, fd).value;
    Has(d.flags, O_RDONLY) && d.mnode in s.mnodes && Readable(s.mnodes[d.mnode])
  }

  lemma ReadOnce(s: State, pid: nat, fd: nat, len: nat)
    requires CanRead(s, pid, fd)
    ensures var (s', r, data) := ApplyRead(s, pid, fd, len, Cursor);
      var d := GetFd(s, pid, fd).value;
      && data == Slice(s.mnodes[d.mnode].contents, d.offset, len) && r == FileAccessed(|data|)
      && s'.mnodes == s.mnodes && GetFd(s', pid, fd) == Some(d.(offset := d.offset + |data|)) && CanRead(s', pid, fd)
  {
    hide Has;
  }

  /** Any run of reads at the cursor returns consecutive pieces of the file. */
  lemma {:induction false} ReadsConcatenate(s: State, pid: nat, fd: nat, lens: seq<nat>)
    requires CanRead(s, pid, fd)
    ensures var d := GetFd(s, pid, fd).value;
      var (s', data) := ReadRun(s, pid, fd, lens);
      && data == Slice(s.mnodes[d.mnode].contents, d.offset, Sum(lens))
      && GetFd(s', pid, fd) == Some(d.(offset := d.offset + |data|))
    decreases |lens|
  {
    hide ApplyRead, Has, Slice, GetFd, Readable;
    var d := GetFd(s, pid, fd).value;
    var c := s.mnodes[d.mnode].contents;
    if lens == [] {
      SliceNothing(c, d.offset);
    } else {
      ReadOnce(s, pid, fd, lens[0]);
      var s1 := ApplyRead(s, pid, fd, lens[0], Cursor).0;
      ReadsConcatenate(s1, pid, fd, lens[1..]);
      SliceJoin(c, d.offset, lens[0], Sum(lens[1..]));
    }
  }

  /** Writes at the cursor, each through one of the given descriptors. */
  function WriteRun(s: State, writes: seq<(nat, nat, seq<Byte>)>): State
    decreases |writes|
  {
    if writes == [] then s
    else
      var (pid, fd, data) := writes[0];
      WriteRun(ApplyWrite(s, pid, fd, data, Cursor).0, writes[1..])
  }

  function Datas(writes: seq<(nat, nat, seq<Byte>)>): seq<Byte> {
    if writes == [] then [] else writes[0].2 + Datas(writes[1..])
  }

  /** The descriptor appends to this file. */
  ghost predicate Appends(s: State, pid: nat, fd: nat, mnode: nat) {
    GetFd(s, pid, fd).Some? &&
    var d := GetFd(s, pid, fd).value;
    d.mnode == mnode && Has(d.flags, O_WRONLY) && Has(d.flags, O_APPEND) && mnode in s.mnodes &&
      Writable(s.mnodes[mnode])
  }

  lemma AppendOnce(s: State, pid: nat, fd: nat, mnode: nat, data: seq<Byte>)
    requires Appends(s, pid, fd, mnode)
    ensures var s' := ApplyWrite(s, pid, fd, data, Cursor).0;
      && mnode in s'.mnodes && s'.mnodes[mnode] == s.mnodes[mnode].(contents := s.mnodes[mnode].contents + data)
      && forall p, f :: Appends(s, p, f, mnode) ==> Appends(s', p, f, mnode)
  {
    hide Has;
    var c := s.mnodes[mnode].contents;
    assert Written(c, |c|, data) == c + data;
  }

  /** Any run of appending writes, through any appending descriptors of any processes, appends them all in order. */
  lemma {:induction false} AppendsConcatenate(s: State, mnode: nat, writes: seq<(nat, nat, seq<Byte>)>)
    requires mnode in s.mnodes
    requires forall i :: 0 <= i < |writes| ==> Appends(s, writes[i].0, writes[i].1, mnode)
    ensures var s' := WriteRun(s, writes);
      mnode in s'.mnodes && s'.mnodes[mnode].contents == s.mnodes[mnode].contents + Datas(writes)
    decreases |writes|
  {
    hide ApplyWrite, Appends;
    if writes == [] {
    } else {
      var (pid, fd, data) := writes[0];
      assert Appends(s, writes[0].0, writes[0].1, mnode);
      AppendOnce(s, pid, fd, mnode, data);
      var s1 := ApplyWrite(s, pid, fd, data, Cursor).0;
      AppendsConcatenate(s1, mnode, writes[1..]);
    }
  }
}
