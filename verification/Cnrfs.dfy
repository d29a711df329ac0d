/**
 The replicated file system node: processes with their descriptors, names, and nodes.

 `Apply` says what each logged operation does to a replica and what it answers, with nodes as
 values. The class `KernelNode` performs it in place, on nodes whose files are lists of pages.
 Descriptors, names and nodes can always be allocated; the pages of a file can run out. A panic of
 the source is the response `Panic` with the state left as it was at that point.
 */
module Cnrfs {
  import opened Arith
  import opened FileModule
  import opened MemNodeModule

  const MNODE_OFFSET: nat := 2
  const MAX_FILES_PER_PROCESS: nat := 4096
  const ROOT: string := "/"
  const ROOT_MNODE: nat := 1

  const O_RDONLY: nat := 0x1
  const O_WRONLY: nat := 0x2
  const O_CREAT: nat := 0x200
  const O_TRUNC: nat := 0x400
  const O_APPEND: nat := 0x2000

  datatype Fd = Fd(mnode: nat, flags: nat, offset: nat)

  /** The offset of a read or write: -1 stands for the descriptor's own cursor. */
  datatype Offset = Cursor | Explicit(at: nat)

  datatype State = State(
    procs: map<nat, seq<Option<Fd>>>,
    mnodes: map<nat, Node>,
    files: map<string, nat>,
    next: nat)

  datatype Op =
    | ProcessAdd(pid: nat)
    | ProcessRemove(pid: nat)
    | FileOpen(pid: nat, name: string, flags: nat, modes: nat)
    | FileWrite(pid: nat, fd: nat, mnode: nat, data: seq<Byte>, offset: Offset)
    | FileClose(pid: nat, fd: nat)
    | FileDelete(pid: nat, name: string)
    | FileRename(pid: nat, oldname: string, newname: string)
    | MkDir(pid: nat, name: string, modes: nat)

  datatype KError =
    | FileDescForPidAlreadyAdded | NoFileDescForPid | NoProcessFoundForPid
    | NotSupported | NotPermitted | InvalidFile | InvalidFileDescriptor | AlreadyPresent | NoMemory

  datatype Response =
    | ProcessAdded(pid: nat) | ProcessRemoved(pid: nat)
    | FileOpened(fd: nat) | FileAccessed(len: nat) | FileClosed(fd: nat)
    | FileDeleted | FileRenamed | DirCreated
    | Failed(error: KError)
    | Panic

  // ----- descriptors

  function NewFileDesc(): (fds: seq<Option<Fd>>) {
    seq(MAX_FILES_PER_PROCESS, i => None)
  }

  /** The lowest free descriptor. */
  function FirstFree(fds: seq<Option<Fd>>): (r: Option<nat>)
    ensures r.Some? ==> r.value < |fds| && fds[r.value].None? && forall i :: 0 <= i < r.value ==> fds[i].Some?
    ensures r.None? ==> forall i :: 0 <= i < |fds| ==> fds[i].Some?
  {
    if fds == [] then None
    else if fds[0].None? then Some(0)
    else
      var r := FirstFree(fds[1..]);
      assert forall i :: 1 <= i < |fds| ==> fds[i] == fds[1..][i - 1];
      if r.Some? then Some(r.value + 1) else None
  }

  function GetFd(s: State, pid: nat, fd: nat): Option<Fd> {
    if pid in s.procs && fd < |s.procs[pid]| then s.procs[pid][fd] else None
  }

  function SetFd(s: State, pid: nat, fd: nat, x: Option<Fd>): State
    requires pid in s.procs && fd < |s.procs[pid]|
  {
    s.(procs := s.procs[pid := s.procs[pid][fd := x]])
  }

  // ----- the file system

  function FsCreate(s: State, name: string, node: Node): State {
    s.(files := s.files[name := s.next], mnodes := s.mnodes[s.next := node], next := s.next + 1)
  }

  function FsDelete(s: State, name: string): State
    requires name in s.files
  {
    s.(files := s.files - {name}, mnodes := s.mnodes - {s.files[name]})
  }

  /** Empty the file, unless it may not be written. */
  function FsTruncate(s: State, name: string): (r: (State, Option<KError>)) {
    if name !in s.files || s.files[name] !in s.mnodes then (s, Some(InvalidFile))
    else
      var node := s.mnodes[s.files[name]];
      if !Writable(node) then (s, Some(NotPermitted))
      else (s.(mnodes := s.mnodes[s.files[name] := node.(contents := [])]), None)
  }

  /** A file of the new name is deleted first; when both names are the same, nothing is left to rename. */
  function FsRename(s: State, oldname: string, newname: string): (r: (State, Option<KError>)) {
    if oldname !in s.files then (s, Some(InvalidFile))
    else
      var d := if newname in s.files then FsDelete(s, newname) else s;
      if oldname !in d.files then (d, Some(InvalidFile))
      else (d.(files := (d.files - {oldname})[newname := d.files[oldname]]), None)
  }

  function FsWrite(s: State, mnode: nat, data: seq<Byte>, at: nat): (r: (State, Option<KError>)) {
    if mnode !in s.mnodes then (s, Some(InvalidFile))
    else if !Writable(s.mnodes[mnode]) then (s, Some(NotPermitted))
    else
      var node := s.mnodes[mnode];
      (s.(mnodes := s.mnodes[mnode := node.(contents := Written(node.contents, at, data))]), None)
  }

  // ----- logged operations

  function ApplyOpen(s: State, pid: nat, name: string, flags: nat, modes: nat): (r: (State, Response)) {
    if name !in s.files && !Has(flags, O_CREAT) then (s, Failed(NotPermitted))
    else if pid !in s.procs then (s, Panic)
    else
      var fid := FirstFree(s.procs[pid]);
      if fid.None? then (s, Failed(NotSupported))
      else if name in s.files then
        var t := if Has(flags, O_TRUNC) then FsTruncate(s, name) else (s, None);
        if t.1.Some? then (s, Failed(t.1.value))
        else (SetFd(t.0, pid, fid.value, Some(Fd(s.files[name], flags, 0))), FileOpened(fid.value))
      else
        var c := FsCreate(s, name, Node(Regular, modes, []));
        (SetFd(c, pid, fid.value, Some(Fd(s.next, flags, 0))), FileOpened(fid.value))
  }

  /** Where a write starts; with the append flag that is the size of the file, if it still exists. */
  function WriteAt(s: State, d: Fd, offset: Offset): (r: Option<nat>) {
    match offset
    case Explicit(at) => Some(at)
    case Cursor =>
      if !Has(d.flags, O_APPEND) then Some(d.offset)
      else if d.mnode in s.mnodes then Some(|s.mnodes[d.mnode].contents|)
      else None
  }

  function ApplyWrite(s: State, pid: nat, fd: nat, data: seq<Byte>, offset: Offset): (r: (State, Response)) {
    if pid !in s.procs || fd >= |s.procs[pid]| then (s, Panic)
    else if s.procs[pid][fd].None? then (s, Failed(NotPermitted))
    else
      var d := s.procs[pid][fd].value;
      if !Has(d.flags, O_WRONLY) then (s, Failed(NotPermitted))
      else
        var at := WriteAt(s, d, offset);
        if at.None? then (s, Panic)
        else
          var w := FsWrite(s, d.mnode, data, at.value);
          if w.1.Some? then (s, Failed(w.1.value))
          else if offset.Cursor? then (SetFd(w.0, pid, fd, Some(d.(offset := at.value + |data|))), FileAccessed(|data|))
          else (w.0, FileAccessed(|data|))
  }

  function ApplyClose(s: State, pid: nat, fd: nat): (r: (State, Response)) {
    if pid !in s.procs then (s, Panic)
    else if fd >= |s.procs[pid]| || s.procs[pid][fd].None? then (s, Failed(InvalidFileDescriptor))
    else (SetFd(s, pid, fd, None), FileClosed(fd))
  }

  function Apply(s: State, op: Op): (r: (State, Response)) {
    match op
    case ProcessAdd(pid) =>
      if pid in s.procs then (s, Failed(FileDescForPidAlreadyAdded))
      else (s.(procs := s.procs[pid := NewFileDesc()]), ProcessAdded(pid))
    case ProcessRemove(pid) =>
      if pid !in s.procs then (s, Failed(NoFileDescForPid))
      else (s.(procs := s.procs - {pid}), ProcessRemoved(pid))
    case FileOpen(pid, name, flags, modes) => ApplyOpen(s, pid, name, flags, modes)
    case FileWrite(pid, fd, _, data, offset) => ApplyWrite(s, pid, fd, data, offset)
    case FileClose(pid, fd) => ApplyClose(s, pid, fd)
    case FileDelete(pid, name) =>
      if pid !in s.procs then (s, Failed(NoProcessFoundForPid))
      else if name !in s.files then (s, Failed(InvalidFile))
      else (FsDelete(s, name), FileDeleted)
    case FileRename(pid, oldname, newname) =>
      if pid !in s.procs then (s, Failed(NoProcessFoundForPid))
      else
        var r := FsRename(s, oldname, newname);
        (r.0, if r.1.Some? then Failed(r.1.value) else FileRenamed)
    case MkDir(pid, name, modes) =>
      if pid !in s.procs then (s, Failed(NoProcessFoundForPid))
      else if name in s.files then (s, Failed(AlreadyPresent))
      else (FsCreate(s, name, Node(Directory, 0, [])), DirCreated)
  }

  /** The write is carried out but for the pages it needs, with `memory` allocations left. */
  predicate Exhausted(s: State, op: Op, memory: nat) {
    op.FileWrite? && Apply(s, op).1.FileAccessed? && NeedsMore(s, op, memory)
  }

  predicate NeedsMore(s: State, op: Op, memory: nat)
    requires op.FileWrite?
  {
    var d := GetFd(s, op.pid, op.fd);
    d.Some? && d.value.mnode in s.mnodes && WriteAt(s, d.value, op.offset).Some? &&
    !Fits(s.mnodes[d.value.mnode].contents, WriteAt(s, d.value, op.offset).value + |op.data|, memory)
  }

  /** A write without the pages it needs leaves the last page filled up with zeros, and nothing else. */
  function ApplyWithin(s: State, op: Op, memory: nat): (r: (State, Response)) {
    if Exhausted(s, op, memory) then
      var m := GetFd(s, op.pid, op.fd).value.mnode;
      (s.(mnodes := s.mnodes[m := s.mnodes[m].(contents := Padded(s.mnodes[m].contents))]), Failed(NoMemory))
    else Apply(s, op)
  }

  function Boot(): State {
    State(map[], map[ROOT_MNODE := Node(Directory, 0, [])], map[ROOT := ROOT_MNODE], MNODE_OFFSET)
  }

  // ----- unlogged reads

  /** A read on one replica: its answer, the bytes it returns, and the descriptor's new cursor. */
  function ApplyRead(s: State, pid: nat, fd: nat, len: nat, offset: Offset): (r: (State, Response, seq<Byte>)) {
    if pid !in s.procs then (s, Failed(NoProcessFoundForPid), [])
    else if fd >= |s.procs[pid]| then (s, Panic, [])
    else if s.procs[pid][fd].None? then (s, Failed(NotPermitted), [])
    else
      var d := s.procs[pid][fd].value;
      if !Has(d.flags, O_RDONLY) then (s, Failed(NotPermitted), [])
      else if d.mnode !in s.mnodes then (s, Failed(InvalidFile), [])
      else if !Readable(s.mnodes[d.mnode]) then (s, Failed(NotPermitted), [])
      else
        var at := if offset.Cursor? then d.offset else offset.at;
        var data := Slice(s.mnodes[d.mnode].contents, at, len);
        var s' := if offset.Cursor? then SetFd(s, pid, fd, Some(d.(offset := at + |data|))) else s;
        (s', FileAccessed(|data|), data)
  }

  // ----- which logs an operation goes to

  const WORD: nat := 0x1_0000_0000_0000_0000

  /** The log of an mnode; the subtraction wraps around below the first mnode of a file. */
  function LogOf(mnode: nat, nlogs: nat): (log: nat)
    requires nlogs > 0
    ensures log < nlogs
  {
    ((mnode - MNODE_OFFSET) % WORD) % nlogs
  }

  /** Files that are created one after the other go to the logs in turn. */
  lemma LogsInTurn(mnode: nat, nlogs: nat)
    requires nlogs > 0 && MNODE_OFFSET <= mnode < MNODE_OFFSET + WORD - 1
    ensures LogOf(MNODE_OFFSET, nlogs) == 0
    ensures LogOf(mnode + 1, nlogs) == if LogOf(mnode, nlogs) + 1 == nlogs then 0 else LogOf(mnode, nlogs) + 1
  {
    var i := mnode - MNODE_OFFSET;
    DivUnique(WORD, 0, i);
    DivUnique(WORD, 0, i + 1);
    DivUnique(nlogs, 0, 0);
    var q, r := i / nlogs, i % nlogs;
    assert i == nlogs * q + r;
    if r + 1 == nlogs {
      assert i + 1 == nlogs * (q + 1) + 0;
      DivUnique(nlogs, q + 1, 0);
    } else {
      DivUnique(nlogs, q, r + 1);
    }
  }

  /** A write goes to the log of the mnode it carries, everything else to all logs. */
  ghost predicate GoesTo(op: Op, log: nat, nlogs: nat)
    requires nlogs > 0
  {
    log < nlogs && (op.FileWrite? ==> log == LogOf(op.mnode, nlogs))
  }

  method Hash(op: Op, nlogs: nat) returns (logs: seq<nat>)
    requires nlogs > 0
    ensures forall log: nat :: log in logs <==> GoesTo(op, log, nlogs)
    ensures forall i, j :: 0 <= i < j < |logs| ==> logs[i] < logs[j]
  {
    logs := [];
    if op.FileWrite? {
      logs := logs + [LogOf(op.mnode, nlogs)];
    } else {
      for i := 0 to nlogs
        invariant |logs| == i && forall k :: 0 <= k < i ==> logs[k] == k
      {
        logs := logs + [i];
      }
      forall log: nat ensures log in logs <==> GoesTo(op, log, nlogs) {
        if log < nlogs {
          assert logs[log] == log;
        }
      }
    }
  }

  // ----- the node

  lemma TruncateAside(s: State, procs: map<nat, seq<Option<Fd>>>, name: string)
    ensures FsTruncate(s.(procs := procs), name) == (FsTruncate(s, name).0.(procs := procs), FsTruncate(s, name).1)
    ensures FsTruncate(s, name).0.procs == s.procs
  {
  }

  /** Only the last update of a descriptor counts, and setting it to what it was changes nothing. */
  lemma FdTwice(procs: map<nat, seq<Option<Fd>>>, pid: nat, fd: nat, a: Option<Fd>, b: Option<Fd>)
    requires pid in procs && fd < |procs[pid]|
    ensures
      var once := procs[pid := procs[pid][fd := a]];
      && once[pid := once[pid][fd := b]] == procs[pid := procs[pid][fd := b]]
      && (procs[pid][fd] == b ==> once[pid := once[pid][fd := b]] == procs)
  {
    assert procs[pid][fd := a][fd := b] == procs[pid][fd := b];
    assert procs[pid][fd] == b ==> procs[pid][fd := b] == procs[pid];
  }

  class KernelNode {
    var procs: map<nat, seq<Option<Fd>>>
    var mnodes: map<nat, MemNode>
    var files: map<string, nat>
    var next: nat

    /** The files of all nodes. */
    ghost function Footprint(): set<File>
      reads this`mnodes
    {
      set m | m in mnodes && mnodes[m].file != null :: mnodes[m].file
    }

    /** Every node is valid, and no two share a file. */
    ghost predicate Valid()
      reads this`mnodes, Footprint()
    {
      && (forall m :: m in mnodes ==> mnodes[m].Valid())
      && (forall m, k :: m in mnodes && k in mnodes && m != k && mnodes[m].file != null ==>
        mnodes[m].file != mnodes[k].file)
    }

    /** What the nodes hold. */
    ghost function Nodes(): (nodes: map<nat, Node>)
      requires Valid()
      reads this`mnodes, Footprint()
    {
      map m | m in mnodes :: mnodes[m].Abs()
    }

    lemma NodesKeys()
      requires Valid()
      ensures Nodes().Keys == mnodes.Keys
    {
    }

    ghost function Abs(): State
      requires Valid()
      reads this, Footprint()
    {
      State(procs, Nodes(), files, next)
    }

    constructor ()
      ensures Valid() && fresh(Footprint()) && Abs() == Boot()
    {
      procs := map[];
      var root := new MemNode(0, Directory);
      mnodes := map[ROOT_MNODE := root];
      files := map[ROOT := ROOT_MNODE];
      next := MNODE_OFFSET;
      new;
      assert Nodes() == map[ROOT_MNODE := Node(Directory, 0, [])];
    }

    method Lookup(name: string) returns (mnode: Option<nat>)
      ensures mnode == if name in files then Some(files[name]) else None
    {
      mnode := if name in files then Some(files[name]) else None;
    }

    method GetNextMno() returns (mnode: nat)
      modifies this`next
      ensures mnode == old(next) && next == old(next) + 1
    {
      mnode := next;
      next := next + 1;
    }

    /** A node of its own gets a number. */
    method AddNode(mnode: nat, node: MemNode)
      requires Valid() && node.Valid() && (node.file != null ==> node.file !in Footprint())
      modifies this`mnodes
      ensures Valid() && Nodes() == old(Nodes())[mnode := node.Abs()]
      ensures forall f :: f in Footprint() ==> f in old(Footprint()) || f == node.file
    {
      mnodes := mnodes[mnode := node];
    }

    method Create(name: string, modes: nat, ftype: FileType) returns (r: Option<nat>)
      requires Valid()
      modifies this`mnodes, this`files, this`next
      ensures Valid() && fresh(Footprint() - old(Footprint()))
      ensures r == if name in old(files) then None else Some(old(next))
      ensures
        var node := Node(ftype, if ftype.Regular? then modes else 0, []);
        Abs() == if r.None? then old(Abs()) else FsCreate(old(Abs()), name, node)
    {
      hide Nodes;
      if name in files {
        return None;
      }
      var mnode := GetNextMno();
      var node := new MemNode(modes, ftype);
      files := files[name := mnode];
      AddNode(mnode, node);
      return Some(mnode);
    }

    /** A node to which somebody else holds a reference is not deleted. */
    method Delete(name: string, shared: bool) returns (e: Option<KError>)
      requires Valid()
      modifies this`mnodes, this`files
      ensures Valid() && Footprint() <= old(Footprint())
      ensures e == if name !in old(files) then Some(InvalidFile) else if shared then Some(NotPermitted) else None
      ensures Abs() == if e.None? then FsDelete(old(Abs()), name) else old(Abs())
    {
      if name !in files {
        return Some(InvalidFile);
      }
      if shared {
        return Some(NotPermitted);
      }
      ghost var nodes := Nodes();
      mnodes := mnodes - {files[name]};
      assert Nodes() == nodes - {files[name]};
      files := files - {name};
      return None;
    }

    method Truncate(name: string) returns (e: Option<KError>)
      requires Valid()
      modifies Footprint()
      ensures Valid() && (Abs(), e) == FsTruncate(old(Abs()), name)
    {
      hide Contents, Has;
      if name !in files || files[name] !in mnodes {
        return Some(InvalidFile);
      }
      ghost var nodes := Nodes();
      var m := files[name];
      var r := mnodes[m].Truncate();
      assert Nodes() == nodes[m := mnodes[m].Abs()];
      if r.Err? {
        assert Nodes() == nodes;
        return Some(NotPermitted);
      }
      return None;
    }

    method Rename(oldname: string, newname: string) returns (e: Option<KError>)
      requires Valid()
      modifies this`mnodes, this`files
      ensures Valid() && Footprint() <= old(Footprint()) && (Abs(), e) == FsRename(old(Abs()), oldname, newname)
    {
      if oldname !in files {
        return Some(InvalidFile);
      }
      if newname in files {
        var deleted := Delete(newname, false);
      }
      if oldname !in files {
        return Some(InvalidFile);
      }
      var mnode := files[oldname];
      files := files - {oldname};
      var taken := newname in files;
      files := files[newname := mnode];
      return if taken then Some(NotPermitted) else None;
    }

    /** The pages of the file hold what the value says they do, whether the write succeeds or not. */
    method WriteNode(mnode: nat, data: seq<Byte>, at: nat, memory: nat) returns (e: Option<KError>)
      requires Valid()
      modifies Footprint()
      ensures Valid()
      ensures e == Some(NoMemory) <==>
        FsWrite(old(Abs()), mnode, data, at).1.None? && !Fits(old(Nodes())[mnode].contents, at + |data|, memory)
      ensures e != Some(NoMemory) ==> (Abs(), e) == FsWrite(old(Abs()), mnode, data, at)
      ensures e == Some(NoMemory) ==>
        Nodes() == old(Nodes())[mnode := old(Nodes())[mnode].(contents := Padded(old(Nodes())[mnode].contents))]
    {
      hide Contents, Written, Padded, Fits, Has;
      if mnode !in mnodes {
        return Some(InvalidFile);
      }
      ghost var nodes := Nodes();
      var r := mnodes[mnode].Write(data, at, memory);
      assert Nodes() == nodes[mnode := mnodes[mnode].Abs()];
      if r.Err? {
        assert r == Err(PermissionError) ==> Nodes() == nodes;
        return if r.error.PermissionError? then Some(NotPermitted) else Some(NoMemory);
      }
      return None;
    }

    /** The first free slot gets a fresh descriptor. */
    method AllocateFd(pid: nat) returns (fid: Option<nat>)
      requires pid in procs
      modifies this`procs
      ensures fid == FirstFree(old(procs)[pid])
      ensures procs ==
        if fid.None? then old(procs) else old(procs)[pid := old(procs)[pid][fid.value := Some(Fd(0, 0, 0))]]
    {
      var fds := procs[pid];
      var i := 0;
      while i < |fds| && fds[i].Some?
        invariant 0 <= i <= |fds|
        invariant forall k :: 0 <= k < i ==> fds[k].Some?
      {
        i := i + 1;
      }
      if i == |fds| {
        return None;
      }
      procs := procs[pid := fds[i := Some(Fd(0, 0, 0))]];
      return Some(i);
    }

    method DeallocateFd(pid: nat, fd: nat) returns (ok: bool)
      requires pid in procs
      modifies this`procs
      ensures ok <==> fd < |old(procs)[pid]| && old(procs)[pid][fd].Some?
      ensures procs == if ok then old(procs)[pid := old(procs)[pid][fd := None]] else old(procs)
    {
      if fd >= |procs[pid]| || procs[pid][fd].None? {
        return false;
      }
      procs := procs[pid := procs[pid][fd := None]];
      return true;
    }

    /** The node to open: truncated if asked for, or created. */
    method OpenNode(name: string, flags: nat, modes: nat) returns (num: nat, e: Option<KError>)
      requires Valid()
      modifies this`mnodes, this`files, this`next, Footprint()
      ensures Valid() && fresh(Footprint() - old(Footprint()))
      ensures num == if name in old(files) then old(files)[name] else old(next)
      ensures e.Some? ==> Abs() == old(Abs())
      ensures (Abs(), e) ==
        if name !in old(files) then (FsCreate(old(Abs()), name, Node(Regular, modes, [])), None)
        else if Has(flags, O_TRUNC) then FsTruncate(old(Abs()), name)
        else (old(Abs()), None)
    {
      hide Has, Valid, Nodes;
      var mnode := Lookup(name);
      if mnode.Some? {
        if Has(flags, O_TRUNC) {
          e := Truncate(name);
          return mnode.value, e;
        }
        return mnode.value, None;
      }
      var c := Create(name, modes, Regular);
      return c.value, None;
    }

    /** The descriptor allocated for a failing open is given back. */
    method Open(pid: nat, name: string, flags: nat, modes: nat) returns (r: Response)
      requires Valid()
      modifies this, Footprint()
      ensures Valid() && fresh(Footprint() - old(Footprint()))
      ensures (Abs(), r) == ApplyOpen(old(Abs()), pid, name, flags, modes)
    {
      hide Has, Valid, Nodes, FsTruncate, FirstFree;
      var mnode := Lookup(name);
      if mnode.None? && !Has(flags, O_CREAT) {
        return Failed(NotPermitted);
      }
      if pid !in procs {
        return Panic;
      }
      var fid := AllocateFd(pid);
      if fid.None? {
        return Failed(NotSupported);
      }
      TruncateAside(old(Abs()), procs, name);
      var num, e := OpenNode(name, flags, modes);
      if e.Some? {
        FdTwice(old(procs), pid, fid.value, Some(Fd(0, 0, 0)), None);
        var freed := DeallocateFd(pid, fid.value);
        return Failed(e.value);
      }
      FdTwice(old(procs), pid, fid.value, Some(Fd(0, 0, 0)), Some(Fd(num, flags, 0)));
      procs := procs[pid := procs[pid][fid.value := Some(Fd(num, flags, 0))]];
      return FileOpened(fid.value);
    }

    method FileSize(mnode: nat) returns (size: Option<nat>)
      requires Valid()
      ensures size == if mnode in Nodes() then Some(|Nodes()[mnode].contents|) else None
    {
      hide Contents;
      if mnode !in mnodes {
        return None;
      }
      if mnodes[mnode].ftype.Directory? {
        return Some(0);
      }
      PackedIsLoose(mnodes[mnode].file.mcache);
      var n := mnodes[mnode].file.GetSize();
      return Some(n);
    }

    method Write(pid: nat, fd: nat, mnode: nat, data: seq<Byte>, offset: Offset, memory: nat) returns (r: Response)
      requires Valid()
      modifies this`procs, Footprint()
      ensures Valid()
      ensures (Abs(), r) == ApplyWithin(old(Abs()), FileWrite(pid, fd, mnode, data, offset), memory)
    {
      hide Has, Valid, Nodes, Written, Padded, Fits;
      if pid !in procs || fd >= |procs[pid]| {
        return Panic;
      }
      if procs[pid][fd].None? {
        return Failed(NotPermitted);
      }
      var d := procs[pid][fd].value;
      if !Has(d.flags, O_WRONLY) {
        return Failed(NotPermitted);
      }
      var at := if offset.Explicit? then offset.at else d.offset;
      if offset.Cursor? && Has(d.flags, O_APPEND) {
        var size := FileSize(d.mnode);
        if size.None? {
          return Panic;
        }
        at := size.value;
      }
      var e := WriteNode(d.mnode, data, at, memory);
      if e.Some? {
        return Failed(e.value);
      }
      if offset.Cursor? {
        procs := procs[pid := procs[pid][fd := Some(d.(offset := at + |data|))]];
      }
      return FileAccessed(|data|);
    }

    method ReadNode(mnode: nat, buffer: array<Byte>, at: nat) returns (r: Result)
      requires Valid() && mnode in Nodes()
      modifies buffer
      ensures Valid() && Nodes() == old(Nodes()) && (r.Ok? <==> Readable(Nodes()[mnode]))
      ensures r.Ok? ==> r.value == |Slice(Nodes()[mnode].contents, at, buffer.Length)|
      ensures r.Ok? ==> buffer[..] == Overlay(old(buffer[..]), 0, Slice(Nodes()[mnode].contents, at, buffer.Length))
      ensures r.Err? ==> buffer[..] == old(buffer[..])
    {
      hide Contents, Slice, Overlay;
      r := mnodes[mnode].Read(buffer, at);
    }

    /** Descriptors are no part of the nodes. */
    method SetFdAt(pid: nat, fd: nat, d: Fd)
      requires Valid() && pid in procs && fd < |procs[pid]|
      modifies this`procs
      ensures Valid() && Nodes() == old(Nodes()) && procs == old(procs)[pid := old(procs)[pid][fd := Some(d)]]
    {
      procs := procs[pid := procs[pid][fd := Some(d)]];
    }

    /** A read fills the front of the user's buffer, and moves the cursor of this replica's descriptor only. */
    method Read(pid: nat, fd: nat, buffer: array<Byte>, offset: Offset) returns (r: Response)
      requires Valid()
      modifies this`procs, buffer
      ensures Valid()
      ensures
        var (s, r', data) := ApplyRead(old(Abs()), pid, fd, buffer.Length, offset);
        Abs() == s && r == r' && |data| <= buffer.Length && buffer[..] == Overlay(old(buffer[..]), 0, data)
    {
      hide Has, Slice, Overlay, Valid, Nodes;
      OverlayNothing(buffer[..], 0);
      if pid !in procs {
        return Failed(NoProcessFoundForPid);
      }
      if fd >= |procs[pid]| {
        return Panic;
      }
      if procs[pid][fd].None? {
        return Failed(NotPermitted);
      }
      var d := procs[pid][fd].value;
      if !Has(d.flags, O_RDONLY) {
        return Failed(NotPermitted);
      }
      assert d.mnode in mnodes <==> d.mnode in Nodes() by {
        NodesKeys();
      }
      if d.mnode !in mnodes {
        return Failed(InvalidFile);
      }
      var at := if offset.Cursor? then d.offset else offset.at;
      var read := ReadNode(d.mnode, buffer, at);
      if read.Err? {
        return Failed(NotPermitted);
      }
      if offset.Cursor? {
        SetFdAt(pid, fd, d.(offset := at + read.value));
      }
      r := FileAccessed(read.value);
    }

    /** Every operation does on paged files what `Apply` does on values, as far as memory goes. */
    method DispatchMut(op: Op, memory: nat) returns (r: Response)
      requires Valid()
      modifies this, Footprint()
      ensures Valid() && fresh(Footprint() - old(Footprint()))
      ensures (Abs(), r) == ApplyWithin(old(Abs()), op, memory)
    {
      hide Has, Valid, Nodes, ApplyWrite, ApplyOpen, FsRename;
      match op
      case ProcessAdd(pid) =>
        if pid in procs {
          return Failed(FileDescForPidAlreadyAdded);
        }
        procs := procs[pid := NewFileDesc()];
        return ProcessAdded(pid);
      case ProcessRemove(pid) =>
        if pid !in procs {
          return Failed(NoFileDescForPid);
        }
        procs := procs - {pid};
        return ProcessRemoved(pid);
      case FileOpen(pid, name, flags, modes) => r := Open(pid, name, flags, modes);
      case FileWrite(pid, fd, mnode, data, offset) => r := Write(pid, fd, mnode, data, offset, memory);
      case FileClose(pid, fd) =>
        if pid !in procs {
          return Panic;
        }
        var ok := DeallocateFd(pid, fd);
        return if ok then FileClosed(fd) else Failed(InvalidFileDescriptor);
      case FileDelete(pid, name) =>
        if pid !in procs {
          return Failed(NoProcessFoundForPid);
        }
        var e := Delete(name, false);
        return if e.None? then FileDeleted else Failed(e.value);
      case FileRename(pid, oldname, newname) =>
        if pid !in procs {
          return Failed(NoProcessFoundForPid);
        }
        var e := Rename(oldname, newname);
        return if e.Some? then Failed(e.value) else FileRenamed;
      case MkDir(pid, name, modes) =>
        if pid !in procs {
          return Failed(NoProcessFoundForPid);
        }
        var c := Create(name, modes, Directory);
        return if c.Some? then DirCreated else Failed(AlreadyPresent);
    }
  }
}
