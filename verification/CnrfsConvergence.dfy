/**
 Replicas of the file system converge.

 Operations go to logs by their hash, and a replica may apply the operations of different logs in
 any order that respects each log. Two such orders give the same state and the same response to
 every operation, provided that the mnode each write carries leads to the log of its descriptor's
 mnode. Two replicas with paged files then hold the same contents.
 */
module CnrfsConvergence {
  import opened FileModule
  import opened MemNodeModule
  import opened Cnrfs

  // ----- runs

  /** The order names operations. */
  ghost predicate InRange(ops: seq<Op>, order: seq<nat>) {
    forall i :: 0 <= i < |order| ==> order[i] < |ops|
  }

  /** The state after applying the operations in this order, and the response to each. */
  function Run(s: State, ops: seq<Op>, order: seq<nat>): (r: (State, map<nat, Response>))
    requires InRange(ops, order)
    decreases |order|
  {
    if order == [] then (s, map[])
    else
      var (s1, response) := Apply(s, ops[order[0]]);
      var (s2, responses) := Run(s1, ops, order[1..]);
      (s2, responses[order[0] := response])
  }

  /** The mnode a write carries sends it to the log of its descriptor's mnode. */
  ghost predicate Carries(s: State, op: Op, nlogs: nat)
    requires nlogs > 0
  {
    op.FileWrite? && GetFd(s, op.pid, op.fd).Some? ==>
      LogOf(op.mnode, nlogs) == LogOf(GetFd(s, op.pid, op.fd).value.mnode, nlogs)
  }

  /** Every write goes to the right log, at the time it is applied. */
  ghost predicate AllCarry(s: State, ops: seq<Op>, nlogs: nat, order: seq<nat>)
    requires nlogs > 0 && InRange(ops, order)
    decreases |order|
  {
    order != [] ==> Carries(s, ops[order[0]], nlogs) && AllCarry(Apply(s, ops[order[0]]).0, ops, nlogs, order[1..])
  }

  ghost predicate ShareLog(a: Op, b: Op, nlogs: nat)
    requires nlogs > 0
  {
    exists log: nat :: GoesTo(a, log, nlogs) && GoesTo(b, log, nlogs)
  }

  /** `x` comes before `y`. */
  ghost predicate Before(order: seq<nat>, x: nat, y: nat) {
    exists i, j :: 0 <= i < j < |order| && order[i] == x && order[j] == y
  }

  ghost predicate Distinct(order: seq<nat>) {
    forall i, j :: 0 <= i < j < |order| ==> order[i] != order[j]
  }

  /** Two orders of the same operations that agree wherever two operations share a log. */
  ghost predicate SameLogs(ops: seq<Op>, nlogs: nat, o1: seq<nat>, o2: seq<nat>)
    requires nlogs > 0
  {
    && Distinct(o1) && Distinct(o2) && InRange(ops, o1) && InRange(ops, o2)
    && |o1| == |o2| && (forall x :: x in o1 <==> x in o2)
    && (forall i, j :: 0 <= i < j < |o2| && ShareLog(ops[o2[i]], ops[o2[j]], nlogs) ==> Before(o1, o2[i], o2[j]))
  }

  // ----- writes to different nodes commute

  function NodeAt(s: State, mnode: nat): Option<Node> {
    if mnode in s.mnodes then Some(s.mnodes[mnode]) else None
  }

  datatype Effect = Nothing | Put(d: Fd, node: Node)

  /** What a write through the open descriptor `d` does, given the node it refers to. */
  function WriteEffect(d: Fd, node: Option<Node>, data: seq<Byte>, offset: Offset): (r: (Effect, Response)) {
    if !Has(d.flags, O_WRONLY) then (Nothing, Failed(NotPermitted))
    else if offset.Cursor? && Has(d.flags, O_APPEND) && node.None? then (Nothing, Panic)
    else if node.None? then (Nothing, Failed(InvalidFile))
    else if !Writable(node.value) then (Nothing, Failed(NotPermitted))
    else
      var at :=
        if offset.Explicit? then offset.at else if Has(d.flags, O_APPEND) then |node.value.contents| else d.offset;
      var d' := if offset.Cursor? then d.(offset := at + |data|) else d;
      (Put(d', node.value.(contents := Written(node.value.contents, at, data))), FileAccessed(|data|))
  }

  function Perform(s: State, pid: nat, fd: nat, mnode: nat, e: Effect): State
    requires pid in s.procs && fd < |s.procs[pid]|
  {
    match e
    case Nothing => s
    case Put(d, node) => s.(procs := s.procs[pid := s.procs[pid][fd := Some(d)]], mnodes := s.mnodes[mnode := node])
  }

  /** A write depends on its descriptor and its node, and changes nothing else. */
  lemma WriteIsEffect(s: State, pid: nat, fd: nat, data: seq<Byte>, offset: Offset)
    requires GetFd(s, pid, fd).Some?
    ensures var d := GetFd(s, pid, fd).value;
      var e := WriteEffect(d, NodeAt(s, d.mnode), data, offset);
      ApplyWrite(s, pid, fd, data, offset) == (Perform(s, pid, fd, d.mnode, e.0), e.1)
  {
    hide Written;
    var d := GetFd(s, pid, fd).value;
    assert s.procs[pid][fd := Some(d)] == s.procs[pid];
    assert s.procs[pid := s.procs[pid]] == s.procs;
  }

  /** A write through a descriptor that is not open only answers. */
  lemma ClosedWrite(s: State, pid: nat, fd: nat, data: seq<Byte>, offset: Offset)
    requires GetFd(s, pid, fd).None?
    ensures ApplyWrite(s, pid, fd, data, offset)
         == (s, if pid in s.procs && fd < |s.procs[pid]| then Failed(NotPermitted) else Panic)
  {
  }

  lemma PerformCommutes(s: State, p1: nat, f1: nat, m1: nat, e1: Effect, p2: nat, f2: nat, m2: nat, e2: Effect)
    requires p1 in s.procs && f1 < |s.procs[p1]| && p2 in s.procs && f2 < |s.procs[p2]|
    requires (p1, f1) != (p2, f2) && m1 != m2
    ensures Perform(Perform(s, p1, f1, m1, e1), p2, f2, m2, e2) == Perform(Perform(s, p2, f2, m2, e2), p1, f1, m1, e1)
    ensures GetFd(Perform(s, p1, f1, m1, e1), p2, f2) == GetFd(s, p2, f2)
    ensures NodeAt(Perform(s, p1, f1, m1, e1), m2) == NodeAt(s, m2)
  {
    if e1.Put? && e2.Put? {
      var a, b := Perform(Perform(s, p1, f1, m1, e1), p2, f2, m2, e2),
        Perform(Perform(s, p2, f2, m2, e2), p1, f1, m1, e1);
      assert a.mnodes == b.mnodes;
      if p1 == p2 {
        assert s.procs[p1][f1 := Some(e1.d)][f2 := Some(e2.d)] == s.procs[p1][f2 := Some(e2.d)][f1 := Some(e1.d)];
      }
      assert a.procs == b.procs;
    }
  }

  /** Operations without a common log are writes whose mnodes hash apart. */
  lemma Unshared(a: Op, b: Op, nlogs: nat)
    requires nlogs > 0 && !ShareLog(a, b, nlogs)
    ensures a.FileWrite? && b.FileWrite? && LogOf(a.mnode, nlogs) != LogOf(b.mnode, nlogs)
  {
    var log := if a.FileWrite? then LogOf(a.mnode, nlogs) else if b.FileWrite? then LogOf(b.mnode, nlogs) else 0;
    assert GoesTo(a, log, nlogs);
    assert !GoesTo(b, log, nlogs);
  }

  /** After `a`, the write `b` finds the same descriptor, does the same and answers the same. */
  lemma WritesApart(s: State, a: Op, b: Op, nlogs: nat)
    requires nlogs > 0 && a.FileWrite? && b.FileWrite? && LogOf(a.mnode, nlogs) != LogOf(b.mnode, nlogs)
    requires Carries(s, a, nlogs) && Carries(s, b, nlogs)
    ensures Apply(Apply(s, a).0, b).1 == Apply(s, b).1
    ensures Carries(Apply(s, a).0, b, nlogs)
    ensures Apply(Apply(s, a).0, b).0 == Apply(Apply(s, b).0, a).0
  {
    hide ApplyWrite, WriteEffect, Written, Has;
    var da, db := GetFd(s, a.pid, a.fd), GetFd(s, b.pid, b.fd);
    if da.None? {
      ClosedWrite(s, a.pid, a.fd, a.data, a.offset);
      if db.Some? {
        WriteIsEffect(s, b.pid, b.fd, b.data, b.offset);
      } else {
        ClosedWrite(s, b.pid, b.fd, b.data, b.offset);
      }
      ClosedWrite(Apply(s, b).0, a.pid, a.fd, a.data, a.offset);
    } else if db.None? {
      WriteIsEffect(s, a.pid, a.fd, a.data, a.offset);
      ClosedWrite(s, b.pid, b.fd, b.data, b.offset);
      ClosedWrite(Apply(s, a).0, b.pid, b.fd, b.data, b.offset);
    } else {
      BothOpen(s, a, b, nlogs);
    }
  }

  lemma BothOpen(s: State, a: Op, b: Op, nlogs: nat)
    requires nlogs > 0 && a.FileWrite? && b.FileWrite? && LogOf(a.mnode, nlogs) != LogOf(b.mnode, nlogs)
    requires Carries(s, a, nlogs) && Carries(s, b, nlogs)
    requires GetFd(s, a.pid, a.fd).Some? && GetFd(s, b.pid, b.fd).Some?
    ensures Apply(Apply(s, a).0, b).1 == Apply(s, b).1
    ensures Carries(Apply(s, a).0, b, nlogs)
    ensures Apply(Apply(s, a).0, b).0 == Apply(Apply(s, b).0, a).0
  {
    hide ApplyWrite, WriteEffect, Written, Has, Perform;
    var da, db := GetFd(s, a.pid, a.fd).value, GetFd(s, b.pid, b.fd).value;
    var ea := WriteEffect(da, NodeAt(s, da.mnode), a.data, a.offset).0;
    var eb := WriteEffect(db, NodeAt(s, db.mnode), b.data, b.offset).0;
    WriteIsEffect(s, a.pid, a.fd, a.data, a.offset);
    WriteIsEffect(s, b.pid, b.fd, b.data, b.offset);
    PerformCommutes(s, a.pid, a.fd, da.mnode, ea, b.pid, b.fd, db.mnode, eb);
    PerformCommutes(s, b.pid, b.fd, db.mnode, eb, a.pid, a.fd, da.mnode, ea);
    WriteIsEffect(Apply(s, a).0, b.pid, b.fd, b.data, b.offset);
    WriteIsEffect(Apply(s, b).0, a.pid, a.fd, a.data, a.offset);
  }

  // ----- reordering

  /** Swapping the first two operations, which share no log. */
  lemma SwapFront(s: State, ops: seq<Op>, nlogs: nat, x: nat, y: nat, rest: seq<nat>)
    requires nlogs > 0 && x != y && x < |ops| && y < |ops| && InRange(ops, rest)
    requires !ShareLog(ops[x], ops[y], nlogs) && AllCarry(s, ops, nlogs, [x, y] + rest)
    ensures Run(s, ops, [y, x] + rest) == Run(s, ops, [x, y] + rest)
    ensures AllCarry(s, ops, nlogs, [y, x] + rest)
  {
    hide Apply, Carries;
    var a, b := ops[x], ops[y];
    Unshared(a, b, nlogs);
    assert ([x, y] + rest)[1..] == [y] + rest && ([y, x] + rest)[1..] == [x] + rest;
    assert ([y] + rest)[1..] == rest && ([x] + rest)[1..] == rest;
    TwoSteps(s, ops, nlogs, x, y, rest);
    TwoSteps(s, ops, nlogs, y, x, rest);
    CarriesBack(s, a, b, nlogs);
    WritesApart(s, a, b, nlogs);
    WritesApart(s, b, a, nlogs);
    var (_, responses) := Run(Apply(Apply(s, a).0, b).0, ops, rest);
    assert responses[y := Apply(s, b).1][x := Apply(s, a).1] == responses[x := Apply(s, a).1][y := Apply(s, b).1];
  }

  /** The descriptor of a write is the same before and after another write. */
  lemma CarriesBack(s: State, a: Op, b: Op, nlogs: nat)
    requires nlogs > 0 && a.FileWrite? && b.FileWrite? && Carries(Apply(s, a).0, b, nlogs)
    ensures Carries(s, b, nlogs)
  {
    hide WriteEffect, Written;
    if GetFd(s, a.pid, a.fd).Some? {
      WriteIsEffect(s, a.pid, a.fd, a.data, a.offset);
      var d := GetFd(s, a.pid, a.fd).value;
      EffectKeepsMnode(d, NodeAt(s, d.mnode), a.data, a.offset);
    } else {
      ClosedWrite(s, a.pid, a.fd, a.data, a.offset);
    }
  }

  lemma EffectKeepsMnode(d: Fd, node: Option<Node>, data: seq<Byte>, offset: Offset)
    ensures var e := WriteEffect(d, node, data, offset).0; e.Put? ==> e.d.mnode == d.mnode
  {
  }

  lemma TwoSteps(s: State, ops: seq<Op>, nlogs: nat, x: nat, y: nat, rest: seq<nat>)
    requires nlogs > 0 && x < |ops| && y < |ops| && InRange(ops, rest)
    ensures var s1 := Apply(s, ops[x]).0;
      var s2 := Apply(s1, ops[y]).0;
      var (s3, responses) := Run(s2, ops, rest);
      && Run(s, ops, [x, y] + rest) == (s3, responses[y := Apply(s1, ops[y]).1][x := Apply(s, ops[x]).1])
      && (AllCarry(s, ops, nlogs, [x, y] + rest) <==>
        Carries(s, ops[x], nlogs) && Carries(s1, ops[y], nlogs) && AllCarry(s2, ops, nlogs, rest))
  {
    hide Apply, Carries;
    assert ([x, y] + rest)[1..] == [y] + rest && ([y] + rest)[1..] == rest;
  }

  lemma OneStep(s: State, ops: seq<Op>, nlogs: nat, x: nat, rest: seq<nat>)
    requires nlogs > 0 && x < |ops| && InRange(ops, rest)
    ensures var s1 := Apply(s, ops[x]).0;
      && Run(s, ops, [x] + rest) == (Run(s1, ops, rest).0, Run(s1, ops, rest).1[x := Apply(s, ops[x]).1])
      && (AllCarry(s, ops, nlogs, [x] + rest) <==> Carries(s, ops[x], nlogs) && AllCarry(s1, ops, nlogs, rest))
  {
    hide Apply, Carries;
    assert ([x] + rest)[1..] == rest;
  }

  /** The first operation moves behind operations it shares no log with. */
  lemma {:induction false} MoveRight(s: State, ops: seq<Op>, nlogs: nat, x: nat, pre: seq<nat>, post: seq<nat>)
    requires nlogs > 0 && x < |ops|
    requires InRange(ops, pre) && InRange(ops, post)
    requires forall i :: 0 <= i < |pre| ==> pre[i] != x && !ShareLog(ops[x], ops[pre[i]], nlogs)
    requires AllCarry(s, ops, nlogs, [x] + (pre + post))
    ensures Run(s, ops, pre + ([x] + post)) == Run(s, ops, [x] + (pre + post))
    ensures AllCarry(s, ops, nlogs, pre + ([x] + post))
    decreases |pre|
  {
    hide Apply, Carries, Run, AllCarry, ShareLog;
    if pre == [] {
      assert pre + ([x] + post) == [x] + post && pre + post == post;
    } else {
      var y, pre' := pre[0], pre[1..];
      var rest := pre' + post;
      assert [x] + (pre + post) == [x, y] + rest;
      assert pre[0] == y && !ShareLog(ops[x], ops[y], nlogs);
      SwapFront(s, ops, nlogs, x, y, rest);
      assert [y, x] + rest == [y] + ([x] + rest);
      OneStep(s, ops, nlogs, y, [x] + rest);
      forall i | 0 <= i < |pre'| ensures pre'[i] != x && !ShareLog(ops[x], ops[pre'[i]], nlogs) {
        assert pre'[i] == pre[i + 1];
      }
      MoveRight(Apply(s, ops[y]).0, ops, nlogs, x, pre', post);
      OneStep(s, ops, nlogs, y, pre' + ([x] + post));
      assert pre + ([x] + post) == [y] + (pre' + ([x] + post));
    }
  }

  /** The positions of `o2` without position `k`. */
  function Skip(i: nat, k: nat): nat {
    if i < k then i else i + 1
  }

  /** What comes before the first operation of the other order shares no log with it. */
  lemma NothingShared(ops: seq<Op>, nlogs: nat, o1: seq<nat>, o2: seq<nat>, k: nat)
    requires nlogs > 0 && SameLogs(ops, nlogs, o1, o2) && o1 != [] && k < |o2| && o2[k] == o1[0]
    ensures forall i :: 0 <= i < k ==> o2[i] != o1[0] && !ShareLog(ops[o1[0]], ops[o2[i]], nlogs)
  {
    hide ShareLog;
    forall i | 0 <= i < k ensures o2[i] != o1[0] && !ShareLog(ops[o1[0]], ops[o2[i]], nlogs) {
      assert !Before(o1, o2[i], o1[0]);
      SharedBoth(ops[o2[i]], ops[o1[0]], nlogs);
    }
  }

  /** Leaving one operation out of both orders. */
  lemma Without(ops: seq<Op>, nlogs: nat, o1: seq<nat>, o2: seq<nat>, k: nat)
    requires nlogs > 0 && SameLogs(ops, nlogs, o1, o2) && o1 != [] && k < |o2| && o2[k] == o1[0]
    ensures SameLogs(ops, nlogs, o1[1..], o2[..k] + o2[k + 1..])
  {
    hide ShareLog;
    var r1, r2 := o1[1..], o2[..k] + o2[k + 1..];
    assert forall i :: 0 <= i < |r2| ==> r2[i] == o2[Skip(i, k)];
    assert Distinct(r2) && InRange(ops, r2);
    forall z ensures z in r1 <==> z in r2 {
      assert z in r1 <==> z in o1 && z != o1[0];
      assert z in r2 <==> z in o2 && z != o1[0];
    }
    forall i, j | 0 <= i < j < |r2| && ShareLog(ops[r2[i]], ops[r2[j]], nlogs) ensures Before(r1, r2[i], r2[j]) {
      var z, w := r2[i], r2[j];
      assert z == o2[Skip(i, k)] && w == o2[Skip(j, k)] && Skip(i, k) < Skip(j, k);
      assert Before(o1, z, w);
      LaterBefore(o1, z, w);
    }
  }

  lemma LaterBefore(o1: seq<nat>, z: nat, w: nat)
    requires o1 != [] && Distinct(o1) && Before(o1, z, w) && z != o1[0]
    ensures Before(o1[1..], z, w)
  {
    var i, j :| 0 <= i < j < |o1| && o1[i] == z && o1[j] == w;
    assert o1[1..][i - 1] == z && o1[1..][j - 1] == w;
  }

  lemma SharedBoth(a: Op, b: Op, nlogs: nat)
    requires nlogs > 0
    ensures ShareLog(a, b, nlogs) <==> ShareLog(b, a, nlogs)
  {
  }

  /**
   Convergence: two orders that agree on every pair of operations with a common log give the same
   state, and the same response to every operation. If the writes go to the right logs in one of
   the orders, they do in both.
   */
  lemma {:induction false} Converge(s: State, ops: seq<Op>, nlogs: nat, o1: seq<nat>, o2: seq<nat>)
    requires nlogs > 0 && SameLogs(ops, nlogs, o1, o2) && AllCarry(s, ops, nlogs, o1)
    ensures Run(s, ops, o2) == Run(s, ops, o1) && AllCarry(s, ops, nlogs, o2)
    decreases |o1|
  {
    hide Apply, Carries, Run, AllCarry, ShareLog, Distinct, Before;
    if o1 == [] {
    } else {
      var x, r1 := o1[0], o1[1..];
      var k := Position(ops, nlogs, o1, o2);
      var pre, post := o2[..k], o2[k + 1..];
      Without(ops, nlogs, o1, o2, k);
      NothingShared(ops, nlogs, o1, o2, k);
      assert o1 == [x] + r1;
      OneStep(s, ops, nlogs, x, r1);
      Converge(Apply(s, ops[x]).0, ops, nlogs, r1, pre + post);
      OneStep(s, ops, nlogs, x, pre + post);
      MoveRight(s, ops, nlogs, x, pre, post);
      assert o2 == pre + ([x] + post);
    }
  }

  lemma Position(ops: seq<Op>, nlogs: nat, o1: seq<nat>, o2: seq<nat>) returns (k: nat)
    requires nlogs > 0 && SameLogs(ops, nlogs, o1, o2) && o1 != []
    ensures k < |o2| && o2[k] == o1[0]
  {
    assert o1[0] in o1;
    k :| k < |o2| && o2[k] == o1[0];
  }

  // ----- what convergence needs

  /** The order of the two operations changes neither the state nor a response. */
  ghost predicate Irrelevant(s: State, a: Op, b: Op) {
    && Apply(Apply(s, a).0, b).0 == Apply(Apply(s, b).0, a).0
    && Apply(Apply(s, a).0, b).1 == Apply(s, b).1 && Apply(Apply(s, b).0, a).1 == Apply(s, a).1
  }

  /** A write that will be carried out: through an open, writable descriptor of a writable file. */
  ghost predicate Effective(s: State, op: Op) {
    op.FileWrite? && GetFd(s, op.pid, op.fd).Some? &&
    var d := GetFd(s, op.pid, op.fd).value;
    Has(d.flags, O_WRONLY) && d.mnode in s.mnodes && Writable(s.mnodes[d.mnode])
  }

  /** The file a write goes to, afterwards. */
  lemma EffectiveWrite(s: State, op: Op)
    requires Effective(s, op)
    ensures var d := GetFd(s, op.pid, op.fd).value;
      var at := WriteAt(s, d, op.offset);
      var s' := Apply(s, op).0;
      && at.Some? && d.mnode in s'.mnodes
      && s'.mnodes[d.mnode] == s.mnodes[d.mnode].(contents := Written(s.mnodes[d.mnode].contents, at.value, op.data))
      && (op.offset.Explicit? ==> s'.procs == s.procs)
      && GetFd(s', op.pid, op.fd).Some? && GetFd(s', op.pid, op.fd).value.mnode == d.mnode
      && GetFd(s', op.pid, op.fd).value.flags == d.flags
  {
    hide Has, Written;
  }

  /**
   A write whose mnode hashes away from its descriptor's: there is another write, in the right log and
   without a common log, such that the two orders leave different files.
   */
  lemma StaleMnodeDiverges(s: State, nlogs: nat, op: Op) returns (b: Op)
    requires nlogs > 0 && Effective(s, op) && op.data != []
    requires LogOf(op.mnode, nlogs) != LogOf(GetFd(s, op.pid, op.fd).value.mnode, nlogs)
    ensures Carries(s, b, nlogs) && !ShareLog(op, b, nlogs)
    ensures Apply(Apply(s, op).0, b).0 != Apply(Apply(s, b).0, op).0
  {
    hide Has, Written, ApplyWrite;
    var d := GetFd(s, op.pid, op.fd).value;
    var at := WriteAt(s, d, op.offset).value;
    var y: Byte := if op.data[0] == 0 then 1 else 0;
    b := FileWrite(op.pid, op.fd, d.mnode, [y], Explicit(at));
    var first, second := Apply(s, op).0, Apply(s, b).0;
    EffectiveWrite(s, op);
    EffectiveWrite(s, b);
    EffectiveWrite(first, b);
    EffectiveWrite(second, op);
    var c := s.mnodes[d.mnode].contents;
    assert second.procs == s.procs;
    WrittenBytes(Written(c, at, op.data), at, [y]);
    WrittenBytes(Written(c, at, [y]), at, op.data);
    FirstByte(Written(Written(c, at, op.data), at, [y]), at, [y]);
    FirstByte(Written(Written(c, at, [y]), at, op.data), at, op.data);
  }

  lemma FirstByte(c: seq<Byte>, at: nat, data: seq<Byte>)
    requires data != [] && at + |data| <= |c| && c[at..at + |data|] == data
    ensures c[at] == data[0]
  {
    assert c[at..at + |data|][0] == data[0];
  }

  /**
   Exactly when convergence has nothing to fear from a write: its order against every write in its
   right log, with no log in common, is irrelevant if and only if it is in its right log itself.
   */
  lemma IrrelevantIffCarried(s: State, nlogs: nat, op: Op)
    requires nlogs > 0 && Effective(s, op) && op.data != []
    ensures (forall b: Op :: Carries(s, b, nlogs) && !ShareLog(op, b, nlogs) ==> Irrelevant(s, op, b)) <==>
      Carries(s, op, nlogs)
  {
    hide Apply, Effective;
    if Carries(s, op, nlogs) {
      forall b: Op | Carries(s, b, nlogs) && !ShareLog(op, b, nlogs) ensures Irrelevant(s, op, b) {
        Unshared(op, b, nlogs);
        WritesApart(s, op, b, nlogs);
        UnsharedBack(op, b, nlogs);
        WritesApart(s, b, op, nlogs);
      }
    } else {
      var b := StaleMnodeDiverges(s, nlogs, op);
      assert !Irrelevant(s, op, b);
    }
  }

  lemma UnsharedBack(a: Op, b: Op, nlogs: nat)
    requires nlogs > 0 && !ShareLog(a, b, nlogs)
    ensures !ShareLog(b, a, nlogs)
  {
    SharedBoth(a, b, nlogs);
  }

  /** And then two orders that agree on every common log end in different states. */
  lemma StaleOrdersDiverge(s: State, nlogs: nat, op: Op) returns (ops: seq<Op>)
    requires nlogs > 0 && Effective(s, op) && op.data != [] && !Carries(s, op, nlogs)
    ensures |ops| == 2 && ops[0] == op && Carries(s, ops[1], nlogs)
    ensures SameLogs(ops, nlogs, [0, 1], [1, 0]) && Run(s, ops, [0, 1]).0 != Run(s, ops, [1, 0]).0
  {
    hide Apply, Effective, ShareLog;
    var b := StaleMnodeDiverges(s, nlogs, op);
    UnsharedBack(op, b, nlogs);
    ops := [op, b];
    TwoSteps(s, ops, nlogs, 0, 1, []);
    TwoSteps(s, ops, nlogs, 1, 0, []);
    assert [0, 1] + [] == [0, 1] && [1, 0] + [] == [1, 0];
  }

  // ----- replicas with paged files

  /** No write of the run is short of pages. */
  ghost predicate EnoughMemory(s: State, ops: seq<Op>, order: seq<nat>, memory: nat)
    requires InRange(ops, order)
    decreases |order|
  {
    order != [] ==>
      !Exhausted(s, ops[order[0]], memory) && EnoughMemory(Apply(s, ops[order[0]]).0, ops, order[1..], memory)
  }

  /** A replica applies operations to its nodes in place. */
  method Replay(node: KernelNode, ops: seq<Op>, order: seq<nat>, memory: nat) returns (responses: map<nat, Response>)
    requires node.Valid() && InRange(ops, order) && EnoughMemory(node.Abs(), ops, order, memory)
    modifies node, node.Footprint()
    ensures node.Valid() && fresh(node.Footprint() - old(node.Footprint()))
    ensures (node.Abs(), responses) == Run(old(node.Abs()), ops, order)
    decreases |order|
  {
    hide Apply, Exhausted, KernelNode.Valid, KernelNode.Abs;
    if order == [] {
      return map[];
    }
    var r := node.DispatchMut(ops[order[0]], memory);
    responses := Replay(node, ops, order[1..], memory);
    responses := responses[order[0] := r];
  }

  /** Two replicas that start from the beginning and apply the logs in their own orders end up equal. */
  method Replicate(ops: seq<Op>, nlogs: nat, o1: seq<nat>, o2: seq<nat>, memory: nat)
    returns (a: KernelNode, b: KernelNode, r1: map<nat, Response>, r2: map<nat, Response>)
    requires nlogs > 0 && SameLogs(ops, nlogs, o1, o2) && AllCarry(Boot(), ops, nlogs, o1)
    requires EnoughMemory(Boot(), ops, o1, memory) && EnoughMemory(Boot(), ops, o2, memory)
    ensures a.Valid() && b.Valid() && a.Abs() == b.Abs() && r1 == r2
  {
    hide Run, AllCarry, EnoughMemory, ShareLog, Boot;
    Converge(Boot(), ops, nlogs, o1, o2);
    a := new KernelNode();
    r1 := Replay(a, ops, o1, memory);
    b := new KernelNode();
    r2 := Replay(b, ops, o2, memory);
  }
}
