/** What every reachable state of the lifecycle satisfies, proved operation by
    operation from two facts: the locks exclude each other, and a step changes
    only what its locks protect. */
module LifecycleInv {
  import opened Prelude
  import opened Lifecycle

  // ---- the invariant -------------------------------------------------------------------

  ghost predicate DistinctIdentities(store: map<Id, Rec>) {
    forall i, j :: i in store && j in store && i != j ==> !SameIdentity(store[i], store[j])
  }

  ghost predicate DistinctIfaces(store: map<Id, Rec>) {
    forall i, j :: i in store && j in store && i != j ==> Iface(i) != Iface(j)
  }

  ghost predicate NoIdentity(store: map<Id, Rec>, req: Request)
    requires req.Add?
  {
    forall i :: i in store ==> !HasIdentity(store[i], req)
  }

  /** No two operations hold the same lock. */
  ghost predicate Exclusive(ops: map<nat, Op>) {
    forall t, u :: t in ops && u in ops && t != u ==> Compatible(ops[t], ops[u])
  }

  ghost predicate Compatible(a: Op, b: Op) {
    && !(HoldsIndex(a) && HoldsIndex(b))
    && (forall id :: !(HoldsConn(a, id) && HoldsConn(b, id)))
    && !(HoldsNet(a) && HoldsNet(b))
  }

  ghost predicate OpOk(d: Disk, op: Op) { Typed(op) && Target(d, op) && Knows(d, op) }

  /** A worker's record was stored once; it is still, or it has been deleted. */
  predicate Target(d: Disk, op: Op) {
    (op.req.Connect? || op.req.Disconnect?) ==> op.req.id in d.store || op.req.id in d.dead
  }

  /** The step belongs to the program of the request. */
  predicate Typed(op: Op) {
    match op.pc
    case AddLockIndex | AddFind | AddFindName | AddAuth | AddAllocate | AddCreate(_)
       | ReCheck(_, _) | ReLock(_, _) | ReWrite(_, _) => op.req.Add?
    case RmLockIndex | RmLoad | RmLock | RmCheck | RmAuth | RmDelete => op.req.Remove?
    case MoLock | MoLoad | MoWrite(_) => op.req.SetMode?
    case CoLock | CoIntent | CoClear(_) | CoLoad | CoProbe | CoPreUp | CoLockNet | CoStart
       | CoPostUp | CoLockNetAgain | CoRollback | CoSave => op.req.Connect?
    case DiLock | DiMark | DiSet(_) | DiLoad | DiLockNet | DiDown | DiClear => op.req.Disconnect?
    case Done => true
  }

  /** What an operation knows at each step, thanks to the locks it holds. */
  ghost predicate Knows(d: Disk, op: Op)
    requires Typed(op)
  {
    match op.pc
    case AddFindName => NoIdentity(d.store, op.req)
    case AddAuth => NoIdentity(d.store, op.req) && NameFree(d, op.req)
    case AddAllocate => NoIdentity(d.store, op.req) && NameFree(d, op.req)
    case AddCreate(id) =>
      && NoIdentity(d.store, op.req) && NameFree(d, op.req)
      && id in d.ever && id !in d.store && id !in d.dead && IfaceFree(d.store, id)
    case ReCheck(id, snap) => Snapshot(d, id, snap)
    case ReLock(id, snap) => Snapshot(d, id, snap) && RenameFree(d, op.req, id, snap)
    case ReWrite(id, snap) => Snapshot(d, id, snap) && RenameFree(d, op.req, id, snap)
    case RmLock => op.req.id in d.store
    case RmCheck => op.req.id in d.store
    case RmAuth => op.req.id in d.store && !IsActive(d, op.req.id)
    case RmDelete => op.req.id in d.store && !IsActive(d, op.req.id)
    case MoWrite(r) => Current(d, op.req.id, r)
    case CoClear(r) => op.req.why == UserConnect && Current(d, op.req.id, r)
    case CoLoad => op.req.id in d.store ==> !d.store[op.req.id].userDisconnected
    case CoProbe => Wanted(d, op.req.id)
    case CoPreUp => Wanted(d, op.req.id)
    case CoLockNet => Wanted(d, op.req.id)
    case CoStart => Wanted(d, op.req.id)
    case DiSet(r) => op.req.reason == UserDisconnect && Current(d, op.req.id, r)
    case DiLoad => op.req.reason == UserDisconnect ==> Unwanted(d, op.req.id)
    case DiLockNet => op.req.id in d.store && (op.req.reason == UserDisconnect ==> Unwanted(d, op.req.id))
    case DiDown => op.req.id in d.store && (op.req.reason == UserDisconnect ==> Unwanted(d, op.req.id))
    case _ => true
  }

  predicate NameFree(d: Disk, req: Request)
    requires req.Add?
  {
    req.force || !NameTaken(d.store, req.name, req.global, req.owner, {})
  }

  ghost predicate IfaceFree(store: map<Id, Rec>, id: Id) { forall i :: i in store ==> Iface(i) != Iface(id) }

  /** The snapshot still has the record's identity and name; its mode and flag
      may be stale. */
  predicate Snapshot(d: Disk, id: Id, snap: Rec) {
    id in d.store && SameIdentity(snap, d.store[id]) && snap.name == d.store[id].name
  }

  predicate RenameFree(d: Disk, req: Request, id: Id, snap: Rec)
    requires req.Add?
  {
    NameChanged(req, snap) && !req.force ==> !NameTaken(d.store, req.name, snap.global, snap.owner, {id})
  }

  predicate Current(d: Disk, id: Id, r: Rec) { id in d.store && d.store[id] == r }

  predicate Wanted(d: Disk, id: Id) { id in d.store && !d.store[id].userDisconnected }

  predicate Unwanted(d: Disk, id: Id) { id in d.store ==> d.store[id].userDisconnected }

  ghost predicate StoreOk(d: Disk) {
    && d.store.Keys <= d.ever && d.dead <= d.ever && d.dead !! d.store.Keys
    && DistinctIdentities(d.store) && DistinctIfaces(d.store)
  }

  ghost predicate AllOpsOk(s: State) { forall t :: t in s.ops ==> OpOk(s.disk, s.ops[t]) }

  ghost predicate Inv(s: State) { StoreOk(s.disk) && Exclusive(s.ops) && AllOpsOk(s) }

  // ---- what a step may change --------------------------------------------------------------

  /** The footprint of one step of `op`. */
  ghost predicate Frame(d: Disk, d': Disk, op: Op) {
    && d.ever <= d'.ever && d.dead <= d'.dead
    && (forall x :: x in d'.dead && x !in d.dead ==> x in d.store && HoldsConn(op, x))
    && (forall x :: x in d.store && x in d'.store ==> SameIdentity(d.store[x], d'.store[x]))
    && (forall x :: x in d.store ==> x in d'.store || x in d'.dead)
    && (forall x :: x in d.store && !HoldsConn(op, x) ==> x in d'.store && d'.store[x] == d.store[x])
    && (forall x :: x in d'.store && x !in d.store ==> op.pc == AddCreate(x) && !d'.store[x].userDisconnected)
    && (!HoldsIndex(op) ==> d'.store.Keys == d.store.Keys && d'.ever == d.ever)
    && (forall x :: !HoldsIndex(op) && x in d.store && x in d'.store ==> d'.store[x].name == d.store[x].name)
    && (forall x :: !HoldsConn(op, x) && IsActive(d', x) ==> IsActive(d, x))
  }

  lemma FrameSame(d: Disk, op: Op)
    ensures Frame(d, d, op)
  {
  }

  lemma FrameCreate(d: Disk, op: Op, id: Id, r: Rec)
    requires op.pc == AddCreate(id) && id !in d.store && !r.userDisconnected
    ensures Frame(d, Write(d, id, r), op)
  {
  }

  lemma FrameWriteBack(d: Disk, op: Op, id: Id, snap: Rec)
    requires op.req.Add? && op.pc == ReWrite(id, snap) && Snapshot(d, id, snap)
    ensures Frame(d, Write(d, id, WriteBack(op.req, snap)), op)
  {
  }

  lemma FrameAdd(d: Disk, op: Op, ok: bool, pick: Id)
    requires op.req.Add? && OpOk(d, op)
    ensures Frame(d, StepAdd(d, op, ok, pick).0, op)
  {
    hide Frame, NameTaken, HasIdentity, NoIdentity, Iface, NameFree, RenameFree, Snapshot, WriteBack, NameChanged, ModeChanged;
    var req := op.req;
    FrameSame(d, op);
    match op.pc {
      case AddAllocate => FrameAllocate(d, op, pick);
      case AddCreate(id) => FrameCreate(d, op, id, Rec(req.fingerprint, req.global, req.owner, req.mode, req.name, false));
      case ReWrite(id, snap) => FrameWriteBack(d, op, id, snap);
      case _ =>
    }
  }

  lemma FrameAllocate(d: Disk, op: Op, pick: Id)
    requires op.pc == AddAllocate
    ensures Frame(d, d.(ever := d.ever + {pick}), op)
  {
  }

  lemma FrameRemove(d: Disk, op: Op, ok: bool)
    requires op.req.Remove? && OpOk(d, op)
    ensures Frame(d, StepRemove(d, op, ok).0, op)
  {
    hide Load;
  }

  lemma FrameMode(d: Disk, op: Op, ok: bool)
    requires op.req.SetMode? && OpOk(d, op)
    ensures Frame(d, StepMode(d, op, ok).0, op)
  {
    hide Load;
  }

  lemma FrameConnect(d: Disk, op: Op, ok: bool, up: bool)
    requires op.req.Connect? && OpOk(d, op)
    ensures Frame(d, StepConnect(d, op, ok, up).0, op)
  {
    hide Load;
  }

  lemma FrameDisconnect(d: Disk, op: Op, ok: bool, up: bool)
    requires op.req.Disconnect? && OpOk(d, op)
    ensures Frame(d, StepDisconnect(d, op, ok, up).0, op)
  {
    hide Load;
  }

  lemma StepFrame(d: Disk, op: Op, ok: bool, pick: Id, up: bool)
    requires OpOk(d, op)
    ensures Frame(d, StepPc(d, op, ok, pick, up).0, op)
  {
    hide Frame, OpOk, StepAdd, StepRemove, StepMode, StepConnect, StepDisconnect;
    match op.req {
      case Add(_, _, _, _, _, _) => FrameAdd(d, op, ok, pick);
      case Remove(_) => FrameRemove(d, op, ok);
      case SetMode(_, _) => FrameMode(d, op, ok);
      case Connect(_, _) => FrameConnect(d, op, ok, up);
      case Disconnect(_, _) => FrameDisconnect(d, op, ok, up);
    }
  }

  // ---- the other operations -----------------------------------------------------------------

  /** What an operation knows survives a step of another one. */
  lemma OthersKeepOk(d: Disk, d': Disk, op: Op, other: Op)
    requires Frame(d, d', op) && Compatible(op, other) && OpOk(d, other) && StoreOk(d) && OpOk(d, op)
    ensures OpOk(d', other)
  {
    if HoldsIndex(other) {
      if other.req.Add? { AdderKeepsOk(d, d', op, other); } else { RemoverKeepsOk(d, d', op, other); }
    } else {
      ConnHolderKeepsOk(d, d', op, other);
    }
  }

  lemma AdderKeepsOk(d: Disk, d': Disk, op: Op, other: Op)
    requires Frame(d, d', op) && Compatible(op, other) && OpOk(d, other) && HoldsIndex(other) && other.req.Add?
    ensures OpOk(d', other)
  {
    SameNames(d, d', op);
    NameTakenSame(d, d', other.req.name, other.req.global, other.req.owner, {});
    if other.pc.ReLock? || other.pc.ReWrite? {
      NameTakenSame(d, d', other.req.name, other.pc.snapshot.global, other.pc.snapshot.owner, {other.pc.id});
    }
    assert NoIdentity(d.store, other.req) ==> NoIdentity(d'.store, other.req);
    hide NameTaken;
  }

  lemma RemoverKeepsOk(d: Disk, d': Disk, op: Op, other: Op)
    requires Frame(d, d', op) && Compatible(op, other) && OpOk(d, other) && HoldsIndex(other) && other.req.Remove?
    ensures OpOk(d', other)
  {
    assert HoldsConn(other, other.req.id) ==> !HoldsConn(op, other.req.id);
  }

  /** Without the index lock names and identities stay. */
  lemma SameNames(d: Disk, d': Disk, op: Op)
    requires Frame(d, d', op) && !HoldsIndex(op)
    ensures d'.store.Keys == d.store.Keys
    ensures forall x :: x in d.store ==> d'.store[x].name == d.store[x].name && SameIdentity(d.store[x], d'.store[x])
  {
  }

  lemma NameTakenSame(d: Disk, d': Disk, name: Option<string>, global: bool, owner: Option<nat>, except: set<Id>)
    requires d'.store.Keys == d.store.Keys
    requires forall x :: x in d.store ==> d'.store[x].name == d.store[x].name && SameIdentity(d.store[x], d'.store[x])
    ensures NameTaken(d'.store, name, global, owner, except) <==> NameTaken(d.store, name, global, owner, except)
  {
    forall i | i in d.store
      ensures i in d'.store && d'.store[i].name == d.store[i].name && d'.store[i].global == d.store[i].global
              && d'.store[i].owner == d.store[i].owner
    {
    }
  }

  /** A worker's record is never created under it: fresh identifiers are neither
      stored nor deleted ones. */
  lemma CreatesNoTarget(d: Disk, d': Disk, op: Op, other: Op)
    requires Frame(d, d', op) && Target(d, other) && StoreOk(d) && OpOk(d, op)
    ensures (other.req.Connect? || other.req.Disconnect?) && other.req.id !in d.store ==> other.req.id !in d'.store
    ensures Target(d', other)
  {
  }

  lemma ConnHolderKeepsOk(d: Disk, d': Disk, op: Op, other: Op)
    requires Frame(d, d', op) && Compatible(op, other) && OpOk(d, other) && !HoldsIndex(other) && StoreOk(d) && OpOk(d, op)
    ensures OpOk(d', other)
  {
    CreatesNoTarget(d, d', op, other);
    match other.req {
      case SetMode(id, _) => assert HoldsConn(other, id) ==> !HoldsConn(op, id);
      case Connect(id, _) => assert HoldsConn(other, id) ==> !HoldsConn(op, id);
      case Disconnect(id, _) => assert HoldsConn(other, id) ==> !HoldsConn(op, id);
      case _ =>
    }
  }

  // ---- the stepping operation ----------------------------------------------------------------

  lemma OwnAdd(d: Disk, op: Op, ok: bool, pick: Id)
    requires op.req.Add? && OpOk(d, op) && StoreOk(d)
    ensures var (d', pc) := StepAdd(d, op, ok, pick); OpOk(d', op.(pc := pc))
  {
    hide WriteBack;
  }

  lemma OwnRemove(d: Disk, op: Op, ok: bool)
    requires op.req.Remove? && OpOk(d, op)
    ensures var (d', pc) := StepRemove(d, op, ok); OpOk(d', op.(pc := pc))
  {
  }

  lemma OwnMode(d: Disk, op: Op, ok: bool)
    requires op.req.SetMode? && OpOk(d, op)
    ensures var (d', pc) := StepMode(d, op, ok); OpOk(d', op.(pc := pc))
  {
  }

  lemma OwnConnect(d: Disk, op: Op, ok: bool, up: bool)
    requires op.req.Connect? && OpOk(d, op)
    ensures var (d', pc) := StepConnect(d, op, ok, up); OpOk(d', op.(pc := pc))
  {
  }

  lemma OwnDisconnect(d: Disk, op: Op, ok: bool, up: bool)
    requires op.req.Disconnect? && OpOk(d, op)
    ensures var (d', pc) := StepDisconnect(d, op, ok, up); OpOk(d', op.(pc := pc))
  {
  }

  /** After its own step an operation knows what its new place claims. */
  lemma OwnStep(d: Disk, op: Op, ok: bool, pick: Id, up: bool)
    requires OpOk(d, op) && StoreOk(d)
    ensures var (d', pc) := StepPc(d, op, ok, pick, up); OpOk(d', op.(pc := pc))
  {
    hide OpOk, StoreOk, StepAdd, StepRemove, StepMode, StepConnect, StepDisconnect;
    match op.req {
      case Add(_, _, _, _, _, _) => OwnAdd(d, op, ok, pick);
      case Remove(_) => OwnRemove(d, op, ok);
      case SetMode(_, _) => OwnMode(d, op, ok);
      case Connect(_, _) => OwnConnect(d, op, ok, up);
      case Disconnect(_, _) => OwnDisconnect(d, op, ok, up);
    }
  }

  // ---- locks ------------------------------------------------------------------------------------

  /** A step takes at most the lock it waited for. */
  ghost predicate TakesOnly(op: Op, op': Op) {
    && (HoldsIndex(op') ==> HoldsIndex(op) || WaitsFor(op) == ForIndex)
    && (forall id :: HoldsConn(op', id) ==> HoldsConn(op, id) || WaitsFor(op) == ForConn(id))
    && (HoldsNet(op') ==> HoldsNet(op) || WaitsFor(op) == ForNet)
  }

  lemma TakesAdd(d: Disk, op: Op, ok: bool, pick: Id)
    requires op.req.Add?
    ensures TakesOnly(op, op.(pc := StepAdd(d, op, ok, pick).1))
  {
    hide Load, StrictOk, NameTaken, HasIdentity, Iface, IsActive, Write, WriteBack, Landed, NameChanged, ModeChanged;
  }

  lemma TakesRemove(d: Disk, op: Op, ok: bool)
    requires op.req.Remove?
    ensures TakesOnly(op, op.(pc := StepRemove(d, op, ok).1))
  {
    hide Load, StrictOk, NameTaken, HasIdentity, Iface, IsActive, Write, WriteBack, Landed, NameChanged, ModeChanged;
  }

  lemma TakesMode(d: Disk, op: Op, ok: bool)
    requires op.req.SetMode?
    ensures TakesOnly(op, op.(pc := StepMode(d, op, ok).1))
  {
    hide Load, StrictOk, NameTaken, HasIdentity, Iface, IsActive, Write, WriteBack, Landed, NameChanged, ModeChanged;
  }

  lemma TakesConnect(d: Disk, op: Op, ok: bool, up: bool)
    requires op.req.Connect?
    ensures TakesOnly(op, op.(pc := StepConnect(d, op, ok, up).1))
  {
    hide Load, StrictOk, NameTaken, HasIdentity, Iface, IsActive, Write, WriteBack, Landed, NameChanged, ModeChanged;
  }

  lemma TakesDisconnect(d: Disk, op: Op, ok: bool, up: bool)
    requires op.req.Disconnect?
    ensures TakesOnly(op, op.(pc := StepDisconnect(d, op, ok, up).1))
  {
    hide Load, StrictOk, NameTaken, HasIdentity, Iface, IsActive, Write, WriteBack, Landed, NameChanged, ModeChanged;
  }

  lemma StepTakes(d: Disk, op: Op, ok: bool, pick: Id, up: bool)
    ensures TakesOnly(op, op.(pc := StepPc(d, op, ok, pick, up).1))
  {
    hide TakesOnly, StepAdd, StepRemove, StepMode, StepConnect, StepDisconnect;
    match op.req {
      case Add(_, _, _, _, _, _) => TakesAdd(d, op, ok, pick);
      case Remove(_) => TakesRemove(d, op, ok);
      case SetMode(_, _) => TakesMode(d, op, ok);
      case Connect(_, _) => TakesConnect(d, op, ok, up);
      case Disconnect(_, _) => TakesDisconnect(d, op, ok, up);
    }
  }

  /** Taking a free lock keeps the operations compatible. */
  lemma TakenIsCompatible(s: State, op: Op, op': Op, other: nat)
    requires other in s.ops && Compatible(op, s.ops[other]) && CanAdvance(s, op) && TakesOnly(op, op')
    ensures Compatible(op', s.ops[other]) && Compatible(s.ops[other], op')
  {
    var o := s.ops[other];
    forall id | HoldsConn(op', id)
      ensures !HoldsConn(o, id)
    {
      if WaitsFor(op) == ForConn(id) { assert ConnFree(s, id); }
    }
  }

  lemma ReplacedKeepsExclusive(ops: map<nat, Op>, t: nat, op: Op)
    requires Exclusive(ops)
    requires forall u :: u in ops && u != t ==> Compatible(op, ops[u]) && Compatible(ops[u], op)
    ensures Exclusive(ops[t := op])
  {
    hide Compatible;
    var ops' := ops[t := op];
    forall a, b | a in ops' && b in ops' && a != b
      ensures Compatible(ops'[a], ops'[b])
    {
      if a != t && b != t { assert Compatible(ops[a], ops[b]); }
    }
  }

  // ---- preservation -----------------------------------------------------------------------------

  /** What else a step says about the store: a new record is the one asked for,
      under its allocated id, and a deleted id is gone. */
  ghost predicate Accounted(d: Disk, d': Disk, op: Op) {
    && (d.store.Keys <= d.ever ==> d'.store.Keys <= d'.ever)
    && (forall x :: x in d'.dead && x !in d.dead ==> x !in d'.store)
    && (forall x :: x in d'.store && x !in d.store ==> op.req.Add? && HasIdentity(d'.store[x], op.req))
  }

  lemma StepAccounted(d: Disk, op: Op, ok: bool, pick: Id, up: bool)
    requires OpOk(d, op)
    ensures Accounted(d, StepPc(d, op, ok, pick, up).0, op)
  {
    hide Load, NameTaken, Iface, IsActive, Landed, NoIdentity, IfaceFree, NameFree, RenameFree;
  }

  lemma StoreStaysOk(d: Disk, d': Disk, op: Op)
    requires StoreOk(d) && OpOk(d, op) && Frame(d, d', op) && Accounted(d, d', op)
    ensures StoreOk(d')
  {
    forall i, j | i in d'.store && j in d'.store && i != j
      ensures !SameIdentity(d'.store[i], d'.store[j]) && Iface(i) != Iface(j)
    {
      assert i in d.store || j in d.store;
      if i in d.store && j in d.store {
        assert SameIdentity(d.store[i], d'.store[i]) && SameIdentity(d.store[j], d'.store[j]);
        assert !SameIdentity(d.store[i], d.store[j]);
      } else if i in d.store {
        assert op.pc == AddCreate(j);
        assert SameIdentity(d.store[i], d'.store[i]) && !HasIdentity(d.store[i], op.req);
      } else if j in d.store {
        assert op.pc == AddCreate(i);
        assert SameIdentity(d.store[j], d'.store[j]) && !HasIdentity(d.store[j], op.req);
      }
    }
  }

  lemma AdvanceKeepsInv(s: State, t: nat, ok: bool, pick: Id, up: bool)
    requires Inv(s) && t in s.ops && CanAdvance(s, s.ops[t])
    ensures Inv(StepOp(s, t, ok, pick, up))
  {
    hide OpOk, Frame, StepPc, Compatible, CanAdvance, StoreOk, Accounted, TakesOnly;
    var op := s.ops[t];
    var (d', pc) := StepPc(s.disk, op, ok, pick, up);
    var op' := op.(pc := pc);
    OwnStep(s.disk, op, ok, pick, up);
    StepFrame(s.disk, op, ok, pick, up);
    StepAccounted(s.disk, op, ok, pick, up);
    StepTakes(s.disk, op, ok, pick, up);
    StoreStaysOk(s.disk, d', op);
    forall u | u in s.ops && u != t
      ensures OpOk(d', s.ops[u]) && Compatible(op', s.ops[u]) && Compatible(s.ops[u], op')
    {
      assert Compatible(op, s.ops[u]);
      OthersKeepOk(s.disk, d', op, s.ops[u]);
      TakenIsCompatible(s, op, op', u);
    }
    ReplacedKeepsExclusive(s.ops, t, op');
  }

  /** An operation that begins or ends holds no lock and knows nothing. */
  lemma FreshOpKeepsInv(s: State, t: nat, op: Op)
    requires Inv(s) && (op.pc == Done || op.pc == FirstPc(op.req)) && Target(s.disk, op)
    ensures Inv(s.(ops := s.ops[t := op]))
  {
    forall u | u in s.ops
      ensures Compatible(op, s.ops[u]) && Compatible(s.ops[u], op)
    {
    }
    ReplacedKeepsExclusive(s.ops, t, op);
    assert OpOk(s.disk, op);
  }

  lemma EndingKeepsInv(s: State, t: nat)
    requires Inv(s) && t in s.ops
    ensures Inv(s.(ops := s.ops[t := s.ops[t].(pc := Done)]))
  {
    assert OpOk(s.disk, s.ops[t]);
    FreshOpKeepsInv(s, t, s.ops[t].(pc := Done));
  }

  lemma EnvironmentKeepsOk(d: Disk, d': Disk, op: Op)
    requires OpOk(d, op) && d'.store == d.store && d'.ever == d.ever && d'.dead == d.dead
    requires d'.markers == d.markers && d'.sockets <= d.sockets
    ensures OpOk(d', op)
  {
  }

  lemma EnvironmentKeepsInv(s: State, d': Disk)
    requires Inv(s) && d'.store == s.disk.store && d'.ever == s.disk.ever && d'.dead == s.disk.dead
    requires d'.markers == s.disk.markers && d'.sockets <= s.disk.sockets
    ensures Inv(s.(disk := d'))
  {
    forall u | u in s.ops
      ensures OpOk(d', s.ops[u])
    {
      EnvironmentKeepsOk(s.disk, d', s.ops[u]);
    }
  }

  lemma ApplyKeepsInv(s: State, ev: Event)
    requires Inv(s)
    ensures Inv(Apply(s, ev))
  {
    hide Inv, StepOp, CanAdvance;
    match ev {
      case Spawn(t, req) => if Admitted(s.disk, req) { FreshOpKeepsInv(s, t, Op(req, FirstPc(req))); }
      case Advance(t, ok, pick, up) => if t in s.ops && CanAdvance(s, s.ops[t]) { AdvanceKeepsInv(s, t, ok, pick, up); }
      case GiveUp(t) => if t in s.ops { EndingKeepsInv(s, t); }
      case SocketGone(id) => EnvironmentKeepsInv(s, Apply(s, ev).disk);
      case Damage(id) => EnvironmentKeepsInv(s, Apply(s, ev).disk);
    }
  }

  /** Every reachable state satisfies the invariant. */
  lemma {:induction false} InvAlongRun(s: State, events: seq<Event>)
    requires Inv(s)
    ensures Inv(Run(s, events))
  {
    if events != [] {
      InvAlongRun(s, events[..|events| - 1]);
      ApplyKeepsInv(Run(s, events[..|events| - 1]), events[|events| - 1]);
    }
  }
}
