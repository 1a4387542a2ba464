/** The daemon's connection lifecycle as a state machine: every request is a
    program of atomic steps over the shared store, and any number of them
    interleave. */
module Lifecycle {
  import opened Prelude

  type Id = nat

  datatype Mode = Manual | Automatic

  /** The part of a stored record the lifecycle looks at. */
  datatype Rec = Rec(fingerprint: nat, global: bool, owner: Option<nat>, mode: Mode, name: Option<string>, userDisconnected: bool)

  datatype ConnectReason = UserConnect | Reconciliation
  datatype DisconnectReason = UserDisconnect | SessionTeardown

  datatype Request =
    | Add(fingerprint: nat, global: bool, owner: Option<nat>, mode: Mode, name: Option<string>, force: bool)
    | Remove(id: Id)
    | SetMode(id: Id, mode: Mode)
    | Connect(id: Id, why: ConnectReason)
    | Disconnect(id: Id, reason: DisconnectReason)

  /** Where an operation stands; each constructor names the step it takes next. */
  datatype Pc =
    | AddLockIndex | AddFind | AddFindName | AddAuth | AddAllocate | AddCreate(drawn: Id)
    | ReCheck(id: Id, snapshot: Rec) | ReLock(id: Id, snapshot: Rec) | ReWrite(id: Id, snapshot: Rec)
    | RmLockIndex | RmLoad | RmLock | RmCheck | RmAuth | RmDelete
    | MoLock | MoLoad | MoWrite(loaded: Rec)
    | CoLock | CoIntent | CoClear(loaded: Rec) | CoLoad | CoProbe | CoPreUp | CoLockNet | CoStart
    | CoPostUp | CoLockNetAgain | CoRollback | CoSave
    | DiLock | DiMark | DiSet(loaded: Rec) | DiLoad | DiLockNet | DiDown | DiClear
    | Done

  datatype Op = Op(req: Request, pc: Pc)

  /** The store with its unreadable records, every id ever allocated and every
      deleted one; the `active` markers and the live control sockets. */
  datatype Disk = Disk(store: map<Id, Rec>, unreadable: set<Id>, ever: set<Id>, dead: set<Id>,
                       markers: set<Id>, sockets: set<Id>)

  /** The disk and the operations in flight. */
  datatype State = State(disk: Disk, ops: map<nat, Op>)

  /** `ok` stands for every outcome the daemon does not decide: input and output
      errors, authorisation, hooks, the helper. `pick` is the record a lookup
      found or the identifier just drawn; `up` says whether a helper came up. */
  datatype Event =
    | Spawn(t: nat, req: Request)
    | Advance(t: nat, ok: bool, pick: Id, up: bool)
    | GiveUp(t: nat)
    | SocketGone(gone: Id)
    | Damage(damaged: Id)

  // ---- records ------------------------------------------------------------------------

  /** The first 32 bits of the 128-bit identifier name the interface. */
  function Iface(id: Id): nat { id / 0x1_0000_0000_0000_0000_0000_0000 }

  predicate SameIdentity(r: Rec, q: Rec) {
    r.fingerprint == q.fingerprint && r.global == q.global && r.owner == q.owner
  }

  predicate HasIdentity(r: Rec, req: Request)
    requires req.Add?
  {
    r.fingerprint == req.fingerprint && r.global == req.global && r.owner == req.owner
  }

  /** Some record in the namespace has the name. */
  predicate NameTaken(store: map<Id, Rec>, name: Option<string>, global: bool, owner: Option<nat>, except: set<Id>) {
    name.Some? && exists i :: i in store && i !in except && store[i].name == name && store[i].global == global && store[i].owner == owner
  }

  /** `load`: `None` for an error or an unreadable record. */
  function Load(d: Disk, id: Id, ok: bool): Option<Option<Rec>> {
    if !ok || id in d.unreadable then None else Some(if id in d.store then Some(d.store[id]) else None)
  }

  /** The strict listing: any unreadable record fails it. */
  predicate StrictOk(d: Disk, ok: bool) { ok && d.unreadable == {} }

  predicate IsActive(d: Disk, id: Id) { id in d.markers && id in d.sockets }

  // ---- locks ---------------------------------------------------------------------------

  predicate HoldsIndex(op: Op) {
    match op.pc
    case AddFind | AddFindName | AddAuth | AddAllocate | AddCreate(_) | ReCheck(_, _) | ReLock(_, _) | ReWrite(_, _)
       | RmLoad | RmLock | RmCheck | RmAuth | RmDelete => true
    case _ => false
  }

  predicate HoldsConn(op: Op, id: Id) {
    match op.pc
    case ReWrite(i, _) => i == id
    case RmCheck | RmAuth | RmDelete => op.req.Remove? && op.req.id == id
    case MoLoad | MoWrite(_) => op.req.SetMode? && op.req.id == id
    case CoIntent | CoClear(_) | CoLoad | CoProbe | CoPreUp | CoLockNet | CoStart | CoPostUp | CoLockNetAgain | CoRollback | CoSave =>
      op.req.Connect? && op.req.id == id
    case DiMark | DiSet(_) | DiLoad | DiLockNet | DiDown | DiClear => op.req.Disconnect? && op.req.id == id
    case _ => false
  }

  predicate HoldsNet(op: Op) { op.pc.CoStart? || op.pc.CoRollback? || op.pc.DiDown? }

  predicate IndexFree(s: State) { forall u :: u in s.ops ==> !HoldsIndex(s.ops[u]) }

  predicate ConnFree(s: State, id: Id) { forall u :: u in s.ops ==> !HoldsConn(s.ops[u], id) }

  predicate NetFree(s: State) { forall u :: u in s.ops ==> !HoldsNet(s.ops[u]) }

  datatype Wait = NoWait | ForIndex | ForConn(id: Id) | ForNet

  function WaitsFor(op: Op): Wait {
    match op.pc
    case AddLockIndex | RmLockIndex => ForIndex
    case ReLock(id, _) => ForConn(id)
    case RmLock => if op.req.Remove? then ForConn(op.req.id) else NoWait
    case MoLock => if op.req.SetMode? then ForConn(op.req.id) else NoWait
    case CoLock => if op.req.Connect? then ForConn(op.req.id) else NoWait
    case DiLock => if op.req.Disconnect? then ForConn(op.req.id) else NoWait
    case CoLockNet | CoLockNetAgain | DiLockNet => ForNet
    case _ => NoWait
  }

  predicate CanAdvance(s: State, op: Op) {
    match WaitsFor(op)
    case NoWait => op.pc != Done
    case ForIndex => IndexFree(s)
    case ForConn(id) => ConnFree(s, id)
    case ForNet => NetFree(s)
  }

  // ---- programs --------------------------------------------------------------------------

  function Write(d: Disk, id: Id, r: Rec): Disk {
    d.(store := d.store[id := r], unreadable := d.unreadable - {id})
  }

  /** `handle_add_connection` up to the match that reconciles. */
  function StepAdd(d: Disk, op: Op, ok: bool, pick: Id): (Disk, Pc)
    requires op.req.Add?
  {
    var req := op.req;
    match op.pc
    case AddLockIndex => (d, AddFind)
    case AddFind =>
      if !StrictOk(d, ok) then (d, Done)
      else if pick in d.store && HasIdentity(d.store[pick], req) then (d, ReCheck(pick, d.store[pick]))
      else if exists i :: i in d.store && HasIdentity(d.store[i], req) then (d, op.pc)
      else (d, AddFindName)
    case AddFindName =>
      if req.force || req.name.None? then (d, AddAuth)
      else if !StrictOk(d, ok) || NameTaken(d.store, req.name, req.global, req.owner, {}) then (d, Done)
      else (d, AddAuth)
    case AddAuth => (d, if ok then AddAllocate else Done)
    case AddAllocate =>
      if !StrictOk(d, ok) then (d, Done)
      else if pick in d.ever || exists i :: i in d.store && Iface(i) == Iface(pick) then (d, op.pc)
      else (d.(ever := d.ever + {pick}), AddCreate(pick))
    case AddCreate(id) =>
      if !ok then (d, Done)
      else (Write(d, id, Rec(req.fingerprint, req.global, req.owner, req.mode, req.name, false)), Done)
    case ReCheck(id, snap) =>
      if !NameChanged(req, snap) && !ModeChanged(req, snap) then (d, Done)
      else if NameChanged(req, snap) && !req.force
              && (!StrictOk(d, ok) || NameTaken(d.store, req.name, snap.global, snap.owner, {id})) then (d, Done)
      else if ModeChanged(req, snap) && snap.global && req.mode == Automatic && !ok then (d, Done)
      else (d, ReLock(id, snap))
    case ReLock(id, snap) => (d, ReWrite(id, snap))
    case ReWrite(id, snap) =>
      if !ok then (d, Done) else (Write(d, id, WriteBack(req, snap)), Done)
    case _ => (d, op.pc)
  }

  predicate NameChanged(req: Request, snap: Rec)
    requires req.Add?
  {
    req.name.Some? && req.name != snap.name
  }

  predicate ModeChanged(req: Request, snap: Rec)
    requires req.Add?
  {
    req.mode != snap.mode
  }

  /** What `reconcile_existing_add` writes: its snapshot, altered. */
  function WriteBack(req: Request, snap: Rec): Rec
    requires req.Add?
  {
    var named := if NameChanged(req, snap) then snap.(name := req.name) else snap;
    if ModeChanged(req, snap) then Landed(named, req.mode) else named
  }

  /** A mode change; landing on `Automatic` clears an earlier disconnect. */
  function Landed(r: Rec, mode: Mode): Rec {
    if mode == Automatic then r.(mode := mode, userDisconnected := false) else r.(mode := mode)
  }

  /** `handle_remove_connection`. */
  function StepRemove(d: Disk, op: Op, ok: bool): (Disk, Pc)
    requires op.req.Remove?
  {
    var id := op.req.id;
    match op.pc
    case RmLockIndex => (d, RmLoad)
    case RmLoad =>
      var r := Load(d, id, ok);
      (d, if r.None? || r.value.None? then Done else RmLock)
    case RmLock => (d, RmCheck)
    case RmCheck => (d, if !ok || IsActive(d, id) then Done else RmAuth)
    case RmAuth => (d, if ok then RmDelete else Done)
    case RmDelete =>
      if !ok then (d, Done)
      else (d.(store := d.store - {id}, unreadable := d.unreadable - {id}, dead := d.dead + {id}), Done)
    case _ => (d, op.pc)
  }

  /** `handle_set_connection_mode`. */
  function StepMode(d: Disk, op: Op, ok: bool): (Disk, Pc)
    requires op.req.SetMode?
  {
    var id := op.req.id;
    match op.pc
    case MoLock => (d, MoLoad)
    case MoLoad =>
      var r := Load(d, id, ok);
      (d, if r.None? || r.value.None? || r.value.value.mode == op.req.mode then Done else MoWrite(r.value.value))
    case MoWrite(loaded) =>
      if !ok then (d, Done) else (Write(d, id, Landed(loaded, op.req.mode)), Done)
    case _ => (d, op.pc)
  }

  /** The connect worker: `resolve_connect_intent`, then `connect`; the boot and
      session reconciliations run the same program. */
  function StepConnect(d: Disk, op: Op, ok: bool, up: bool): (Disk, Pc)
    requires op.req.Connect?
  {
    var id := op.req.id;
    match op.pc
    case CoLock => (d, CoIntent)
    case CoIntent =>
      (match Load(d, id, ok)
       case None => (d, Done)
       case Some(None) => (d, CoLoad)
       case Some(Some(r)) =>
         if !r.userDisconnected then (d, CoLoad)
         else (d, if op.req.why == UserConnect then CoClear(r) else Done))
    case CoClear(loaded) =>
      if !ok then (d, Done) else (Write(d, id, loaded.(userDisconnected := false)), CoLoad)
    case CoLoad =>
      var r := Load(d, id, ok);
      (d, if r.None? || r.value.None? then Done else CoProbe)
    case CoProbe => (d, if !ok || id in d.sockets then Done else CoPreUp)
    case CoPreUp => (d, if ok then CoLockNet else Done)
    case CoLockNet => (d, CoStart)
    case CoStart =>
      var d1 := if up then d.(sockets := d.sockets + {id}) else d;
      (d1, if ok && up then CoPostUp else Done)
    case CoPostUp => (d, if ok then CoSave else CoLockNetAgain)
    case CoLockNetAgain => (d, CoRollback)
    case CoRollback => (if up then d else d.(sockets := d.sockets - {id}), Done)
    case CoSave =>
      if !ok || id !in d.sockets then (d, Done) else (d.(markers := d.markers + {id}), Done)
    case _ => (d, op.pc)
  }

  /** The disconnect worker: `mark_user_disconnected`, then `disconnect`. */
  function StepDisconnect(d: Disk, op: Op, ok: bool, up: bool): (Disk, Pc)
    requires op.req.Disconnect?
  {
    var id := op.req.id;
    match op.pc
    case DiLock => (d, DiMark)
    case DiMark =>
      if op.req.reason != UserDisconnect then (d, DiLoad)
      else
        (match Load(d, id, ok)
         case None => (d, Done)
         case Some(None) => (d, DiLoad)
         case Some(Some(r)) => (d, if r.userDisconnected then DiLoad else DiSet(r)))
    case DiSet(loaded) =>
      if !ok then (d, Done) else (Write(d, id, loaded.(userDisconnected := true)), DiLoad)
    case DiLoad =>
      var r := Load(d, id, ok);
      (d, if r.None? || r.value.None? then Done else DiLockNet)
    case DiLockNet => (d, DiDown)
    case DiDown =>
      var d1 := if up then d else d.(sockets := d.sockets - {id});
      (d1, if ok && !up then DiClear else Done)
    case DiClear => (if ok then d.(markers := d.markers - {id}) else d, Done)
    case _ => (d, op.pc)
  }

  function StepPc(d: Disk, op: Op, ok: bool, pick: Id, up: bool): (Disk, Pc) {
    match op.req
    case Add(_, _, _, _, _, _) => StepAdd(d, op, ok, pick)
    case Remove(_) => StepRemove(d, op, ok)
    case SetMode(_, _) => StepMode(d, op, ok)
    case Connect(_, _) => StepConnect(d, op, ok, up)
    case Disconnect(_, _) => StepDisconnect(d, op, ok, up)
  }

  function StepOp(s: State, t: nat, ok: bool, pick: Id, up: bool): State
    requires t in s.ops
  {
    var (d, pc) := StepPc(s.disk, s.ops[t], ok, pick, up);
    State(d, s.ops[t := s.ops[t].(pc := pc)])
  }

  function FirstPc(req: Request): Pc {
    match req
    case Add(_, _, _, _, _, _) => AddLockIndex
    case Remove(_) => RmLockIndex
    case SetMode(_, _) => MoLock
    case Connect(_, _) => CoLock
    case Disconnect(_, _) => DiLock
  }

  /** A worker starts only for a record its handler, or a reconciliation's
      listing, has just read. */
  predicate Admitted(d: Disk, req: Request) {
    (req.Connect? || req.Disconnect?) ==> req.id in d.store && req.id !in d.unreadable
  }

  /** One event; what is not possible does nothing. An operation may end at any
      moment, by a lock timeout or because its process dies; a helper may die; a
      record may become unreadable. */
  function Apply(s: State, ev: Event): State {
    match ev
    case Spawn(t, req) => if t in s.ops || !Admitted(s.disk, req) then s else s.(ops := s.ops[t := Op(req, FirstPc(req))])
    case Advance(t, ok, pick, up) => if t in s.ops && CanAdvance(s, s.ops[t]) then StepOp(s, t, ok, pick, up) else s
    case GiveUp(t) => if t in s.ops then s.(ops := s.ops[t := s.ops[t].(pc := Done)]) else s
    case SocketGone(id) => s.(disk := s.disk.(sockets := s.disk.sockets - {id}))
    case Damage(id) => if id in s.disk.store then s.(disk := s.disk.(unreadable := s.disk.unreadable + {id})) else s
  }

  function Run(s: State, events: seq<Event>): State {
    if events == [] then s else Apply(Run(s, events[..|events| - 1]), events[|events| - 1])
  }

  const EMPTY: State := State(Disk(map[], {}, {}, {}, {}, {}), map[])
}
