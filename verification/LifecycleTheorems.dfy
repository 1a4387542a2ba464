/** The promises of the lifecycle: an explicit disconnect sticks, the store stays
    sound, nothing active is deleted, and the locks never deadlock. */
module LifecycleTheorems {
  import opened Prelude
  import opened Lifecycle
  import opened LifecycleInv

  lemma EmptyIsInv()
    ensures Inv(EMPTY)
  {
  }

  // ---- tunnel starts ------------------------------------------------------------------------

  /** A helper comes up only for a stored record whose user has not disconnected
      it, in the connect worker's own step. */
  lemma StartsOnlyWhileWanted(s: State, ev: Event, id: Id)
    requires Inv(s) && id !in s.disk.sockets && id in Apply(s, ev).disk.sockets
    ensures id in s.disk.store && !s.disk.store[id].userDisconnected
    ensures ev.Advance? && ev.t in s.ops && s.ops[ev.t].req.Connect? && s.ops[ev.t].req.id == id && s.ops[ev.t].pc == CoStart
  {
    assert ev.Advance? && ev.t in s.ops;
    assert OpOk(s.disk, s.ops[ev.t]);
    SocketsOnlyByStart(s.disk, s.ops[ev.t], ev.ok, ev.pick, ev.up, id);
  }

  lemma SocketsOnlyByStart(d: Disk, op: Op, ok: bool, pick: Id, up: bool, id: Id)
    requires id !in d.sockets && id in StepPc(d, op, ok, pick, up).0.sockets
    ensures op.req.Connect? && op.req.id == id && op.pc == CoStart
  {
    hide Load, StrictOk, NameTaken, HasIdentity, Iface, IsActive, WriteBack, Landed, NameChanged, ModeChanged;
  }

  /** A user's disconnect is on record before its helper is told to go: no
      teardown of one touches the socket of a record that is not flagged. */
  lemma TeardownIsRecorded(s: State, t: nat)
    requires Inv(s) && t in s.ops && s.ops[t].pc == DiDown
    ensures s.ops[t].req.Disconnect? && s.ops[t].req.id in s.disk.store
    ensures s.ops[t].req.reason == UserDisconnect ==> s.disk.store[s.ops[t].req.id].userDisconnected
  {
    assert OpOk(s.disk, s.ops[t]);
  }

  // ---- the disconnect flag -------------------------------------------------------------------

  predicate Flagged(s: State, id: Id) { id in s.disk.store && s.disk.store[id].userDisconnected }

  /** The write `op` is about to make to record `id`, if its next step is one. */
  predicate WritesRecord(op: Op, id: Id) {
    match op.pc
    case ReWrite(i, _) => i == id
    case MoWrite(_) => op.req.SetMode? && op.req.id == id
    case CoClear(_) => op.req.Connect? && op.req.id == id
    case DiSet(_) => op.req.Disconnect? && op.req.id == id
    case _ => false
  }

  /** The step commits a write to the record. */
  predicate Commits(s: State, ev: Event, id: Id) {
    ev.Advance? && ev.t in s.ops && CanAdvance(s, s.ops[ev.t]) && ev.ok && WritesRecord(s.ops[ev.t], id)
  }

  /** An explicit request to have the connection managed again: a user's connect,
      or a mode change that lands on `Automatic`. */
  predicate AsksForIt(op: Op) {
    match op.pc
    case CoClear(_) => op.req.Connect? && op.req.why == UserConnect
    case MoWrite(_) => op.req.SetMode? && op.req.mode == Automatic
    case ReWrite(_, snap) => op.req.Add? && ModeChanged(op.req, snap) && op.req.mode == Automatic
    case _ => false
  }

  /** The write-back of a snapshot in which the flag had another value. */
  predicate StaleWriteBack(op: Op, flag: bool) {
    op.pc.ReWrite? && !AsksForIt(op) && op.pc.snapshot.userDisconnected != flag
  }

  /** The flag of a record falls exactly when an explicit request clears it or a
      stale snapshot is written back over it. */
  lemma FlagFallsExactlyWhen(s: State, ev: Event, id: Id)
    requires Inv(s) && Flagged(s, id) && id in Apply(s, ev).disk.store
    ensures !Flagged(Apply(s, ev), id) <==>
            Commits(s, ev, id) && (AsksForIt(s.ops[ev.t]) || StaleWriteBack(s.ops[ev.t], true))
  {
    if ev.Advance? && ev.t in s.ops && CanAdvance(s, s.ops[ev.t]) {
      var op := s.ops[ev.t];
      assert OpOk(s.disk, op);
      hide OpOk, StepPc, WritesRecord, AsksForIt, StaleWriteBack, Written, CanAdvance;
      StepFrame(s.disk, op, ev.ok, ev.pick, ev.up);
      RecordAfter(s.disk, op, ev.ok, ev.pick, ev.up, id);
      if WritesRecord(op, id) { FlagWritten(s.disk, op, id); }
    }
  }

  /** And it rises exactly when a user's disconnect sets it or, again, a stale
      snapshot comes back. */
  lemma FlagRisesExactlyWhen(s: State, ev: Event, id: Id)
    requires Inv(s) && id in s.disk.store && !Flagged(s, id)
    ensures Flagged(Apply(s, ev), id) <==>
            Commits(s, ev, id) && (s.ops[ev.t].pc.DiSet? || StaleWriteBack(s.ops[ev.t], false))
  {
    if ev.Advance? && ev.t in s.ops && CanAdvance(s, s.ops[ev.t]) {
      var op := s.ops[ev.t];
      assert OpOk(s.disk, op);
      hide OpOk, StepPc, WritesRecord, AsksForIt, StaleWriteBack, Written, CanAdvance;
      StepFrame(s.disk, op, ev.ok, ev.pick, ev.up);
      RecordStays(s.disk, op, ev.ok, ev.pick, ev.up, id);
      if WritesRecord(op, id) { FlagWritten(s.disk, op, id); }
    }
  }

  /** The record a committed write leaves. */
  function Written(op: Op): Rec
    requires op.pc.ReWrite? || op.pc.MoWrite? || op.pc.CoClear? || op.pc.DiSet?
  {
    match op.pc
    case ReWrite(_, snap) => if op.req.Add? then WriteBack(op.req, snap) else snap
    case MoWrite(r) => if op.req.SetMode? then Landed(r, op.req.mode) else r
    case CoClear(r) => r.(userDisconnected := false)
    case DiSet(r) => r.(userDisconnected := true)
  }

  lemma RecordAfter(d: Disk, op: Op, ok: bool, pick: Id, up: bool, id: Id)
    requires OpOk(d, op) && id in d.store && id in StepPc(d, op, ok, pick, up).0.store
    ensures StepPc(d, op, ok, pick, up).0.store[id] == if ok && WritesRecord(op, id) then Written(op) else d.store[id]
  {
    hide Load, StrictOk, NameTaken, HasIdentity, Iface, IsActive, WriteBack, Landed, NameChanged, ModeChanged;
    assert op.pc.AddCreate? ==> op.pc.drawn !in d.store;
  }

  /** Only a removal takes a record away, and a removal writes none. */
  lemma RecordStays(d: Disk, op: Op, ok: bool, pick: Id, up: bool, id: Id)
    requires OpOk(d, op) && id in d.store
    ensures var d' := StepPc(d, op, ok, pick, up).0;
            if id in d'.store then d'.store[id] == (if ok && WritesRecord(op, id) then Written(op) else d.store[id])
            else op.req.Remove? && op.req.id == id && op.pc == RmDelete && id in d'.dead && !WritesRecord(op, id)
  {
    hide Load, StrictOk, NameTaken, HasIdentity, Iface, IsActive, WriteBack, Landed, NameChanged, ModeChanged;
    assert op.pc.AddCreate? ==> op.pc.drawn !in d.store;
  }

  /** What the write says about the flag. */
  lemma FlagWritten(d: Disk, op: Op, id: Id)
    requires OpOk(d, op) && WritesRecord(op, id)
    ensures id in d.store
    ensures d.store[id].userDisconnected ==>
              (!Written(op).userDisconnected <==> AsksForIt(op) || StaleWriteBack(op, true))
    ensures !d.store[id].userDisconnected ==>
              (Written(op).userDisconnected <==> op.pc.DiSet? || StaleWriteBack(op, false))
  {
  }

  /** Writes are narrow: none changes what identifies a record; a connect or
      disconnect changes the flag alone, a mode change the mode and the flag, and
      only a resubmission the name. */
  lemma WritesAreNarrow(d: Disk, op: Op, id: Id)
    requires OpOk(d, op) && WritesRecord(op, id)
    ensures id in d.store && SameIdentity(d.store[id], Written(op))
    ensures !op.pc.ReWrite? ==> Written(op).name == d.store[id].name
    ensures op.pc.CoClear? || op.pc.DiSet? ==> Written(op).mode == d.store[id].mode
    ensures op.pc.MoWrite? ==> Written(op).mode == op.req.mode
    ensures op.pc.ReWrite? ==> Written(op).mode == op.req.mode && (op.req.name.Some? ==> Written(op).name == op.req.name)
  {
  }

  /** A new record is what was asked for, without a disconnect. */
  lemma CreatedAsAsked(s: State, ev: Event, id: Id)
    requires Inv(s) && id !in s.disk.store && id in Apply(s, ev).disk.store
    ensures ev.Advance? && ev.t in s.ops && s.ops[ev.t].pc == AddCreate(id)
    ensures var req, r := s.ops[ev.t].req, Apply(s, ev).disk.store[id];
            req.Add? && HasIdentity(r, req) && r.mode == req.mode && r.name == req.name && !r.userDisconnected
  {
    var op := s.ops[ev.t];
    assert OpOk(s.disk, op);
    StepFrame(s.disk, op, ev.ok, ev.pick, ev.up);
    assert op.pc == AddCreate(id);
  }

  /** An event that may clear the flag of `id`. */
  predicate Clears(s: State, ev: Event, id: Id) {
    Commits(s, ev, id) && (AsksForIt(s.ops[ev.t]) || StaleWriteBack(s.ops[ev.t], true))
  }

  ghost predicate NothingClears(s: State, events: seq<Event>, id: Id) {
    events == [] ||
    (NothingClears(s, events[..|events| - 1], id) && !Clears(Run(s, events[..|events| - 1]), events[|events| - 1], id))
  }

  /** An explicit disconnect sticks: over any run in which nobody asks for the
      connection again and no stale snapshot is written back, the flag stays and
      no helper comes up, whatever else happens, the record's removal included. */
  lemma {:induction false} DisconnectSticks(s: State, events: seq<Event>, id: Id)
    requires Inv(s) && Flagged(s, id) && id !in s.disk.sockets && NothingClears(s, events, id)
    ensures var s' := Run(s, events);
            (Flagged(s', id) || id in s'.disk.dead) && id !in s'.disk.sockets
  {
    if events != [] {
      var front, ev := events[..|events| - 1], events[|events| - 1];
      DisconnectSticks(s, front, id);
      InvAlongRun(s, front);
      InvAlongRun(s, events);
      var s1, s2 := Run(s, front), Run(s, events);
      if id in s2.disk.sockets { StartsOnlyWhileWanted(s1, ev, id); }
      if Flagged(s1, id) {
        if id in s2.disk.store { FlagFallsExactlyWhen(s1, ev, id); } else { LeavesOnlyDead(s1, ev, id); }
      }
      DeadStaysDead(s1, ev);
      assert id in s1.disk.dead ==> id !in s1.disk.store;
    }
  }

  lemma LeavesOnlyDead(s: State, ev: Event, id: Id)
    requires Inv(s) && id in s.disk.store && id !in Apply(s, ev).disk.store
    ensures id in Apply(s, ev).disk.dead && ev.Advance? && ev.t in s.ops
    ensures s.ops[ev.t].req.Remove? && s.ops[ev.t].req.id == id && s.ops[ev.t].pc == RmDelete
  {
    hide StepPc;
    assert ev.Advance? && ev.t in s.ops && OpOk(s.disk, s.ops[ev.t]);
    RecordStays(s.disk, s.ops[ev.t], ev.ok, ev.pick, ev.up, id);
  }

  lemma DeadStaysDead(s: State, ev: Event)
    requires Inv(s)
    ensures s.disk.dead <= Apply(s, ev).disk.dead
  {
    if ev.Advance? && ev.t in s.ops {
      assert OpOk(s.disk, s.ops[ev.t]);
      hide OpOk, StepPc;
      StepFrame(s.disk, s.ops[ev.t], ev.ok, ev.pick, ev.up);
    }
  }

  ghost predicate NobodyCommits(s: State, events: seq<Event>, id: Id) {
    events == [] ||
    (NobodyCommits(s, events[..|events| - 1], id) && !Commits(Run(s, events[..|events| - 1]), events[|events| - 1], id))
  }

  lemma {:induction false} RecordStable(s: State, events: seq<Event>, id: Id)
    requires Inv(s) && id in s.disk.store && NobodyCommits(s, events, id) && id in Run(s, events).disk.store
    ensures Run(s, events).disk.store[id] == s.disk.store[id]
  {
    if events != [] {
      var front, ev := events[..|events| - 1], events[|events| - 1];
      var s1 := Run(s, front);
      InvAlongRun(s, front);
      if id !in s1.disk.store {
        GoneStaysGone(s, front, ev, id);
      } else {
        RecordStable(s, front, id);
        if ev.Advance? && ev.t in s1.ops && CanAdvance(s1, s1.ops[ev.t]) {
          assert OpOk(s1.disk, s1.ops[ev.t]);
          hide OpOk, StepPc, WritesRecord, Written, CanAdvance;
          RecordAfter(s1.disk, s1.ops[ev.t], ev.ok, ev.pick, ev.up, id);
        }
      }
    }
  }

  lemma GoneStaysGone(s: State, front: seq<Event>, ev: Event, id: Id)
    requires Inv(s) && id in s.disk.store && id !in Run(s, front).disk.store
    ensures id !in Apply(Run(s, front), ev).disk.store
  {
    GoneIsDead(s, front, id);
    InvAlongRun(s, front);
    var s1 := Run(s, front);
    DeadStaysDead(s1, ev);
    ApplyKeepsInv(s1, ev);
  }

  lemma {:induction false} GoneIsDead(s: State, events: seq<Event>, id: Id)
    requires Inv(s) && id in s.disk.store
    ensures id in Run(s, events).disk.store || id in Run(s, events).disk.dead
  {
    if events != [] {
      var front, ev := events[..|events| - 1], events[|events| - 1];
      GoneIsDead(s, front, id);
      InvAlongRun(s, front);
      DeadStaysDead(Run(s, front), ev);
      if id in Run(s, front).disk.store && id !in Run(s, events).disk.store { LeavesOnlyDead(Run(s, front), ev, id); }
    }
  }

  /** A snapshot goes stale only by a race: unless another operation commits a
      write to the record between the lookup and the write-back, the write-back
      changes only what was asked for. */
  lemma NoRaceNoStaleWriteBack(s: State, events: seq<Event>, t: nat, id: Id)
    requires Inv(s) && id in s.disk.store && NobodyCommits(s, events, id) && id in Run(s, events).disk.store
    requires t in Run(s, events).ops && Run(s, events).ops[t].pc == ReWrite(id, s.disk.store[id])
    ensures !StaleWriteBack(Run(s, events).ops[t], Flagged(Run(s, events), id))
  {
    RecordStable(s, events, id);
  }

  // ---- the store --------------------------------------------------------------------------------

  /** In every reachable state the interfaces and the identities are distinct,
      unreadable records included, and no deleted id is back. */
  lemma StoreSoundOverRuns(events: seq<Event>)
    ensures var s := Run(EMPTY, events);
            DistinctIfaces(s.disk.store) && DistinctIdentities(s.disk.store) && s.disk.dead !! s.disk.store.Keys
  {
    EmptyIsInv();
    InvAlongRun(EMPTY, events);
  }

  /** A deleted id never reappears. */
  lemma {:induction false} DeletedStaysDeleted(s: State, events: seq<Event>, id: Id)
    requires Inv(s) && id in s.disk.dead
    ensures id !in Run(s, events).disk.store && id in Run(s, events).disk.dead
  {
    InvAlongRun(s, events);
    if events != [] {
      var front := events[..|events| - 1];
      DeletedStaysDeleted(s, front, id);
      InvAlongRun(s, front);
      DeadStaysDead(Run(s, front), events[|events| - 1]);
    }
  }

  /** A record is deleted only while its connection is not active. */
  lemma NeverDeletedWhileActive(s: State, ev: Event, id: Id)
    requires Inv(s) && id in s.disk.store && id !in Apply(s, ev).disk.store
    ensures !IsActive(s.disk, id)
  {
    LeavesOnlyDead(s, ev, id);
    assert OpOk(s.disk, s.ops[ev.t]);
  }

  predicate SameNamespace(r: Rec, q: Rec) { r.global == q.global && r.owner == q.owner }

  ghost predicate NamesUnique(store: map<Id, Rec>) {
    forall i, j :: i in store && j in store && i != j && SameNamespace(store[i], store[j]) && store[i].name.Some? ==>
      store[i].name != store[j].name
  }

  predicate NoForce(ev: Event) { ev.Spawn? && ev.req.Add? ==> !ev.req.force }

  ghost predicate NobodyForces(s: State) { forall t :: t in s.ops && s.ops[t].req.Add? ==> !s.ops[t].req.force }

  lemma NamesStayUnique(s: State, ev: Event)
    requires Inv(s) && NamesUnique(s.disk.store) && NobodyForces(s) && NoForce(ev)
    ensures NamesUnique(Apply(s, ev).disk.store) && NobodyForces(Apply(s, ev))
  {
    hide NamesUnique, StepPc, CanAdvance, Admitted;
    if ev.Advance? && ev.t in s.ops {
      assert OpOk(s.disk, s.ops[ev.t]);
      NamesAfterStep(s.disk, s.ops[ev.t], ev.ok, ev.pick, ev.up);
    }
  }

  lemma NamesAfterStep(d: Disk, op: Op, ok: bool, pick: Id, up: bool)
    requires OpOk(d, op) && NamesUnique(d.store) && (op.req.Add? ==> !op.req.force)
    ensures NamesUnique(StepPc(d, op, ok, pick, up).0.store)
  {
    StepFrame(d, op, ok, pick, up);
    if HoldsIndex(op) {
      NamesAfterIndexHolder(d, op, ok, pick, up);
    } else {
      hide OpOk, StepPc;
      var d' := StepPc(d, op, ok, pick, up).0;
      SameNames(d, d', op);
      hide Frame;
      forall i, j | i in d'.store && j in d'.store && i != j && SameNamespace(d'.store[i], d'.store[j]) && d'.store[i].name.Some?
        ensures d'.store[i].name != d'.store[j].name
      {
        assert SameNamespace(d.store[i], d.store[j]);
      }
    }
  }

  lemma NamesAfterIndexHolder(d: Disk, op: Op, ok: bool, pick: Id, up: bool)
    requires OpOk(d, op) && NamesUnique(d.store) && HoldsIndex(op) && (op.req.Add? ==> !op.req.force)
    ensures NamesUnique(StepPc(d, op, ok, pick, up).0.store)
  {
    hide Load, StrictOk, HasIdentity, Iface, NoIdentity, IfaceFree;
    match op.pc {
      case AddCreate(id) =>
        if ok { NamedAmong(d.store, id, Rec(op.req.fingerprint, op.req.global, op.req.owner, op.req.mode, op.req.name, false)); }
      case ReWrite(id, snap) =>
        if ok { NamedAmong(d.store, id, WriteBack(op.req, snap)); }
      case RmDelete => NamesAmongFewer(d.store, op.req.id);
      case _ =>
    }
  }

  lemma NamesAmongFewer(store: map<Id, Rec>, id: Id)
    requires NamesUnique(store)
    ensures NamesUnique(store - {id})
  {
  }

  /** Writing a record whose name is its old one or free in its namespace. */
  lemma NamedAmong(store: map<Id, Rec>, id: Id, r: Rec)
    requires NamesUnique(store)
    requires || !NameTaken(store, r.name, r.global, r.owner, {id})
             || (id in store && store[id].name == r.name && store[id].global == r.global && store[id].owner == r.owner)
    ensures NamesUnique(store[id := r])
  {
    var store' := store[id := r];
    forall i, j | i in store' && j in store' && i != j && SameNamespace(store'[i], store'[j]) && store'[i].name.Some?
      ensures store'[i].name != store'[j].name
    {
      if i != id && j != id {
        assert store[i] == store'[i] && store[j] == store'[j];
      } else if i == id {
        assert j in store && j !in {id} && store[j] == store'[j];
      } else {
        assert i in store && i !in {id} && store[i] == store'[i];
      }
    }
  }

  /** In runs without force a name resolves to at most one record of its
      namespace. */
  lemma {:induction false} NamesUniqueOverRuns(events: seq<Event>)
    requires forall i :: 0 <= i < |events| ==> NoForce(events[i])
    ensures var s := Run(EMPTY, events); NamesUnique(s.disk.store) && NobodyForces(s)
  {
    if events != [] {
      var front := events[..|events| - 1];
      NamesUniqueOverRuns(front);
      EmptyIsInv();
      InvAlongRun(EMPTY, front);
      NamesStayUnique(Run(EMPTY, front), events[|events| - 1]);
    }
  }

  // ---- deadlock freedom --------------------------------------------------------------------------

  predicate Unfinished(s: State, t: nat) { t in s.ops && s.ops[t].pc != Done }

  /** Every operation takes its locks in the order index, one connection,
      network. */
  lemma LockOrder(op: Op)
    ensures HoldsNet(op) ==> WaitsFor(op) == NoWait
    ensures forall id :: HoldsConn(op, id) ==> WaitsFor(op) == NoWait || WaitsFor(op) == ForNet
    ensures HoldsIndex(op) ==> WaitsFor(op) == NoWait || WaitsFor(op).ForConn?
    ensures HoldsNet(op) || HoldsIndex(op) || (exists id :: HoldsConn(op, id)) ==> op.pc != Done
  {
  }

  lemma NetHolderMoves(s: State)
    requires !NetFree(s)
    ensures exists u :: Unfinished(s, u) && CanAdvance(s, s.ops[u])
  {
    var u :| u in s.ops && HoldsNet(s.ops[u]);
    LockOrder(s.ops[u]);
    assert Unfinished(s, u) && CanAdvance(s, s.ops[u]);
  }

  lemma ConnHolderMoves(s: State, id: Id)
    requires !ConnFree(s, id)
    ensures exists u :: Unfinished(s, u) && CanAdvance(s, s.ops[u])
  {
    var u :| u in s.ops && HoldsConn(s.ops[u], id);
    LockOrder(s.ops[u]);
    if NetFree(s) {
      assert Unfinished(s, u) && CanAdvance(s, s.ops[u]);
    } else {
      NetHolderMoves(s);
    }
  }

  lemma IndexHolderMoves(s: State)
    requires !IndexFree(s)
    ensures exists u :: Unfinished(s, u) && CanAdvance(s, s.ops[u])
  {
    var u :| u in s.ops && HoldsIndex(s.ops[u]);
    LockOrder(s.ops[u]);
    var wait := WaitsFor(s.ops[u]);
    if wait.ForConn? && !ConnFree(s, wait.id) {
      ConnHolderMoves(s, wait.id);
    } else {
      assert Unfinished(s, u) && CanAdvance(s, s.ops[u]);
    }
  }

  /** Deadlock freedom, without any timeout: as long as some operation is
      unfinished, some operation can take its next step. */
  lemma NoDeadlock(s: State, t: nat)
    requires Unfinished(s, t)
    ensures exists u :: Unfinished(s, u) && CanAdvance(s, s.ops[u])
  {
    match WaitsFor(s.ops[t]) {
      case NoWait => assert CanAdvance(s, s.ops[t]);
      case ForIndex => if IndexFree(s) { assert CanAdvance(s, s.ops[t]); } else { IndexHolderMoves(s); }
      case ForConn(id) => if ConnFree(s, id) { assert CanAdvance(s, s.ops[t]); } else { ConnHolderMoves(s, id); }
      case ForNet => if NetFree(s) { assert CanAdvance(s, s.ops[t]); } else { NetHolderMoves(s); }
    }
  }

  /** How many steps an operation still has before it, at most. */
  function Rank(pc: Pc): nat {
    match pc
    case AddLockIndex => 9
    case AddFind => 8
    case AddFindName => 7
    case AddAuth => 6
    case AddAllocate => 5
    case AddCreate(_) => 4
    case ReCheck(_, _) => 3
    case ReLock(_, _) => 2
    case ReWrite(_, _) => 1
    case RmLockIndex => 6
    case RmLoad => 5
    case RmLock => 4
    case RmCheck => 3
    case RmAuth => 2
    case RmDelete => 1
    case MoLock => 3
    case MoLoad => 2
    case MoWrite(_) => 1
    case CoLock => 12
    case CoIntent => 11
    case CoClear(_) => 10
    case CoLoad => 9
    case CoProbe => 8
    case CoPreUp => 7
    case CoLockNet => 6
    case CoStart => 5
    case CoPostUp => 4
    case CoLockNetAgain => 3
    case CoRollback => 2
    case CoSave => 1
    case DiLock => 7
    case DiMark => 6
    case DiSet(_) => 5
    case DiLoad => 4
    case DiLockNet => 3
    case DiDown => 2
    case DiClear => 1
    case Done => 0
  }

  /** A step that is taken brings its operation closer to its end, so with
      deadlock freedom every operation that keeps being scheduled finishes. The
      only step that can be repeated is a draw of an identifier or a record that
      does not fit. */
  lemma StepsLeadToTheEnd(s: State, t: nat, ok: bool, pick: Id, up: bool)
    requires Inv(s) && Unfinished(s, t)
    ensures var (d, pc) := StepPc(s.disk, s.ops[t], ok, pick, up);
            if pc == s.ops[t].pc then ok && (pc == AddFind || pc == AddAllocate) && d == s.disk
            else Rank(pc) < Rank(s.ops[t].pc)
  {
    assert OpOk(s.disk, s.ops[t]);
    RankFalls(s.disk, s.ops[t], ok, pick, up);
  }

  lemma RankFallsAdd(d: Disk, op: Op, ok: bool, pick: Id)
    requires op.req.Add? && Typed(op) && op.pc != Done
    ensures var (d', pc) := StepAdd(d, op, ok, pick);
            if pc == op.pc then ok && (pc == AddFind || pc == AddAllocate) && d' == d else Rank(pc) < Rank(op.pc)
  {
    hide Load, NameTaken, HasIdentity, Iface, IsActive, Write, WriteBack, Landed, NameChanged, ModeChanged;
  }

  lemma RankFallsRemove(d: Disk, op: Op, ok: bool)
    requires op.req.Remove? && Typed(op) && op.pc != Done
    ensures var (_, pc) := StepRemove(d, op, ok);
            Rank(pc) < Rank(op.pc)
  {
    hide Load, NameTaken, HasIdentity, Iface, IsActive, Write, WriteBack, Landed, NameChanged, ModeChanged;
  }

  lemma RankFallsMode(d: Disk, op: Op, ok: bool)
    requires op.req.SetMode? && Typed(op) && op.pc != Done
    ensures var (_, pc) := StepMode(d, op, ok);
            Rank(pc) < Rank(op.pc)
  {
    hide Load, NameTaken, HasIdentity, Iface, IsActive, Write, WriteBack, Landed, NameChanged, ModeChanged;
  }

  lemma RankFallsConnect(d: Disk, op: Op, ok: bool, up: bool)
    requires op.req.Connect? && Typed(op) && op.pc != Done
    ensures var (_, pc) := StepConnect(d, op, ok, up);
            Rank(pc) < Rank(op.pc)
  {
    hide Load, NameTaken, HasIdentity, Iface, IsActive, Write, WriteBack, Landed, NameChanged, ModeChanged;
  }

  lemma RankFallsDisconnect(d: Disk, op: Op, ok: bool, up: bool)
    requires op.req.Disconnect? && Typed(op) && op.pc != Done
    ensures var (_, pc) := StepDisconnect(d, op, ok, up);
            Rank(pc) < Rank(op.pc)
  {
    hide Load, NameTaken, HasIdentity, Iface, IsActive, Write, WriteBack, Landed, NameChanged, ModeChanged;
  }

  lemma RankFalls(d: Disk, op: Op, ok: bool, pick: Id, up: bool)
    requires Typed(op) && op.pc != Done
    ensures var (d', pc) := StepPc(d, op, ok, pick, up);
            if pc == op.pc then ok && (pc == AddFind || pc == AddAllocate) && d' == d else Rank(pc) < Rank(op.pc)
  {
    hide StepAdd, StepRemove, StepMode, StepConnect, StepDisconnect, Typed;
    match op.req {
      case Add(_, _, _, _, _, _) => RankFallsAdd(d, op, ok, pick);
      case Remove(_) => RankFallsRemove(d, op, ok);
      case SetMode(_, _) => RankFallsMode(d, op, ok);
      case Connect(_, _) => RankFallsConnect(d, op, ok, up);
      case Disconnect(_, _) => RankFallsDisconnect(d, op, ok, up);
    }
  }
}
