/** The one way an explicit disconnect is undone: an identical resubmission reads
    the record, a disconnect commits, and the snapshot is written back. */
module LifecycleRace {
  import opened Prelude
  import opened Lifecycle
  import opened LifecycleInv
  import opened LifecycleTheorems

  ghost predicate Reachable(s: State) { exists events :: Run(EMPTY, events) == s }

  lemma ReachNext(s: State, ev: Event)
    requires Reachable(s)
    ensures Reachable(Apply(s, ev))
  {
    var events :| Run(EMPTY, events) == s;
    assert (events + [ev])[..|events|] == events;
    assert Run(EMPTY, events + [ev]) == Apply(s, ev);
  }

  /** Operation `t` is at `pc` beside the operations of `base`. */
  function With(d: Disk, base: map<nat, Op>, t: nat, req: Request, pc: Pc): State { State(d, base[t := Op(req, pc)]) }

  lemma Begin(d: Disk, base: map<nat, Op>, t: nat, req: Request)
    requires Reachable(State(d, base)) && t !in base && Admitted(d, req)
    ensures Reachable(With(d, base, t, req, FirstPc(req)))
  {
    ReachNext(State(d, base), Spawn(t, req));
  }

  lemma Next(d: Disk, base: map<nat, Op>, t: nat, req: Request, pc: Pc, up: bool, d': Disk, pc': Pc)
    requires Reachable(With(d, base, t, req, pc)) && CanAdvance(With(d, base, t, req, pc), Op(req, pc))
    requires StepPc(d, Op(req, pc), true, ID, up) == (d', pc')
    ensures Reachable(With(d', base, t, req, pc'))
    ensures Apply(With(d, base, t, req, pc), Advance(t, true, ID, up)) == With(d', base, t, req, pc')
  {
    hide StepPc, CanAdvance, Reachable;
    var s := With(d, base, t, req, pc);
    ReachNext(s, Advance(t, true, ID, up));
    assert s.ops[t := Op(req, pc')] == base[t := Op(req, pc')];
  }

  const ID: Id := 7
  const ADD: Request := Add(1, false, Some(501), Automatic, None, false)
  const RENAME: Request := Add(1, false, Some(501), Automatic, Some("home"), false)
  const HANG_UP: Request := Disconnect(ID, UserDisconnect)
  const AGENT: Request := Connect(ID, Reconciliation)
  const FRESH: Rec := Rec(1, false, Some(501), Automatic, None, false)
  const OFF: Rec := FRESH.(userDisconnected := true)
  const BACK: Rec := FRESH.(name := Some("home"))

  function OneRecord(r: Rec): Disk { Disk(map[ID := r], {}, {ID}, {}, {}, {}) }

  const NO_OPS: map<nat, Op> := map[]
  const ADDED: map<nat, Op> := NO_OPS[0 := Op(ADD, Done)]
  const LOOKED_UP: map<nat, Op> := ADDED[1 := Op(RENAME, ReLock(ID, FRESH))]
  const HUNG_UP: map<nat, Op> := ADDED[2 := Op(HANG_UP, Done)]
  const WRITTEN: map<nat, Op> := HUNG_UP[1 := Op(RENAME, Done)]

  lemma RecordAdded()
    ensures Reachable(State(OneRecord(FRESH), ADDED))
  {
    assert Run(EMPTY, []) == EMPTY;
    var d := EMPTY.disk;
    hide Reachable;
    Begin(d, NO_OPS, 0, ADD);
    Next(d, NO_OPS, 0, ADD, AddLockIndex, false, d, AddFind);
    Next(d, NO_OPS, 0, ADD, AddFind, false, d, AddFindName);
    Next(d, NO_OPS, 0, ADD, AddFindName, false, d, AddAuth);
    Next(d, NO_OPS, 0, ADD, AddAuth, false, d, AddAllocate);
    var d' := d.(ever := {ID});
    assert d.ever + {ID} == {ID};
    Next(d, NO_OPS, 0, ADD, AddAllocate, false, d', AddCreate(ID));
    assert Write(d', ID, FRESH) == OneRecord(FRESH);
    Next(d', NO_OPS, 0, ADD, AddCreate(ID), false, OneRecord(FRESH), Done);
  }

  /** The resubmission has found its record and checked the new name. */
  lemma ResubmissionWaits()
    ensures Reachable(State(OneRecord(FRESH), LOOKED_UP))
  {
    hide Reachable;
    RecordAdded();
    var d := OneRecord(FRESH);
    Begin(d, ADDED, 1, RENAME);
    Next(d, ADDED, 1, RENAME, AddLockIndex, false, d, AddFind);
    Next(d, ADDED, 1, RENAME, AddFind, false, d, ReCheck(ID, FRESH));
    Next(d, ADDED, 1, RENAME, ReCheck(ID, FRESH), false, d, ReLock(ID, FRESH));
  }

  /** Nobody in `base` holds the locks of the connection. */
  ghost predicate Quiet(base: map<nat, Op>, t: nat) {
    t !in base && forall u :: u in base ==> !HoldsConn(base[u], ID) && !HoldsNet(base[u])
  }

  predicate Readable(d: Disk, r: Rec) { ID in d.store && d.store[ID] == r && ID !in d.unreadable }

  /** A user's disconnect with nobody in its way commits, and runs to its end. */
  lemma DisconnectReads(d: Disk, base: map<nat, Op>, t: nat, r: Rec)
    requires Reachable(State(d, base)) && Quiet(base, t) && Readable(d, r) && !r.userDisconnected
    ensures Reachable(With(d, base, t, HANG_UP, DiSet(r)))
  {
    hide Reachable;
    Begin(d, base, t, HANG_UP);
    Next(d, base, t, HANG_UP, DiLock, false, d, DiMark);
    Next(d, base, t, HANG_UP, DiMark, false, d, DiSet(r));
  }

  lemma DisconnectCommits(d: Disk, base: map<nat, Op>, t: nat, r: Rec)
    requires Reachable(State(d, base)) && Quiet(base, t) && Readable(d, r) && !r.userDisconnected
    ensures Reachable(With(Write(d, ID, r.(userDisconnected := true)), base, t, HANG_UP, DiLoad))
  {
    hide Reachable;
    DisconnectReads(d, base, t, r);
    Next(d, base, t, HANG_UP, DiSet(r), false, Write(d, ID, r.(userDisconnected := true)), DiLoad);
  }

  lemma DisconnectGoesDown(d: Disk, base: map<nat, Op>, t: nat, r: Rec)
    requires Reachable(With(d, base, t, HANG_UP, DiLoad)) && Quiet(base, t) && Readable(d, r)
    ensures Reachable(With(d, base, t, HANG_UP, DiDown))
  {
    hide Reachable;
    Next(d, base, t, HANG_UP, DiLoad, false, d, DiLockNet);
    Next(d, base, t, HANG_UP, DiLockNet, false, d, DiDown);
  }

  lemma DisconnectEnds(d: Disk, base: map<nat, Op>, t: nat, r: Rec)
    requires Reachable(With(d, base, t, HANG_UP, DiLoad)) && Quiet(base, t) && Readable(d, r)
    requires ID !in d.sockets && ID !in d.markers
    ensures Reachable(With(d, base, t, HANG_UP, Done))
  {
    hide Reachable;
    DisconnectGoesDown(d, base, t, r);
    DisconnectDown(d, base, t);
    assert d.(markers := d.markers - {ID}) == d;
    Next(d, base, t, HANG_UP, DiClear, false, d, Done);
  }

  lemma DisconnectDown(d: Disk, base: map<nat, Op>, t: nat)
    requires Reachable(With(d, base, t, HANG_UP, DiDown)) && Quiet(base, t) && ID !in d.sockets
    ensures Reachable(With(d, base, t, HANG_UP, DiClear))
  {
    hide Reachable;
    assert d.(sockets := d.sockets - {ID}) == d;
    Next(d, base, t, HANG_UP, DiDown, false, d, DiClear);
  }

  /** A reconciliation with nobody in its way, of a record that is not flagged,
      brings the tunnel up. */
  lemma AgentAsks(d: Disk, base: map<nat, Op>, t: nat, r: Rec)
    requires Reachable(State(d, base)) && Quiet(base, t) && Readable(d, r) && !r.userDisconnected
    ensures Reachable(With(d, base, t, AGENT, CoLoad))
  {
    hide Reachable;
    Begin(d, base, t, AGENT);
    Next(d, base, t, AGENT, CoLock, true, d, CoIntent);
    Next(d, base, t, AGENT, CoIntent, true, d, CoLoad);
  }

  lemma AgentLooks(d: Disk, base: map<nat, Op>, t: nat, r: Rec)
    requires Reachable(With(d, base, t, AGENT, CoLoad)) && Quiet(base, t) && Readable(d, r) && ID !in d.sockets
    ensures Reachable(With(d, base, t, AGENT, CoPreUp))
  {
    hide Reachable;
    Next(d, base, t, AGENT, CoLoad, true, d, CoProbe);
    Next(d, base, t, AGENT, CoProbe, true, d, CoPreUp);
  }

  lemma AgentStarts(d: Disk, base: map<nat, Op>, t: nat)
    requires Reachable(With(d, base, t, AGENT, CoPreUp)) && Quiet(base, t)
    ensures Reachable(With(d, base, t, AGENT, CoStart))
  {
    hide Reachable;
    Next(d, base, t, AGENT, CoPreUp, true, d, CoLockNet);
    Next(d, base, t, AGENT, CoLockNet, true, d, CoStart);
  }

  lemma AgentConnects(d: Disk, base: map<nat, Op>, t: nat, r: Rec)
    requires Reachable(State(d, base)) && Quiet(base, t) && Readable(d, r) && !r.userDisconnected && ID !in d.sockets
    ensures Reachable(With(d.(sockets := d.sockets + {ID}), base, t, AGENT, CoPostUp))
  {
    hide Reachable;
    AgentAsks(d, base, t, r);
    AgentLooks(d, base, t, r);
    AgentStarts(d, base, t);
    Next(d, base, t, AGENT, CoStart, true, d.(sockets := d.sockets + {ID}), CoPostUp);
  }

  /** The user's disconnect runs while the resubmission waits for the record's
      lock. */
  lemma DisconnectMeanwhile()
    ensures Reachable(With(OneRecord(OFF), HUNG_UP, 1, RENAME, ReLock(ID, FRESH)))
  {
    ResubmissionWaits();
    hide Reachable;
    var d, off := OneRecord(FRESH), OneRecord(OFF);
    assert Write(d, ID, OFF) == off;
    assert Quiet(LOOKED_UP, 2);
    DisconnectCommits(d, LOOKED_UP, 2, FRESH);
    DisconnectEnds(off, LOOKED_UP, 2, OFF);
    assert LOOKED_UP[2 := Op(HANG_UP, Done)] == HUNG_UP[1 := Op(RENAME, ReLock(ID, FRESH))];
  }

  const ABOUT: State := With(OneRecord(OFF), HUNG_UP, 1, RENAME, ReWrite(ID, FRESH))
  const COMMIT: Event := Advance(1, true, ID, false)

  /** A reachable state in which the write-back is about to undo the disconnect,
      though the resubmission asks for no such thing. */
  lemma StaleWriteBackHappens()
    ensures Reachable(ABOUT) && Flagged(ABOUT, ID) && Commits(ABOUT, COMMIT, ID)
    ensures StaleWriteBack(ABOUT.ops[1], true) && ABOUT.ops[1].req == RENAME
    ensures Apply(ABOUT, COMMIT) == State(OneRecord(BACK), WRITTEN) && !Flagged(Apply(ABOUT, COMMIT), ID)
    ensures Reachable(Apply(ABOUT, COMMIT))
  {
    hide Reachable;
    DisconnectMeanwhile();
    var off := OneRecord(OFF);
    Next(off, HUNG_UP, 1, RENAME, ReLock(ID, FRESH), false, off, ReWrite(ID, FRESH));
    assert Write(off, ID, BACK) == OneRecord(BACK);
    Next(off, HUNG_UP, 1, RENAME, ReWrite(ID, FRESH), false, OneRecord(BACK), Done);
  }

  /** And after it the session agent brings the tunnel up, though the only
      request since the user's disconnect is its own. */
  lemma ReconciliationUndoesDisconnect()
    ensures Reachable(With(OneRecord(BACK).(sockets := {ID}), WRITTEN, 3, AGENT, CoPostUp))
  {
    StaleWriteBackHappens();
    hide Reachable;
    assert Quiet(WRITTEN, 3);
    AgentConnects(OneRecord(BACK), WRITTEN, 3, BACK);
    assert OneRecord(BACK).sockets + {ID} == {ID};
  }
}
