/** What the operations achieve: left alone and met with no failure, each leaves
    the disk its caller asked for; met with a failure, it commits nothing more. */
module LifecycleOutcomes {
  import opened Prelude
  import opened Lifecycle
  import LifecycleInv
  import opened LifecycleTheorems

  /** The next `n` steps of operation `t`, all answered well. */
  function Steps(t: nat, n: nat, pick: Id, up: bool): seq<Event> { seq(n, _ => Advance(t, true, pick, up)) }

  /** Nobody holds a lock in the way of an operation on `id`. */
  ghost predicate Clear(ops: map<nat, Op>, id: Id) {
    forall u :: u in ops ==> !HoldsIndex(ops[u]) && !HoldsConn(ops[u], id) && !HoldsNet(ops[u])
  }

  predicate Readable(d: Disk, id: Id) { id in d.store && id !in d.unreadable }

  // ---- following one operation ---------------------------------------------------------

  lemma {:induction false} RunFront(s: State, ev: Event, rest: seq<Event>)
    ensures Run(s, [ev] + rest) == Run(Apply(s, ev), rest)
  {
    var all := [ev] + rest;
    if rest == [] {
      assert all[..0] == [] && Run(s, []) == s;
    } else {
      var n := |rest| - 1;
      assert all[..|all| - 1] == [ev] + rest[..n] && all[|all| - 1] == rest[n];
      RunFront(s, ev, rest[..n]);
    }
  }

  /** Operation `t` of `req` stands at `pc` beside those of `base`. */
  function Beside(d: Disk, base: map<nat, Op>, t: nat, req: Request, pc: Pc): State { State(d, base[t := Op(req, pc)]) }

  /** The state after the next `n` steps of `t`. */
  function After(d: Disk, base: map<nat, Op>, t: nat, req: Request, pc: Pc, n: nat, pick: Id, up: bool): State {
    Run(Beside(d, base, t, req, pc), Steps(t, n, pick, up))
  }

  lemma Go(d: Disk, base: map<nat, Op>, t: nat, req: Request, pc: Pc, n: nat, pick: Id, up: bool, d': Disk, pc': Pc)
    requires n > 0 && CanAdvance(Beside(d, base, t, req, pc), Op(req, pc))
    requires StepPc(d, Op(req, pc), true, pick, up) == (d', pc')
    ensures After(d, base, t, req, pc, n, pick, up) == After(d', base, t, req, pc', n - 1, pick, up)
  {
    hide StepPc, CanAdvance, Run;
    var s := Beside(d, base, t, req, pc);
    assert Steps(t, n, pick, up) == [Advance(t, true, pick, up)] + Steps(t, n - 1, pick, up);
    RunFront(s, Advance(t, true, pick, up), Steps(t, n - 1, pick, up));
    assert s.ops[t := Op(req, pc')] == base[t := Op(req, pc')];
  }

  /** A step that waits for no lock. */
  lemma GoOn(d: Disk, base: map<nat, Op>, t: nat, req: Request, pc: Pc, n: nat, pick: Id, up: bool, d': Disk, pc': Pc)
    requires n > 0 && WaitsFor(Op(req, pc)) == NoWait && pc != Done
    requires StepPc(d, Op(req, pc), true, pick, up) == (d', pc')
    ensures After(d, base, t, req, pc, n, pick, up) == After(d', base, t, req, pc', n - 1, pick, up)
  {
    hide StepPc, After;
    Go(d, base, t, req, pc, n, pick, up, d', pc');
  }

  lemma DoneStays(s: State, t: nat, pick: Id, up: bool)
    requires t in s.ops && s.ops[t].pc == Done
    ensures Apply(s, Advance(t, true, pick, up)) == s
  {
    hide StepOp;
  }

  lemma {:induction false} Rests(d: Disk, base: map<nat, Op>, t: nat, req: Request, n: nat, pick: Id, up: bool)
    ensures After(d, base, t, req, Done, n, pick, up) == Beside(d, base, t, req, Done)
  {
    hide StepOp, CanAdvance, Admitted, Apply;
    if n > 0 {
      var s := Beside(d, base, t, req, Done);
      DoneStays(s, t, pick, up);
      assert Steps(t, n, pick, up) == [Advance(t, true, pick, up)] + Steps(t, n - 1, pick, up);
      RunFront(s, Advance(t, true, pick, up), Steps(t, n - 1, pick, up));
      Rests(d, base, t, req, n - 1, pick, up);
    }
  }

  /** Spawn the operation and let it take its steps. */
  function Alone(s: State, t: nat, req: Request, n: nat, pick: Id, up: bool): State {
    Run(s, [Spawn(t, req)] + Steps(t, n, pick, up))
  }

  lemma Spawned(s: State, t: nat, req: Request, n: nat, pick: Id, up: bool)
    requires t !in s.ops && Admitted(s.disk, req)
    ensures Alone(s, t, req, n, pick, up) == After(s.disk, s.ops, t, req, FirstPc(req), n, pick, up)
  {
    RunFront(s, Spawn(t, req), Steps(t, n, pick, up));
  }

  /** The only thing that has changed is the disk, and the operation has ended. */
  predicate Ended(s: State, s': State, t: nat, req: Request, d': Disk) {
    s' == Beside(d', s.ops, t, req, Done)
  }

  // ---- connect ------------------------------------------------------------------------------

  lemma Connects(d: Disk, base: map<nat, Op>, t: nat, req: Request, n: nat)
    requires req.Connect? && t !in base && Clear(base, req.id) && n >= 8
    requires Readable(d, req.id) && req.id !in d.sockets
    ensures After(d, base, t, req, CoLoad, n, req.id, true)
            == Beside(d.(sockets := d.sockets + {req.id}, markers := d.markers + {req.id}), base, t, req, Done)
  {
    hide Run, Clear, After, Beside, CanAdvance;
    var id := req.id;
    GoOn(d, base, t, req, CoLoad, n, id, true, d, CoProbe);
    GoOn(d, base, t, req, CoProbe, n - 1, id, true, d, CoPreUp);
    GoOn(d, base, t, req, CoPreUp, n - 2, id, true, d, CoLockNet);
    NetIsFree(d, base, t, req, CoLockNet);
    Go(d, base, t, req, CoLockNet, n - 3, id, true, d, CoStart);
    Finishes(d, base, t, req, n - 4);
  }

  lemma Finishes(d: Disk, base: map<nat, Op>, t: nat, req: Request, n: nat)
    requires req.Connect? && t !in base && n >= 4
    ensures After(d, base, t, req, CoStart, n, req.id, true)
            == Beside(d.(sockets := d.sockets + {req.id}, markers := d.markers + {req.id}), base, t, req, Done)
  {
    hide Run, After, Beside, CanAdvance;
    var id := req.id;
    var d1 := d.(sockets := d.sockets + {id});
    var d2 := d1.(markers := d.markers + {id});
    GoOn(d, base, t, req, CoStart, n, id, true, d1, CoPostUp);
    GoOn(d1, base, t, req, CoPostUp, n - 1, id, true, d1, CoSave);
    GoOn(d1, base, t, req, CoSave, n - 2, id, true, d2, Done);
    Rests(d2, base, t, req, n - 3, id, true);
  }

  lemma NetIsFree(d: Disk, base: map<nat, Op>, t: nat, req: Request, pc: Pc)
    requires (req.Connect? || req.Disconnect?) && Clear(base, req.id) && WaitsFor(Op(req, pc)) == ForNet
    ensures CanAdvance(Beside(d, base, t, req, pc), Op(req, pc))
  {
  }

  lemma LockIsFree(d: Disk, base: map<nat, Op>, t: nat, req: Request, pc: Pc, id: Id)
    requires Clear(base, id) && WaitsFor(Op(req, pc)) == ForConn(id)
    ensures CanAdvance(Beside(d, base, t, req, pc), Op(req, pc))
  {
  }

  function Wish(d: Disk, id: Id, flag: bool): Disk
    requires id in d.store
  {
    d.(store := d.store[id := d.store[id].(userDisconnected := flag)])
  }

  /** A connect that reads its record goes on to the tunnel: a user's whatever the
      flag, which it clears, a reconciliation's only without it. */
  lemma ConnectIntends(s: State, t: nat, req: Request, n: nat) returns (m: nat)
    requires req.Connect? && t !in s.ops && Clear(s.ops, req.id) && Readable(s.disk, req.id) && n >= 3
    requires req.why == UserConnect || !s.disk.store[req.id].userDisconnected
    ensures m >= n - 3
    ensures Alone(s, t, req, n, req.id, true) == After(Wish(s.disk, req.id, false), s.ops, t, req, CoLoad, m, req.id, true)
  {
    hide Run, Clear, After, Beside, CanAdvance, StepAdd, StepRemove, StepMode, StepDisconnect, Alone;
    var id, d := req.id, s.disk;
    var r := d.store[id];
    Spawned(s, t, req, n, id, true);
    LockIsFree(d, s.ops, t, req, CoLock, id);
    Go(d, s.ops, t, req, CoLock, n, id, true, d, CoIntent);
    if r.userDisconnected {
      GoOn(d, s.ops, t, req, CoIntent, n - 1, id, true, d, CoClear(r));
      assert d.unreadable - {id} == d.unreadable;
      GoOn(d, s.ops, t, req, CoClear(r), n - 2, id, true, Wish(d, id, false), CoLoad);
      m := n - 3;
    } else {
      GoOn(d, s.ops, t, req, CoIntent, n - 1, id, true, d, CoLoad);
      assert d.store[id := r.(userDisconnected := false)] == d.store;
      assert Wish(d, id, false) == d;
      m := n - 2;
    }
  }

  /** A user's connect connects: from every state with a readable record, flagged
      or not, and nobody in the way, it clears the flag, brings the helper up and
      saves the marker; so does a reconciliation of an unflagged record. Nothing
      else on disk changes. */
  lemma ConnectSucceeds(s: State, t: nat, id: Id, why: ConnectReason)
    requires t !in s.ops && Clear(s.ops, id) && Readable(s.disk, id) && id !in s.disk.sockets
    requires why == UserConnect || !s.disk.store[id].userDisconnected
    ensures var d := s.disk;
            Ended(s, Alone(s, t, Connect(id, why), 11, id, true), t, Connect(id, why),
                  Wish(d, id, false).(sockets := d.sockets + {id}, markers := d.markers + {id}))
  {
    hide Run, Clear, After, Beside, CanAdvance;
    var req := Connect(id, why);
    var m := ConnectIntends(s, t, req, 11);
    Connects(Wish(s.disk, id, false), s.ops, t, req, m);
  }

  /** A connect of a connection that is up leaves it up, and clears the flag. */
  lemma ConnectIsIdempotent(s: State, t: nat, id: Id, why: ConnectReason)
    requires t !in s.ops && Clear(s.ops, id) && Readable(s.disk, id) && id in s.disk.sockets
    requires why == UserConnect || !s.disk.store[id].userDisconnected
    ensures Ended(s, Alone(s, t, Connect(id, why), 11, id, true), t, Connect(id, why), Wish(s.disk, id, false))
  {
    hide Run, Clear, After, Beside, CanAdvance;
    var req, d := Connect(id, why), Wish(s.disk, id, false);
    var m := ConnectIntends(s, t, req, 11);
    GoOn(d, s.ops, t, req, CoLoad, m, id, true, d, CoProbe);
    GoOn(d, s.ops, t, req, CoProbe, m - 1, id, true, d, Done);
    Rests(d, s.ops, t, req, m - 2, id, true);
  }

  /** A reconciliation of a flagged record backs off. */
  lemma ReconciliationBacksOff(s: State, t: nat, id: Id)
    requires t !in s.ops && Clear(s.ops, id) && Readable(s.disk, id) && s.disk.store[id].userDisconnected
    ensures Ended(s, Alone(s, t, Connect(id, Reconciliation), 11, id, true), t, Connect(id, Reconciliation), s.disk)
  {
    hide Run, Clear, After, Beside, CanAdvance;
    var req, d := Connect(id, Reconciliation), s.disk;
    Spawned(s, t, req, 11, id, true);
    LockIsFree(d, s.ops, t, req, CoLock, id);
    Go(d, s.ops, t, req, CoLock, 11, id, true, d, CoIntent);
    GoOn(d, s.ops, t, req, CoIntent, 10, id, true, d, Done);
    Rests(d, s.ops, t, req, 9, id, true);
  }

  // ---- disconnect ------------------------------------------------------------------------------

  /** The flag as a disconnect leaves it. */
  function Parted(d: Disk, id: Id, reason: DisconnectReason): Disk
    requires id in d.store
  {
    if reason == UserDisconnect then Wish(d, id, true) else d
  }

  lemma DisconnectIntends(s: State, t: nat, req: Request, n: nat) returns (m: nat)
    requires req.Disconnect? && t !in s.ops && Clear(s.ops, req.id) && Readable(s.disk, req.id) && n >= 3
    ensures m >= n - 3
    ensures Alone(s, t, req, n, req.id, false) == After(Parted(s.disk, req.id, req.reason), s.ops, t, req, DiLoad, m, req.id, false)
  {
    hide Run, Clear, After, Beside, CanAdvance, StepAdd, StepRemove, StepMode, StepConnect, Alone;
    var id, d := req.id, s.disk;
    var r := d.store[id];
    Spawned(s, t, req, n, id, false);
    LockIsFree(d, s.ops, t, req, DiLock, id);
    Go(d, s.ops, t, req, DiLock, n, id, false, d, DiMark);
    if req.reason == UserDisconnect && !r.userDisconnected {
      GoOn(d, s.ops, t, req, DiMark, n - 1, id, false, d, DiSet(r));
      assert d.unreadable - {id} == d.unreadable;
      GoOn(d, s.ops, t, req, DiSet(r), n - 2, id, false, Wish(d, id, true), DiLoad);
      assert Parted(d, id, req.reason) == Wish(d, id, true);
      m := n - 3;
    } else {
      GoOn(d, s.ops, t, req, DiMark, n - 1, id, false, d, DiLoad);
      assert r.userDisconnected ==> d.store[id := r.(userDisconnected := true)] == d.store;
      assert Parted(d, id, req.reason) == d;
      m := n - 2;
    }
  }

  /** A disconnect disconnects: a user's sets the flag, a session teardown leaves
      it; both take the helper and the marker away, and touch nothing else. */
  lemma DisconnectSucceeds(s: State, t: nat, id: Id, reason: DisconnectReason)
    requires t !in s.ops && Clear(s.ops, id) && Readable(s.disk, id)
    ensures var d := s.disk;
            Ended(s, Alone(s, t, Disconnect(id, reason), 7, id, false), t, Disconnect(id, reason),
                  Parted(d, id, reason).(sockets := d.sockets - {id}, markers := d.markers - {id}))
  {
    hide Run, Clear, After, Beside, CanAdvance;
    var req, d := Disconnect(id, reason), Parted(s.disk, id, reason);
    var m := DisconnectIntends(s, t, req, 7);
    GoesDown(d, s.ops, t, req, m);
  }

  lemma GoesDown(d: Disk, base: map<nat, Op>, t: nat, req: Request, n: nat)
    requires req.Disconnect? && t !in base && Clear(base, req.id) && Readable(d, req.id) && n >= 4
    ensures After(d, base, t, req, DiLoad, n, req.id, false)
            == Beside(d.(sockets := d.sockets - {req.id}, markers := d.markers - {req.id}), base, t, req, Done)
  {
    hide Run, Clear, After, Beside, CanAdvance;
    var id := req.id;
    var d1 := d.(sockets := d.sockets - {id});
    var d2 := d1.(markers := d.markers - {id});
    GoOn(d, base, t, req, DiLoad, n, id, false, d, DiLockNet);
    NetIsFree(d, base, t, req, DiLockNet);
    Go(d, base, t, req, DiLockNet, n - 1, id, false, d, DiDown);
    GoOn(d, base, t, req, DiDown, n - 2, id, false, d1, DiClear);
    GoOn(d1, base, t, req, DiClear, n - 3, id, false, d2, Done);
    Rests(d2, base, t, req, n - 4, id, false);
  }

  // ---- mode, removal, addition -------------------------------------------------------------------

  /** A mode change leaves the mode asked for; one that lands on `Automatic` also
      clears the flag, and one that changes nothing leaves the record alone. */
  lemma ModeChangeSucceeds(s: State, t: nat, id: Id, mode: Mode)
    requires t !in s.ops && Clear(s.ops, id) && Readable(s.disk, id)
    ensures var d, r := s.disk, s.disk.store[id];
            var r' := if r.mode == mode then r
                      else Rec(r.fingerprint, r.global, r.owner, mode, r.name, mode == Manual && r.userDisconnected);
            Ended(s, Alone(s, t, SetMode(id, mode), 3, id, false), t, SetMode(id, mode), d.(store := d.store[id := r']))
  {
    hide Run, Clear, After, Beside, CanAdvance;
    var req, d := SetMode(id, mode), s.disk;
    var r := d.store[id];
    Spawned(s, t, req, 3, id, false);
    LockIsFree(d, s.ops, t, req, MoLock, id);
    Go(d, s.ops, t, req, MoLock, 3, id, false, d, MoLoad);
    if r.mode == mode {
      GoOn(d, s.ops, t, req, MoLoad, 2, id, false, d, Done);
      Rests(d, s.ops, t, req, 1, id, false);
      assert d.store[id := r] == d.store;
    } else {
      GoOn(d, s.ops, t, req, MoLoad, 2, id, false, d, MoWrite(r));
      assert d.unreadable - {id} == d.unreadable;
      var r' := Rec(r.fingerprint, r.global, r.owner, mode, r.name, mode == Manual && r.userDisconnected);
      GoOn(d, s.ops, t, req, MoWrite(r), 1, id, false, d.(store := d.store[id := r']), Done);
      Rests(d.(store := d.store[id := r']), s.ops, t, req, 0, id, false);
    }
  }

  lemma IndexIsFree(d: Disk, base: map<nat, Op>, t: nat, req: Request, pc: Pc, id: Id)
    requires Clear(base, id) && WaitsFor(Op(req, pc)) == ForIndex
    ensures CanAdvance(Beside(d, base, t, req, pc), Op(req, pc))
  {
  }

  /** A removal removes an inactive record, for good, and leaves an active one. */
  lemma RemovalSucceeds(s: State, t: nat, id: Id)
    requires t !in s.ops && Clear(s.ops, id) && Readable(s.disk, id)
    ensures var d := s.disk;
            Ended(s, Alone(s, t, Remove(id), 6, id, false), t, Remove(id),
                  if id in d.markers && id in d.sockets then d else d.(store := d.store - {id}, dead := d.dead + {id}))
  {
    hide Run, Clear, After, Beside, CanAdvance;
    var req, d := Remove(id), s.disk;
    Spawned(s, t, req, 6, id, false);
    IndexIsFree(d, s.ops, t, req, RmLockIndex, id);
    Go(d, s.ops, t, req, RmLockIndex, 6, id, false, d, RmLoad);
    GoOn(d, s.ops, t, req, RmLoad, 5, id, false, d, RmLock);
    LockIsFree(d, s.ops, t, req, RmLock, id);
    Go(d, s.ops, t, req, RmLock, 4, id, false, d, RmCheck);
    if id in d.markers && id in d.sockets {
      GoOn(d, s.ops, t, req, RmCheck, 3, id, false, d, Done);
      Rests(d, s.ops, t, req, 2, id, false);
    } else {
      GoOn(d, s.ops, t, req, RmCheck, 3, id, false, d, RmAuth);
      RemovalEnds(d, s.ops, t, req);
    }
  }

  lemma RemovalEnds(d: Disk, base: map<nat, Op>, t: nat, req: Request)
    requires req.Remove? && t !in base && Readable(d, req.id)
    ensures After(d, base, t, req, RmAuth, 2, req.id, false)
            == Beside(d.(store := d.store - {req.id}, dead := d.dead + {req.id}), base, t, req, Done)
  {
    hide Run, After, Beside, CanAdvance;
    var d' := d.(store := d.store - {req.id}, dead := d.dead + {req.id});
    GoOn(d, base, t, req, RmAuth, 2, req.id, false, d, RmDelete);
    assert d.unreadable - {req.id} == d.unreadable;
    GoOn(d, base, t, req, RmDelete, 1, req.id, false, d', Done);
    Rests(d', base, t, req, 0, req.id, false);
  }

  /** Somebody in the caller's namespace, other than `except`, has the name. */
  ghost predicate NameInUse(store: map<Id, Rec>, name: string, global: bool, owner: Option<nat>, except: set<Id>) {
    exists i :: i in store && i !in except && store[i].name == Some(name) && store[i].global == global && store[i].owner == owner
  }

  ghost predicate NameAllowed(d: Disk, req: Request)
    requires req.Add?
  {
    req.force || req.name.None? || !NameInUse(d.store, req.name.value, req.global, req.owner, {})
  }

  ghost predicate Unknown(d: Disk, req: Request)
    requires req.Add?
  {
    forall i :: i in d.store ==>
      !(d.store[i].fingerprint == req.fingerprint && d.store[i].global == req.global && d.store[i].owner == req.owner)
  }

  /** An identifier never used whose first 32 bits name a free interface. */
  predicate Drawn(d: Disk, id: Id) {
    id !in d.ever && forall i :: i in d.store ==> i / 0x1_0000_0000_0000_0000_0000_0000 != id / 0x1_0000_0000_0000_0000_0000_0000
  }

  /** An addition of an unknown configuration under an allowed name stores it as
      asked, under the identifier drawn; under a name in use it stores nothing. */
  lemma AdditionSucceeds(s: State, t: nat, req: Request, id: Id)
    requires req.Add? && t !in s.ops && Clear(s.ops, id) && s.disk.unreadable == {} && Unknown(s.disk, req) && Drawn(s.disk, id)
    ensures var d := s.disk;
            Ended(s, Alone(s, t, req, 6, id, false), t, req,
                  if NameAllowed(d, req) then
                    d.(store := d.store[id := Rec(req.fingerprint, req.global, req.owner, req.mode, req.name, false)], ever := d.ever + {id})
                  else d)
  {
    hide Run, Clear, After, Beside, CanAdvance;
    var d := s.disk;
    Spawned(s, t, req, 6, id, false);
    IndexIsFree(d, s.ops, t, req, AddLockIndex, id);
    Go(d, s.ops, t, req, AddLockIndex, 6, id, false, d, AddFind);
    GoOn(d, s.ops, t, req, AddFind, 5, id, false, d, AddFindName);
    NameInUseIsTaken(d, req);
    if NameAllowed(d, req) {
      GoOn(d, s.ops, t, req, AddFindName, 4, id, false, d, AddAuth);
      AdditionEnds(d, s.ops, t, req, id);
    } else {
      GoOn(d, s.ops, t, req, AddFindName, 4, id, false, d, Done);
      Rests(d, s.ops, t, req, 3, id, false);
    }
  }

  lemma NameInUseIsTaken(d: Disk, req: Request)
    requires req.Add?
    ensures NameAllowed(d, req) <==> req.force || req.name.None? || !NameTaken(d.store, req.name, req.global, req.owner, {})
  {
  }

  lemma AdditionEnds(d: Disk, base: map<nat, Op>, t: nat, req: Request, id: Id)
    requires req.Add? && t !in base && d.unreadable == {} && Drawn(d, id)
    ensures After(d, base, t, req, AddAuth, 3, id, false)
            == Beside(d.(store := d.store[id := Rec(req.fingerprint, req.global, req.owner, req.mode, req.name, false)],
                         ever := d.ever + {id}), base, t, req, Done)
  {
    hide Run, After, Beside, CanAdvance;
    var d1 := d.(ever := d.ever + {id});
    var d2 := d1.(store := d.store[id := Rec(req.fingerprint, req.global, req.owner, req.mode, req.name, false)]);
    GoOn(d, base, t, req, AddAuth, 3, id, false, d, AddAllocate);
    GoOn(d, base, t, req, AddAllocate, 2, id, false, d1, AddCreate(id));
    assert Write(d1, id, d2.store[id]) == d2;
    GoOn(d1, base, t, req, AddCreate(id), 1, id, false, d2, Done);
    Rests(d2, base, t, req, 0, id, false);
  }

  /** A resubmission of a known configuration gives its record the mode asked for
      and the name, if one is given; it clears the flag if the mode changes to
      `Automatic`, and does nothing under a name in use. */
  lemma ResubmissionSucceeds(s: State, t: nat, req: Request, id: Id)
    requires req.Add? && t !in s.ops && Clear(s.ops, id) && s.disk.unreadable == {} && id in s.disk.store
    requires var r := s.disk.store[id]; r.fingerprint == req.fingerprint && r.global == req.global && r.owner == req.owner
    ensures var d, r := s.disk, s.disk.store[id];
            var r' := Rec(r.fingerprint, r.global, r.owner, req.mode, if req.name.Some? then req.name else r.name,
                          r.userDisconnected && (req.mode == r.mode || req.mode == Manual));
            var refused := !req.force && req.name.Some? && req.name != r.name
                           && NameInUse(d.store, req.name.value, req.global, req.owner, {id});
            Ended(s, Alone(s, t, req, 5, id, false), t, req, if refused then d else d.(store := d.store[id := r']))
  {
    hide Run, Clear, Write, WriteBack, After, Beside, CanAdvance;
    var d := s.disk;
    var r := d.store[id];
    Spawned(s, t, req, 5, id, false);
    IndexIsFree(d, s.ops, t, req, AddLockIndex, id);
    Go(d, s.ops, t, req, AddLockIndex, 5, id, false, d, AddFind);
    GoOn(d, s.ops, t, req, AddFind, 4, id, false, d, ReCheck(id, r));
    var d' := d.(store := d.store[id := WriteBack(req, r)]);
    WrittenBackAsAsked(d, req, r, id);
    assert NameTaken(d.store, req.name, r.global, r.owner, {id}) <==>
           req.name.Some? && NameInUse(d.store, req.name.value, req.global, req.owner, {id});
    if (NameChanged(req, r) || ModeChanged(req, r))
       && !(!req.force && NameChanged(req, r) && NameTaken(d.store, req.name, r.global, r.owner, {id})) {
      GoOn(d, s.ops, t, req, ReCheck(id, r), 3, id, false, d, ReLock(id, r));
      LockIsFree(d, s.ops, t, req, ReLock(id, r), id);
      Go(d, s.ops, t, req, ReLock(id, r), 2, id, false, d, ReWrite(id, r));
      GoOn(d, s.ops, t, req, ReWrite(id, r), 1, id, false, d', Done);
      Rests(d', s.ops, t, req, 0, id, false);
    } else {
      GoOn(d, s.ops, t, req, ReCheck(id, r), 3, id, false, d, Done);
      Rests(d, s.ops, t, req, 2, id, false);
    }
  }

  lemma WrittenBackAsAsked(d: Disk, req: Request, r: Rec, id: Id)
    requires req.Add? && d.unreadable == {} && id in d.store && d.store[id] == r
    ensures WriteBack(req, r) == Rec(r.fingerprint, r.global, r.owner, req.mode, if req.name.Some? then req.name else r.name,
                                     r.userDisconnected && (req.mode == r.mode || req.mode == Manual))
    ensures Write(d, id, WriteBack(req, r)) == d.(store := d.store[id := WriteBack(req, r)])
    ensures !NameChanged(req, r) && !ModeChanged(req, r) ==> d.store[id := WriteBack(req, r)] == d.store
  {
  }

  // ---- failures -------------------------------------------------------------------------------------

  /** The next step needs an answer from outside: it reads or writes the disk,
      asks for authorisation, runs a hook or calls the helper. */
  predicate Asks(d: Disk, op: Op) {
    match op.pc
    case AddFindName => op.req.Add? && !op.req.force && op.req.name.Some?
    case ReCheck(id, snap) =>
      op.req.Add? && ((NameChanged(op.req, snap) && !op.req.force)
                      || (snap.global && snap.mode == Manual && op.req.mode == Automatic))
    case DiMark => op.req.Disconnect? && op.req.reason == UserDisconnect
    case _ => op.pc != Done && WaitsFor(op) == NoWait
  }

  /** What the helper did during a step that failed. */
  function Aftermath(d: Disk, op: Op, up: bool): Disk {
    match op.req
    case Connect(id, _) =>
      if op.pc == CoStart && up then d.(sockets := d.sockets + {id})
      else if op.pc == CoRollback && !up then d.(sockets := d.sockets - {id})
      else d
    case Disconnect(id, _) => if op.pc == DiDown && !up then d.(sockets := d.sockets - {id}) else d
    case _ => d
  }

  predicate FailsAsItShould(d: Disk, op: Op, d': Disk, pc': Pc, up: bool) {
    d' == Aftermath(d, op, up) && pc' == if op.pc == CoPostUp then CoLockNetAgain else Done
  }

  lemma FailedAdd(d: Disk, op: Op, pick: Id, up: bool)
    requires op.req.Add? && LifecycleInv.Typed(op) && Asks(d, op)
    ensures var (d', pc') := StepAdd(d, op, false, pick); FailsAsItShould(d, op, d', pc', up)
  {
    hide NameTaken, HasIdentity, Iface, IsActive, Write, WriteBack, NameChanged, Landed, HoldsIndex, HoldsConn, HoldsNet;
  }

  lemma FailedRemove(d: Disk, op: Op, up: bool)
    requires op.req.Remove? && LifecycleInv.Typed(op) && Asks(d, op)
    ensures var (d', pc') := StepRemove(d, op, false); FailsAsItShould(d, op, d', pc', up)
  {
    hide IsActive, HoldsIndex, HoldsConn, HoldsNet;
  }

  lemma FailedMode(d: Disk, op: Op, up: bool)
    requires op.req.SetMode? && LifecycleInv.Typed(op) && Asks(d, op)
    ensures var (d', pc') := StepMode(d, op, false); FailsAsItShould(d, op, d', pc', up)
  {
    hide Write, Landed;
  }

  lemma FailedConnect(d: Disk, op: Op, up: bool)
    requires op.req.Connect? && LifecycleInv.Typed(op) && Asks(d, op)
    ensures var (d', pc') := StepConnect(d, op, false, up); FailsAsItShould(d, op, d', pc', up)
  {
    hide Write;
  }

  lemma FailedDisconnect(d: Disk, op: Op, up: bool)
    requires op.req.Disconnect? && LifecycleInv.Typed(op) && Asks(d, op)
    ensures var (d', pc') := StepDisconnect(d, op, false, up); FailsAsItShould(d, op, d', pc', up)
  {
    hide Write;
  }

  /** A step that gets no good answer commits nothing and ends its operation;
      only after PostUp does it go on, to take the tunnel down again. What the
      helper did meanwhile is what the answer says. */
  lemma FailureEndsIt(s: State, t: nat, pick: Id, up: bool)
    requires LifecycleInv.Inv(s) && Unfinished(s, t) && Asks(s.disk, s.ops[t])
    ensures var s', op := Apply(s, Advance(t, false, pick, up)), s.ops[t];
            && s'.ops == s.ops[t := Op(op.req, if op.pc == CoPostUp then CoLockNetAgain else Done)]
            && s'.disk == Aftermath(s.disk, op, up)
  {
    hide StepAdd, StepRemove, StepMode, StepConnect, StepDisconnect, Aftermath;
    var op := s.ops[t];
    assert LifecycleInv.OpOk(s.disk, op);
    assert CanAdvance(s, op) by { AskingDoesNotWait(s.disk, op); }
    match op.req {
      case Add(_, _, _, _, _, _) => FailedAdd(s.disk, op, pick, up);
      case Remove(_) => FailedRemove(s.disk, op, up);
      case SetMode(_, _) => FailedMode(s.disk, op, up);
      case Connect(_, _) => FailedConnect(s.disk, op, up);
      case Disconnect(_, _) => FailedDisconnect(s.disk, op, up);
    }
  }

  lemma AskingDoesNotWait(d: Disk, op: Op)
    requires Asks(d, op)
    ensures WaitsFor(op) == NoWait && op.pc != Done
  {
  }

  lemma StepsTo(s: State, t: nat, ok: bool, pick: Id, up: bool, d': Disk, pc': Pc)
    requires t in s.ops && CanAdvance(s, s.ops[t]) && StepPc(s.disk, s.ops[t], ok, pick, up) == (d', pc')
    ensures Apply(s, Advance(t, ok, pick, up)) == State(d', s.ops[t := Op(s.ops[t].req, pc')])
  {
    hide StepPc, CanAdvance;
  }

  /** A PostUp that fails takes the tunnel down again. */
  lemma FailedPostUpRollsBack(d: Disk, base: map<nat, Op>, t: nat, id: Id, why: ConnectReason, ok: bool)
    requires t !in base && Clear(base, id)
    ensures Run(Beside(d, base, t, Connect(id, why), CoPostUp),
                [Advance(t, false, id, true), Advance(t, true, id, true), Advance(t, ok, id, false)])
            == Beside(d.(sockets := d.sockets - {id}), base, t, Connect(id, why), Done)
  {
    hide Run, StepPc, Clear, CanAdvance;
    var req := Connect(id, why);
    var s0, s1, s2 := Beside(d, base, t, req, CoPostUp), Beside(d, base, t, req, CoLockNetAgain), Beside(d, base, t, req, CoRollback);
    var d' := d.(sockets := d.sockets - {id});
    var s3 := Beside(d', base, t, req, Done);
    var e1, e2, e3 := Advance(t, false, id, true), Advance(t, true, id, true), Advance(t, ok, id, false);
    RollbackSteps(d, id, why, ok);
    assert CanAdvance(s0, s0.ops[t]) && CanAdvance(s2, s2.ops[t]) by { NoWaitAdvances(s0, t); NoWaitAdvances(s2, t); }
    NetIsFree(d, base, t, req, CoLockNetAgain);
    StepsTo(s0, t, false, id, true, d, CoLockNetAgain);
    StepsTo(s1, t, true, id, true, d, CoRollback);
    StepsTo(s2, t, ok, id, false, d', Done);
    assert Apply(s0, e1) == s1 && Apply(s1, e2) == s2 && Apply(s2, e3) == s3;
    RunFront(s0, e1, [e2, e3]);
    RunFront(s1, e2, [e3]);
    RunFront(s2, e3, []);
    assert [e1] + [e2, e3] == [e1, e2, e3] && [e2] + [e3] == [e2, e3] && [e3] + [] == [e3];
    EmptyRun(s3);
  }

  lemma NoWaitAdvances(s: State, t: nat)
    requires t in s.ops && WaitsFor(s.ops[t]) == NoWait && s.ops[t].pc != Done
    ensures CanAdvance(s, s.ops[t])
  {
  }

  lemma RollbackSteps(d: Disk, id: Id, why: ConnectReason, ok: bool)
    ensures StepPc(d, Op(Connect(id, why), CoPostUp), false, id, true) == (d, CoLockNetAgain)
    ensures StepPc(d, Op(Connect(id, why), CoLockNetAgain), true, id, true) == (d, CoRollback)
    ensures StepPc(d, Op(Connect(id, why), CoRollback), ok, id, false) == (d.(sockets := d.sockets - {id}), Done)
  {
  }

  lemma EmptyRun(s: State)
    ensures Run(s, []) == s
  {
  }

  // ---- damaged records ------------------------------------------------------------------------------

  /** What a step may do to the damaged records: a record it writes is sound
      again, a record it deletes is gone, and it damages none. */
  predicate Mends(d: Disk, d': Disk) {
    && d'.unreadable <= d.unreadable
    && (forall id :: id in d'.store && (id !in d.store || d'.store[id] != d.store[id]) ==> id !in d'.unreadable)
    && (forall id :: id in d'.unreadable && id in d.store ==> id in d'.store)
  }

  lemma StepMends(s: State, t: nat, ok: bool, pick: Id, up: bool)
    requires t in s.ops
    ensures Mends(s.disk, StepOp(s, t, ok, pick, up).disk)
  {
  }

  /** In every reachable state only stored records are damaged, and each step
      mends what it writes. */
  lemma {:induction false} DamagedAreStored(events: seq<Event>, t: nat, ok: bool, pick: Id, up: bool)
    ensures var s := Run(EMPTY, events);
            && s.disk.unreadable <= s.disk.store.Keys
            && (t in s.ops ==> Mends(s.disk, StepOp(s, t, ok, pick, up).disk))
  {
    hide StepOp, Mends;
    var s := Run(EMPTY, events);
    if t in s.ops { StepMends(s, t, ok, pick, up); }
    if events != [] {
      DamagedAreStored(events[..|events| - 1], t, ok, pick, up);
      EventKeepsDamagedStored(Run(EMPTY, events[..|events| - 1]), events[|events| - 1]);
    }
  }

  lemma EventKeepsDamagedStored(s: State, ev: Event)
    requires s.disk.unreadable <= s.disk.store.Keys
    ensures Apply(s, ev).disk.unreadable <= Apply(s, ev).disk.store.Keys
  {
    hide StepOp, CanAdvance, Admitted;
    if ev.Advance? && ev.t in s.ops { StepMends(s, ev.t, ev.ok, ev.pick, ev.up); }
  }
}
