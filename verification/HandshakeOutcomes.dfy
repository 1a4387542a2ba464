/** What a bring-up and a teardown come to, for every answer their own actions can
    get: the exact files, helper, marker and daemon at the end of the run. */
module HandshakeOutcomes {
  import opened Prelude
  import opened Handshake

  lemma RunOne(s: State, events: seq<Event>, ev: Event)
    ensures Run(s, events + [ev]) == Apply(Run(s, events), ev)
  {
    assert (events + [ev])[..|events|] == events;
  }

  lemma RunNothing(s: State)
    ensures Run(s, []) == s
  {
  }

  lemma {:induction false} RunOn(s: State, events: seq<Event>, more: seq<Event>)
    ensures Run(s, events + more) == Run(Run(s, events), more)
  {
    if more == [] {
      assert events + more == events;
    } else {
      var init := more[..|more| - 1];
      assert events + more == (events + init) + [more[|more| - 1]] && more == init + [more[|more| - 1]];
      RunOn(s, events, init);
      RunOne(s, events + init, more[|more| - 1]);
      RunOne(Run(s, events), init, more[|more| - 1]);
    }
  }

  /** An exited helper is gone for good: whatever happens, it stays as it ended,
      and no step of its own changes anything. */
  lemma {:induction false} ExitIsFinal(s: State, events: seq<Event>, i: nat, ok: bool, clean: bool)
    requires i < |s.helpers| && s.helpers[i].pc == Gone && s.helpers[i].result.Some?
    ensures var t := Run(s, events);
            i < |t.helpers| && t.helpers[i] == s.helpers[i] && Apply(t, HelperStep(i, ok, clean)) == t
  {
    if events != [] {
      var t, ev := Run(s, events[..|events| - 1]), events[|events| - 1];
      ExitIsFinal(s, events[..|events| - 1], i, ok, clean);
      hide Run;
      ExitedStays(t, ev, i);
    }
  }

  lemma ExitedStays(s: State, ev: Event, i: nat)
    requires i < |s.helpers| && s.helpers[i].pc == Gone && s.helpers[i].result.Some?
    ensures var t := Apply(s, ev); i < |t.helpers| && t.helpers[i] == s.helpers[i]
  {
    hide StepHelper;
    if ev.HelperStep? && ev.i < |s.helpers| { StepsAlone(s, ev.i, ev.ok, ev.clean); }
  }

  /** A helper's step changes no other helper, and nothing at all once it has exited. */
  lemma StepsAlone(s: State, i: nat, ok: bool, clean: bool)
    requires i < |s.helpers|
    ensures var t := StepHelper(s, i, ok, clean);
            && |t.helpers| == |s.helpers|
            && forall k :: 0 <= k < |s.helpers| && (k != i || s.helpers[i].pc == Gone) ==> t.helpers[k] == s.helpers[k]
  {
  }

  // ---- a bring-up --------------------------------------------------------------------------

  /** The files a bring-up leaves its helper, by which unlinks worked. */
  function Swept(f: Files, pid: bool, name: bool, status: bool): Files {
    Files(if pid then None else f.pid, if name then None else f.name, f.socket, if status then None else f.status)
  }

  const START_ORDER: seq<HelperPc> := [Starting, Listening, Configured, Named, Signalling, Running]

  /** After `k` working steps of helper `n`. */
  function FilesAfter(f: Files, n: Session, k: nat): Files {
    Files(if k >= 4 then Some(n) else f.pid, if k >= 3 then Some(n) else f.name, if k >= 1 then Some(n) else f.socket, f.status)
  }

  function Works(n: Session, k: nat): seq<Event> {
    if k == 0 then [] else Works(n, k - 1) + [HelperStep(n, true, true)]
  }

  /** The daemon is waiting for helper `|hs|`, which has made `k` steps. */
  function Waiting(f: Files, hs: seq<Helper>, marker: bool, k: nat): State
    requires k <= 5
  {
    State(FilesAfter(f, |hs|, k), hs + [Helper(START_ORDER[k], k == 5, None)], marker, false, UpWait)
  }

  lemma WorksOnce(f: Files, hs: seq<Helper>, marker: bool, k: nat)
    requires k < 5
    ensures Apply(Waiting(f, hs, marker, k), HelperStep(|hs|, true, true)) == Waiting(f, hs, marker, k + 1)
  {
    var h := Helper(START_ORDER[k], false, None);
    assert (hs + [h])[|hs|] == h;
    assert forall h' :: (hs + [h])[|hs| := h'] == hs + [h'];
  }

  lemma {:induction false} WorksAlong(f: Files, hs: seq<Helper>, marker: bool, k: nat)
    requires k <= 5
    ensures Run(Waiting(f, hs, marker, 0), Works(|hs|, k)) == Waiting(f, hs, marker, k)
  {
    hide Waiting, Apply;
    if k > 0 {
      WorksAlong(f, hs, marker, k - 1);
      WorksOnce(f, hs, marker, k - 1);
      RunOne(Waiting(f, hs, marker, 0), Works(|hs|, k - 1), HelperStep(|hs|, true, true));
    }
  }

  /** The files a helper leaves when its step `k` of the start fails: only a name
      file that cannot be written ends it with its socket in place. */
  function FilesFailed(f: Files, n: Session, k: nat): Files {
    Files(if k == 4 then None else f.pid, if k >= 3 then None else f.name,
          if k == 0 then f.socket else if k == 2 then Some(n) else None, f.status)
  }

  /** Taking nothing is clean; exiting without a rollback is not. */
  function ResultFailed(k: nat, clean: bool): bool { k == 0 || (k != 2 && clean) }

  lemma FailsOnce(f: Files, hs: seq<Helper>, marker: bool, k: nat, clean: bool)
    requires k < 5
    ensures Apply(Waiting(f, hs, marker, k), HelperStep(|hs|, false, clean))
         == State(FilesFailed(f, |hs|, k), hs + [Helper(Gone, false, Some(ResultFailed(k, clean)))], marker, false, UpWait)
  {
    var h := Helper(START_ORDER[k], false, None);
    assert (hs + [h])[|hs|] == h;
    assert forall h' :: (hs + [h])[|hs| := h'] == hs + [h'];
  }

  /** The daemon's own events of a bring-up up to its spawn. */
  function Opening(pid: bool, name: bool, status: bool, spawned: bool): seq<Event> {
    [BeginUp, DaemonStep(true), DaemonStep(pid), DaemonStep(name), DaemonStep(status), DaemonStep(spawned)]
  }

  lemma Opens(f: Files, hs: seq<Helper>, marker: bool, swept: bool, pid: bool, name: bool, status: bool, spawned: bool)
    requires f.socket.None? && CheckPasses(State(f, hs, marker, swept, UpCheck))
    ensures Run(State(f, hs, marker, swept, Idle), Opening(pid, name, status, spawned))
         == if spawned then Waiting(Swept(f, pid, name, status), hs, marker, 0)
            else State(Swept(f, pid, name, status), hs, marker, true, Idle)
  {
    hide StepDown, StepHelper, Run, CheckPasses, Waiting;
    var s, f1 := State(f, hs, marker, swept, Idle), Swept(f, pid, false, false);
    var f2 := Swept(f, pid, name, false);
    Five(s, BeginUp, DaemonStep(true), DaemonStep(pid), DaemonStep(name), DaemonStep(status));
    var t := State(Swept(f, pid, name, status), hs, marker, true, UpSpawn);
    assert Apply(s, BeginUp) == At(s, UpCheck) && Apply(At(s, UpCheck), DaemonStep(true)) == At(s, UpUnlinkPid);
    assert Apply(At(s, UpUnlinkPid), DaemonStep(pid)) == State(f1, hs, marker, true, UpUnlinkName);
    assert Apply(State(f1, hs, marker, true, UpUnlinkName), DaemonStep(name)) == State(f2, hs, marker, true, UpUnlinkStatus);
    assert Apply(State(f2, hs, marker, true, UpUnlinkStatus), DaemonStep(status)) == t;
    var five := [BeginUp, DaemonStep(true), DaemonStep(pid), DaemonStep(name), DaemonStep(status)];
    assert Opening(pid, name, status, spawned) == five + [DaemonStep(spawned)];
    RunOne(s, five, DaemonStep(spawned));
    Spawns(Swept(f, pid, name, status), hs, marker, spawned);
  }

  lemma Spawns(f: Files, hs: seq<Helper>, marker: bool, spawned: bool)
    ensures Apply(State(f, hs, marker, true, UpSpawn), DaemonStep(spawned))
         == if spawned then Waiting(f, hs, marker, 0) else State(f, hs, marker, true, Idle)
  {
  }

  lemma Five(s: State, a: Event, b: Event, c: Event, d: Event, e: Event)
    ensures Run(s, [a, b, c, d, e]) == Apply(Apply(Apply(Apply(Apply(s, a), b), c), d), e)
  {
    hide Apply;
    RunNothing(s);
    RunOne(s, [], a);
    assert [] + [a] == [a] && [a] + [b] == [a, b] && [a, b] + [c] == [a, b, c] && [a, b, c] + [d] == [a, b, c, d];
    RunOne(s, [a], b);
    RunOne(s, [a, b], c);
    RunOne(s, [a, b, c], d);
    assert [a, b, c, d] + [e] == [a, b, c, d, e];
    RunOne(s, [a, b, c, d], e);
  }

  /** A bring-up that cannot read the pid file, or finds it naming a live process,
      or finds a socket, changes nothing. */
  lemma BringUpRefused(f: Files, hs: seq<Helper>, marker: bool, swept: bool, readable: bool)
    requires f.socket.Some? || !readable || (f.pid.Some? && f.pid.value < |hs| && hs[f.pid.value].pc != Gone)
    ensures var s := State(f, hs, marker, swept, Idle);
            Run(s, if f.socket.Some? then [BeginUp] else [BeginUp, DaemonStep(readable)]) == s
  {
    var s := State(f, hs, marker, swept, Idle);
    RunNothing(s);
    RunOne(s, [], BeginUp);
    assert [] + [BeginUp] == [BeginUp] && [BeginUp] + [DaemonStep(readable)] == [BeginUp, DaemonStep(readable)];
    RunOne(s, [BeginUp], DaemonStep(readable));
  }

  /** A bring-up past its check, whichever unlinks fail: if nothing can be
      spawned, there is no new helper. If helper step `k` of the start fails, the
      helper exits unannounced, unlinks what it wrote (unless it was the name
      file that failed), and the bring-up fails, the marker as it was. */
  lemma BringUpFails(f: Files, hs: seq<Helper>, marker: bool, swept: bool, pid: bool, name: bool, status: bool, k: nat, clean: bool)
    requires f.socket.None? && CheckPasses(State(f, hs, marker, swept, UpCheck)) && k < 5
    ensures var s := State(f, hs, marker, swept, Idle); var left := Swept(f, pid, name, status);
            && Run(s, Opening(pid, name, status, false)) == State(left, hs, marker, true, Idle)
            && Run(s, Opening(pid, name, status, true) + Works(|hs|, k) + [HelperStep(|hs|, false, clean)] + [DaemonStep(true)])
               == State(FilesFailed(left, |hs|, k), hs + [Helper(Gone, false, Some(ResultFailed(k, clean)))], marker, false, Idle)
  {
    hide Run, Apply, Waiting, FilesFailed, ResultFailed;
    var s, left := State(f, hs, marker, swept, Idle), Swept(f, pid, name, status);
    Opens(f, hs, marker, swept, pid, name, status, false);
    Opens(f, hs, marker, swept, pid, name, status, true);
    var e := Opening(pid, name, status, true);
    RunOn(s, e, Works(|hs|, k));
    WorksAlong(left, hs, marker, k);
    RunOne(s, e + Works(|hs|, k), HelperStep(|hs|, false, clean));
    FailsOnce(left, hs, marker, k, clean);
    RunOne(s, e + Works(|hs|, k) + [HelperStep(|hs|, false, clean)], DaemonStep(true));
    NoticesTheFailure(f, hs, marker, swept, left, k, clean);
  }

  lemma NoticesTheFailure(f: Files, hs: seq<Helper>, marker: bool, swept: bool, left: Files, k: nat, clean: bool)
    requires CheckPasses(State(f, hs, marker, swept, UpCheck)) && (left.pid == f.pid || left.pid.None?) && k < 5
    ensures var dead := hs + [Helper(Gone, false, Some(ResultFailed(k, clean)))];
            Apply(State(FilesFailed(left, |hs|, k), dead, marker, false, UpWait), DaemonStep(true))
            == State(FilesFailed(left, |hs|, k), dead, marker, false, Idle)
  {
  }

  /** And if all five work, whichever unlinks failed, the helper is up with all
      three files its own; the bring-up succeeds when the daemon is told so and
      the marker can be saved. */
  lemma BringUpSucceeds(f: Files, hs: seq<Helper>, marker: bool, swept: bool, pid: bool, name: bool, status: bool, saved: bool)
    requires f.socket.None? && CheckPasses(State(f, hs, marker, swept, UpCheck))
    ensures Run(State(f, hs, marker, swept, Idle),
                Opening(pid, name, status, true) + Works(|hs|, 5) + [DaemonStep(true)] + [DaemonStep(saved)])
         == State(Files(Some(|hs|), Some(|hs|), Some(|hs|), if status then None else f.status),
                  hs + [Helper(Running, true, None)], saved || marker, false, Idle)
  {
    hide Run, Apply, Waiting;
    var s, left := State(f, hs, marker, swept, Idle), Swept(f, pid, name, status);
    Opens(f, hs, marker, swept, pid, name, status, true);
    var e := Opening(pid, name, status, true);
    RunOn(s, e, Works(|hs|, 5));
    WorksAlong(left, hs, marker, 5);
    RunOne(s, e + Works(|hs|, 5), DaemonStep(true));
    RunOne(s, e + Works(|hs|, 5) + [DaemonStep(true)], DaemonStep(saved));
    Saves(left, hs, marker, saved);
  }

  lemma Saves(f: Files, hs: seq<Helper>, marker: bool, saved: bool)
    ensures Apply(Apply(Waiting(f, hs, marker, 5), DaemonStep(true)), DaemonStep(saved))
         == State(Files(Some(|hs|), Some(|hs|), Some(|hs|), f.status), hs + [Helper(Running, true, None)], saved || marker, false, Idle)
  {
  }

  // ---- a teardown --------------------------------------------------------------------------

  lemma Looks(s: State)
    requires s.daemon == Idle
    ensures var sawName, sawPid, d := s.files.name.Some?, s.files.pid.Some?, DaemonStep(true);
            && Apply(s, BeginDown) == At(s, DnName)
            && Apply(At(s, DnName), d) == At(s, DnPid(sawName))
            && Apply(At(s, DnPid(sawName)), d) == At(s, DnSocket(sawName, sawPid))
  {
    hide StepUp, StepHelper;
  }

  lemma FindsNothing(hs: seq<Helper>, marker: bool, swept: bool, cleared: bool)
    ensures var s, d := State(Files(None, None, None, None), hs, marker, swept, Idle), DaemonStep(true);
            && Apply(At(s, DnSocket(false, false)), d) == At(s, DnStatus)
            && Apply(At(s, DnStatus), d) == At(s, DnClear(Absent))
            && Apply(At(s, DnClear(Absent)), DaemonStep(cleared)) == s.(marker := marker && !cleared)
  {
    hide StepUp, StepHelper;
  }

  /** With no file there, a teardown reports success without waiting for anyone. */
  lemma TeardownOfNothing(hs: seq<Helper>, marker: bool, swept: bool, cleared: bool)
    ensures var none := Files(None, None, None, None);
            Run(State(none, hs, marker, swept, Idle),
                [BeginDown, DaemonStep(true), DaemonStep(true), DaemonStep(true), DaemonStep(true)] + [DaemonStep(cleared)])
            == State(none, hs, marker && !cleared, swept, Idle)
  {
    hide Run, Apply;
    var s, d := State(Files(None, None, None, None), hs, marker, swept, Idle), DaemonStep(true);
    Looks(s);
    FindsNothing(hs, marker, swept, cleared);
    Five(s, BeginDown, d, d, d, d);
    RunOne(s, [BeginDown, d, d, d, d], DaemonStep(cleared));
  }

  /** What a teardown does until it waits; it looks at the status file only when
      the other three are missing. */
  function Asking(f: Files, removed: bool): seq<Event> {
    var d := DaemonStep(true);
    [BeginDown, d, d, d] + if f.name.None? && f.pid.None? && f.socket.None? then [d, DaemonStep(removed)] else [DaemonStep(removed)]
  }

  lemma Removes(f: Files, hs: seq<Helper>, marker: bool, swept: bool, removed: bool)
    requires f.name.Some? || f.pid.Some? || f.socket.Some? || f.status.Some?
    ensures var s := State(f, hs, marker, swept, Idle);
            var asks := At(s, DnSocket(f.name.Some?, f.pid.Some?));
            && Apply(asks, DaemonStep(true))
               == At(s, if f.name.None? && f.pid.None? && f.socket.None? then DnStatus else DnRemoveSocket)
            && (f.status.Some? ==> Apply(At(s, DnStatus), DaemonStep(true)) == At(s, DnRemoveSocket))
            && Apply(At(s, DnRemoveSocket), DaemonStep(removed))
               == if f.socket.None? || removed then State(f.(socket := None), hs, marker, swept, DnWait) else s
  {
    hide Run, StepUp, StepHelper;
  }

  /** With any of the four files there, a teardown removes the socket, if there is
      one, and waits. If it cannot, nothing has changed. */
  lemma TeardownAsks(f: Files, hs: seq<Helper>, marker: bool, swept: bool, removed: bool)
    requires f.name.Some? || f.pid.Some? || f.socket.Some? || f.status.Some?
    ensures var s := State(f, hs, marker, swept, Idle);
            Run(s, Asking(f, removed)) == if f.socket.None? || removed then State(f.(socket := None), hs, marker, swept, DnWait) else s
  {
    hide Run, Apply;
    var s, d := State(f, hs, marker, swept, Idle), DaemonStep(true);
    Looks(s);
    Removes(f, hs, marker, swept, removed);
    if f.name.None? && f.pid.None? && f.socket.None? {
      Five(s, BeginDown, d, d, d, d);
      assert Asking(f, removed) == [BeginDown, d, d, d, d] + [DaemonStep(removed)];
      RunOne(s, [BeginDown, d, d, d, d], DaemonStep(removed));
    } else {
      Five(s, BeginDown, d, d, d, DaemonStep(removed));
      assert Asking(f, removed) == [BeginDown, d, d, d, DaemonStep(removed)];
    }
  }

  /** A waiting daemon sees a status only from a helper that has cleaned up. */
  lemma WaitsInVain(f: Files, hs: seq<Helper>, marker: bool, swept: bool, ok: bool)
    requires f.status.None?
    ensures var s := State(f, hs, marker, swept, DnWait); Apply(s, DaemonStep(ok)) == s && Apply(s, DaemonFails) == At(s, Idle)
  {
  }

  lemma Three(s: State, a: Event, b: Event, c: Event)
    ensures Run(s, [a, b, c]) == Apply(Apply(Apply(s, a), b), c) && Run(s, [a, b]) == Apply(Apply(s, a), b) && Run(s, [a]) == Apply(s, a)
  {
    hide Apply;
    RunNothing(s);
    RunOne(s, [], a);
    assert [] + [a] == [a] && [a] + [b] == [a, b] && [a, b] + [c] == [a, b, c];
    RunOne(s, [a], b);
    RunOne(s, [a, b], c);
  }

  /** A running helper's end, until it has reported or failed to. */
  function Ending(i: nat, clean: bool, reported: bool): seq<Event> {
    [HelperStep(i, true, true), HelperStep(i, true, clean), HelperStep(i, reported, true)]
  }

  /** Whatever stands around it, it reports how its cleanup went, touching no
      other file; or, unable to report, it exits. */
  lemma HelperEnds(s: State, i: nat, clean: bool, reported: bool)
    requires i < |s.helpers| && s.helpers[i].pc == Running
    ensures Run(s, Ending(i, clean, reported))
         == s.(files := if reported then s.files.(status := Some((i, clean))) else s.files,
               helpers := s.helpers[i := Helper(if reported then Reported else Gone, s.helpers[i].published, Some(clean))])
  {
    hide StepUp, StepDown;
    Three(s, HelperStep(i, true, true), HelperStep(i, true, clean), HelperStep(i, reported, true));
    hide Run;
    var s1, s2 := Move(s, i, Stopping), s.(helpers := s.helpers[i := Helper(Cleaned, s.helpers[i].published, Some(clean))]);
    assert Apply(s, HelperStep(i, true, true)) == s1;
    assert Apply(s1, HelperStep(i, true, clean)) == s2;
    assert s2.helpers[i := s2.helpers[i].(pc := Gone)] == s.helpers[i := s2.helpers[i].(pc := Gone)];
    assert s2.helpers[i := s2.helpers[i].(pc := Reported)] == s.helpers[i := s2.helpers[i].(pc := Reported)];
  }

  /** After its report it unlinks the other three files, whoever wrote them, and
      leaves the report. */
  lemma HelperLeaves(s: State, i: nat, ok: bool, clean: bool)
    requires i < |s.helpers| && s.helpers[i].pc == Reported
    ensures Run(s, [HelperStep(i, ok, clean), HelperStep(i, ok, clean), HelperStep(i, ok, clean)])
         == s.(files := Files(None, None, None, s.files.status), helpers := s.helpers[i := s.helpers[i].(pc := Gone)])
  {
    hide StepUp, StepDown;
    var ev := HelperStep(i, ok, clean);
    Three(s, ev, ev, ev);
    hide Run;
    var s1 := Move(s.(files := s.files.(socket := None)), i, SocketUnlinked);
    var s2 := Move(s.(files := s.files.(socket := None, pid := None)), i, PidUnlinked);
    assert Apply(s, ev) == s1;
    assert s1.helpers[i := s1.helpers[i].(pc := PidUnlinked)] == s2.helpers;
    assert Apply(s1, ev) == s2;
    assert s2.helpers[i := s2.helpers[i].(pc := Gone)] == s.helpers[i := s.helpers[i].(pc := Gone)];
  }

  /** A helper that dies `steps` into its end leaves every file as it was, and
      what it owned, unless it had already cleaned up. */
  lemma HelperDies(s: State, i: nat, clean: bool, steps: nat)
    requires i < |s.helpers| && s.helpers[i].pc == Running && s.helpers[i].result == None && steps < 3
    ensures Run(s, Ending(i, clean, true)[..steps] + [Crash(i)])
         == s.(helpers := s.helpers[i := Helper(Gone, s.helpers[i].published, Some(steps == 2 && clean))])
  {
    hide Run, StepUp, StepDown, StepHelper;
    var e := Ending(i, clean, true);
    Three(s, HelperStep(i, true, true), HelperStep(i, true, clean), HelperStep(i, true, true));
    RunNothing(s);
    RunOne(s, e[..steps], Crash(i));
    assert e[..0] == [] && e[..1] == [HelperStep(i, true, true)] && e[..2] == [HelperStep(i, true, true), HelperStep(i, true, clean)];
    Stops(s, i, clean);
    var s1, s2 := Move(s, i, Stopping), s.(helpers := s.helpers[i := Helper(Cleaned, s.helpers[i].published, Some(clean))]);
    var dead, ended := Helper(Gone, s.helpers[i].published, Some(false)), Helper(Gone, s.helpers[i].published, Some(clean));
    assert s1.helpers[i := dead] == s.helpers[i := dead] && s2.helpers[i := ended] == s.helpers[i := ended];
  }

  lemma Stops(s: State, i: nat, clean: bool)
    requires i < |s.helpers| && s.helpers[i].pc == Running
    ensures var s1 := Move(s, i, Stopping);
            && Apply(s, HelperStep(i, true, true)) == s1
            && Apply(s1, HelperStep(i, true, clean)) == s.(helpers := s.helpers[i := Helper(Cleaned, s.helpers[i].published, Some(clean))])
  {
    var s1 := Move(s, i, Stopping);
    assert s1.helpers[i := s1.helpers[i].(pc := Cleaned, result := Some(clean))]
        == s.helpers[i := Helper(Cleaned, s.helpers[i].published, Some(clean))];
  }

  /** The daemon's events once a status file is there. */
  function Settling(read: bool, pid: bool, name: bool, status: bool, cleared: bool): seq<Event> {
    [DaemonStep(read), DaemonStep(pid), DaemonStep(name), DaemonStep(status), DaemonStep(cleared)]
  }

  lemma ReadsTheStatus(f: Files, hs: seq<Helper>, marker: bool, swept: bool, read: bool)
    requires f.status.Some?
    ensures var s := State(f, hs, marker, swept, DnWait);
            Apply(s, DaemonStep(read)) == At(s, if read && f.status.value.1 then DnUnlinkPid(f.status.value.0) else Idle)
  {
    hide StepUp, StepHelper;
  }

  lemma IdleStays(f: Files, hs: seq<Helper>, marker: bool, swept: bool)
    ensures var s := State(f, hs, marker, swept, Idle); forall ok :: Apply(s, DaemonStep(ok)) == s
  {
    hide StepUp, StepHelper;
  }

  lemma Unlinks(f: Files, hs: seq<Helper>, marker: bool, swept: bool, who: Session, pid: bool, name: bool, status: bool)
    ensures var s := State(f, hs, marker, swept, DnUnlinkPid(who));
            Apply(Apply(Apply(s, DaemonStep(pid)), DaemonStep(name)), DaemonStep(status))
            == State(Swept(f, pid, name, status), hs, marker, swept, DnClear(Confirmed(who)))
  {
    hide StepUp, StepHelper;
    var s0, f1, f2 := State(f, hs, marker, swept, DnUnlinkPid(who)), Swept(f, pid, false, false), Swept(f, pid, name, false);
    var s1, s2 := State(f1, hs, marker, swept, DnUnlinkName(who)), State(f2, hs, marker, swept, DnUnlinkStatus(who));
    assert Apply(s0, DaemonStep(pid)) == s1;
    assert Apply(s1, DaemonStep(name)) == s2;
    assert Apply(s2, DaemonStep(status)) == State(Swept(f, pid, name, status), hs, marker, swept, DnClear(Confirmed(who)));
  }

  lemma Clears(f: Files, hs: seq<Helper>, marker: bool, swept: bool, who: Session, cleared: bool)
    ensures Apply(State(f, hs, marker, swept, DnClear(Confirmed(who))), DaemonStep(cleared))
         == State(f, hs, marker && !cleared, swept, Idle)
  {
    hide StepUp, StepHelper;
  }

  /** The teardown succeeds if the status can be read and says "ok", whichever
      unlinks then fail, and clears the marker if it can; otherwise it fails and
      nothing changes. */
  lemma StatusDecides(f: Files, hs: seq<Helper>, marker: bool, swept: bool, read: bool,
                      pid: bool, name: bool, status: bool, cleared: bool)
    requires f.status.Some?
    ensures Run(State(f, hs, marker, swept, DnWait), Settling(read, pid, name, status, cleared))
         == if read && f.status.value.1 then State(Swept(f, pid, name, status), hs, marker && !cleared, swept, Idle)
            else State(f, hs, marker, swept, Idle)
  {
    hide Run, Apply, Swept;
    var s, who := State(f, hs, marker, swept, DnWait), f.status.value.0;
    Five(s, DaemonStep(read), DaemonStep(pid), DaemonStep(name), DaemonStep(status), DaemonStep(cleared));
    ReadsTheStatus(f, hs, marker, swept, read);
    if read && f.status.value.1 {
      Unlinks(f, hs, marker, swept, who, pid, name, status);
      Clears(Swept(f, pid, name, status), hs, marker, swept, who, cleared);
    } else {
      IdleStays(f, hs, marker, swept);
    }
  }

  /** A teardown of a running helper that nothing disturbs, for every way its
      steps can go. It clears the marker exactly when the helper's cleanup was
      clean, its report was written and read, and the marker can be removed;
      a helper that could not report is waited for in vain. */
  lemma TeardownOutcome(f: Files, hs: seq<Helper>, i: nat, marker: bool, swept: bool, clean: bool, reported: bool,
                        read: bool, pid: bool, name: bool, status: bool, cleared: bool)
    requires i < |hs| && hs[i] == Helper(Running, true, None) && f.socket.Some? && f.status.None?
    ensures var gone := f.(socket := None);
            var after := hs[i := Helper(if reported then Reported else Gone, true, Some(clean))];
            Run(State(f, hs, marker, swept, Idle),
                Asking(f, true) + Ending(i, clean, reported) + Settling(read, pid, name, status, cleared))
            == if !reported then State(gone, after, marker, swept, DnWait)
               else if !read || !clean then State(gone.(status := Some((i, clean))), after, marker, swept, Idle)
               else State(Swept(gone.(status := Some((i, true))), pid, name, status), after, marker && !cleared, swept, Idle)
  {
    hide Run, Apply, Asking, Ending, Swept;
    var s, gone := State(f, hs, marker, swept, Idle), f.(socket := None);
    var after := hs[i := Helper(if reported then Reported else Gone, true, Some(clean))];
    TeardownAsks(f, hs, marker, swept, true);
    RunOn(s, Asking(f, true), Ending(i, clean, reported));
    HelperEnds(State(gone, hs, marker, swept, DnWait), i, clean, reported);
    RunOn(s, Asking(f, true) + Ending(i, clean, reported), Settling(read, pid, name, status, cleared));
    if reported {
      StatusDecides(gone.(status := Some((i, clean))), after, marker, swept, read, pid, name, status, cleared);
    } else {
      WaitsThrough(gone, after, marker, swept, read, pid, name, status, cleared);
    }
  }

  lemma WaitsThrough(f: Files, hs: seq<Helper>, marker: bool, swept: bool, read: bool, pid: bool, name: bool, status: bool, cleared: bool)
    requires f.status.None?
    ensures var s := State(f, hs, marker, swept, DnWait); Run(s, Settling(read, pid, name, status, cleared)) == s
  {
    hide Run, Apply;
    var s := State(f, hs, marker, swept, DnWait);
    Five(s, DaemonStep(read), DaemonStep(pid), DaemonStep(name), DaemonStep(status), DaemonStep(cleared));
    forall ok ensures Apply(s, DaemonStep(ok)) == s { WaitsInVain(f, hs, marker, swept, ok); }
  }
}
