/** The condition of `HandshakeProofs` is the weakest: each of the two steps it
    forbids, taken once, lets a teardown be reported whose helper still owns its
    routes. Both are reachable; and what a truthful report may leave behind. */
module HandshakeExact {
  import opened Prelude
  import opened Handshake
  import opened HandshakeProofs

  /** The daemon is about to report a teardown while a helper owns its routes. */
  ghost predicate Lies(s: State) {
    s.marker && s.daemon.DnClear? && exists k :: 0 <= k < |s.helpers| && Owns(s.helpers[k].pc)
  }

  /** `t` follows `s` by careful events. */
  ghost predicate Leads(s: State, t: State) { exists events :: CarefulRun(s, events) && Run(s, events) == t }

  ghost predicate LeadsToLie(s: State) { exists t :: Leads(s, t) && Lies(t) }

  lemma Stays(s: State)
    ensures Leads(s, s)
  {
    assert CarefulRun(s, []) && Run(s, []) == s;
  }

  lemma Then(s: State, t: State, ev: Event, t': State)
    requires Leads(s, t) && Careful(t, ev) && Apply(t, ev) == t'
    ensures Leads(s, t')
  {
    var events :| CarefulRun(s, events) && Run(s, events) == t;
    assert (events + [ev])[..|events|] == events;
    assert CarefulRun(s, events + [ev]) && Run(s, events + [ev]) == t';
  }

  const RUNNING: Helper := Helper(Running, true, None)

  function Up(n: Session, status: Option<(Session, bool)>): Files { Files(Some(n), Some(n), Some(n), status) }

  function Fresh(pc: HelperPc): Helper { Helper(pc, false, None) }

  lemma Steps(hs: seq<Helper>, h: Helper, h': Helper)
    ensures (hs + [h])[|hs| := h'] == hs + [h'] && (hs + [h])[|hs|] == h && |hs + [h]| == |hs| + 1
  {
  }

  /** A helper that meets no failure comes up, whatever is beside it. */
  lemma HelperComesUp(s: State, f: Files, hs: seq<Helper>, marker: bool)
    requires Leads(s, State(f, hs + [Fresh(Starting)], marker, false, UpWait))
    ensures Leads(s, State(Up(|hs|, f.status), hs + [RUNNING], marker, false, UpWait))
  {
    hide Leads;
    var n := |hs|;
    var f1 := f.(socket := Some(n));
    var f2 := f1.(name := Some(n));
    Steps(hs, Fresh(Starting), Fresh(Listening));
    Then(s, State(f, hs + [Fresh(Starting)], marker, false, UpWait), HelperStep(n, true, true),
         State(f1, hs + [Fresh(Listening)], marker, false, UpWait));
    Steps(hs, Fresh(Listening), Fresh(Configured));
    Then(s, State(f1, hs + [Fresh(Listening)], marker, false, UpWait), HelperStep(n, true, true),
         State(f1, hs + [Fresh(Configured)], marker, false, UpWait));
    Steps(hs, Fresh(Configured), Fresh(Named));
    Then(s, State(f1, hs + [Fresh(Configured)], marker, false, UpWait), HelperStep(n, true, true),
         State(f2, hs + [Fresh(Named)], marker, false, UpWait));
    Steps(hs, Fresh(Named), Fresh(Signalling));
    Then(s, State(f2, hs + [Fresh(Named)], marker, false, UpWait), HelperStep(n, true, true),
         State(Up(n, f.status), hs + [Fresh(Signalling)], marker, false, UpWait));
    Steps(hs, Fresh(Signalling), RUNNING);
    Then(s, State(Up(n, f.status), hs + [Fresh(Signalling)], marker, false, UpWait), HelperStep(n, true, true),
         State(Up(n, f.status), hs + [RUNNING], marker, false, UpWait));
  }

  /** A bring-up past its check that meets no failure succeeds and sets the
      marker, whatever older helpers still do. */
  lemma BringUpWorks(s: State, f: Files, hs: seq<Helper>, marker: bool, swept: bool)
    requires Leads(s, State(f, hs, marker, swept, UpSpawn))
    ensures Leads(s, State(Up(|hs|, f.status), hs + [RUNNING], true, false, Idle))
  {
    hide Leads;
    Then(s, State(f, hs, marker, swept, UpSpawn), DaemonStep(true), State(f, hs + [Fresh(Starting)], marker, false, UpWait));
    HelperComesUp(s, f, hs, marker);
    var n, all, up := |hs|, hs + [RUNNING], Up(|hs|, f.status);
    assert all[n] == RUNNING && |all| == n + 1;
    Then(s, State(up, all, marker, false, UpWait), DaemonStep(true), State(up, all, marker, false, UpSave));
    Then(s, State(up, all, marker, false, UpSave), DaemonStep(true), State(up, all, true, false, Idle));
  }

  /** A teardown asked for while only a socket, or no file at all, is there. */
  lemma TeardownFindsNothing(s: State, socket: Option<Session>, hs: seq<Helper>)
    requires Leads(s, State(Files(None, None, socket, None), hs, true, false, Idle))
    ensures Leads(s, State(Files(None, None, None, None), hs, true, false, DnClear(Absent)))
    decreases socket.Some?
  {
    hide Leads;
    var t := State(Files(None, None, socket, None), hs, true, false, Idle);
    Then(s, t, BeginDown, At(t, DnName));
    Then(s, At(t, DnName), DaemonStep(true), At(t, DnPid(false)));
    Then(s, At(t, DnPid(false)), DaemonStep(true), At(t, DnSocket(false, false)));
    if socket.None? {
      Then(s, At(t, DnSocket(false, false)), DaemonStep(true), At(t, DnStatus));
      Then(s, At(t, DnStatus), DaemonStep(true), At(t, DnClear(Absent)));
    } else {
      var t' := State(Files(None, None, None, None), hs, true, false, Idle);
      Then(s, At(t, DnSocket(false, false)), DaemonStep(true), At(t, DnRemoveSocket));
      Then(s, At(t, DnRemoveSocket), DaemonStep(true), At(t', DnWait));
      Then(s, At(t', DnWait), DaemonFails, t');
      TeardownFindsNothing(s, None, hs);
    }
  }

  /** The first half of a careless bring-up: its unlinks. */
  lemma Sweeps(s: State, f: Files, hs: seq<Helper>, marker: bool, swept: bool)
    requires Leads(s, State(f, hs, marker, swept, UpUnlinkPid))
    ensures Leads(s, State(Files(None, None, f.socket, None), hs, marker, true, UpSpawn))
  {
    hide Leads;
    Then(s, State(f, hs, marker, swept, UpUnlinkPid), DaemonStep(true), State(f.(pid := None), hs, marker, true, UpUnlinkName));
    Then(s, State(f.(pid := None), hs, marker, true, UpUnlinkName), DaemonStep(true),
         State(f.(pid := None, name := None), hs, marker, true, UpUnlinkStatus));
    Then(s, State(f.(pid := None, name := None), hs, marker, true, UpUnlinkStatus), DaemonStep(true),
         State(Files(None, None, f.socket, None), hs, marker, true, UpSpawn));
  }

  /** The older helper's last steps take the new session's files. */
  lemma LateUnlinks(s: State, n: nat, hs: seq<Helper>, k: nat)
    requires k < |hs| && (hs[k].pc == Reported || hs[k].pc == SocketUnlinked)
    requires Leads(s, State(Up(n, None), hs, true, false, Idle))
    ensures exists socket :: Leads(s, State(Files(None, None, socket, None), hs[k := hs[k].(pc := Gone)], true, false, Idle))
  {
    hide Leads;
    var f := Up(n, None);
    var h1, h2, h3 := hs[k := hs[k].(pc := SocketUnlinked)], hs[k := hs[k].(pc := PidUnlinked)], hs[k := hs[k].(pc := Gone)];
    var f1 := if hs[k].pc == Reported then f.(socket := None) else f;
    if hs[k].pc == Reported {
      Then(s, State(f, hs, true, false, Idle), HelperStep(k, true, true), State(f1, h1, true, false, Idle));
    } else {
      assert h1 == hs;
    }
    assert h1[k := h1[k].(pc := PidUnlinked)] == h2 && h2[k := h2[k].(pc := Gone)] == h3;
    Then(s, State(f1, h1, true, false, Idle), HelperStep(k, true, true), State(f1.(pid := None), h2, true, false, Idle));
    Then(s, State(f1.(pid := None), h2, true, false, Idle), HelperStep(k, true, true),
         State(Files(None, None, f1.socket, None), h3, true, false, Idle));
  }

  /** A check that passes beside a helper with its pid unlink before it. */
  lemma CarelessCheckLies(s: State, k: nat)
    requires s.daemon == UpCheck && CheckPasses(s)
    requires k < |s.helpers| && (s.helpers[k].pc == Reported || s.helpers[k].pc == SocketUnlinked)
    ensures LeadsToLie(Apply(s, DaemonStep(true)))
  {
    hide Leads;
    var s1 := At(s, UpUnlinkPid);
    var hs, n := s.helpers, |s.helpers|;
    Stays(s1);
    assert s1 == State(s.files, hs, s.marker, s.swept, UpUnlinkPid);
    Sweeps(s1, s.files, hs, s.marker, s.swept);
    BringUpWorks(s1, Files(None, None, s.files.socket, None), hs, s.marker, true);
    var all := hs + [RUNNING];
    assert all[k] == hs[k] && all[n] == RUNNING;
    LateUnlinks(s1, n, all, k);
    var socket :| Leads(s1, State(Files(None, None, socket, None), all[k := all[k].(pc := Gone)], true, false, Idle));
    var rest := all[k := all[k].(pc := Gone)];
    TeardownFindsNothing(s1, socket, rest);
    assert rest[n] == RUNNING;
    assert Lies(State(Files(None, None, None, None), rest, true, false, DnClear(Absent)));
  }

  /** A waiting daemon that finds "ok" unlinks what is there and confirms; `gone`
      is whether it manages to unlink the status. */
  lemma Confirms(s: State, n: nat, who: Session, hs: seq<Helper>, gone: bool)
    requires Leads(s, State(Files(Some(n), Some(n), None, Some((who, true))), hs, true, false, DnWait))
    ensures Leads(s, State(Files(None, None, None, if gone then None else Some((who, true))), hs, true, false,
                           DnClear(Confirmed(who))))
  {
    hide Leads, StepUp, StepHelper;
    var f := Files(Some(n), Some(n), None, Some((who, true)));
    var f1, f2 := f.(pid := None), f.(pid := None, name := None);
    Then(s, State(f, hs, true, false, DnWait), DaemonStep(true), State(f, hs, true, false, DnUnlinkPid(who)));
    Then(s, State(f, hs, true, false, DnUnlinkPid(who)), DaemonStep(true), State(f1, hs, true, false, DnUnlinkName(who)));
    Then(s, State(f1, hs, true, false, DnUnlinkName(who)), DaemonStep(true), State(f2, hs, true, false, DnUnlinkStatus(who)));
    Then(s, State(f2, hs, true, false, DnUnlinkStatus(who)), DaemonStep(gone),
         State(f2.(status := if gone then None else f.status), hs, true, false, DnClear(Confirmed(who))));
  }

  /** A stale "ok" that outlives a bring-up is taken for the new session's. */
  lemma StaleOkLies(s: State)
    requires s.daemon == UpUnlinkStatus && SaysOk(s.files.status)
    ensures LeadsToLie(Apply(s, DaemonStep(false)))
  {
    hide Leads, StepDown, StepHelper;
    var s1 := At(s, UpSpawn);
    var hs, n, st := s.helpers, |s.helpers|, s.files.status;
    Stays(s1);
    assert s1 == State(s.files, hs, s.marker, s.swept, UpSpawn);
    BringUpWorks(s1, s.files, hs, s.marker, s.swept);
    var all := hs + [RUNNING];
    StaleOkIsFound(s1, n, all, st);
    Confirms(s1, n, st.value.0, all, true);
    var lie := State(Files(None, None, None, None), all, true, false, DnClear(Confirmed(st.value.0)));
    assert all[n] == RUNNING && Lies(lie);
  }

  lemma StaleOkIsFound(s: State, n: nat, hs: seq<Helper>, st: Option<(Session, bool)>)
    requires Leads(s, State(Up(n, st), hs, true, false, Idle))
    ensures Leads(s, State(Files(Some(n), Some(n), None, st), hs, true, false, DnWait))
  {
    hide Leads;
    var t := State(Up(n, st), hs, true, false, Idle);
    Then(s, t, BeginDown, At(t, DnName));
    Then(s, At(t, DnName), DaemonStep(true), At(t, DnPid(true)));
    Then(s, At(t, DnPid(true)), DaemonStep(true), At(t, DnSocket(true, true)));
    Then(s, At(t, DnSocket(true, true)), DaemonStep(true), At(t, DnRemoveSocket));
    Then(s, At(t, DnRemoveSocket), DaemonStep(true), State(Files(Some(n), Some(n), None, st), hs, true, false, DnWait));
  }

  /** Beside a passing check only a helper that has reported can be alive. */
  lemma CarelessChecks(s: State)
    requires Inv(s) && s.daemon == UpCheck && CheckPasses(s) && !AllPidPast(s)
    ensures |s.helpers| > 0 && var pc := s.helpers[|s.helpers| - 1].pc; pc == Reported || pc == SocketUnlinked
  {
  }

  /** The condition is exact: after a careful run, an event is careful if and
      only if no careful continuation ends in the report of a teardown whose
      helper still owns its routes. A bring-up goes wrong exactly when its pid
      check passes beside a helper whose pid unlink is still to come, or when it
      leaves a status file behind that says "ok". */
  lemma CarefulIsExact(events: seq<Event>, ev: Event)
    requires CarefulRun(START, events)
    ensures Careful(Run(START, events), ev) <==> !LeadsToLie(Apply(Run(START, events), ev))
  {
    InvAlongRun(START, events);
    hide Inv, Run, CarefulRun, Apply, LeadsToLie;
    var s := Run(START, events);
    if Careful(s, ev) {
      ApplyKeepsInv(s, ev);
      CarefulRunsDoNotLie(Apply(s, ev));
    } else if s.daemon == UpCheck {
      CarelessChecks(s);
      CarelessCheckLies(s, |s.helpers| - 1);
    } else {
      StaleOkLies(s);
    }
  }

  lemma CarefulRunsDoNotLie(s: State)
    requires Inv(s)
    ensures !LeadsToLie(s)
  {
    forall t | Leads(s, t)
      ensures !Lies(t)
    {
      var events :| CarefulRun(s, events) && Run(s, events) == t;
      InvAlongRun(s, events);
      if t.daemon.DnClear? { ClearingIsOk(t); }
    }
  }

  // ---- both hazards are met, and start-up failures leave things behind -------------------------

  const NO_FILES: Files := Files(None, None, None, None)

  lemma Begins(s: State, f: Files, hs: seq<Helper>, marker: bool, swept: bool)
    requires Leads(s, State(f, hs, marker, swept, Idle)) && f.socket == None
    requires var t := State(f, hs, marker, swept, UpCheck); CheckPasses(t) && AllPidPast(t)
    ensures Leads(s, State(f, hs, marker, swept, UpUnlinkPid))
  {
    hide Leads;
    var t := State(f, hs, marker, swept, Idle);
    Then(s, t, BeginUp, At(t, UpCheck));
    Then(s, At(t, UpCheck), DaemonStep(true), At(t, UpUnlinkPid));
  }

  lemma FirstUp()
    ensures Leads(START, State(Up(0, None), [RUNNING], true, false, Idle))
  {
    hide Leads;
    Stays(START);
    Begins(START, NO_FILES, [], false, false);
    Sweeps(START, NO_FILES, [], false, false);
    BringUpWorks(START, NO_FILES, [], false, true);
    assert [] + [RUNNING] == [RUNNING];
  }

  const OK: Option<(Session, bool)> := Some((0, true))
  const REPORTED: Helper := Helper(Reported, true, Some(true))

  /** The first session's teardown: the helper reports, the daemon waits. */
  lemma FirstReports()
    ensures Leads(START, State(Files(Some(0), Some(0), None, OK), [REPORTED], true, false, DnWait))
  {
    hide Leads;
    FirstUp();
    StaleOkIsFound(START, 0, [RUNNING], None);
    var f := Files(Some(0), Some(0), None, None);
    var h1, h2 := [RUNNING.(pc := Stopping)], [RUNNING.(pc := Cleaned, result := Some(true))];
    Then(START, State(f, [RUNNING], true, false, DnWait), HelperStep(0, true, true), State(f, h1, true, false, DnWait));
    Then(START, State(f, h1, true, false, DnWait), HelperStep(0, true, true), State(f, h2, true, false, DnWait));
    Then(START, State(f, h2, true, false, DnWait), HelperStep(0, true, true),
         State(f.(status := OK), [REPORTED], true, false, DnWait));
  }

  lemma FirstConfirmed(gone: bool)
    ensures Leads(START, State(Files(None, None, None, if gone then None else OK), [REPORTED], false, false, Idle))
  {
    hide Leads, StepUp, StepHelper;
    FirstReports();
    Confirms(START, 0, 0, [REPORTED], gone);
    var f := Files(None, None, None, if gone then None else OK);
    Then(START, State(f, [REPORTED], true, false, DnClear(Confirmed(0))), DaemonStep(true), State(f, [REPORTED], false, false, Idle));
  }

  /** The late unlinks are met: a user who reconnects as soon as a disconnect is
      reported passes the check beside the first helper. */
  lemma LateUnlinksLoseTheHelper()
    ensures exists s :: Leads(START, s) && s.daemon == UpCheck && !Careful(s, DaemonStep(true))
                        && LeadsToLie(Apply(s, DaemonStep(true)))
  {
    FirstConfirmed(true);
    var t := State(NO_FILES, [REPORTED], false, false, Idle);
    Then(START, t, BeginUp, At(t, UpCheck));
    CarelessCheckLies(At(t, UpCheck), 0);
    assert !PidPast(At(t, UpCheck).helpers[0].pc);
  }

  /** So is the stale "ok": two unlinks of the same status file fail. */
  lemma StaleOkIsMet()
    ensures exists s :: Leads(START, s) && s.daemon == UpUnlinkStatus && !Careful(s, DaemonStep(false))
                        && LeadsToLie(Apply(s, DaemonStep(false)))
  {
    hide Leads, LeadsToLie;
    FirstConfirmed(false);
    var f := NO_FILES.(status := OK);
    var h1, h2, h3 := [REPORTED.(pc := SocketUnlinked)], [REPORTED.(pc := PidUnlinked)], [REPORTED.(pc := Gone)];
    Then(START, State(f, [REPORTED], false, false, Idle), HelperStep(0, true, true), State(f, h1, false, false, Idle));
    Then(START, State(f, h1, false, false, Idle), HelperStep(0, true, true), State(f, h2, false, false, Idle));
    Then(START, State(f, h2, false, false, Idle), HelperStep(0, true, true), State(f, h3, false, false, Idle));
    Begins(START, f, h3, false, false);
    Then(START, State(f, h3, false, false, UpUnlinkPid), DaemonStep(true), State(f, h3, false, true, UpUnlinkName));
    var s := State(f, h3, false, true, UpUnlinkStatus);
    Then(START, State(f, h3, false, true, UpUnlinkName), DaemonStep(true), s);
    StaleOkLies(s);
  }

  const DEAD: Helper := Helper(Gone, true, Some(false))
  const STILLBORN: Helper := Helper(Gone, false, Some(false))

  /** What `NothingLeft` names can be left: the first helper dies with its routes
      and a second bring-up sweeps its files; the second cannot write its name
      file and exits with its routes. A teardown then finds no file. */
  lemma LeftoversGoUnseen()
    ensures Leads(START, State(NO_FILES, [DEAD, STILLBORN], true, false, DnClear(Absent)))
  {
    hide Leads;
    FirstUp();
    Then(START, State(Up(0, None), [RUNNING], true, false, Idle), Crash(0), State(Up(0, None), [DEAD], true, false, Idle));
    StaleOkIsFound(START, 0, [DEAD], None);
    var f := Files(Some(0), Some(0), None, None);
    Then(START, State(f, [DEAD], true, false, DnWait), DaemonFails, State(f, [DEAD], true, false, Idle));
    Begins(START, f, [DEAD], true, false);
    Sweeps(START, f, [DEAD], true, false);
    SecondIsStillborn();
  }

  lemma SecondIsStillborn()
    requires Leads(START, State(NO_FILES, [DEAD], true, true, UpSpawn))
    ensures Leads(START, State(NO_FILES, [DEAD, STILLBORN], true, false, DnClear(Absent)))
  {
    hide Leads, StepDown;
    var f := NO_FILES.(socket := Some(1));
    Then(START, State(NO_FILES, [DEAD], true, true, UpSpawn), DaemonStep(true),
         State(NO_FILES, [DEAD, Fresh(Starting)], true, false, UpWait));
    Then(START, State(NO_FILES, [DEAD, Fresh(Starting)], true, false, UpWait), HelperStep(1, true, true),
         State(f, [DEAD, Fresh(Listening)], true, false, UpWait));
    Then(START, State(f, [DEAD, Fresh(Listening)], true, false, UpWait), HelperStep(1, true, true),
         State(f, [DEAD, Fresh(Configured)], true, false, UpWait));
    Then(START, State(f, [DEAD, Fresh(Configured)], true, false, UpWait), HelperStep(1, false, false),
         State(f, [DEAD, STILLBORN], true, false, UpWait));
    Then(START, State(f, [DEAD, STILLBORN], true, false, UpWait), DaemonStep(true), State(f, [DEAD, STILLBORN], true, false, Idle));
    TeardownFindsNothing(START, Some(1), [DEAD, STILLBORN]);
  }
}
