/** A reported teardown really happened, over every run in which no bring-up
    starts beside a helper that still has its pid unlink before it and no stale
    "ok" survives one. */
module HandshakeProofs {
  import opened Prelude
  import opened Handshake

  /** Nothing this helper still does touches the pid file. */
  predicate PidPast(pc: HelperPc) { pc == PidUnlinked || pc == Gone }

  predicate AllPidPast(s: State) { forall k :: 0 <= k < |s.helpers| ==> PidPast(s.helpers[k].pc) }

  predicate SaysOk(status: Option<(Session, bool)>) { status.Some? && status.value.1 }

  /** The two steps to avoid: a bring-up whose check passes beside a helper that
      still has its pid unlink before it, and one that fails to unlink a status
      file saying "ok". */
  predicate Careful(s: State, ev: Event) {
    && (ev == DaemonStep(true) && s.daemon == UpCheck && CheckPasses(s) ==> AllPidPast(s))
    && (ev == DaemonStep(false) && s.daemon == UpUnlinkStatus ==> !SaysOk(s.files.status))
  }

  ghost predicate CarefulRun(s: State, events: seq<Event>) {
    events == [] ||
    (CarefulRun(s, events[..|events| - 1]) && Careful(Run(s, events[..|events| - 1]), events[|events| - 1]))
  }

  predicate Past(pc: HelperPc) { pc == Reported || pc == SocketUnlinked || pc == PidUnlinked || pc == Gone }

  predicate InService(pc: HelperPc) { pc == Running || pc == Stopping || pc == Cleaned }

  /** The session came up and is not known to have ended clean. */
  predicate Open(h: Helper) { h.published && h.result != Some(true) }

  /** What the last helper's phase says about its own history and the files. */
  predicate LastOk(s: State, h: Helper) {
    var cur := |s.helpers| - 1;
    && (StartsUp(h.pc) ==> !h.published && h.result == None && s.daemon == UpWait)
    && (h.pc == Running || h.pc == Stopping ==> h.result == None)
    && (h.pc == Cleaned ==> h.result.Some?)
    && (InService(h.pc) ==> h.published)
    && (InService(h.pc) || h.pc == Signalling ==> s.files.pid == Some(cur))
    && (Open(h) && !s.swept ==> s.files.pid.Some? || s.files.status.Some?)
    && (Open(h) && !s.swept && Past(h.pc) && h.pc != Gone ==> s.files.status.Some?)
  }

  /** A status file that says "ok" is the last helper's own. */
  predicate StatusOk(s: State) {
    SaysOk(s.files.status) ==>
      && |s.helpers| > 0 && s.files.status.value.0 == |s.helpers| - 1
      && Past(s.helpers[|s.helpers| - 1].pc) && s.helpers[|s.helpers| - 1].result == Some(true)
  }

  /** Once the daemon has seen no pid file, the last helper is past its report,
      and an unclean end shows in the status file. */
  predicate SawNoPid(s: State) {
    |s.helpers| > 0 ==>
      && Past(s.helpers[|s.helpers| - 1].pc)
      && (Open(s.helpers[|s.helpers| - 1]) && !s.swept ==> s.files.status.Some?)
  }

  predicate EndedClean(s: State, who: Session) {
    |s.helpers| > 0 && who == |s.helpers| - 1 && Past(s.helpers[who].pc) && s.helpers[who].result == Some(true)
  }

  /** No helper owns anything any more, and every session that came up ended
      clean, but for those whose files a later bring-up swept. What may be left
      in the system is therefore the leftovers of such a session, or of a helper
      that failed before it was up. */
  predicate NothingLeft(s: State) {
    && (forall k :: 0 <= k < |s.helpers| ==> !Owns(s.helpers[k].pc) && !StartsUp(s.helpers[k].pc))
    && (|s.helpers| > 0 && Open(s.helpers[|s.helpers| - 1]) ==> s.swept)
  }

  predicate DaemonOk(s: State) {
    match s.daemon
    case UpSpawn => AllPidPast(s) && !SaysOk(s.files.status)
    case UpUnlinkPid => AllPidPast(s)
    case UpUnlinkName => AllPidPast(s) && s.swept
    case UpUnlinkStatus => AllPidPast(s) && s.swept
    case UpWait => |s.helpers| > 0
    case DnSocket(_, sawPid) => !sawPid ==> SawNoPid(s)
    case DnStatus => SawNoPid(s)
    case DnUnlinkPid(who) => EndedClean(s, who)
    case DnUnlinkName(who) => EndedClean(s, who)
    case DnUnlinkStatus(who) => EndedClean(s, who)
    case DnClear(Confirmed(who)) => EndedClean(s, who)
    case DnClear(Absent) => SawNoPid(s) && (|s.helpers| > 0 && Open(s.helpers[|s.helpers| - 1]) ==> s.swept)
    case _ => true
  }

  predicate OthersPast(s: State) { forall k :: 0 <= k < |s.helpers| - 1 ==> PidPast(s.helpers[k].pc) }

  predicate Inv(s: State) {
    && OthersPast(s) && StatusOk(s) && DaemonOk(s)
    && (|s.helpers| > 0 ==> LastOk(s, s.helpers[|s.helpers| - 1]))
  }

  lemma PreparesKeepInv(s: State, ok: bool)
    requires Inv(s) && Careful(s, DaemonStep(ok)) && (s.daemon == UpCheck || s.daemon == UpUnlinkPid || s.daemon == UpUnlinkName)
    ensures Inv(StepUp(s, ok))
  {
  }

  lemma SpawnKeepsInv(s: State, ok: bool)
    requires Inv(s) && Careful(s, DaemonStep(ok)) && (s.daemon == UpUnlinkStatus || s.daemon == UpSpawn)
    ensures Inv(StepUp(s, ok))
  {
  }

  lemma WaitKeepsInv(s: State, ok: bool)
    requires Inv(s) && (s.daemon == UpWait || s.daemon == UpSave)
    ensures Inv(StepUp(s, ok))
  {
  }

  lemma UpKeepsInv(s: State, ok: bool)
    requires Inv(s) && InUp(s.daemon) && Careful(s, DaemonStep(ok))
    ensures Inv(StepUp(s, ok))
  {
    hide Inv, StepUp, Careful;
    match s.daemon {
      case UpCheck | UpUnlinkPid | UpUnlinkName => PreparesKeepInv(s, ok);
      case UpUnlinkStatus | UpSpawn => SpawnKeepsInv(s, ok);
      case UpWait | UpSave => WaitKeepsInv(s, ok);
      case _ =>
    }
  }

  /** Looking at the files. */
  lemma ProbesKeepInv(s: State, ok: bool)
    requires Inv(s) && (s.daemon == DnName || s.daemon.DnPid? || s.daemon.DnSocket? || s.daemon == DnStatus || s.daemon == DnWait)
    ensures Inv(StepDown(s, ok))
  {
  }

  lemma UnlinksKeepInv(s: State, ok: bool)
    requires Inv(s) && (s.daemon.DnUnlinkPid? || s.daemon.DnUnlinkName? || s.daemon.DnUnlinkStatus?)
    ensures Inv(StepDown(s, ok))
  {
    assert EndedClean(s, s.daemon.who);
  }

  lemma SocketRemovalKeepsInv(s: State, ok: bool)
    requires Inv(s) && s.daemon == DnRemoveSocket
    ensures Inv(StepDown(s, ok))
  {
  }

  lemma RestKeepsInv(s: State, ok: bool)
    requires Inv(s) && (s.daemon.DnClear? || s.daemon == Idle)
    ensures Inv(StepDown(s, ok))
  {
  }

  lemma DownKeepsInv(s: State, ok: bool)
    requires Inv(s) && !InUp(s.daemon)
    ensures Inv(StepDown(s, ok))
  {
    hide Inv, StepDown;
    match s.daemon {
      case DnName | DnPid(_) | DnSocket(_, _) | DnStatus | DnWait => ProbesKeepInv(s, ok);
      case DnUnlinkPid(_) | DnUnlinkName(_) | DnUnlinkStatus(_) => UnlinksKeepInv(s, ok);
      case DnRemoveSocket => SocketRemovalKeepsInv(s, ok);
      case DnClear(_) | Idle => RestKeepsInv(s, ok);
      case _ =>
    }
  }

  lemma StartKeepsInv(s: State, ok: bool, clean: bool)
    requires Inv(s) && |s.helpers| > 0 && StartsUp(s.helpers[|s.helpers| - 1].pc)
    ensures Inv(StepHelper(s, |s.helpers| - 1, ok, clean))
  {
    assert s.daemon == UpWait;
  }

  lemma ServiceKeepsInv(s: State, ok: bool, clean: bool)
    requires Inv(s) && |s.helpers| > 0 && InService(s.helpers[|s.helpers| - 1].pc)
    ensures Inv(StepHelper(s, |s.helpers| - 1, ok, clean))
  {
  }

  /** A helper past its report only removes files, never the status, and the pid
      file only if it is the last. */
  ghost predicate Forgets(s: State, i: nat, f: Files, pc: HelperPc) {
    && Inv(s) && i < |s.helpers| && Past(s.helpers[i].pc) && s.helpers[i].pc != Gone && Past(pc)
    && (PidPast(s.helpers[i].pc) ==> PidPast(pc) && f.pid == s.files.pid)
    && f.status == s.files.status && (f.pid == s.files.pid || f.pid == None)
  }

  lemma ForgetKeepsDaemonOk(s: State, i: nat, f: Files, pc: HelperPc)
    requires Forgets(s, i, f, pc)
    ensures DaemonOk(Move(s.(files := f), i, pc))
  {
    var s' := Move(s.(files := f), i, pc);
    assert AllPidPast(s) ==> AllPidPast(s');
    assert SawNoPid(s) ==> SawNoPid(s');
    assert forall who :: EndedClean(s, who) ==> EndedClean(s', who);
    assert |s.helpers| > 0 && Open(s'.helpers[|s.helpers| - 1]) ==> Open(s.helpers[|s.helpers| - 1]);
    hide AllPidPast, SawNoPid, EndedClean, LastOk, StatusOk, OthersPast, Open;
  }

  lemma ForgetKeepsInv(s: State, i: nat, f: Files, pc: HelperPc)
    requires Forgets(s, i, f, pc)
    ensures Inv(Move(s.(files := f), i, pc))
  {
    ForgetKeepsDaemonOk(s, i, f, pc);
    hide DaemonOk;
    var s' := Move(s.(files := f), i, pc);
    assert LastOk(s', s'.helpers[|s.helpers| - 1]);
  }

  lemma EndKeepsInv(s: State, i: nat, ok: bool, clean: bool)
    requires Inv(s) && i < |s.helpers| && Past(s.helpers[i].pc) && s.helpers[i].pc != Gone
    ensures Inv(StepHelper(s, i, ok, clean))
  {
    hide Inv;
    var f := s.files;
    match s.helpers[i].pc {
      case Reported => ForgetKeepsInv(s, i, f.(socket := None), SocketUnlinked);
      case SocketUnlinked => ForgetKeepsInv(s, i, f.(pid := None), PidUnlinked);
      case PidUnlinked => ForgetKeepsInv(s, i, f.(name := None), Gone);
      case _ =>
    }
  }

  lemma HelperKeepsInv(s: State, i: nat, ok: bool, clean: bool)
    requires Inv(s) && i < |s.helpers|
    ensures Inv(StepHelper(s, i, ok, clean))
  {
    if s.helpers[i].pc != Gone {
      assert i < |s.helpers| - 1 ==> Past(s.helpers[i].pc);
      hide Inv, StepHelper;
      var pc := s.helpers[i].pc;
      if StartsUp(pc) {
        StartKeepsInv(s, ok, clean);
      } else if InService(pc) {
        ServiceKeepsInv(s, ok, clean);
      } else {
        EndKeepsInv(s, i, ok, clean);
      }
    }
  }

  lemma CrashKeepsInv(s: State, i: nat)
    requires Inv(s) && i < |s.helpers|
    ensures Inv(Die(s, i))
  {
    CrashKeepsDaemonOk(s, i);
    hide DaemonOk;
  }

  lemma CrashKeepsDaemonOk(s: State, i: nat)
    requires Inv(s) && i < |s.helpers|
    ensures DaemonOk(Die(s, i))
  {
    assert AllPidPast(s) ==> AllPidPast(Die(s, i));
    hide AllPidPast, StatusOk, OthersPast;
  }

  lemma SameFilesKeepInv(s: State, pc: DaemonPc)
    requires Inv(s) && s.daemon != UpWait && (pc == Idle || pc == DnName || pc == UpCheck)
    ensures Inv(At(s, pc))
  {
  }

  lemma ApplyKeepsInv(s: State, ev: Event)
    requires Inv(s) && Careful(s, ev)
    ensures Inv(Apply(s, ev))
  {
    hide StepUp, StepDown, StepHelper, Careful, Die;
    match ev {
      case BeginUp => if s.daemon == Idle { SameFilesKeepInv(s, UpCheck); }
      case BeginDown => if s.daemon == Idle { SameFilesKeepInv(s, DnName); }
      case DaemonStep(ok) => if InUp(s.daemon) { UpKeepsInv(s, ok); } else { DownKeepsInv(s, ok); }
      case DaemonFails => if s.daemon != UpWait { SameFilesKeepInv(s, Idle); }
      case HelperStep(i, ok, clean) => if i < |s.helpers| { HelperKeepsInv(s, i, ok, clean); }
      case Crash(i) => if i < |s.helpers| { CrashKeepsInv(s, i); }
    }
  }

  lemma {:induction false} InvAlongRun(s: State, events: seq<Event>)
    requires Inv(s) && CarefulRun(s, events)
    ensures Inv(Run(s, events))
  {
    if events != [] {
      InvAlongRun(s, events[..|events| - 1]);
      ApplyKeepsInv(Run(s, events[..|events| - 1]), events[|events| - 1]);
    }
  }

  // ---- a reported teardown really happened -----------------------------------------------

  lemma ClearingIsOk(s: State)
    requires Inv(s) && s.daemon.DnClear?
    ensures NothingLeft(s) && (s.daemon.how.Confirmed? ==> EndedClean(s, s.daemon.how.who))
  {
  }

  lemma OnlyClearClears(s: State, ev: Event)
    requires s.marker && !Apply(s, ev).marker
    ensures s.daemon.DnClear? && ev == DaemonStep(true)
  {
  }

  /** Over every careful run, with helpers failing or dying anywhere, a teardown
      clears the marker only when the latest session's own helper finished with
      every route deleted and every service restored, or when none of a helper's
      files was there; and in both cases nothing is left but what `NothingLeft`
      names. */
  lemma ReportedTeardownHappened(events: seq<Event>, ev: Event)
    requires CarefulRun(START, events)
    requires Run(START, events).marker && !Apply(Run(START, events), ev).marker
    ensures var s := Run(START, events);
            && s.daemon.DnClear? && NothingLeft(s)
            && (s.daemon.how.Confirmed? ==> EndedClean(s, s.daemon.how.who))
  {
    InvAlongRun(START, events);
    hide Inv, Apply, Run;
    var s := Run(START, events);
    OnlyClearClears(s, ev);
    ClearingIsOk(s);
  }

  /** The guard does its work: beside a helper that owns something, or has yet to
      report, a bring-up is refused. */
  lemma BringUpIsRefused(events: seq<Event>, k: nat, ok: bool)
    requires CarefulRun(START, events) && Run(START, events).daemon == UpCheck && k < |Run(START, events).helpers|
    requires var pc := Run(START, events).helpers[k].pc; Owns(pc) || InService(pc)
    ensures Apply(Run(START, events), DaemonStep(ok)) == At(Run(START, events), Idle)
  {
    InvAlongRun(START, events);
    hide Inv, Run, CarefulRun;
    CheckRefuses(Run(START, events), k);
  }

  lemma CheckRefuses(s: State, k: nat)
    requires Inv(s) && s.daemon == UpCheck && k < |s.helpers| && (Owns(s.helpers[k].pc) || InService(s.helpers[k].pc))
    ensures !CheckPasses(s)
  {
    assert k == |s.helpers| - 1;
  }
}
