/** The teardown handshake between the daemon and the helper processes of one
    interface, which talk through four files. The daemon runs one bring-up or
    teardown at a time (it holds the connection's lock); helpers run beside it. */
module Handshake {
  import opened Prelude

  type Session = nat

  /** Where a helper stands. It makes its socket, takes routes and DNS, writes
      its name and pid files, tells its parent, and runs; on the way down it gives
      everything back, reports in the status file and unlinks the other three. */
  datatype HelperPc =
    | Starting | Listening | Configured | Named | Signalling
    | Running | Stopping | Cleaned
    | Reported | SocketUnlinked | PidUnlinked
    | Gone

  /** `published`: the parent was told that the helper is up. `result`: how it
      ended, `Some(true)` when every owned route was deleted and every owned
      service restored, or none was ever taken. */
  datatype Helper = Helper(pc: HelperPc, published: bool, result: Option<bool>)

  /** Who wrote the pid and name files, who listens on the socket, and the status
      file with its writer. */
  datatype Files = Files(pid: Option<Session>, name: Option<Session>, socket: Option<Session>, status: Option<(Session, bool)>)

  datatype How = Absent | Confirmed(who: Session)

  datatype DaemonPc =
    | Idle
    | UpCheck | UpUnlinkPid | UpUnlinkName | UpUnlinkStatus | UpSpawn | UpWait | UpSave
    | DnName | DnPid(sawName: bool) | DnSocket(sawName: bool, sawPid: bool) | DnStatus
    | DnRemoveSocket | DnWait | DnUnlinkPid(who: Session) | DnUnlinkName(who: Session) | DnUnlinkStatus(who: Session)
    | DnClear(how: How)

  /** `swept` remembers that a bring-up unlinked the last helper's files without
      starting a new one. */
  datatype State = State(files: Files, helpers: seq<Helper>, marker: bool, swept: bool, daemon: DaemonPc)

  datatype Event =
    | BeginUp
    | BeginDown
    | DaemonStep(ok: bool)
    | DaemonFails
    | HelperStep(i: nat, ok: bool, clean: bool)
    | Crash(i: nat)

  const START: State := State(Files(None, None, None, None), [], false, false, Idle)

  predicate Alive(s: State, k: nat) { k < |s.helpers| && s.helpers[k].pc != Gone }

  predicate StartsUp(pc: HelperPc) {
    pc == Starting || pc == Listening || pc == Configured || pc == Named || pc == Signalling
  }

  // ---- the daemon ---------------------------------------------------------------------

  function At(s: State, pc: DaemonPc): State { s.(daemon := pc) }

  /** The guard of a bring-up: no pid file, or the one there names a process
      that has exited. */
  predicate CheckPasses(s: State) { s.files.pid.None? || !Alive(s, s.files.pid.value) }

  /** `run_gotatun_up`: failed unlinks are ignored. */
  function StepUp(s: State, ok: bool): State {
    var f := s.files;
    match s.daemon
    case UpCheck => At(s, if ok && CheckPasses(s) then UpUnlinkPid else Idle)
    case UpUnlinkPid => At(s.(files := if ok then f.(pid := None) else f, swept := true), UpUnlinkName)
    case UpUnlinkName => At(s.(files := if ok then f.(name := None) else f), UpUnlinkStatus)
    case UpUnlinkStatus => At(s.(files := if ok then f.(status := None) else f), UpSpawn)
    case UpSpawn =>
      if ok then At(s.(helpers := s.helpers + [Helper(Starting, false, None)], swept := false), UpWait) else At(s, Idle)
    case UpWait =>
      if s.helpers == [] then At(s, Idle)
      else
        var pc := s.helpers[|s.helpers| - 1].pc;
        if StartsUp(pc) then s
        else At(s, if ok && f.pid.Some? && Alive(s, f.pid.value) then UpSave else Idle)
    case UpSave => At(s.(marker := ok || s.marker), Idle)
    case _ => s
  }

  /** `run_gotatun_down` and, if it reports success, `clear_active`. */
  function StepDown(s: State, ok: bool): State {
    var f := s.files;
    match s.daemon
    case DnName => At(s, DnPid(f.name.Some?))
    case DnPid(sawName) => At(s, DnSocket(sawName, f.pid.Some?))
    case DnSocket(sawName, sawPid) =>
      At(s, if !sawPid && !sawName && f.socket.None? then DnStatus else DnRemoveSocket)
    case DnStatus => At(s, if f.status.None? then DnClear(Absent) else DnRemoveSocket)
    case DnRemoveSocket =>
      if f.socket.None? then At(s, DnWait)
      else if ok then At(s.(files := f.(socket := None)), DnWait)
      else At(s, Idle)
    case DnWait =>
      if f.status.None? then s
      else At(s, if f.status.value.1 && ok then DnUnlinkPid(f.status.value.0) else Idle)
    case DnUnlinkPid(who) => At(s.(files := if ok then f.(pid := None) else f), DnUnlinkName(who))
    case DnUnlinkName(who) => At(s.(files := if ok then f.(name := None) else f), DnUnlinkStatus(who))
    case DnUnlinkStatus(who) => At(s.(files := if ok then f.(status := None) else f), DnClear(Confirmed(who)))
    case DnClear(_) => At(s.(marker := if ok then false else s.marker), Idle)
    case _ => s
  }

  predicate InUp(pc: DaemonPc) {
    pc == UpCheck || pc == UpUnlinkPid || pc == UpUnlinkName || pc == UpUnlinkStatus || pc == UpSpawn || pc == UpWait || pc == UpSave
  }

  // ---- a helper -------------------------------------------------------------------------

  function Move(s: State, i: nat, pc: HelperPc): State
    requires i < |s.helpers|
  {
    s.(helpers := s.helpers[i := s.helpers[i].(pc := pc)])
  }

  /** The process exits, having given everything back or not. */
  function End(s: State, i: nat, clean: bool): State
    requires i < |s.helpers|
  {
    s.(helpers := s.helpers[i := s.helpers[i].(pc := Gone, result := Some(clean))])
  }

  /** One step; `ok` is whether its own action works, `clean` whether a rollback
      or cleanup it runs collects no error. A name file that cannot be written
      ends the helper with its routes and DNS in place; so may a failing pid file
      or a parent that is not there, whose cleanup errors are dropped. A status
      file that cannot be written ends it too. */
  function StepHelper(s: State, i: nat, ok: bool, clean: bool): State
    requires i < |s.helpers|
  {
    var f := s.files;
    match s.helpers[i].pc
    case Starting => if ok then Move(s.(files := f.(socket := Some(i))), i, Listening) else End(s, i, true)
    case Listening => if ok then Move(s, i, Configured) else End(s.(files := f.(socket := None)), i, clean)
    case Configured => if ok then Move(s.(files := f.(name := Some(i))), i, Named) else End(s, i, false)
    case Named =>
      if ok then Move(s.(files := f.(pid := Some(i))), i, Signalling)
      else End(s.(files := f.(socket := None, name := None)), i, clean)
    case Signalling =>
      if ok then s.(helpers := s.helpers[i := s.helpers[i].(pc := Running, published := true)])
      else End(s.(files := f.(socket := None, pid := None, name := None)), i, clean)
    case Running => Move(s, i, Stopping)
    case Stopping => s.(helpers := s.helpers[i := s.helpers[i].(pc := Cleaned, result := Some(clean))])
    case Cleaned =>
      if ok && s.helpers[i].result.Some? then Move(s.(files := f.(status := Some((i, s.helpers[i].result.value)))), i, Reported)
      else Move(s, i, Gone)
    case Reported => Move(s.(files := f.(socket := None)), i, SocketUnlinked)
    case SocketUnlinked => Move(s.(files := f.(pid := None)), i, PidUnlinked)
    case PidUnlinked => Move(s.(files := f.(name := None)), i, Gone)
    case Gone => s
  }

  /** Phases in which a helper holds routes and resolvers. */
  predicate Owns(pc: HelperPc) {
    pc == Configured || pc == Named || pc == Signalling || pc == Running || pc == Stopping
  }

  /** The process dies where it stands, leaving its files and what it owns. */
  function Die(s: State, i: nat): State
    requires i < |s.helpers|
  {
    var h := s.helpers[i];
    s.(helpers := s.helpers[i := h.(pc := Gone, result := if h.result.Some? then h.result else Some(!Owns(h.pc)))])
  }

  /** One event. The daemon gives up only where it can: not while it waits for a
      helper it has just spawned. */
  function Apply(s: State, ev: Event): State {
    match ev
    case BeginUp => if s.daemon == Idle && s.files.socket.None? then At(s, UpCheck) else s
    case BeginDown => if s.daemon == Idle then At(s, DnName) else s
    case DaemonStep(ok) => if InUp(s.daemon) then StepUp(s, ok) else StepDown(s, ok)
    case DaemonFails => if s.daemon == UpWait then s else At(s, Idle)
    case HelperStep(i, ok, clean) => if i < |s.helpers| then StepHelper(s, i, ok, clean) else s
    case Crash(i) => if i < |s.helpers| then Die(s, i) else s
  }

  function Run(s: State, events: seq<Event>): State {
    if events == [] then s else Apply(Run(s, events[..|events| - 1]), events[|events| - 1])
  }
}
