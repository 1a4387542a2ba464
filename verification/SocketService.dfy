/** What the daemon does for a client: exactly when it keeps it connected, and
    that a request it has read is answered to the last byte, however the answer
    is cut into writes. */
module SocketService {
  import opened Prelude
  import opened Socket
  import opened SocketRuns
  import opened SocketFraming

  // ---- staying connected -------------------------------------------------------------------

  /** A response of at most two MiB. */
  predicate Usable(frames: Option<seq<Byte>>) { frames.Some? && |frames.value| <= 2_097_152 }

  /** The socket takes something, or is not ready to. */
  predicate Takes(w: Write) { w.WriteWouldBlock? || (w.Wrote? && w.n > 0) }

  predicate Readable(r: Read) { r.Data? || r.ReadWouldBlock? }

  /** A complete line has arrived: a line feed is the byte 10. */
  predicate HasLine(bytes: seq<Byte>) { 10 in bytes }

  function FirstOf(bytes: seq<Byte>): seq<Byte> { bytes[..NewlineAt(bytes)] }

  /** A worker is waited for: it is still at it, or has a usable response, which
      the socket takes. */
  predicate WaitsWell(e: Env) {
    && Readable(e.read)
    && (e.poll.StillRunning? || (e.poll.Ready? && Usable(e.poll.frames) && (e.poll.frames.value == [] || Takes(e.write))))
  }

  /** A client is read: what it has sent fits into one MiB, and a complete line is text that
      gets a worker or a usable response, which the socket takes. */
  predicate ReadsWell(utf8: seq<Byte> -> bool, s: State, e: Env) {
    var input := s.input + Taken(e);
    && Readable(e.read) && |input| <= 1_048_576
    && (HasLine(input) ==>
          && utf8(FirstOf(input))
          && (e.answer.Worker? || (Usable(e.answer.frames) && (e.answer.frames.value == [] || Takes(e.write)))))
  }

  /** One step goes well for the client. */
  predicate GoesWell(utf8: seq<Byte> -> bool, s: State, e: Env) {
    && e.now < s.deadline
    && if s.pending then WaitsWell(e) else if s.output == [] then ReadsWell(utf8, s, e) else Takes(e.write)
  }

  lemma HasLineMeans(bytes: seq<Byte>)
    ensures HasLine(bytes) <==> NewlineAt(bytes) < |bytes|
  {
    if HasLine(bytes) {
      var j :| 0 <= j < |bytes| && bytes[j] == 10;
      assert NewlineAt(bytes) <= j;
    }
  }

  /** A step keeps the client connected exactly if it goes well: before the
      deadline, without an end of stream, an error, an oversized or undecodable
      request, an unusable response, or a write of nothing. */
  lemma ConnectedExactlyWhen(utf8: seq<Byte> -> bool, s: State, e: Env)
    requires Valid(s)
    ensures Step(utf8, s, e).verdict.Alive? <==> GoesWell(utf8, s, e)
  {
    hide NewlineAt;
    HasLineMeans(s.input + Taken(e));
  }

  /** What it takes to lose a client in each way. */
  predicate Because(utf8: seq<Byte> -> bool, s: State, e: Env, why: End) {
    var frames := if s.pending && e.poll.Ready? then e.poll.frames
                  else if !s.pending && e.answer.Immediate? then e.answer.frames else Some([]);
    match why
    case DeadlineExceeded => e.now >= s.deadline
    case HungUp => e.read.Eof? || (e.write.Wrote? && e.write.n == 0)
    case ReadFailed => e.read.ReadError?
    case RequestTooLarge => |s.input + Taken(e)| > 1_048_576
    case NotUtf8 => HasLine(s.input + Taken(e)) && !utf8(FirstOf(s.input + Taken(e)))
    case NotEncodable => frames.None?
    case ResponseTooLarge => frames.Some? && |frames.value| > 2_097_152
    case WorkerLost => e.poll.WorkerGone?
    case WriteFailed => e.write.WriteError?
  }

  lemma ClosedForAReason(utf8: seq<Byte> -> bool, s: State, e: Env)
    requires Valid(s) && Step(utf8, s, e).verdict.Closed?
    ensures Because(utf8, s, e, Step(utf8, s, e).verdict.why)
  {
    hide NewlineAt;
    HasLineMeans(s.input + Taken(e));
  }

  /** The client has ten seconds from connecting, from a response being queued and
      from one being drained, and a minute for its worker; nothing else moves the
      deadline. */
  lemma DeadlineMoves(utf8: seq<Byte> -> bool, s: State, e: Env)
    requires Valid(s) && Step(utf8, s, e).verdict.Alive?
    ensures var r := Step(utf8, s, e);
            var t := r.verdict.state;
            && Fresh(e.now).deadline == e.now + 10_000
            && t.deadline == if r.sent != [] && t.output == [] then e.drainedAt + 10_000
                             else if r.queued.Some? then e.queuedAt + 10_000
                             else if r.dispatched.Some? then e.queuedAt + 60_000
                             else s.deadline
  {
    hide NewlineAt;
  }

  /** Over every run neither buffer outgrows its bound. */
  lemma {:induction false} BuffersStayBounded(utf8: seq<Byte> -> bool, s: State, h: History, envs: seq<Env>)
    requires Valid(s)
    ensures var v := Run(utf8, s, h, envs).0;
            v.Alive? ==> |v.state.input| <= 1_048_576 && |v.state.output| <= 2_097_152
    decreases |envs|
  {
    if envs != [] {
      hide Step;
      StepKeepsValid(utf8, s, envs[0]);
      var v := Step(utf8, s, envs[0]).verdict;
      if v.Alive? { BuffersStayBounded(utf8, v.state, Record(utf8, s, envs[0], h), envs[1..]); }
    }
  }

  ghost predicate AllGoesWell(utf8: seq<Byte> -> bool, s: State, envs: seq<Env>)
    requires Valid(s)
    decreases |envs|
  {
    envs == [] ||
    (GoesWell(utf8, s, envs[0]) &&
     (StepKeepsValid(utf8, s, envs[0]);
      match Step(utf8, s, envs[0]).verdict
      case Closed(_) => false
      case Alive(s') => AllGoesWell(utf8, s', envs[1..])))
  }

  /** A client stays connected over a conversation exactly if every step goes
      well, whatever the sizes of its reads and writes: partial writes, sockets
      that are not ready and workers that take their time cost it nothing. */
  lemma {:induction false} StaysConnectedExactlyWhen(utf8: seq<Byte> -> bool, s: State, h: History, envs: seq<Env>)
    requires Valid(s)
    ensures Run(utf8, s, h, envs).0.Alive? <==> AllGoesWell(utf8, s, envs)
    decreases |envs|
  {
    if envs != [] {
      hide Step, GoesWell;
      ConnectedExactlyWhen(utf8, s, envs[0]);
      StepKeepsValid(utf8, s, envs[0]);
      var v := Step(utf8, s, envs[0]).verdict;
      if v.Alive? { StaysConnectedExactlyWhen(utf8, v.state, Record(utf8, s, envs[0], h), envs[1..]); }
    }
  }

  // ---- delivering a response ------------------------------------------------------------------

  /** How many bytes the writes offer to take. */
  function Offered(envs: seq<Env>): nat
    decreases |envs|
  {
    if envs == [] then 0 else (if envs[0].write.Wrote? then envs[0].write.n else 0) + Offered(envs[1..])
  }

  /** One write of a waiting response: what is offered is sent, in place. */
  lemma WritesOn(utf8: seq<Byte> -> bool, s: State, h: History, e: Env)
    requires Consistent(s, h) && s.output != [] && GoesWell(utf8, s, e)
    ensures var r, h' := Step(utf8, s, e), Record(utf8, s, e, h);
            var n := if e.write.Wrote? then e.write.n else 0;
            && r.verdict.Alive? && Consistent(r.verdict.state, h')
            && h'.queued == h.queued && h'.dispatched == h.dispatched && h'.read == h.read && h'.kept == h.kept
            && !r.verdict.state.pending && r.verdict.state.input == s.input
            && if n < |s.output| - s.written
               then r.verdict.state.output == s.output && r.verdict.state.written == s.written + n
               else r.verdict.state.output == []
  {
    ConnectedExactlyWhen(utf8, s, e);
    StepConsistent(utf8, s, h, e);
    Unrecorded(h, h.read + []);
    assert h.read + [] == h.read && h.kept + [] == h.kept && h.queued + [] == h.queued && h.dispatched + [] == h.dispatched;
  }

  lemma Prefix(utf8: seq<Byte> -> bool, s: State, h: History, envs: seq<Env>, k: nat)
    requires Valid(s) && 0 < k <= |envs| && Step(utf8, s, envs[0]).verdict.Alive? && Valid(Step(utf8, s, envs[0]).verdict.state)
    ensures Run(utf8, s, h, envs[..k]) ==
            Run(utf8, Step(utf8, s, envs[0]).verdict.state, Record(utf8, s, envs[0], h), envs[1..][..k - 1])
  {
    hide Step, Record;
    assert envs[..k] == [envs[0]] + envs[1..][..k - 1];
    RunOne(utf8, s, h, envs[0], envs[1..][..k - 1]);
  }

  /** A waiting response arrives: once the writes have offered to take what is
      left of it, all of it has been sent and the client is read again. */
  lemma {:induction false} Delivers(utf8: seq<Byte> -> bool, s: State, h: History, envs: seq<Env>) returns (k: nat)
    requires Consistent(s, h) && s.output != [] && AllGoesWell(utf8, s, envs)
    requires Offered(envs) >= |s.output| - s.written
    ensures 0 < k <= |envs|
    ensures var (v, h') := Run(utf8, s, h, envs[..k]);
            && v.Alive? && Consistent(v.state, h') && v.state.output == [] && !v.state.pending && v.state.input == s.input
            && h'.sent == Joined(h.queued) && h'.queued == h.queued && h'.dispatched == h.dispatched
    decreases |envs|
  {
    hide Step, Framed, Joined, Record, GoesWell;
    var e := envs[0];
    WritesOn(utf8, s, h, e);
    var s1, h1 := Step(utf8, s, e).verdict.state, Record(utf8, s, e, h);
    if s1.output == [] {
      k := 1;
      Prefix(utf8, s, h, envs, 1);
      assert envs[1..][..0] == [];
      assert Run(utf8, s1, h1, []) == (Alive(s1), h1);
      assert s1.output[s1.written..] == [] && h1.sent + [] == h1.sent;
    } else {
      var j := Delivers(utf8, s1, h1, envs[1..]);
      k := j + 1;
      Prefix(utf8, s, h, envs, k);
    }
  }

  // ---- serving a request ------------------------------------------------------------------------

  predicate Idle(s: State) { !s.pending && s.output == [] }

  /** The step that finds a complete line. */
  lemma LineStep(utf8: seq<Byte> -> bool, s: State, e: Env, line: seq<Byte>, rest: seq<Byte>)
    requires Valid(s) && Idle(s) && GoesWell(utf8, s, e)
    requires NEWLINE !in line && s.input + Taken(e) == line + [NEWLINE] + rest
    ensures var r := Step(utf8, s, e);
            && r.verdict.Alive? && r.verdict.state.input == rest && r.dispatched == Some(line)
            && match e.answer
               case Worker => r.verdict.state.pending && r.queued == None
               case Immediate(frames) =>
                 frames.Some? && !r.verdict.state.pending && r.queued == frames
                 && |r.verdict.state.output| - r.verdict.state.written <= |frames.value|
  {
    hide NewlineAt;
    HasLineMeans(s.input + Taken(e));
    NewlineAtConcat(line, rest);
    ConnectedExactlyWhen(utf8, s, e);
    assert (line + [NEWLINE] + rest)[..|line|] == line && (line + [NEWLINE] + rest)[|line| + 1..] == rest;
  }

  /** A complete line is dispatched as soon as it is there; its response is
      queued, or its worker waited for. */
  lemma DispatchesLine(utf8: seq<Byte> -> bool, s: State, h: History, e: Env, line: seq<Byte>, rest: seq<Byte>)
    requires Consistent(s, h) && Idle(s) && GoesWell(utf8, s, e)
    requires NEWLINE !in line && s.input + Taken(e) == line + [NEWLINE] + rest
    ensures var r, h' := Step(utf8, s, e), Record(utf8, s, e, h);
            && r.verdict.Alive? && Consistent(r.verdict.state, h') && r.verdict.state.input == rest
            && h'.dispatched == h.dispatched + [line]
            && match e.answer
               case Worker => r.verdict.state.pending && h'.queued == h.queued
               case Immediate(frames) =>
                 frames.Some? && !r.verdict.state.pending && h'.queued == h.queued + [frames.value]
                 && |r.verdict.state.output| - r.verdict.state.written <= |frames.value|
  {
    hide Step, Framed, Joined, GoesWell;
    LineStep(utf8, s, e, line, rest);
    StepConsistent(utf8, s, h, e);
    assert h.queued + [] == h.queued;
  }

  /** Nothing is dispatched before the line is complete. */
  lemma WaitsForLine(utf8: seq<Byte> -> bool, s: State, h: History, e: Env)
    requires Consistent(s, h) && Idle(s) && GoesWell(utf8, s, e) && NEWLINE !in s.input + Taken(e)
    ensures var r, h' := Step(utf8, s, e), Record(utf8, s, e, h);
            && r.verdict.Alive? && Idle(r.verdict.state) && r.verdict.state.input == s.input + Taken(e)
            && h'.dispatched == h.dispatched && h'.queued == h.queued
  {
    HasLineMeans(s.input + Taken(e));
    ConnectedExactlyWhen(utf8, s, e);
    assert h.queued + [] == h.queued && h.dispatched + [] == h.dispatched;
  }

  /** A worker's response is queued when it is ready, and waited for until then. */
  lemma WorkerAnswers(utf8: seq<Byte> -> bool, s: State, h: History, e: Env)
    requires Consistent(s, h) && s.pending && GoesWell(utf8, s, e)
    ensures var r, h' := Step(utf8, s, e), Record(utf8, s, e, h);
            && r.verdict.Alive? && Consistent(r.verdict.state, h') && r.verdict.state.input == s.input && h'.dispatched == h.dispatched
            && match e.poll
               case Ready(frames) =>
                 frames.Some? && !r.verdict.state.pending && h'.queued == h.queued + [frames.value]
                 && |r.verdict.state.output| - r.verdict.state.written <= |frames.value|
               case _ => r.verdict.state.pending && h'.queued == h.queued
  {
    hide Framed, Joined;
    ConnectedExactlyWhen(utf8, s, e);
    StepConsistent(utf8, s, h, e);
    assert h.queued + [] == h.queued && h.dispatched + [] == h.dispatched;
  }

  /** A queued response is delivered, at once or by the writes that follow. */
  lemma QueuedIsDelivered(utf8: seq<Byte> -> bool, s: State, h: History, envs: seq<Env>) returns (k: nat)
    requires Consistent(s, h) && !s.pending && AllGoesWell(utf8, s, envs) && Offered(envs) >= |s.output| - s.written
    ensures k <= |envs|
    ensures var (v, h') := Run(utf8, s, h, envs[..k]);
            && v.Alive? && Consistent(v.state, h') && Idle(v.state) && v.state.input == s.input
            && h'.sent == Joined(h.queued) && h'.queued == h.queued && h'.dispatched == h.dispatched
  {
    if s.output == [] {
      k := 0;
      assert envs[..0] == [] && s.output[s.written..] == [] && h.sent + [] == h.sent;
    } else {
      k := Delivers(utf8, s, h, envs);
    }
  }

  /** A request is served: when its line is complete it is dispatched, and once
      the writes have offered to take the response all of it has been sent and
      the client is idle with what it had sent beyond the line. */
  lemma RequestIsServed(utf8: seq<Byte> -> bool, s: State, h: History, e: Env, envs: seq<Env>, line: seq<Byte>, rest: seq<Byte>,
                        frames: seq<Byte>) returns (k: nat)
    requires Consistent(s, h) && Idle(s) && AllGoesWell(utf8, s, [e] + envs)
    requires NEWLINE !in line && s.input + Taken(e) == line + [NEWLINE] + rest
    requires e.answer == Immediate(Some(frames)) && Offered(envs) >= |frames|
    ensures k <= |envs|
    ensures var (v, h') := Run(utf8, s, h, [e] + envs[..k]);
            && v.Alive? && Idle(v.state) && v.state.input == rest
            && h'.dispatched == h.dispatched + [line] && h'.queued == h.queued + [frames] && h'.sent == Joined(h'.queued)
  {
    hide Step, Framed, Joined, Record, GoesWell, Run;
    assert ([e] + envs)[0] == e && ([e] + envs)[1..] == envs;
    DispatchesLine(utf8, s, h, e, line, rest);
    var s1, h1 := Step(utf8, s, e).verdict.state, Record(utf8, s, e, h);
    k := QueuedIsDelivered(utf8, s1, h1, envs);
    RunOne(utf8, s, h, e, envs[..k]);
  }

  /** A worker is still at it over all these steps. */
  predicate StillAtIt(wait: seq<Env>) { forall i :: 0 <= i < |wait| ==> wait[i].poll.StillRunning? }

  /** Steps up to a point where the client is connected, and the steps after it. */
  lemma {:induction false} RunSplit(utf8: seq<Byte> -> bool, s: State, h: History, a: seq<Env>, b: seq<Env>)
    requires Valid(s) && Run(utf8, s, h, a).0.Alive? && Valid(Run(utf8, s, h, a).0.state)
    ensures Run(utf8, s, h, a + b) == Run(utf8, Run(utf8, s, h, a).0.state, Run(utf8, s, h, a).1, b)
    ensures AllGoesWell(utf8, s, a + b) ==> AllGoesWell(utf8, Run(utf8, s, h, a).0.state, b)
    decreases |a|
  {
    if a == [] {
      assert a + b == b;
    } else {
      hide Step, Record, GoesWell;
      StepKeepsValid(utf8, s, a[0]);
      assert (a + b)[0] == a[0] && (a + b)[1..] == a[1..] + b;
      RunSplit(utf8, Step(utf8, s, a[0]).verdict.state, Record(utf8, s, a[0], h), a[1..], b);
    }
  }

  lemma {:induction false} WaitsForWorker(utf8: seq<Byte> -> bool, s: State, h: History, wait: seq<Env>, more: seq<Env>)
    requires Consistent(s, h) && s.pending && StillAtIt(wait) && AllGoesWell(utf8, s, wait + more)
    ensures var (v, h') := Run(utf8, s, h, wait);
            && v.Alive? && Consistent(v.state, h') && v.state.pending && v.state.input == s.input
            && h'.dispatched == h.dispatched && h'.queued == h.queued
    decreases |wait|
  {
    if wait != [] {
      hide Step, Framed, Joined, Record, GoesWell;
      assert (wait + more)[0] == wait[0] && (wait + more)[1..] == wait[1..] + more;
      WorkerAnswers(utf8, s, h, wait[0]);
      WaitsForWorker(utf8, Step(utf8, s, wait[0]).verdict.state, Record(utf8, s, wait[0], h), wait[1..], more);
    }
  }

  /** A worker's response is delivered too, however long the worker takes. */
  lemma WorkerIsServed(utf8: seq<Byte> -> bool, s: State, h: History, wait: seq<Env>, e: Env, envs: seq<Env>, frames: seq<Byte>)
    returns (k: nat)
    requires Consistent(s, h) && s.pending && StillAtIt(wait) && AllGoesWell(utf8, s, wait + ([e] + envs))
    requires e.poll == Ready(Some(frames)) && Offered(envs) >= |frames|
    ensures k <= |envs|
    ensures var (v, h') := Run(utf8, s, h, wait + ([e] + envs[..k]));
            && v.Alive? && Idle(v.state) && v.state.input == s.input
            && h'.dispatched == h.dispatched && h'.queued == h.queued + [frames] && h'.sent == Joined(h'.queued)
  {
    hide Step, Framed, Joined, Record, GoesWell, Run;
    WaitsForWorker(utf8, s, h, wait, [e] + envs);
    var (v1, h1) := Run(utf8, s, h, wait);
    RunSplit(utf8, s, h, wait, [e] + envs);
    assert ([e] + envs)[0] == e && ([e] + envs)[1..] == envs;
    WorkerAnswers(utf8, v1.state, h1, e);
    var s2, h2 := Step(utf8, v1.state, e).verdict.state, Record(utf8, v1.state, e, h1);
    k := QueuedIsDelivered(utf8, s2, h2, envs);
    RunOne(utf8, v1.state, h1, e, envs[..k]);
    RunSplit(utf8, s, h, wait, [e] + envs[..k]);
  }
}
