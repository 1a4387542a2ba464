/** What a client and the daemon can rely on over a whole conversation, however
    the bytes are cut into reads and the responses into writes. */
module SocketRuns {
  import opened Prelude
  import opened Socket

  // ---- frames ------------------------------------------------------------------------

  /** Requests as they stand on the wire. */
  function Framed(requests: seq<seq<Byte>>): seq<Byte> {
    if requests == [] then [] else Framed(requests[..|requests| - 1]) + requests[|requests| - 1] + [NEWLINE]
  }

  function Joined(responses: seq<seq<Byte>>): seq<Byte> {
    if responses == [] then [] else Joined(responses[..|responses| - 1]) + responses[|responses| - 1]
  }

  /** The complete lines of a byte string, read all at once. */
  function CompleteLines(bytes: seq<Byte>): seq<seq<Byte>>
    decreases |bytes|
  {
    var i := NewlineAt(bytes);
    if i == |bytes| then [] else [bytes[..i]] + CompleteLines(bytes[i + 1..])
  }

  predicate SingleLines(requests: seq<seq<Byte>>) { forall i :: 0 <= i < |requests| ==> NEWLINE !in requests[i] }

  lemma {:induction false} FramedFront(r: seq<Byte>, rest: seq<seq<Byte>>)
    ensures Framed([r] + rest) == r + [NEWLINE] + Framed(rest)
  {
    var all := [r] + rest;
    if rest == [] {
      assert all[..0] == [];
      assert Framed(all) == [] + r + [NEWLINE];
      assert r + [NEWLINE] + [] == r + [NEWLINE];
    } else {
      var n := |rest| - 1;
      assert all[..n + 1] == [r] + rest[..n];
      FramedFront(r, rest[..n]);
      assert Framed(all) == (r + [NEWLINE] + Framed(rest[..n])) + rest[n] + [NEWLINE];
    }
  }

  lemma NewlineAtConcat(a: seq<Byte>, b: seq<Byte>)
    requires NEWLINE !in a
    ensures NewlineAt(a + [NEWLINE] + b) == |a|
  {
    var s := a + [NEWLINE] + b;
    assert s[|a|] == NEWLINE;
    assert forall j :: 0 <= j < |a| ==> s[j] == a[j];
  }

  lemma CompleteLinesFront(r: seq<Byte>, rest: seq<Byte>)
    requires NEWLINE !in r
    ensures CompleteLines(r + [NEWLINE] + rest) == [r] + CompleteLines(rest)
  {
    var s := r + [NEWLINE] + rest;
    NewlineAtConcat(r, rest);
    assert s[..|r|] == r && s[|r| + 1..] == rest;
  }

  lemma Regroup(r: seq<Byte>, b: seq<Byte>, tail: seq<Byte>)
    ensures r + [NEWLINE] + b + tail == r + [NEWLINE] + (b + tail)
  {
  }

  lemma Prepend(r: seq<Byte>, rest: seq<seq<Byte>>, more: seq<seq<Byte>>)
    ensures [r] + (rest + more) == ([r] + rest) + more
  {
  }

  /** Incremental framing agrees with cutting the whole text into lines. */
  lemma {:induction false} FramedArePrefix(requests: seq<seq<Byte>>, tail: seq<Byte>)
    requires SingleLines(requests)
    ensures CompleteLines(Framed(requests) + tail) == requests + CompleteLines(tail)
    decreases |requests|
  {
    if requests == [] {
      assert Framed(requests) + tail == tail && requests + CompleteLines(tail) == CompleteLines(tail);
    } else {
      hide CompleteLines, Framed;
      var r, rest := requests[0], requests[1..];
      assert requests == [r] + rest;
      FramedFront(r, rest);
      Regroup(r, Framed(rest), tail);
      CompleteLinesFront(r, Framed(rest) + tail);
      FramedArePrefix(rest, tail);
      Prepend(r, rest, CompleteLines(tail));
    }
  }

  // ---- histories ----------------------------------------------------------------------

  /** What has happened so far: all bytes read from the client, those of them
      that were kept, the requests dispatched, the responses queued and the
      bytes written. */
  datatype History = History(read: seq<Byte>, kept: seq<Byte>, dispatched: seq<seq<Byte>>, queued: seq<seq<Byte>>, sent: seq<Byte>)

  const NOTHING := History([], [], [], [], [])

  /** The bytes a step takes from the socket, and whether it keeps them. */
  function ReadBy(s: State, e: Env): seq<Byte> {
    if e.now < s.deadline && (s.pending || s.output == []) then Taken(e) else []
  }

  function KeptBy(s: State, e: Env): seq<Byte> { if s.pending then [] else ReadBy(s, e) }

  function One(o: Option<seq<Byte>>): seq<seq<Byte>> { if o.Some? then [o.value] else [] }

  function Record(utf8: seq<Byte> -> bool, s: State, e: Env, h: History): History
    requires Valid(s)
  {
    var r := Step(utf8, s, e);
    History(h.read + ReadBy(s, e), h.kept + KeptBy(s, e), h.dispatched + One(r.dispatched), h.queued + One(r.queued), h.sent + r.sent)
  }

  /** A conversation: steps until one closes the client. */
  function Run(utf8: seq<Byte> -> bool, s: State, h: History, envs: seq<Env>): (Verdict, History)
    requires Valid(s)
    decreases |envs|
  {
    if envs == [] then (Alive(s), h)
    else
      var h' := Record(utf8, s, envs[0], h);
      StepKeepsValid(utf8, s, envs[0]);
      match Step(utf8, s, envs[0]).verdict
      case Closed(why) => (Closed(why), h')
      case Alive(s') => Run(utf8, s', h', envs[1..])
  }

  // ---- the invariant ----------------------------------------------------------------------

  /** While a client is alive: what was kept is the dispatched requests and the
      buffered rest; what was written and what is waiting are the responses;
      requests and responses alternate. */
  ghost predicate Consistent(s: State, h: History) {
    && Valid(s)
    && h.kept == Framed(h.dispatched) + s.input
    && h.sent + s.output[s.written..] == Joined(h.queued)
    && SingleLines(h.dispatched)
    && |h.dispatched| == |h.queued| + (if s.pending then 1 else 0)
  }

  /** What is left of it once the client is closed. */
  ghost predicate Faithful(h: History) {
    && Framed(h.dispatched) <= h.kept
    && h.sent <= Joined(h.queued)
    && SingleLines(h.dispatched)
    && |h.queued| <= |h.dispatched| <= |h.queued| + 1
  }

  lemma ConsistentIsFaithful(s: State, h: History)
    requires Consistent(s, h)
    ensures Faithful(h)
  {
  }

  lemma FramedSnoc(requests: seq<seq<Byte>>, r: seq<Byte>)
    ensures Framed(requests + [r]) == Framed(requests) + r + [NEWLINE]
  {
    assert (requests + [r])[..|requests|] == requests;
  }

  lemma JoinedSnoc(responses: seq<seq<Byte>>, r: seq<Byte>)
    ensures Joined(responses + [r]) == Joined(responses) + r
  {
    assert (responses + [r])[..|responses|] == responses;
  }

  /** Writing moves bytes from the waiting part to the written part. */
  lemma FlushConsistent(s: State, h: History, e: Env, dispatched: Option<seq<Byte>>, queued: Option<seq<Byte>>)
    requires Consistent(s, h)
    ensures var r := Flush(s, e, dispatched, queued);
            var h' := h.(sent := h.sent + r.sent);
            (r.verdict.Alive? ==> Consistent(r.verdict.state, h')) && (r.verdict.Closed? ==> Faithful(h'))
  {
    hide Framed, Joined, SingleLines;
    var r := Flush(s, e, dispatched, queued);
    if r.sent != [] {
      var m := |r.sent|;
      assert s.output[s.written..] == r.sent + s.output[s.written + m..];
      assert h.sent + s.output[s.written..] == (h.sent + r.sent) + s.output[s.written + m..];
      if s.written + m == |s.output| {
        assert s.output[s.written + m..] == [];
        assert (h.sent + r.sent) + [] == h.sent + r.sent;
      }
    } else {
      assert h.sent + r.sent == h.sent;
    }
  }

  /** What a step does is: close at once, with nothing queued, or prepare a
      state and let it be written. */
  ghost predicate Prepared(r: Outcome, s1: State, e: Env, h1: History, h': History) {
    && Consistent(s1, h1) && r == Flush(s1, e, r.dispatched, r.queued)
    && h' == h1.(sent := h1.sent + r.sent)
  }

  lemma PreparedConsistent(r: Outcome, s1: State, e: Env, h1: History, h': History)
    requires Prepared(r, s1, e, h1, h')
    ensures (r.verdict.Alive? ==> Consistent(r.verdict.state, h')) && (r.verdict.Closed? ==> Faithful(h'))
  {
    FlushConsistent(s1, h1, e, r.dispatched, r.queued);
  }

  lemma ReadMore(s: State, h: History, read: seq<Byte>)
    requires Consistent(s, h)
    ensures Consistent(s, h.(read := read))
  {
  }

  lemma Unrecorded(h: History, read: seq<Byte>)
    ensures History(read, h.kept + [], h.dispatched + One(None), h.queued + One(None), h.sent + []) == h.(read := read)
  {
    assert h.kept + [] == h.kept && h.dispatched + [] == h.dispatched && h.queued + [] == h.queued && h.sent + [] == h.sent;
  }

  lemma PendingConsistent(utf8: seq<Byte> -> bool, s: State, h: History, e: Env)
    requires Consistent(s, h) && e.now < s.deadline && s.pending
    ensures var r := Step(utf8, s, e);
            var h' := Record(utf8, s, e, h);
            (r.verdict.Alive? ==> Consistent(r.verdict.state, h')) && (r.verdict.Closed? ==> Faithful(h'))
  {
    hide Framed, Joined;
    var r := Step(utf8, s, e);
    var h' := Record(utf8, s, e, h);
    var h1 := h.(read := h.read + Taken(e));
    ReadMore(s, h, h.read + Taken(e));
    Unrecorded(h, h.read + Taken(e));
    if r.queued.Some? {
      var s1 := s.(output := r.queued.value, pending := false, deadline := e.queuedAt + IO_TIMEOUT);
      var h2 := h1.(queued := h.queued + [r.queued.value]);
      JoinedSnoc(h.queued, r.queued.value);
      assert r.queued.value[0..] == r.queued.value && s.output[0..] == [] && h.sent + [] == h.sent;
      PreparedConsistent(r, s1, e, h2, h');
    } else if r.verdict.Alive? {
      PreparedConsistent(r, s, e, h1, h');
    } else {
      ConsistentIsFaithful(s, h1);
    }
  }

  lemma ReadingConsistent(utf8: seq<Byte> -> bool, s: State, h: History, e: Env)
    requires Consistent(s, h) && e.now < s.deadline && !s.pending && s.output == []
    ensures var r := Step(utf8, s, e);
            var h' := Record(utf8, s, e, h);
            (r.verdict.Alive? ==> Consistent(r.verdict.state, h')) && (r.verdict.Closed? ==> Faithful(h'))
  {
    hide Framed, Joined, NewlineAt;
    var r := Step(utf8, s, e);
    var h' := Record(utf8, s, e, h);
    var input := s.input + Taken(e);
    assert h.kept + Taken(e) == Framed(h.dispatched) + input;
    var h1 := h.(read := h.read + Taken(e), kept := h.kept + Taken(e));
    if r.dispatched.Some? {
      var end := NewlineAt(input);
      var request := input[..end];
      FramedSnoc(h.dispatched, request);
      assert input == request + [NEWLINE] + input[end + 1..];
      assert Framed(h.dispatched) + input == Framed(h.dispatched + [request]) + input[end + 1..];
      var h2 := h1.(dispatched := h.dispatched + [request]);
      Dispatched(utf8, s, h, e, h2, input[end + 1..]);
    } else if r.verdict.Alive? {
      Unrecorded(h1, h1.read);
      PreparedConsistent(r, s.(input := input), e, h1, h');
    } else {
      Unrecorded(h1, h1.read);
    }
  }

  /** A step that dispatched: a worker was started, a response queued, or the
      client closed over an unusable response. */
  lemma Dispatched(utf8: seq<Byte> -> bool, s: State, h: History, e: Env, h2: History, rest: seq<Byte>)
    requires Consistent(s, h) && e.now < s.deadline && !s.pending && s.output == []
    requires Step(utf8, s, e).dispatched.Some?
    requires var input := s.input + Taken(e); NewlineAt(input) < |input| && rest == input[NewlineAt(input) + 1..]
    requires h2.dispatched == h.dispatched + [Step(utf8, s, e).dispatched.value] && SingleLines(h2.dispatched)
    requires h2.read == h.read + Taken(e) && h2.kept == h.kept + Taken(e) == Framed(h2.dispatched) + rest
    requires h2.queued == h.queued && h2.sent == h.sent
    ensures var r := Step(utf8, s, e);
            var h' := Record(utf8, s, e, h);
            (r.verdict.Alive? ==> Consistent(r.verdict.state, h')) && (r.verdict.Closed? ==> Faithful(h'))
  {
    hide Framed, Joined, NewlineAt;
    var r := Step(utf8, s, e);
    var h' := Record(utf8, s, e, h);
    assert h.queued + [] == h.queued && h.sent + [] == h.sent && s.output[0..] == [];
    if r.queued.Some? {
      var frames := r.queued.value;
      JoinedSnoc(h.queued, frames);
      assert frames[0..] == frames;
      PreparedConsistent(r, s.(input := rest, output := frames, deadline := e.queuedAt + IO_TIMEOUT), e,
                         h2.(queued := h.queued + [frames]), h');
    } else if r.verdict.Alive? {
      PreparedConsistent(r, s.(input := rest, pending := true, deadline := e.queuedAt + PENDING_WORKER_TIMEOUT), e, h2, h');
    }
  }

  lemma StepConsistent(utf8: seq<Byte> -> bool, s: State, h: History, e: Env)
    requires Consistent(s, h)
    ensures var r := Step(utf8, s, e);
            var h' := Record(utf8, s, e, h);
            (r.verdict.Alive? ==> Consistent(r.verdict.state, h')) && (r.verdict.Closed? ==> Faithful(h'))
  {
    if e.now >= s.deadline {
      Unrecorded(h, h.read + []);
      assert h.read + [] == h.read;
      ConsistentIsFaithful(s, h);
    } else if s.pending {
      PendingConsistent(utf8, s, h, e);
    } else if s.output == [] {
      ReadingConsistent(utf8, s, h, e);
    } else {
      Unrecorded(h, h.read + []);
      assert h.read + [] == h.read;
      PreparedConsistent(Step(utf8, s, e), s, e, h, Record(utf8, s, e, h));
    }
  }

  lemma {:induction false} RunConsistent(utf8: seq<Byte> -> bool, s: State, h: History, envs: seq<Env>)
    requires Consistent(s, h)
    ensures var (v, h') := Run(utf8, s, h, envs);
            Faithful(h') && (v.Alive? ==> Consistent(v.state, h'))
    decreases |envs|
  {
    if envs == [] {
      ConsistentIsFaithful(s, h);
    } else {
      hide Consistent, Faithful, Record;
      StepConsistent(utf8, s, h, envs[0]);
      StepKeepsValid(utf8, s, envs[0]);
      var r := Step(utf8, s, envs[0]);
      if r.verdict.Alive? {
        RunConsistent(utf8, r.verdict.state, Record(utf8, s, envs[0], h), envs[1..]);
      }
    }
  }

  // ---- the theorems --------------------------------------------------------------------------

  /** The whole conversation of one client. */
  function Conversation(utf8: seq<Byte> -> bool, now: nat, envs: seq<Env>): (Verdict, History) {
    Run(utf8, Fresh(now), NOTHING, envs)
  }

  lemma FreshIsConsistent(now: nat)
    ensures Consistent(Fresh(now), NOTHING)
  {
    assert Framed([]) == [] && Joined([]) == [];
  }

  /** Framing is independent of chunking: whatever the sizes of reads and
      writes, the dispatched requests are a prefix of the lines of the bytes
      kept, each once and in order; the bytes written are a prefix of the
      responses in the order of their requests; and a request is dispatched
      only when every earlier one has its response. */
  lemma FramingIndependentOfChunking(utf8: seq<Byte> -> bool, now: nat, envs: seq<Env>)
    ensures var h := Conversation(utf8, now, envs).1;
            && h.dispatched <= CompleteLines(h.kept)
            && h.sent <= Joined(h.queued)
            && |h.queued| <= |h.dispatched| <= |h.queued| + 1
  {
    FreshIsConsistent(now);
    RunConsistent(utf8, Fresh(now), NOTHING, envs);
    var h := Conversation(utf8, now, envs).1;
    var tail := h.kept[|Framed(h.dispatched)|..];
    assert h.kept == Framed(h.dispatched) + tail;
    FramedArePrefix(h.dispatched, tail);
  }

  /** A client that is still connected has had every response it was sent in
      full, but for the one being written; what it sent is the dispatched lines
      and an unfinished rest. */
  lemma AliveAccounts(utf8: seq<Byte> -> bool, now: nat, envs: seq<Env>)
    requires Conversation(utf8, now, envs).0.Alive?
    ensures var (v, h) := Conversation(utf8, now, envs);
            && h.kept == Framed(h.dispatched) + v.state.input && v.state.written <= |v.state.output|
            && h.sent + v.state.output[v.state.written..] == Joined(h.queued)
            && |h.dispatched| == |h.queued| + (if v.state.pending then 1 else 0)
            && |v.state.input| <= MAX_REQUEST_BYTES && |v.state.output| <= MAX_RESPONSE_BYTES
  {
    FreshIsConsistent(now);
    RunConsistent(utf8, Fresh(now), NOTHING, envs);
  }

  /** The client is silent while its worker runs. */
  ghost predicate SilentWhilePending(utf8: seq<Byte> -> bool, s: State, envs: seq<Env>)
    requires Valid(s)
    decreases |envs|
  {
    envs == [] ||
    ((s.pending ==> ReadBy(s, envs[0]) == []) &&
     (StepKeepsValid(utf8, s, envs[0]);
      match Step(utf8, s, envs[0]).verdict
      case Closed(_) => true
      case Alive(s') => SilentWhilePending(utf8, s', envs[1..])))
  }

  function Lost(h: History): int { |h.read| - |h.kept| }

  lemma {:induction false} LossGrows(utf8: seq<Byte> -> bool, s: State, h: History, envs: seq<Env>)
    requires Valid(s)
    ensures Lost(h) <= Lost(Run(utf8, s, h, envs).1)
    decreases |envs|
  {
    if envs != [] {
      hide Step;
      StepKeepsValid(utf8, s, envs[0]);
      var v := Step(utf8, s, envs[0]).verdict;
      if v.Alive? { LossGrows(utf8, v.state, Record(utf8, s, envs[0], h), envs[1..]); }
    }
  }

  /** No byte is lost exactly when the client is silent while its worker runs. */
  lemma {:induction false} KeptIffSilent(utf8: seq<Byte> -> bool, s: State, h: History, envs: seq<Env>)
    requires Valid(s) && h.kept == h.read
    ensures Run(utf8, s, h, envs).1.kept == Run(utf8, s, h, envs).1.read <==> SilentWhilePending(utf8, s, envs)
    decreases |envs|
  {
    if envs != [] {
      hide Step;
      StepKeepsValid(utf8, s, envs[0]);
      var v := Step(utf8, s, envs[0]).verdict;
      var h' := Record(utf8, s, envs[0], h);
      if s.pending && ReadBy(s, envs[0]) != [] {
        assert Lost(h') > 0;
        if v.Alive? { LossGrows(utf8, v.state, h', envs[1..]); }
      } else if v.Alive? {
        KeptIffSilent(utf8, v.state, h', envs[1..]);
      }
    }
  }

  /** For a client that is silent while its worker runs, two conversations over
      the same byte stream, cut up however, dispatch the same requests: one
      list is a prefix of the other, and both of the stream's lines. */
  lemma ChunkingDoesNotMatter(utf8: seq<Byte> -> bool, now: nat, envs: seq<Env>, now': nat, envs': seq<Env>, stream: seq<Byte>)
    requires SilentWhilePending(utf8, Fresh(now), envs) && SilentWhilePending(utf8, Fresh(now'), envs')
    requires Conversation(utf8, now, envs).1.read <= stream && Conversation(utf8, now', envs').1.read <= stream
    ensures var a, b := Conversation(utf8, now, envs).1.dispatched, Conversation(utf8, now', envs').1.dispatched;
            a <= CompleteLines(stream) && b <= CompleteLines(stream) && (a <= b || b <= a)
  {
    DispatchedFromStream(utf8, now, envs, stream);
    DispatchedFromStream(utf8, now', envs', stream);
    var a, b := Conversation(utf8, now, envs).1.dispatched, Conversation(utf8, now', envs').1.dispatched;
    PrefixesCompare(a, b, CompleteLines(stream));
  }

  lemma PrefixesCompare<T>(a: seq<T>, b: seq<T>, whole: seq<T>)
    requires a <= whole && b <= whole
    ensures a <= b || b <= a
  {
    if |a| <= |b| { assert b[..|a|] == whole[..|a|]; } else { assert a[..|b|] == whole[..|b|]; }
  }

  lemma DispatchedFromStream(utf8: seq<Byte> -> bool, now: nat, envs: seq<Env>, stream: seq<Byte>)
    requires SilentWhilePending(utf8, Fresh(now), envs) && Conversation(utf8, now, envs).1.read <= stream
    ensures Conversation(utf8, now, envs).1.dispatched <= CompleteLines(stream)
  {
    hide CompleteLines, NewlineAt;
    KeptIffSilent(utf8, Fresh(now), NOTHING, envs);
    FreshIsConsistent(now);
    RunConsistent(utf8, Fresh(now), NOTHING, envs);
    var h := Conversation(utf8, now, envs).1;
    var tail := stream[|Framed(h.dispatched)|..];
    assert stream == Framed(h.dispatched) + tail;
    FramedArePrefix(h.dispatched, tail);
  }

  // ---- what a step may not do -------------------------------------------------------------------

  /** Nothing is dispatched while a response is unwritten, a worker runs or the
      deadline is over; and only a dispatch starts a worker. */
  lemma DispatchOnlyWhenIdle(utf8: seq<Byte> -> bool, s: State, e: Env)
    requires Valid(s)
    ensures var r := Step(utf8, s, e);
            && (r.dispatched.Some? ==> s.output == [] && !s.pending && e.now < s.deadline)
            && (r.verdict.Alive? && r.verdict.state.pending && !s.pending ==> r.dispatched.Some?)
            && (e.now >= s.deadline ==> r == Close(DeadlineExceeded, None))
  {
  }

  /** A step with a pending worker does the same whatever byte it reads. */
  lemma PendingBytesAreLost(utf8: seq<Byte> -> bool, s: State, e: Env, bytes: seq<Byte>)
    requires Valid(s) && s.pending && e.read.Data?
    ensures Step(utf8, s, e.(read := Data(bytes))) == Step(utf8, s, e)
  {
  }

  const REPLY: seq<Byte> := [120, NEWLINE]

  /** A client that sends "a", then "b" while the worker for "a" runs: the "b"
      is swallowed, and its newline completes an empty request. */
  const IMPATIENT: seq<Env> := [
    Env(0, Data([97, NEWLINE]), Worker, StillRunning, 0, WriteWouldBlock, 0),
    Env(1, Data([98]), Worker, Ready(Some(REPLY)), 1, Wrote(2), 1),
    Env(2, Data([NEWLINE]), Immediate(Some(REPLY)), StillRunning, 2, Wrote(2), 2)]

  const AFTER_A: State := State([], [], 0, PENDING_WORKER_TIMEOUT, true)
  const AFTER_B: State := State([], [], 0, 1 + IO_TIMEOUT, false)

  function Anything(request: seq<Byte>): bool { true }

  lemma ImpatientA()
    ensures Step(Anything, Fresh(0), IMPATIENT[0]) == Outcome(Alive(AFTER_A), Some([97]), None, [])
  {
    var input: seq<Byte> := [97, NEWLINE];
    assert Fresh(0).input + Taken(IMPATIENT[0]) == input;
    assert input[0] == 97 && input[1] == NEWLINE;
    assert NewlineAt(input) == 1;
    assert input[..1] == [97] && input[2..] == [];
  }

  lemma ImpatientB()
    ensures Step(Anything, AFTER_A, IMPATIENT[1]) == Outcome(Alive(AFTER_B), None, Some(REPLY), REPLY)
  {
    assert REPLY[0..2] == REPLY;
  }

  lemma ImpatientC()
    ensures var r := Step(Anything, AFTER_B, IMPATIENT[2]);
            r.verdict.Alive? && r.dispatched == Some([]) && Valid(AFTER_B)
  {
    var input: seq<Byte> := [NEWLINE];
    assert AFTER_B.input + Taken(IMPATIENT[2]) == input;
    assert input[0] == NEWLINE && NewlineAt(input) == 0 && input[..0] == [];
  }

  lemma RunOne(utf8: seq<Byte> -> bool, s: State, h: History, e: Env, rest: seq<Env>)
    requires Valid(s) && Step(utf8, s, e).verdict.Alive? && Valid(Step(utf8, s, e).verdict.state)
    ensures Run(utf8, s, h, [e] + rest) == Run(utf8, Step(utf8, s, e).verdict.state, Record(utf8, s, e, h), rest)
  {
    hide Step, Record;
    assert ([e] + rest)[0] == e && ([e] + rest)[1..] == rest;
  }

  lemma ImpatientClientIsMisread()
    ensures var h := Conversation(Anything, 0, IMPATIENT).1;
            CompleteLines(h.read) == [[97], [98]] && h.dispatched == [[97], []]
  {
    hide Step, CompleteLines, NewlineAt;
    ImpatientA();
    ImpatientB();
    ImpatientC();
    TwoLines();
    var e0, e1, e2 := IMPATIENT[0], IMPATIENT[1], IMPATIENT[2];
    var h1 := Record(Anything, Fresh(0), e0, NOTHING);
    var h2 := Record(Anything, AFTER_A, e1, h1);
    var h3 := Record(Anything, AFTER_B, e2, h2);
    assert h1.dispatched == [[97]] && h1.read == [97, NEWLINE];
    assert h2.dispatched == [[97]] && h2.read == [97, NEWLINE, 98];
    assert h3.dispatched == [[97], []] && h3.read == [97, NEWLINE, 98, NEWLINE];
    var last := Step(Anything, AFTER_B, e2).verdict.state;
    StepKeepsValid(Anything, AFTER_B, e2);
    RunOne(Anything, AFTER_B, h2, e2, []);
    RunOne(Anything, AFTER_A, h1, e1, [e2]);
    RunOne(Anything, Fresh(0), NOTHING, e0, [e1, e2]);
    assert IMPATIENT == [e0] + [e1, e2] && [e1, e2] == [e1] + [e2] && [e2] == [e2] + [];
  }

  lemma TwoLines()
    ensures CompleteLines([97, NEWLINE, 98, NEWLINE]) == [[97], [98]]
  {
    var requests: seq<seq<Byte>> := [[97], [98]];
    assert requests[..1] == [[97]] && requests[..1][..0] == [];
    assert Framed(requests[..1]) == [97, NEWLINE];
    assert Framed(requests) + [] == [97, NEWLINE, 98, NEWLINE];
    FramedArePrefix(requests, []);
  }

  /** The deadline is absolute: it moves only when a worker starts, when a
      response is queued, or when the last byte of one is written, and to exactly
      one timeout from there. */
  lemma DeadlineMovesOnlyOnProgress(utf8: seq<Byte> -> bool, s: State, e: Env)
    requires Valid(s) && Step(utf8, s, e).verdict.Alive?
    ensures var r := Step(utf8, s, e);
            var s' := r.verdict.state;
            s'.deadline ==
            if s'.output == [] && r.sent != [] then e.drainedAt + IO_TIMEOUT
            else if r.queued.Some? then e.queuedAt + IO_TIMEOUT
            else if r.dispatched.Some? then e.queuedAt + PENDING_WORKER_TIMEOUT
            else s.deadline
  {
  }

  /** Bytes that complete no request do not move the deadline, however they
      trickle in. */
  lemma {:induction false} TrickleCannotExtendDeadline(utf8: seq<Byte> -> bool, s: State, h: History, envs: seq<Env>)
    requires Valid(s) && !s.pending && s.output == []
    requires Run(utf8, s, h, envs).0.Alive? && |Run(utf8, s, h, envs).1.dispatched| == |h.dispatched|
    ensures Run(utf8, s, h, envs).0.state.deadline == s.deadline
    ensures forall i :: 0 <= i < |envs| ==> envs[i].now < s.deadline
    decreases |envs|
  {
    if envs != [] {
      StepKeepsValid(utf8, s, envs[0]);
      var r := Step(utf8, s, envs[0]);
      var h' := Record(utf8, s, envs[0], h);
      DispatchedGrows(utf8, r.verdict.state, h', envs[1..]);
      assert r.dispatched.None?;
      TrickleCannotExtendDeadline(utf8, r.verdict.state, h', envs[1..]);
    }
  }

  lemma {:induction false} DispatchedGrows(utf8: seq<Byte> -> bool, s: State, h: History, envs: seq<Env>)
    requires Valid(s)
    ensures |h.dispatched| <= |Run(utf8, s, h, envs).1.dispatched|
    decreases |envs|
  {
    if envs != [] {
      hide Step;
      StepKeepsValid(utf8, s, envs[0]);
      var v := Step(utf8, s, envs[0]).verdict;
      if v.Alive? { DispatchedGrows(utf8, v.state, Record(utf8, s, envs[0], h), envs[1..]); }
    }
  }
}
