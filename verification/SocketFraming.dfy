/** Framing over the bytes a client sends, and what one read while its worker
    runs does to it: every lost byte can be made to matter. */
module SocketFraming {
  import opened Prelude
  import opened Socket
  import opened SocketRuns

  /** The requests dispatched are lines of the bytes sent, each once and in order. */
  ghost predicate WellFramed(h: History) { h.dispatched <= CompleteLines(h.read) }

  lemma FirstLine(bytes: seq<Byte>)
    ensures var i := NewlineAt(bytes);
            if i == |bytes| then CompleteLines(bytes) == []
            else && bytes == bytes[..i] + [NEWLINE] + bytes[i + 1..]
                 && CompleteLines(bytes) == [bytes[..i]] + CompleteLines(bytes[i + 1..])
  {
    hide NewlineAt;
  }

  lemma {:induction false} LinesOnTheWire(requests: seq<seq<Byte>>, bytes: seq<Byte>)
    requires requests <= CompleteLines(bytes)
    ensures Framed(requests) <= bytes
    decreases |requests|
  {
    hide CompleteLines, NewlineAt;
    if requests != [] {
      hide Framed;
      var i := NewlineAt(bytes);
      FirstLine(bytes);
      var r, rest, tail := requests[0], requests[1..], bytes[i + 1..];
      LinesOnTheWire(rest, tail);
      assert requests == [r] + rest;
      FramedFront(r, rest);
      assert bytes == r + [NEWLINE] + tail;
    }
  }

  /** A conversation is well framed exactly if its requests, as they stand on
      the wire, begin the bytes sent. */
  lemma WellFramedMeans(h: History)
    requires SingleLines(h.dispatched)
    ensures WellFramed(h) <==> Framed(h.dispatched) <= h.read
  {
    hide CompleteLines, Framed;
    if WellFramed(h) { LinesOnTheWire(h.dispatched, h.read); }
    if Framed(h.dispatched) <= h.read {
      var tail := h.read[|Framed(h.dispatched)|..];
      assert h.read == Framed(h.dispatched) + tail;
      FramedArePrefix(h.dispatched, tail);
    }
  }

  // ---- continuing a conversation -------------------------------------------------------------

  lemma {:induction false} RunAppend(utf8: seq<Byte> -> bool, s: State, h: History, a: seq<Env>, b: seq<Env>)
    requires Valid(s) && Run(utf8, s, h, a).0.Alive? && Valid(Run(utf8, s, h, a).0.state)
    requires SilentWhilePending(utf8, s, a) && SilentWhilePending(utf8, Run(utf8, s, h, a).0.state, b)
    ensures Run(utf8, s, h, a + b) == Run(utf8, Run(utf8, s, h, a).0.state, Run(utf8, s, h, a).1, b)
    ensures SilentWhilePending(utf8, s, a + b)
    decreases |a|
  {
    if a == [] {
      assert a + b == b;
    } else {
      hide Step, Record;
      StepKeepsValid(utf8, s, a[0]);
      assert (a + b)[0] == a[0] && (a + b)[1..] == a[1..] + b;
      RunAppend(utf8, Step(utf8, s, a[0]).verdict.state, Record(utf8, s, a[0], h), a[1..], b);
    }
  }

  /** Where steps lead whose client stays silent while its worker runs. */
  ghost predicate Reaches(utf8: seq<Byte> -> bool, s: State, h: History, envs: seq<Env>, s': State, h': History)
    requires Valid(s)
  {
    Run(utf8, s, h, envs) == (Alive(s'), h') && SilentWhilePending(utf8, s, envs) && Consistent(s', h') && s'.deadline > 0
  }

  lemma Compose(utf8: seq<Byte> -> bool, s: State, h: History, a: seq<Env>, s1: State, h1: History,
                b: seq<Env>, s2: State, h2: History)
    requires Valid(s) && Valid(s1) && Reaches(utf8, s, h, a, s1, h1) && Reaches(utf8, s1, h1, b, s2, h2)
    ensures Reaches(utf8, s, h, a + b, s2, h2)
  {
    hide Consistent, Run, SilentWhilePending;
    RunAppend(utf8, s, h, a, b);
  }

  lemma OneStep(utf8: seq<Byte> -> bool, s: State, h: History, e: Env)
    requires Consistent(s, h) && Step(utf8, s, e).verdict.Alive? && Step(utf8, s, e).verdict.state.deadline > 0
    requires s.pending ==> ReadBy(s, e) == []
    ensures Reaches(utf8, s, h, [e], Step(utf8, s, e).verdict.state, Record(utf8, s, e, h))
  {
    hide Step, Record, Framed, Joined, ReadBy;
    StepConsistent(utf8, s, h, e);
    StepKeepsValid(utf8, s, e);
    var s1, h1 := Step(utf8, s, e).verdict.state, Record(utf8, s, e, h);
    assert [e][0] == e && [e][1..] == [];
    assert Run(utf8, s1, h1, []) == (Alive(s1), h1) && SilentWhilePending(utf8, s1, []);
  }

  /** The daemon answers what is open; nothing is read. */
  lemma Settles(utf8: seq<Byte> -> bool, s: State, h: History) returns (envs: seq<Env>, s': State, h': History)
    requires Consistent(s, h) && s.deadline > 0
    ensures Valid(s') && Reaches(utf8, s, h, envs, s', h') && !s'.pending && s'.output == []
    ensures s'.input == s.input && h'.read == h.read && h'.kept == h.kept
  {
    hide Framed, Joined;
    var t := s.deadline - 1;
    if s.pending {
      var e := Env(t, ReadWouldBlock, Worker, Ready(Some(REPLY)), t, Wrote(2), t);
      assert Step(utf8, s, e).verdict == Alive(s.(pending := false, deadline := t + IO_TIMEOUT));
      OneStep(utf8, s, h, e);
      envs, s', h' := [e], Step(utf8, s, e).verdict.state, Record(utf8, s, e, h);
      assert h.read + [] == h.read && h.kept + [] == h.kept;
    } else if s.output != [] {
      var e := Env(t, ReadWouldBlock, Worker, StillRunning, t, Wrote(|s.output|), t);
      assert Step(utf8, s, e).verdict == Alive(s.(output := [], written := 0, deadline := t + IO_TIMEOUT));
      OneStep(utf8, s, h, e);
      envs, s', h' := [e], Step(utf8, s, e).verdict.state, Record(utf8, s, e, h);
      assert h.read + [] == h.read && h.kept + [] == h.kept;
    } else {
      envs, s', h' := [], s, h;
    }
  }

  /** One step of an idle client that completes a line and is answered at once. */
  lemma Dispatches(utf8: seq<Byte> -> bool, s: State, h: History, bytes: seq<Byte>) returns (e: Env, s': State, h': History)
    requires Consistent(s, h) && s.deadline > 0 && !s.pending && s.output == [] && forall r :: utf8(r)
    requires |s.input + bytes| <= MAX_REQUEST_BYTES && NewlineAt(s.input + bytes) < |s.input + bytes|
    ensures Valid(s') && Reaches(utf8, s, h, [e], s', h') && !s'.pending && s'.output == []
    ensures s'.input == (s.input + bytes)[NewlineAt(s.input + bytes) + 1..]
    ensures h'.read == h.read + bytes && h'.kept == h.kept + bytes
  {
    hide Framed, Joined, NewlineAt;
    var t := s.deadline - 1;
    e := Env(t, Data(bytes), Immediate(Some(REPLY)), StillRunning, t, Wrote(2), t);
    var rest := (s.input + bytes)[NewlineAt(s.input + bytes) + 1..];
    assert Step(utf8, s, e).verdict == Alive(s.(input := rest, deadline := t + IO_TIMEOUT));
    OneStep(utf8, s, h, e);
    s', h' := Step(utf8, s, e).verdict.state, Record(utf8, s, e, h);
  }

  /** The client sends one more line, `c`; the daemon takes every line it holds. */
  lemma {:induction false} TakesEveryLine(utf8: seq<Byte> -> bool, s: State, h: History, c: Byte)
    returns (envs: seq<Env>, s': State, h': History)
    requires Consistent(s, h) && s.deadline > 0 && !s.pending && s.output == [] && forall r :: utf8(r)
    requires |s.input| + 2 <= MAX_REQUEST_BYTES && c != NEWLINE
    ensures Reaches(utf8, s, h, envs, s', h') && s'.input == []
    ensures h'.read == h.read + [c, NEWLINE] && h'.kept == h.kept + [c, NEWLINE]
    decreases |s.input|
  {
    hide Run, SilentWhilePending, Framed, Joined;
    assert s.input + [] == s.input;
    if NewlineAt(s.input) < |s.input| {
      var e, s1, h1 := Dispatches(utf8, s, h, []);
      assert h.read + [] == h.read && h.kept + [] == h.kept;
      var rest;
      rest, s', h' := TakesEveryLine(utf8, s1, h1, c);
      envs := [e] + rest;
      Compose(utf8, s, h, [e], s1, h1, rest, s', h');
    } else {
      var line := s.input + [c, NEWLINE];
      assert line == (s.input + [c]) + [NEWLINE] + [];
      NewlineAtConcat(s.input + [c], []);
      var e;
      e, s', h' := Dispatches(utf8, s, h, [c, NEWLINE]);
      envs := [e];
    }
  }

  // ---- what a run keeps -----------------------------------------------------------------------------

  lemma {:induction false} DeadlinesAhead(utf8: seq<Byte> -> bool, s: State, h: History, envs: seq<Env>)
    requires Valid(s) && s.deadline > 0
    ensures Run(utf8, s, h, envs).0.Alive? ==> Run(utf8, s, h, envs).0.state.deadline > 0
    decreases |envs|
  {
    if envs != [] {
      StepKeepsValid(utf8, s, envs[0]);
      DeadlineStaysPositive(utf8, s, envs[0]);
      hide Step;
      var v := Step(utf8, s, envs[0]).verdict;
      if v.Alive? { DeadlinesAhead(utf8, v.state, Record(utf8, s, envs[0], h), envs[1..]); }
    }
  }

  lemma DeadlineStaysPositive(utf8: seq<Byte> -> bool, s: State, e: Env)
    requires Valid(s) && s.deadline > 0
    ensures Step(utf8, s, e).verdict.Alive? ==> Step(utf8, s, e).verdict.state.deadline > 0
  {
    if Step(utf8, s, e).verdict.Alive? { DeadlineMovesOnlyOnProgress(utf8, s, e); }
  }

  /** What is kept is shorter than what was read, unless it is the same. */
  lemma {:induction false} LossShortens(utf8: seq<Byte> -> bool, s: State, h: History, envs: seq<Env>)
    requires Valid(s) && (h.kept == h.read || |h.kept| < |h.read|)
    ensures var h' := Run(utf8, s, h, envs).1; h'.kept == h'.read || |h'.kept| < |h'.read|
    decreases |envs|
  {
    if envs != [] {
      hide Step;
      StepKeepsValid(utf8, s, envs[0]);
      var v := Step(utf8, s, envs[0]).verdict;
      if v.Alive? { LossShortens(utf8, v.state, Record(utf8, s, envs[0], h), envs[1..]); }
    }
  }

  // ---- the theorems -------------------------------------------------------------------------------------

  /** The requests dispatched for a silent client are a prefix of the lines it
      sent, whatever the sizes of reads and writes. */
  lemma SilentClientIsWellFramed(utf8: seq<Byte> -> bool, s: State, h: History, envs: seq<Env>)
    requires Consistent(s, h) && h.kept == h.read && SilentWhilePending(utf8, s, envs)
    ensures WellFramed(Run(utf8, s, h, envs).1)
  {
    hide WellFramed, Framed, Joined, Run, SilentWhilePending;
    KeptIffSilent(utf8, s, h, envs);
    RunConsistent(utf8, s, h, envs);
    WellFramedMeans(Run(utf8, s, h, envs).1);
  }

  ghost predicate AlwaysWellFramed(utf8: seq<Byte> -> bool, s: State, h: History)
    requires Valid(s)
  {
    forall more :: SilentWhilePending(utf8, s, more) ==> WellFramed(Run(utf8, s, h, more).1)
  }

  /** After a loss there is a line that betrays it. */
  lemma LossIsBetrayed(utf8: seq<Byte> -> bool, s: State, h: History)
    requires Consistent(s, h) && s.deadline > 0 && |h.kept| < |h.read|
    requires |s.input| + 2 <= MAX_REQUEST_BYTES && forall r :: utf8(r)
    ensures !AlwaysWellFramed(utf8, s, h)
  {
    hide WellFramed, Joined, Run, SilentWhilePending, Framed, CompleteLines;
    var c: Byte := if h.read[|h.kept|] == 97 then 98 else 97;
    var a, s1, h1 := Settles(utf8, s, h);
    var b, s2, h2 := TakesEveryLine(utf8, s1, h1, c);
    Compose(utf8, s, h, a, s1, h1, b, s2, h2);
    assert h2.kept[|h.kept|] == c && h2.read[|h.kept|] == h.read[|h.kept|];
    WellFramedMeans(h2);
    assert Framed(h2.dispatched) + [] == Framed(h2.dispatched) == h2.kept;
    assert !WellFramed(Run(utf8, s, h, a + b).1);
  }

  /** Exactly the silent clients are safe. Take a connected client whose buffer
      is not full, and whose requests are all text: it was silent whenever a
      worker was running if and only if, whatever it sends from now on, silent
      while its worker runs, its requests are dispatched as it sent them. */
  lemma FramingSurvivesIffSilent(utf8: seq<Byte> -> bool, now: nat, envs: seq<Env>)
    requires Conversation(utf8, now, envs).0.Alive? && Valid(Conversation(utf8, now, envs).0.state)
    requires |Conversation(utf8, now, envs).0.state.input| + 2 <= MAX_REQUEST_BYTES && forall r :: utf8(r)
    ensures SilentWhilePending(utf8, Fresh(now), envs) <==>
            AlwaysWellFramed(utf8, Conversation(utf8, now, envs).0.state, Conversation(utf8, now, envs).1)
  {
    hide WellFramed, Framed, Joined, Run, SilentWhilePending, AlwaysWellFramed, Consistent;
    FreshIsConsistent(now);
    assert Valid(Fresh(now));
    RunConsistent(utf8, Fresh(now), NOTHING, envs);
    DeadlinesAhead(utf8, Fresh(now), NOTHING, envs);
    KeptIffSilent(utf8, Fresh(now), NOTHING, envs);
    LossShortens(utf8, Fresh(now), NOTHING, envs);
    var s, h := Conversation(utf8, now, envs).0.state, Conversation(utf8, now, envs).1;
    if SilentWhilePending(utf8, Fresh(now), envs) {
      StaysWellFramed(utf8, s, h);
    } else {
      LossIsBetrayed(utf8, s, h);
    }
  }

  lemma StaysWellFramed(utf8: seq<Byte> -> bool, s: State, h: History)
    requires Consistent(s, h) && h.kept == h.read
    ensures AlwaysWellFramed(utf8, s, h)
  {
    forall more | SilentWhilePending(utf8, s, more)
      ensures WellFramed(Run(utf8, s, h, more).1)
    {
      SilentClientIsWellFramed(utf8, s, h, more);
    }
  }

  /** Nothing is dispatched before the answer to everything dispatched earlier
      has been written to the last byte. */
  lemma DispatchOnlyWhenAnswered(utf8: seq<Byte> -> bool, now: nat, envs: seq<Env>, e: Env)
    requires Conversation(utf8, now, envs).0.Alive? && Valid(Conversation(utf8, now, envs).0.state)
    requires Step(utf8, Conversation(utf8, now, envs).0.state, e).dispatched.Some?
    ensures var h := Conversation(utf8, now, envs).1;
            h.sent == Joined(h.queued) && |h.queued| == |h.dispatched|
  {
    hide Run, Step, Joined, Framed;
    FreshIsConsistent(now);
    RunConsistent(utf8, Fresh(now), NOTHING, envs);
    var s, h := Conversation(utf8, now, envs).0.state, Conversation(utf8, now, envs).1;
    DispatchOnlyWhenIdle(utf8, s, e);
    assert s.output[s.written..] == [] && h.sent + [] == h.sent;
  }

  /** Neither bytes that complete no request nor a response taken a little at a
      time move the deadline: without a dispatch, a new response or a drained one
      it stays where it was over any run, and every step happened before it. */
  lemma {:induction false} OnlyProgressMovesDeadline(utf8: seq<Byte> -> bool, s: State, h: History, envs: seq<Env>)
    requires Valid(s) && Run(utf8, s, h, envs).0.Alive?
    requires |Run(utf8, s, h, envs).1.dispatched| == |h.dispatched| && |Run(utf8, s, h, envs).1.queued| == |h.queued|
    requires s.output == [] || Run(utf8, s, h, envs).0.state.output != []
    ensures var s' := Run(utf8, s, h, envs).0.state; s'.deadline == s.deadline && (s.output == [] ==> s'.output == [])
    ensures forall i :: 0 <= i < |envs| ==> envs[i].now < s.deadline
    decreases |envs|
  {
    if envs != [] {
      hide Flush, PendingStep, ReadingStep;
      StepKeepsValid(utf8, s, envs[0]);
      var r := Step(utf8, s, envs[0]);
      var h1 := Record(utf8, s, envs[0], h);
      DispatchedGrows(utf8, r.verdict.state, h1, envs[1..]);
      QueuedGrows(utf8, r.verdict.state, h1, envs[1..]);
      assert r.dispatched.None? && r.queued.None?;
      DeadlineMovesOnlyOnProgress(utf8, s, envs[0]);
      DispatchOnlyWhenIdle(utf8, s, envs[0]);
      QuietStepOnlyDrains(utf8, s, envs[0]);
      OnlyProgressMovesDeadline(utf8, r.verdict.state, h1, envs[1..]);
    }
  }

  lemma QuietStepOnlyDrains(utf8: seq<Byte> -> bool, s: State, e: Env)
    requires Valid(s) && Step(utf8, s, e).verdict.Alive? && Step(utf8, s, e).dispatched.None? && Step(utf8, s, e).queued.None?
    ensures var r := Step(utf8, s, e); s.output == [] ==> r.verdict.state.output == [] && r.sent == []
  {
  }

  lemma {:induction false} QueuedGrows(utf8: seq<Byte> -> bool, s: State, h: History, envs: seq<Env>)
    requires Valid(s)
    ensures |h.queued| <= |Run(utf8, s, h, envs).1.queued|
    decreases |envs|
  {
    if envs != [] {
      hide Step;
      StepKeepsValid(utf8, s, envs[0]);
      var v := Step(utf8, s, envs[0]).verdict;
      if v.Alive? { QueuedGrows(utf8, v.state, Record(utf8, s, envs[0], h), envs[1..]); }
    }
  }
}
