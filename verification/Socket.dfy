/** One client of the privileged daemon: incremental framing, partial writes,
    absolute deadlines and a pending worker. */
module Socket {
  import opened Prelude

  const MAX_REQUEST_BYTES := 1024 * 1024
  const MAX_RESPONSE_BYTES := 2 * 1024 * 1024
  const IO_TIMEOUT := 10_000
  const PENDING_WORKER_TIMEOUT := 60_000

  const NEWLINE: Byte := 10

  /** The position of the first newline, or the length. */
  function NewlineAt(s: seq<Byte>): (i: nat)
    ensures i <= |s| && (forall j :: 0 <= j < i ==> s[j] != NEWLINE) && (i < |s| ==> s[i] == NEWLINE)
  {
    if s == [] || s[0] == NEWLINE then 0 else 1 + NewlineAt(s[1..])
  }

  datatype State = State(input: seq<Byte>, output: seq<Byte>, written: nat, deadline: nat, pending: bool)

  datatype Read = Eof | Data(bytes: seq<Byte>) | ReadWouldBlock | ReadError

  /** What the dispatcher makes of a request: frames, unless they do not encode,
      or a worker thread. */
  datatype Answer = Immediate(frames: Option<seq<Byte>>) | Worker

  datatype Poll = Ready(frames: Option<seq<Byte>>) | StillRunning | WorkerGone

  datatype Write = Wrote(n: nat) | WriteWouldBlock | WriteError

  /** Everything the outside decides during one step, with the clock read at its
      start, when a response or worker is queued, and when the output drains. */
  datatype Env = Env(now: nat, read: Read, answer: Answer, poll: Poll, queuedAt: nat, write: Write, drainedAt: nat)

  datatype End =
    | DeadlineExceeded | HungUp | ReadFailed | RequestTooLarge | NotUtf8
    | NotEncodable | ResponseTooLarge | WorkerLost | WriteFailed

  datatype Verdict = Alive(state: State) | Closed(why: End)

  /** What a step did: the request it dispatched, the response it queued, the
      bytes it wrote. */
  datatype Outcome = Outcome(verdict: Verdict, dispatched: Option<seq<Byte>>, queued: Option<seq<Byte>>, sent: seq<Byte>)

  function Fresh(now: nat): State { State([], [], 0, now + IO_TIMEOUT, false) }

  function Taken(e: Env): seq<Byte> { if e.read.Data? then e.read.bytes else [] }

  /** A write never reports more than it was offered. */
  function Accepted(s: State, n: nat): nat
    requires s.written <= |s.output|
  {
    if n <= |s.output| - s.written then n else |s.output| - s.written
  }

  function Flush(s: State, e: Env, dispatched: Option<seq<Byte>>, queued: Option<seq<Byte>>): Outcome
    requires s.written <= |s.output|
  {
    if s.output == [] then Outcome(Alive(s), dispatched, queued, [])
    else
      match e.write
      case WriteWouldBlock => Outcome(Alive(s), dispatched, queued, [])
      case WriteError => Outcome(Closed(WriteFailed), dispatched, queued, [])
      case Wrote(n) =>
        var m := Accepted(s, n);
        if m == 0 then Outcome(Closed(HungUp), dispatched, queued, [])
        else
          var sent := s.output[s.written..s.written + m];
          if s.written + m == |s.output| then
            Outcome(Alive(s.(output := [], written := 0, deadline := e.drainedAt + IO_TIMEOUT)), dispatched, queued, sent)
          else Outcome(Alive(s.(written := s.written + m)), dispatched, queued, sent)
  }

  function Close(why: End, dispatched: Option<seq<Byte>>): Outcome { Outcome(Closed(why), dispatched, None, []) }

  function PendingStep(s: State, e: Env): Outcome
    requires s.output == [] && s.written == 0
  {
    if e.read.Eof? then Close(HungUp, None)
    else if e.read.ReadError? then Close(ReadFailed, None)
    else
      match e.poll
      case StillRunning => Flush(s, e, None, None)
      case WorkerGone => Close(WorkerLost, None)
      case Ready(None) => Close(NotEncodable, None)
      case Ready(Some(frames)) =>
        if |frames| > MAX_RESPONSE_BYTES then Close(ResponseTooLarge, None)
        else Flush(s.(output := frames, pending := false, deadline := e.queuedAt + IO_TIMEOUT), e, None, Some(frames))
  }

  function ReadingStep(utf8: seq<Byte> -> bool, s: State, e: Env): Outcome
    requires s.output == [] && s.written == 0
  {
    if e.read.Eof? then Close(HungUp, None)
    else if e.read.ReadError? then Close(ReadFailed, None)
    else
      var input := s.input + Taken(e);
      var end := NewlineAt(input);
      if |input| > MAX_REQUEST_BYTES then Close(RequestTooLarge, None)
      else if end == |input| then Flush(s.(input := input), e, None, None)
      else
        var request := input[..end];
        if !utf8(request) then Close(NotUtf8, None)
        else
          match e.answer
          case Worker =>
            Flush(s.(input := input[end + 1..], pending := true, deadline := e.queuedAt + PENDING_WORKER_TIMEOUT),
                  e, Some(request), None)
          case Immediate(None) => Close(NotEncodable, Some(request))
          case Immediate(Some(frames)) =>
            if |frames| > MAX_RESPONSE_BYTES then Close(ResponseTooLarge, Some(request))
            else Flush(s.(input := input[end + 1..], output := frames, deadline := e.queuedAt + IO_TIMEOUT),
                       e, Some(request), Some(frames))
  }

  /** What every step keeps: a worker runs only when nothing is unwritten, and a
      non-empty output is never completely written. */
  predicate Valid(s: State) {
    && |s.input| <= MAX_REQUEST_BYTES && |s.output| <= MAX_RESPONSE_BYTES
    && (s.pending ==> s.output == [])
    && (if s.output == [] then s.written == 0 else s.written < |s.output|)
  }

  /** `Client::step`. */
  function Step(utf8: seq<Byte> -> bool, s: State, e: Env): Outcome
    requires Valid(s)
  {
    if e.now >= s.deadline then Close(DeadlineExceeded, None)
    else if s.pending then PendingStep(s, e)
    else if s.output == [] then ReadingStep(utf8, s, e)
    else Flush(s, e, None, None)
  }

  lemma StepKeepsValid(utf8: seq<Byte> -> bool, s: State, e: Env)
    requires Valid(s)
    ensures var v := Step(utf8, s, e).verdict; v.Alive? ==> Valid(v.state)
  {
  }

  /** The client record, changed in place. */
  class Client {
    var input: seq<Byte>
    var output: seq<Byte>
    var written: nat
    var deadline: nat
    var pending: bool

    ghost function Now(): State
      reads this
    {
      State(input, output, written, deadline, pending)
    }

    constructor (now: nat)
      ensures Now() == Fresh(now) && Valid(Now())
    {
      input, output, written, deadline, pending := [], [], 0, now + IO_TIMEOUT, false;
    }

    /** `WouldBlock` reads nothing and is no failure. */
    method Receive(e: Env) returns (end: Option<End>, bytes: seq<Byte>)
      ensures end == if e.read.Eof? then Some(HungUp) else if e.read.ReadError? then Some(ReadFailed) else None
      ensures bytes == Taken(e)
    {
      end, bytes := None, [];
      match e.read {
        case Eof => end := Some(HungUp);
        case ReadError => end := Some(ReadFailed);
        case ReadWouldBlock =>
        case Data(b) => bytes := b;
      }
    }

    /** The pending branch: the byte read is only a probe. */
    method PollWorker(e: Env) returns (end: Option<End>, queued: Option<seq<Byte>>)
      requires Valid(Now()) && pending
      modifies this`output, this`pending, this`deadline
      ensures end.Some? ==> PendingStep(old(Now()), e) == Close(end.value, None)
      ensures end.None? ==> Valid(Now()) && PendingStep(old(Now()), e) == Flush(Now(), e, None, queued)
    {
      var bytes;
      queued := None;
      end, bytes := Receive(e);
      if end.Some? {
        return;
      }
      match e.poll {
        case WorkerGone => end := Some(WorkerLost);
        case StillRunning =>
        case Ready(frames) =>
          if frames.None? {
            end := Some(NotEncodable);
          } else if |frames.value| > MAX_RESPONSE_BYTES {
            end := Some(ResponseTooLarge);
          } else {
            output, pending, deadline, queued := frames.value, false, e.queuedAt + IO_TIMEOUT, frames;
          }
      }
    }

    /** The reading branch: take what is there and dispatch one complete line. */
    method ReadRequest(utf8: seq<Byte> -> bool, e: Env)
      returns (end: Option<End>, dispatched: Option<seq<Byte>>, queued: Option<seq<Byte>>)
      requires Valid(Now()) && !pending && output == []
      modifies this`input, this`output, this`pending, this`deadline
      ensures end.Some? ==> ReadingStep(utf8, old(Now()), e) == Close(end.value, dispatched)
      ensures end.None? ==> Valid(Now()) && ReadingStep(utf8, old(Now()), e) == Flush(Now(), e, dispatched, queued)
    {
      var bytes;
      dispatched, queued := None, None;
      end, bytes := Receive(e);
      if end.Some? {
        return;
      }
      input := input + bytes;
      if |input| > MAX_REQUEST_BYTES {
        end := Some(RequestTooLarge);
        return;
      }
      var at := NewlineAt(input);
      if at == |input| {
        return;
      }
      if !utf8(input[..at]) {
        end := Some(NotUtf8);
        return;
      }
      dispatched := Some(input[..at]);
      match e.answer {
        case Worker =>
          pending, deadline := true, e.queuedAt + PENDING_WORKER_TIMEOUT;
        case Immediate(frames) =>
          if frames.None? {
            end := Some(NotEncodable);
            return;
          }
          if |frames.value| > MAX_RESPONSE_BYTES {
            end := Some(ResponseTooLarge);
            return;
          }
          output, deadline, queued := frames.value, e.queuedAt + IO_TIMEOUT, frames;
      }
      input := input[at + 1..];
    }

    /** The tail of every step: write what the socket takes. */
    method WriteOutput(e: Env) returns (end: Option<End>, sent: seq<Byte>)
      requires Valid(Now())
      modifies this`output, this`written, this`deadline
      ensures forall d, q :: Flush(old(Now()), e, d, q) ==
                Outcome(if end.Some? then Closed(end.value) else Alive(Now()), d, q, sent)
    {
      end, sent := None, [];
      if output == [] {
        return;
      }
      match e.write {
        case WriteWouldBlock =>
        case WriteError => end := Some(WriteFailed);
        case Wrote(n) =>
          var m := if n <= |output| - written then n else |output| - written;
          if m == 0 {
            end := Some(HungUp);
            return;
          }
          sent := output[written..written + m];
          written := written + m;
          if written == |output| {
            output, written, deadline := [], 0, e.drainedAt + IO_TIMEOUT;
          }
      }
    }

    /** One step; `end` is `None` while the client stays connected. */
    method StepOnce(utf8: seq<Byte> -> bool, e: Env)
      returns (end: Option<End>, dispatched: Option<seq<Byte>>, queued: Option<seq<Byte>>, sent: seq<Byte>)
      requires Valid(Now())
      modifies this
      ensures var r := Step(utf8, old(Now()), e);
              && r == Outcome(if end.Some? then Closed(end.value) else Alive(Now()), dispatched, queued, sent)
              && (end.None? ==> Valid(Now()))
    {
      hide PendingStep, ReadingStep, Flush;
      StepKeepsValid(utf8, Now(), e);
      dispatched, queued, sent := None, None, [];
      if e.now >= deadline {
        end := Some(DeadlineExceeded);
        return;
      }
      if pending {
        end, queued := PollWorker(e);
      } else if output == [] {
        end, dispatched, queued := ReadRequest(utf8, e);
      } else {
        end := None;
      }
      if end.None? {
        end, sent := WriteOutput(e);
      } else {
        queued := None;
      }
    }
  }
}
