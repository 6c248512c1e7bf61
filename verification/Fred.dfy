/**
 Driving MULTI/EXEC over one Redis connection.

 The connection is an abstract Redis server whose decisions, and the fate of every message,
 come from an arbitrary environment.  A message may be answered, answered with an error that
 the client raises, or lost before or after the server acted on it.  A broken or disconnected
 connection loses its transaction state; a timeout on a connected one does not, until the
 executor resets it.
 */
module Fred {
  import opened Common
  import opened Resp
  import opened Convert
  import opened Acl

  const QUEUED: Bytes := [81, 85, 69, 85, 69, 68]

  /** `executed` lists every command the server has run, with its reply. */
  datatype Conn = Conn(inMulti: bool, dirty: bool, queued: seq<Command>, executed: seq<(Command, Frame)>)

  datatype Fate =
    | Answered
    | Raised                                     // an error reply surfaced as a client error
    | TimedOut(reached: bool, connected: bool)
    | Broken(reached: bool, message: string)

  /** One decision of the environment: whether the server accepts, what it replies, what becomes of the message. */
  datatype Choice = Choice(accept: bool, reply: Frame, results: nat -> Frame, fate: Fate)

  datatype Env = Env(choices: nat -> Choice, utf8: Bytes -> bool) {
    predicate Valid() {
      utf8(OK) && utf8(QUEUED)
    }
  }

  function Refusal(reply: Frame, expected: Bytes): Frame {
    if reply == SimpleString(expected) then ErrorReply("ERR refused") else reply
  }

  function Ended(c: Conn): Conn {
    Conn(false, false, [], c.executed)
  }

  /** What a Redis server does with a command and answers to it. */
  function Serve(c: Conn, cmd: Command, ch: Choice): (Conn, Frame) {
    var name := Upper(cmd.name);
    if name == "MULTI" then
      if c.inMulti then (c, ErrorReply("ERR MULTI calls can not be nested"))
      else if ch.accept then (Conn(true, false, [], c.executed), SimpleString(OK))
      else (c, Refusal(ch.reply, OK))
    else if name == "EXEC" then
      if !c.inMulti then (c, ErrorReply("ERR EXEC without MULTI"))
      else if c.dirty then (Ended(c), ErrorReply("EXECABORT Transaction discarded because of previous errors."))
      else if !ch.accept then (Ended(c), Null)
      else
        var frames := seq(|c.queued|, i requires 0 <= i < |c.queued| => ch.results(i));
        (Ended(c).(executed := c.executed + Zip(c.queued, frames)), FrameArray(frames))
    else if name == "DISCARD" then
      if c.inMulti then (Ended(c), SimpleString(OK)) else (c, ErrorReply("ERR DISCARD without MULTI"))
    else if c.inMulti then
      if ch.accept then (c.(queued := c.queued + [cmd]), SimpleString(QUEUED))
      else (c.(dirty := true), Refusal(ch.reply, QUEUED))
    else (c.(executed := c.executed + [(cmd, ch.reply)]), ch.reply)
  }

  function Zip(cmds: seq<Command>, frames: seq<Frame>): (r: seq<(Command, Frame)>)
    requires |cmds| == |frames|
    ensures |r| == |cmds| && forall i :: 0 <= i < |cmds| ==> r[i] == (cmds[i], frames[i])
  {
    seq(|cmds|, i requires 0 <= i < |cmds| => (cmds[i], frames[i]))
  }

  predicate Reached(fate: Fate) {
    match fate
    case Answered => true
    case Raised => true
    case TimedOut(reached, _) => reached
    case Broken(reached, _) => reached
  }

  /** The client's view of a reply that met this fate. */
  function Fared(frame: Frame, fate: Fate): Result<Frame, ExecError> {
    match fate
    case Answered => Ok(frame)
    case Raised => if frame.ErrorReply? then Err(Redis(frame.message)) else Ok(frame)
    case TimedOut(_, _) => Err(Timeout)
    case Broken(_, message) => Err(Transport(message))
  }

  /** What the fate does to the connection and to the executor's one reset. */
  function Aftermath(conn: Conn, resetStarted: bool, fate: Fate): (Conn, bool) {
    match fate
    case Answered => (conn, resetStarted)
    case Raised => (conn, resetStarted)
    case Broken(_, _) => (Ended(conn), resetStarted)
    case TimedOut(_, connected) =>
      (if !connected || !resetStarted then Ended(conn) else conn, resetStarted || connected)
  }

  // ---------------------------------------------------------------- one executor on a connection

  datatype Exchange = Exchange(cmd: Command, answer: Result<Frame, ExecError>)

  datatype Link = Link(conn: Conn, resetStarted: bool, step: nat, log: seq<Exchange>)

  /** Sends one command.  The first timeout on a connected client resets the connection; later ones do not. */
  function Raw(k: Link, cmd: Command, env: Env): (Link, Result<Frame, ExecError>) {
    var ch := env.choices(k.step);
    var (served, frame) := Serve(k.conn, cmd, ch);
    var (conn, reset) := Aftermath(if Reached(ch.fate) then served else k.conn, k.resetStarted, ch.fate);
    var answer := Fared(frame, ch.fate);
    (Link(conn, reset, k.step + 1, k.log + [Exchange(cmd, answer)]), answer)
  }

  const MULTI := Command("MULTI", [])
  const EXEC := Command("EXEC", [])
  const DISCARD := Command("DISCARD", [])

  function Converted(answer: Result<Frame, ExecError>, env: Env): ExecResult {
    if answer.Ok? then FrameToResp(answer.value, env.utf8) else Err(answer.error)
  }

  /** The failure, if any, that a reply to a queued command means for the whole transaction. */
  function QueueFailure(reply: ExecResult): Option<ExecError> {
    match reply
    case Ok(v) =>
      if v == Simple(QUEUED) then None
      else Some(ProtocolViolation("transaction command returned a reply instead of QUEUED"))
    case Err(e) => Some(e)
  }

  /** Queues commands in order; on the first failure discards the transaction and stops. */
  function QueueAll(k: Link, cmds: seq<Command>, env: Env): (Link, Option<ExecError>)
    decreases |cmds|
  {
    if cmds == [] then (k, None)
    else
      var (k', answer) := Raw(k, cmds[0], env);
      var failure := QueueFailure(Converted(answer, env));
      if failure.None? then QueueAll(k', cmds[1..], env) else (Raw(k', DISCARD, env).0, failure)
  }

  function ConvertAll(frames: seq<Frame>, env: Env): (r: seq<ExecResult>)
    ensures |r| == |frames| && forall i :: 0 <= i < |frames| ==> r[i] == FrameToResp(frames[i], env.utf8)
  {
    seq(|frames|, i requires 0 <= i < |frames| => FrameToResp(frames[i], env.utf8))
  }

  function ExecOutcome(answer: Result<Frame, ExecError>, env: Env): Result<seq<ExecResult>, ExecError> {
    match answer
    case Err(e) => Err(e)
    case Ok(FrameArray(frames)) => Ok(ConvertAll(frames, env))
    case Ok(Null) => Err(Redis("EXECABORT Transaction discarded because of previous errors."))
    case Ok(frame) =>
      var v := FrameToResp(frame, env.utf8);
      Err(if v.Err? then v.error else ProtocolViolation("EXEC returned a non-array response"))
  }

  function Transaction(k: Link, cmds: seq<Command>, env: Env): (Link, Result<seq<ExecResult>, ExecError>) {
    if cmds == [] then (k, Ok([]))
    else
      var (opened', answer) := Raw(k, MULTI, env);
      var reply := Converted(answer, env);
      if reply.Err? then (opened', Err(reply.error))
      else if reply.value != Simple(OK) then (opened', Err(ProtocolViolation("MULTI was not answered OK")))
      else
        var (filled, failure) := QueueAll(opened', cmds, env);
        if failure.Some? then (filled, Err(failure.value))
        else
          var (done, last) := Raw(filled, EXEC, env);
          (done, ExecOutcome(last, env))
  }

  // ---------------------------------------------------------------- pipelines

  /**
   A pipeline has many messages under way at once.  A schedule says in which order things
   happen: the next command goes out, or the fate of one that is out becomes known.
   */
  datatype Turn = Issue | Arrive(index: nat)

  /** `frames` are the server's replies to the commands sent so far, `slots` the results known so far. */
  datatype Flight = Flight(conn: Conn, resetStarted: bool, frames: seq<Frame>, slots: map<nat, ExecResult>)

  /** Commands go out in request order; fates become known in any order.  Impossible turns do nothing. */
  function FlightStep(f: Flight, cmds: seq<Command>, step: nat, env: Env, turn: Turn): Flight {
    match turn
    case Issue =>
      if |f.frames| < |cmds| then
        var ch := env.choices(step + |f.frames|);
        var (served, frame) := Serve(f.conn, cmds[|f.frames|], ch);
        f.(conn := if Reached(ch.fate) then served else f.conn, frames := f.frames + [frame])
      else f
    case Arrive(i) =>
      if i < |f.frames| && i !in f.slots then
        var fate := env.choices(step + i).fate;
        var (conn, reset) := Aftermath(f.conn, f.resetStarted, fate);
        Flight(conn, reset, f.frames, f.slots[i := Converted(Fared(f.frames[i], fate), env)])
      else f
  }

  function FlightRun(f: Flight, cmds: seq<Command>, step: nat, env: Env, schedule: seq<Turn>): Flight {
    if schedule == [] then f
    else
      var last := |schedule| - 1;
      FlightStep(FlightRun(f, cmds, step, env, schedule[..last]), cmds, step, env, schedule[last])
  }

  /** How many commands the schedule has sent, and which fates it has learnt; it ends when it has learnt all. */
  function Progress(n: nat, schedule: seq<Turn>): (p: (nat, set<nat>))
    ensures p.0 <= n && forall i :: i in p.1 ==> i < p.0
  {
    if schedule == [] then (0, {})
    else
      var (sent, learnt) := Progress(n, schedule[..|schedule| - 1]);
      match schedule[|schedule| - 1]
      case Issue => (if sent < n then sent + 1 else sent, learnt)
      case Arrive(i) => (sent, if i < sent then learnt + {i} else learnt)
  }

  predicate Finishes(n: nat, schedule: seq<Turn>) {
    var (sent, learnt) := Progress(n, schedule);
    forall i :: 0 <= i < n ==> i in learnt
  }

  lemma {:induction false} FlightProgress(f: Flight, cmds: seq<Command>, step: nat, env: Env, schedule: seq<Turn>)
    requires f.frames == [] && f.slots == map[]
    ensures var f', p := FlightRun(f, cmds, step, env, schedule), Progress(|cmds|, schedule);
            |f'.frames| == p.0 && f'.slots.Keys == p.1
  {
    if schedule != [] {
      hide Serve, Aftermath, Converted, Fared;
      FlightProgress(f, cmds, step, env, schedule[..|schedule| - 1]);
    }
  }

  class FredExecutor {
    const env: Env
    var conn: Conn
    var resetStarted: bool
    var step: nat
    ghost var log: seq<Exchange>

    ghost function View(): Link
      reads this
    {
      Link(conn, resetStarted, step, log)
    }

    /** Wraps a pooled client; every acquisition gets a new executor. */
    constructor (conn: Conn, step: nat, env: Env)
      ensures this.env == env && View() == Link(conn, false, step, [])
    {
      this.env, this.conn, this.step := env, conn, step;
      resetStarted, log := false, [];
    }

    /** Maps a lost message to an error, forcing one reconnection after a timeout on a connected client. */
    method MapTimeout(connected: bool)
      modifies this`conn, this`resetStarted
      ensures conn == if !connected || !old(resetStarted) then Ended(old(conn)) else old(conn)
      ensures resetStarted == (old(resetStarted) || connected)
    {
      if !connected {
        conn := Ended(conn);
      } else if !resetStarted {
        resetStarted := true;
        conn := Ended(conn);
      }
    }

    method Send(cmd: Command) returns (answer: Result<Frame, ExecError>)
      modifies this
      ensures (View(), answer) == Raw(old(View()), cmd, env)
      ensures var ch := env.choices(old(step));
              var frame := Serve(old(conn), cmd, ch).1;
              && (ch.fate.TimedOut? ==> answer == Err(Timeout))
              && (ch.fate.Broken? ==> answer == Err(Transport(ch.fate.message)) && !conn.inMulti && resetStarted == old(resetStarted))
              && (ch.fate.Answered? ==> answer == Ok(frame))
              && (ch.fate.Raised? ==> answer == if frame.ErrorReply? then Err(Redis(frame.message)) else Ok(frame))
    {
      var ch := env.choices(step);
      step := step + 1;
      var (served, frame) := Serve(conn, cmd, ch);
      if Reached(ch.fate) {
        conn := served;
      }
      answer := Fared(frame, ch.fate);
      Suffer(ch.fate);
      log := log + [Exchange(cmd, answer)];
    }

    /** One turn of a pipeline with these replies and results so far. */
    method TakeTurn(cmds: seq<Command>, turn: Turn, frames: seq<Frame>, slots: map<nat, ExecResult>)
      returns (frames': seq<Frame>, slots': map<nat, ExecResult>)
      modifies this`conn, this`resetStarted
      ensures Flight(conn, resetStarted, frames', slots') ==
              FlightStep(Flight(old(conn), old(resetStarted), frames, slots), cmds, step, env, turn)
    {
      hide Serve, Converted, Aftermath, Fared;
      frames', slots' := frames, slots;
      match turn {
        case Issue =>
          if |frames| < |cmds| {
            var ch := env.choices(step + |frames|);
            var (served, frame) := Serve(conn, cmds[|frames|], ch);
            conn := if Reached(ch.fate) then served else conn;
            frames' := frames + [frame];
          }
        case Arrive(i) =>
          if i < |frames| && i !in slots {
            var fate := env.choices(step + i).fate;
            slots' := slots[i := Converted(Fared(frames[i], fate), env)];
            Suffer(fate);
          }
      }
    }

    /** All commands of a pipeline under way at once; the result of command i comes back as element i. */
    method RunPipeline(cmds: seq<Command>, schedule: seq<Turn>) returns (results: seq<ExecResult>)
      requires Finishes(|cmds|, schedule)
      modifies this`conn, this`resetStarted, this`step
      ensures var f := FlightRun(Flight(old(conn), old(resetStarted), [], map[]), cmds, old(step), env, schedule);
              && conn == f.conn && resetStarted == f.resetStarted && step == old(step) + |cmds|
              && |results| == |cmds| && forall i :: 0 <= i < |cmds| ==> i in f.slots && results[i] == f.slots[i]
    {
      hide FlightStep, Progress;
      ghost var start := Flight(conn, resetStarted, [], map[]);
      var frames: seq<Frame>, slots: map<nat, ExecResult> := [], map[];
      for j := 0 to |schedule|
        invariant step == old(step)
        invariant Flight(conn, resetStarted, frames, slots) == FlightRun(start, cmds, step, env, schedule[..j])
      {
        assert schedule[..j + 1][..j] == schedule[..j];
        frames, slots := TakeTurn(cmds, schedule[j], frames, slots);
      }
      assert schedule[..|schedule|] == schedule;
      FlightProgress(start, cmds, step, env, schedule);
      results := seq(|cmds|, i requires 0 <= i < |cmds| && i in slots => slots[i]);
      step := step + |cmds|;
    }

    method Suffer(fate: Fate)
      modifies this`conn, this`resetStarted
      ensures (conn, resetStarted) == Aftermath(old(conn), old(resetStarted), fate)
    {
      match fate {
        case Answered =>
        case Raised =>
        case Broken(_, _) => conn := Ended(conn);
        case TimedOut(_, connected) => MapTimeout(connected);
      }
    }

    method RunTransaction(cmds: seq<Command>) returns (r: Result<seq<ExecResult>, ExecError>)
      modifies this
      ensures (View(), r) == Transaction(old(View()), cmds, env)
    {
      hide Raw, FrameToResp;
      if cmds == [] {
        return Ok([]);
      }
      var answer := Send(MULTI);
      var reply := Converted(answer, env);
      if reply.Err? {
        return Err(reply.error);
      }
      if reply.value != Simple(OK) {
        return Err(ProtocolViolation("MULTI was not answered OK"));
      }
      for i := 0 to |cmds|
        invariant QueueAll(View(), cmds[i..], env) == QueueAll(Raw(old(View()), MULTI, env).0, cmds, env)
      {
        assert cmds[i..][0] == cmds[i] && cmds[i..][1..] == cmds[i + 1..];
        answer := Send(cmds[i]);
        var failure := QueueFailure(Converted(answer, env));
        if failure.Some? {
          answer := Send(DISCARD);
          return Err(failure.value);
        }
      }
      answer := Send(EXEC);
      r := ExecOutcome(answer, env);
    }
  }
}
