/** What a transaction guarantees, for every behaviour of the server and the network. */
module FredRuns {
  import opened Common
  import opened Resp
  import opened Convert
  import opened Acl
  import opened Fred

  predicate Plain(cmds: seq<Command>) {
    forall c :: c in cmds ==> !TransactionState(Upper(c.name))
  }

  function QueuedExchanges(cmds: seq<Command>): (r: seq<Exchange>)
    ensures |r| == |cmds| && forall i :: 0 <= i < |cmds| ==> r[i] == Exchange(cmds[i], Ok(SimpleString(QUEUED)))
  {
    seq(|cmds|, i requires 0 <= i < |cmds| => Exchange(cmds[i], Ok(SimpleString(QUEUED))))
  }

  ghost predicate Sends(trace: seq<Exchange>, cmd: Command) {
    exists i :: 0 <= i < |trace| && trace[i].cmd == cmd
  }

  lemma SendsFirst(e: Exchange, rest: seq<Exchange>, cmd: Command)
    ensures Sends([e] + rest, cmd) <==> e.cmd == cmd || Sends(rest, cmd)
  {
    if Sends(rest, cmd) {
      var i :| 0 <= i < |rest| && rest[i].cmd == cmd;
      assert ([e] + rest)[i + 1].cmd == cmd;
    }
    assert ([e] + rest)[0] == e;
  }

  lemma Reassociate(a: seq<Exchange>, b: seq<Exchange>, c: seq<Exchange>)
    ensures a + b + c == a + (b + c)
  {
  }

  lemma SendsNothing(cmd: Command)
    ensures !Sends([], cmd)
  {
  }

  lemma QueuedFirst(cmds: seq<Command>)
    requires cmds != []
    ensures QueuedExchanges(cmds) == [Exchange(cmds[0], Ok(SimpleString(QUEUED)))] + QueuedExchanges(cmds[1..])
  {
  }

  /** Exactly these commands ran in between, in this order, with these replies. */
  predicate Ran(before: Conn, after: Conn, cmds: seq<Command>, frames: seq<Frame>) {
    |frames| == |cmds| && after.executed == before.executed + Zip(cmds, frames)
  }

  lemma PlainParts(cmds: seq<Command>)
    requires Plain(cmds) && cmds != []
    ensures cmds[0] != EXEC && Plain([cmds[0]]) && Plain(cmds[1..])
  {
    ControlNames();
  }

  // ---------------------------------------------------------------- single messages

  lemma ControlNames()
    ensures Upper("MULTI") == "MULTI" && Upper("EXEC") == "EXEC" && Upper("DISCARD") == "DISCARD"
  {
  }

  lemma RawLogs(k: Link, cmd: Command, env: Env)
    ensures Raw(k, cmd, env).0.log == k.log + [Exchange(cmd, Raw(k, cmd, env).1)]
  {
  }

  /** A reply of QUEUED means the server queued the command, and nothing else happened. */
  lemma QueuedMeansQueued(k: Link, cmd: Command, env: Env)
    requires k.conn.inMulti && Plain([cmd])
    ensures var (k', answer) := Raw(k, cmd, env);
            QueueFailure(Converted(answer, env)).None? ==>
              && answer == Ok(SimpleString(QUEUED))
              && k'.conn == k.conn.(queued := k.conn.queued + [cmd]) && k'.resetStarted == k.resetStarted
    ensures var (k', answer) := Raw(k, cmd, env);
            && k'.conn.executed == k.conn.executed
            && (!k.resetStarted ==> !k'.resetStarted || !k'.conn.inMulti)
  {
  }

  /** DISCARD runs nothing, and takes the connection out of MULTI unless a used-up reset lets a timeout pass. */
  lemma DiscardEnds(k: Link, env: Env)
    ensures var (k', _) := Raw(k, DISCARD, env);
            k'.conn.executed == k.conn.executed && (!k.conn.inMulti || !k.resetStarted ==> !k'.conn.inMulti)
  {
    ControlNames();
    hide Upper;
  }

  lemma MultiBegins(k: Link, env: Env)
    requires env.Valid() && !k.conn.inMulti
    ensures var (k', answer) := Raw(k, MULTI, env);
            && k'.conn.executed == k.conn.executed
            && (Converted(answer, env) == Ok(Simple(OK)) ==>
                  && answer == Ok(SimpleString(OK))
                  && k'.conn == Conn(true, false, [], k.conn.executed) && k'.resetStarted == k.resetStarted)
            && (Converted(answer, env) != Ok(Simple(OK)) && !k.resetStarted ==> !k'.conn.inMulti)
  {
    ControlNames();
    hide Upper;
  }

  /** EXEC runs all queued commands in order or none, and ends the transaction unless its timeout is not reset. */
  lemma ExecRunsAllOrNothing(k: Link, env: Env)
    requires k.conn.inMulti && !k.conn.dirty
    ensures var (k', answer) := Raw(k, EXEC, env);
            && (k'.conn.executed == k.conn.executed ||
                exists frames :: Ran(k.conn, k'.conn, k.conn.queued, frames))
            && (answer.Ok? && answer.value.FrameArray? ==> Ran(k.conn, k'.conn, k.conn.queued, answer.value.frames))
            && (answer.Ok? ==> !k'.conn.inMulti)
            && (!k.resetStarted ==> !k'.conn.inMulti)
  {
    ControlNames();
    hide Upper;
    var ch := env.choices(k.step);
    var frames := seq(|k.conn.queued|, i requires 0 <= i < |k.conn.queued| => ch.results(i));
    assert Serve(k.conn, EXEC, ch).0.executed == k.conn.executed || Ran(k.conn, Serve(k.conn, EXEC, ch).0, k.conn.queued, frames);
    assert Ran(k.conn, Serve(k.conn, EXEC, ch).0, k.conn.queued, frames) ==>
             Ran(k.conn, Ended(Serve(k.conn, EXEC, ch).0), k.conn.queued, frames);
  }

  // ---------------------------------------------------------------- queueing

  lemma {:induction false} QueueAllEffect(k: Link, cmds: seq<Command>, env: Env)
    requires k.conn.inMulti && !k.conn.dirty && Plain(cmds)
    ensures var (k', failure) := QueueAll(k, cmds, env);
            && k'.conn.executed == k.conn.executed
            && (failure.None? ==>
                  k'.conn == k.conn.(queued := k.conn.queued + cmds) && k'.resetStarted == k.resetStarted)
            && (failure.Some? && !k.resetStarted ==> !k'.conn.inMulti)
    decreases |cmds|
  {
    hide Raw, QueueFailure, Converted;
    if cmds != [] {
      var (k', answer) := Raw(k, cmds[0], env);
      QueuedMeansQueued(k, cmds[0], env);
      if QueueFailure(Converted(answer, env)).None? {
        QueueAllEffect(k', cmds[1..], env);
        assert k.conn.queued + cmds == k.conn.queued + [cmds[0]] + cmds[1..];
      } else {
        DiscardEnds(k', env);
      }
    }
  }

  /** The error is the one this answer carries, or reports that it was none Redis should give here. */
  ghost predicate Blames(e: ExecError, answer: Result<Frame, ExecError>, env: Env) {
    && (answer.Err? ==> e == answer.error)
    && (answer.Ok? && FrameToResp(answer.value, env.utf8).Err? ==> e == FrameToResp(answer.value, env.utf8).error)
    && (answer.Ok? && FrameToResp(answer.value, env.utf8).Ok? ==> e.Transport? && "Redis protocol violation: " <= e.message)
  }

  lemma BadQueueAnswer(answer: Result<Frame, ExecError>, env: Env)
    requires env.Valid()
    ensures QueueFailure(Converted(answer, env)).None? <==> answer == Ok(SimpleString(QUEUED))
    ensures var failure := QueueFailure(Converted(answer, env)); failure.Some? ==> Blames(failure.value, answer, env)
  {
    if answer.Ok? {
      AcceptedFrames(answer.value, env.utf8, MAX_DEPTH);
    }
  }

  /** The first n commands were answered QUEUED, the next was not, and DISCARD followed. */
  ghost predicate StopsAt(trace: seq<Exchange>, cmds: seq<Command>, n: nat, e: ExecError, env: Env) {
    && |trace| == n + 2 && n < |cmds|
    && trace[..n] == QueuedExchanges(cmds[..n])
    && trace[n].cmd == cmds[n] && trace[n].answer != Ok(SimpleString(QUEUED)) && Blames(e, trace[n].answer, env)
    && trace[n + 1].cmd == DISCARD
  }

  lemma StopsOneLater(first: Exchange, trace: seq<Exchange>, cmds: seq<Command>, n: nat, e: ExecError, env: Env)
    requires cmds != [] && first == Exchange(cmds[0], Ok(SimpleString(QUEUED))) && StopsAt(trace, cmds[1..], n, e, env)
    ensures StopsAt([first] + trace, cmds, n + 1, e, env)
  {
    hide Blames;
    assert ([first] + trace)[..n + 1] == [first] + trace[..n];
    assert cmds[..n + 1][1..] == cmds[1..][..n];
    QueuedFirst(cmds[..n + 1]);
  }

  /**
   The messages exchanged while queueing, with no EXEC among them: all answered QUEUED on
   success, else up to the first that was not, whose error is reported, and DISCARD.
   */
  lemma {:induction false} QueueAllTrace(k: Link, cmds: seq<Command>, env: Env) returns (trace: seq<Exchange>)
    requires env.Valid() && k.conn.inMulti && !k.conn.dirty && Plain(cmds)
    ensures var (k', failure) := QueueAll(k, cmds, env);
            && k'.log == k.log + trace && !Sends(trace, EXEC)
            && (failure.None? ==> trace == QueuedExchanges(cmds))
            && (failure.Some? ==> exists n :: StopsAt(trace, cmds, n, failure.value, env))
    decreases |cmds|
  {
    trace := [];
    if cmds != [] {
      assert DISCARD != EXEC;
      PlainParts(cmds);
      hide Raw, QueueFailure, Converted, Sends, QueuedExchanges, Plain, Blames, StopsAt;
      var (k', answer) := Raw(k, cmds[0], env);
      var first := Exchange(cmds[0], answer);
      QueuedMeansQueued(k, cmds[0], env);
      RawLogs(k, cmds[0], env);
      BadQueueAnswer(answer, env);
      var failure := QueueFailure(Converted(answer, env));
      var rest;
      if failure.None? {
        rest := QueueAllTrace(k', cmds[1..], env);
        var later := QueueAll(k', cmds[1..], env).1;
        if later.Some? {
          var n :| StopsAt(rest, cmds[1..], n, later.value, env);
          StopsOneLater(first, rest, cmds, n, later.value, env);
        }
      } else {
        RawLogs(k', DISCARD, env);
        rest := [Exchange(DISCARD, Raw(k', DISCARD, env).1)];
        assert rest == [rest[0]] + [];
        SendsFirst(rest[0], [], EXEC);
        SendsNothing(EXEC);
        StopsAtOnce(first, rest[0], cmds, failure.value, env);
        assert [first] + rest == [first, rest[0]];
      }
      trace := [first] + rest;
      Reassociate(k.log, [first], rest);
      SendsFirst(first, rest, EXEC);
      QueuedFirst(cmds);
    } else {
      SendsNothing(EXEC);
    }
  }

  lemma StopsAtOnce(first: Exchange, second: Exchange, cmds: seq<Command>, e: ExecError, env: Env)
    requires cmds != [] && first.cmd == cmds[0] && first.answer != Ok(SimpleString(QUEUED)) && Blames(e, first.answer, env)
    requires second.cmd == DISCARD
    ensures StopsAt([first, second], cmds, 0, e, env)
  {
    hide Blames;
    assert [first, second][..0] == QueuedExchanges(cmds[..0]);
  }

  // ---------------------------------------------------------------- whole transactions

  /** MULTI answered OK, then every command answered QUEUED in order, then EXEC. */
  predicate Complete(trace: seq<Exchange>, cmds: seq<Command>) {
    && |trace| == |cmds| + 2
    && trace[0] == Exchange(MULTI, Ok(SimpleString(OK)))
    && trace[1..|cmds| + 1] == QueuedExchanges(cmds)
    && trace[|cmds| + 1].cmd == EXEC
  }

  /**
   What a transaction returns, read off the messages it exchanged.  MULTI not answered OK: its
   error.  A command not answered QUEUED: its error.  Otherwise what EXEC was answered decides:
   an array is success, one slot per element; a null is an abort; anything else is its error.
   */
  ghost predicate Explains(trace: seq<Exchange>, cmds: seq<Command>, r: Result<seq<ExecResult>, ExecError>, env: Env) {
    trace != [] && trace[0].cmd == MULTI &&
    if trace[0].answer != Ok(SimpleString(OK)) then
      |trace| == 1 && r.Err? && Blames(r.error, trace[0].answer, env)
    else if !Sends(trace, EXEC) then
      r.Err? && exists n :: StopsAt(trace[1..], cmds, n, r.error, env)
    else
      |trace| == |cmds| + 2 &&
      var last := trace[|cmds| + 1].answer;
      && (r.Ok? <==> last.Ok? && last.value.FrameArray?)
      && (r.Ok? ==>
            && |r.value| == |last.value.frames|
            && forall i :: 0 <= i < |r.value| ==> r.value[i] == FrameToResp(last.value.frames[i], env.utf8))
      && (last == Ok(Null) ==> r == Err(Redis("EXECABORT Transaction discarded because of previous errors.")))
      && (r.Err? && last != Ok(Null) ==> Blames(r.error, last, env))
  }

  lemma ExecAnswerDecides(trace: seq<Exchange>, cmds: seq<Command>, env: Env)
    requires |trace| == |cmds| + 2 && trace[0] == Exchange(MULTI, Ok(SimpleString(OK))) && trace[|cmds| + 1].cmd == EXEC
    ensures Explains(trace, cmds, ExecOutcome(trace[|cmds| + 1].answer, env), env)
  {
    assert Sends(trace, EXEC);
    var last := trace[|cmds| + 1].answer;
    if last.Ok? {
      AcceptedFrames(last.value, env.utf8, MAX_DEPTH);
    }
    hide FrameWithinDepth, Sends, StopsAt;
  }

  /** A transaction that MULTI's answer ends. */
  lemma MultiAnswerDecides(k: Link, cmds: seq<Command>, env: Env)
    requires env.Valid() && cmds != []
    ensures var (k1, answer) := Raw(k, MULTI, env);
            if answer == Ok(SimpleString(OK)) then Converted(answer, env) == Ok(Simple(OK))
            else
              && Converted(answer, env) != Ok(Simple(OK)) && Transaction(k, cmds, env).0 == k1
              && Explains([Exchange(MULTI, answer)], cmds, Transaction(k, cmds, env).1, env)
  {
    hide Raw, QueueAll, ExecOutcome;
    var (k1, answer) := Raw(k, MULTI, env);
    if answer.Ok? {
      AcceptedFrames(answer.value, env.utf8, MAX_DEPTH);
    }
  }

  lemma TransactionTrace(k: Link, cmds: seq<Command>, env: Env) returns (trace: seq<Exchange>)
    requires env.Valid() && !k.conn.inMulti && Plain(cmds)
    ensures var (k', r) := Transaction(k, cmds, env);
            && k'.log == k.log + trace
            && (Sends(trace, EXEC) ==> Complete(trace, cmds))
            && (!Sends(trace, EXEC) ==> k'.conn.executed == k.conn.executed)
            && (cmds != [] ==> Explains(trace, cmds, r, env))
  {
    hide Raw, QueueAll, Serve, Upper, FrameToResp, QueuedExchanges, Blames, StopsAt, ExecOutcome;
    if cmds == [] {
      return [];
    }
    MultiBegins(k, env);
    RawLogs(k, MULTI, env);
    MultiAnswerDecides(k, cmds, env);
    var (k1, answer) := Raw(k, MULTI, env);
    trace := [Exchange(MULTI, answer)];
    if answer == Ok(SimpleString(OK)) {
      QueueAllEffect(k1, cmds, env);
      var queueing := QueueAllTrace(k1, cmds, env);
      var (k2, failure) := QueueAll(k1, cmds, env);
      SendsFirst(trace[0], queueing, EXEC);
      if failure.Some? {
        trace := trace + queueing;
        assert trace[1..] == queueing;
      } else {
        RawLogs(k2, EXEC, env);
        trace := trace + queueing + [Exchange(EXEC, Raw(k2, EXEC, env).1)];
        assert trace[1..|cmds| + 1] == queueing;
        assert trace[|cmds| + 1].cmd == EXEC;
        ExecAnswerDecides(trace, cmds, env);
      }
    }
  }

  lemma RanSince(a: Conn, b: Conn, after: Conn, cmds: seq<Command>)
    requires a.executed == b.executed
    ensures forall frames :: Ran(b, after, cmds, frames) ==> Ran(a, after, cmds, frames)
  {
  }

  /** Once everything is queued, EXEC runs all of it or nothing, and its answer is that of the transaction. */
  lemma QueuedTransactionRuns(k: Link, start: Conn, cmds: seq<Command>, env: Env)
    requires k.conn == Conn(true, false, cmds, start.executed)
    ensures var (k', answer) := Raw(k, EXEC, env);
            var r := ExecOutcome(answer, env);
            && (k'.conn.executed == start.executed || exists frames :: Ran(start, k'.conn, cmds, frames))
            && (r.Ok? ==> exists frames :: Ran(start, k'.conn, cmds, frames) && r.value == ConvertAll(frames, env))
  {
    hide Raw, FrameToResp, Ran;
    ExecRunsAllOrNothing(k, env);
    RanSince(start, k.conn, Raw(k, EXEC, env).0.conn, cmds);
  }

  lemma TransactionRuns(k: Link, cmds: seq<Command>, env: Env)
    requires env.Valid() && !k.conn.inMulti && Plain(cmds)
    ensures var (k', r) := Transaction(k, cmds, env);
            && (k'.conn.executed == k.conn.executed ||
                exists frames :: Ran(k.conn, k'.conn, cmds, frames))
            && (r.Ok? ==>
                  exists frames :: Ran(k.conn, k'.conn, cmds, frames) && r.value == ConvertAll(frames, env))
  {
    hide Raw, QueueAll, FrameToResp, ExecOutcome;
    if cmds == [] {
      assert Ran(k.conn, k.conn, cmds, []) && ConvertAll([], env) == [];
    } else {
      hide Ran;
      MultiBegins(k, env);
      var (k1, answer) := Raw(k, MULTI, env);
      if Converted(answer, env) == Ok(Simple(OK)) {
        QueueAllEffect(k1, cmds, env);
        var (k2, failure) := QueueAll(k1, cmds, env);
        if failure.None? {
          assert [] + cmds == cmds;
          QueuedTransactionRuns(k2, k.conn, cmds, env);
        }
      }
    }
  }

  /**
   For every behaviour of server and network: EXEC is sent only after MULTI was answered OK
   and every command QUEUED, in order; if it is not sent, nothing runs; if it is sent, all
   commands run in order or none does; and on success there is one slot per command, slot i
   being the converted reply that command i got when it ran.  The messages alone decide the
   result: it is a success exactly when EXEC was answered with an array.
   */
  lemma TransactionIsAtomic(k: Link, cmds: seq<Command>, env: Env) returns (trace: seq<Exchange>)
    requires env.Valid() && !k.conn.inMulti && Plain(cmds)
    ensures var (k', r) := Transaction(k, cmds, env);
            && k'.log == k.log + trace
            && (Sends(trace, EXEC) ==> Complete(trace, cmds))
            && (!Sends(trace, EXEC) ==> k'.conn.executed == k.conn.executed)
            && (k'.conn.executed == k.conn.executed ||
                exists frames :: Ran(k.conn, k'.conn, cmds, frames))
            && (r.Ok? ==>
                  exists frames :: Ran(k.conn, k'.conn, cmds, frames) && r.value == ConvertAll(frames, env))
            && (cmds != [] ==> Explains(trace, cmds, r, env))
  {
    hide *;
    trace := TransactionTrace(k, cmds, env);
    TransactionRuns(k, cmds, env);
  }

  /** Server and network accept and answer everything. */
  ghost predicate Agreeable(env: Env) {
    forall n: nat :: env.choices(n).accept && env.choices(n).fate == Answered
  }

  lemma {:induction false} AgreeableQueues(k: Link, cmds: seq<Command>, env: Env)
    requires env.Valid() && Agreeable(env) && k.conn.inMulti && !k.conn.dirty && Plain(cmds)
    ensures QueueAll(k, cmds, env).1.None?
    decreases |cmds|
  {
    if cmds != [] {
      PlainParts(cmds);
      AgreeableQueuesOne(k, cmds[0], env);
      hide Raw, QueueFailure, Converted, Plain, Agreeable;
      QueuedMeansQueued(k, cmds[0], env);
      AgreeableQueues(Raw(k, cmds[0], env).0, cmds[1..], env);
    }
  }

  lemma AgreeableQueuesOne(k: Link, cmd: Command, env: Env)
    requires env.Valid() && Agreeable(env) && k.conn.inMulti && Plain([cmd])
    ensures QueueFailure(Converted(Raw(k, cmd, env).1, env)).None?
  {
    assert env.choices(k.step).accept && env.choices(k.step).fate == Answered;
    var name := Upper(cmd.name);
    assert !TransactionState(name);
    hide Upper;
  }

  /** With such a server and network every transaction succeeds: all commands run, each with its own slot. */
  lemma AgreeableTransactionSucceeds(k: Link, cmds: seq<Command>, env: Env)
    requires env.Valid() && Agreeable(env) && !k.conn.inMulti && Plain(cmds)
    ensures var (k', r) := Transaction(k, cmds, env);
            && r.Ok? && |r.value| == |cmds| && !k'.conn.inMulti
            && exists frames :: Ran(k.conn, k'.conn, cmds, frames) && r.value == ConvertAll(frames, env)
  {
    if cmds == [] {
      assert Ran(k.conn, k.conn, cmds, []) && ConvertAll([], env) == [];
    } else {
      ControlNames();
      hide Upper, QueueAll, FrameWithinDepth, Plain;
      var (k1, answer) := Raw(k, MULTI, env);
      assert answer == Ok(SimpleString(OK)) && k1.conn == Conn(true, false, [], k.conn.executed);
      MultiAnswerDecides(k, cmds, env);
      AgreeableQueues(k1, cmds, env);
      QueueAllEffect(k1, cmds, env);
      var k2 := QueueAll(k1, cmds, env).0;
      var (k3, last) := Raw(k2, EXEC, env);
      assert last.Ok? && last.value.FrameArray? && !k3.conn.inMulti;
      hide Raw;
      TransactionRuns(k, cmds, env);
    }
  }

  /** A used-up reset leaves a timed-out MULTI in place. */
  lemma ReusedExecutorWedges(k: Link, cmds: seq<Command>) returns (env: Env)
    requires k.resetStarted && !k.conn.inMulti && cmds != []
    ensures env.Valid() && Transaction(k, cmds, env).0.conn.inMulti
  {
    env := Env((i: nat) => Choice(true, Null, (j: nat) => Null, TimedOut(true, true)), (b: Bytes) => true);
    ControlNames();
  }

  /**
   A transaction leaves the connection out of MULTI, whatever server and network do, exactly
   when its executor has not yet used its one reset (or there is nothing to send).
   */
  lemma OutOfMultiIffFresh(k: Link, cmds: seq<Command>)
    requires !k.conn.inMulti && Plain(cmds)
    ensures (forall env: Env :: env.Valid() ==> !Transaction(k, cmds, env).0.conn.inMulti)
            <==> !k.resetStarted || cmds == []
  {
    if k.resetStarted && cmds != [] {
      var env := ReusedExecutorWedges(k, cmds);
    } else {
      forall env: Env | env.Valid()
        ensures !Transaction(k, cmds, env).0.conn.inMulti
      {
        FreshTransactionEnds(k, cmds, env);
      }
    }
  }

  lemma FreshTransactionEnds(k: Link, cmds: seq<Command>, env: Env)
    requires env.Valid() && !k.conn.inMulti && Plain(cmds) && (!k.resetStarted || cmds == [])
    ensures !Transaction(k, cmds, env).0.conn.inMulti
  {
    hide Raw, QueueAll, Serve, Upper, FrameToResp;
    if cmds != [] {
      MultiBegins(k, env);
      var (k1, answer) := Raw(k, MULTI, env);
      if Converted(answer, env) == Ok(Simple(OK)) {
        QueueAllEffect(k1, cmds, env);
        var (k2, failure) := QueueAll(k1, cmds, env);
        if failure.None? {
          ExecRunsAllOrNothing(k2, env);
        }
      }
    }
  }

  // ---------------------------------------------------------------- pipelines

  /** The first n commands as far as they reached the server, in request order, with their replies. */
  function RanOf(cmds: seq<Command>, step: nat, env: Env, n: nat): seq<(Command, Frame)>
    requires n <= |cmds|
  {
    if n == 0 then []
    else
      var ch := env.choices(step + n - 1);
      RanOf(cmds, step, env, n - 1) + if Reached(ch.fate) then [(cmds[n - 1], ch.reply)] else []
  }

  /** The result of the i-th command, by its own reply and its own fate alone. */
  function ResultOf(step: nat, env: Env, i: nat): ExecResult {
    var ch := env.choices(step + i);
    Converted(Fared(ch.reply, ch.fate), env)
  }

  /** What holds of a pipeline on a connection out of MULTI, whatever has happened so far. */
  ghost predicate InFlight(conn: Conn, cmds: seq<Command>, step: nat, env: Env, f: Flight) {
    && |f.frames| <= |cmds| && !f.conn.inMulti
    && f.conn.executed == conn.executed + RanOf(cmds, step, env, |f.frames|)
    && (forall i :: 0 <= i < |f.frames| ==> f.frames[i] == env.choices(step + i).reply)
    && (forall i :: i in f.slots ==> i < |f.frames| && f.slots[i] == ResultOf(step, env, i))
  }

  /** Out of MULTI, a plain command runs at once. */
  lemma PlainRuns(c: Conn, cmd: Command, ch: Choice)
    requires !c.inMulti && Plain([cmd])
    ensures Serve(c, cmd, ch) == (c.(executed := c.executed + [(cmd, ch.reply)]), ch.reply)
  {
    var name := Upper(cmd.name);
    assert !TransactionState(name);
    hide Upper;
  }

  lemma FlightStaysClean(conn: Conn, cmds: seq<Command>, step: nat, env: Env, f: Flight, turn: Turn)
    requires Plain(cmds) && InFlight(conn, cmds, step, env, f)
    ensures InFlight(conn, cmds, step, env, FlightStep(f, cmds, step, env, turn))
  {
    hide Serve, Converted;
    if turn.Issue? && |f.frames| < |cmds| {
      assert Plain([cmds[|f.frames|]]);
      PlainRuns(f.conn, cmds[|f.frames|], env.choices(step + |f.frames|));
    }
  }

  lemma {:induction false} EveryFlightIsClean(conn: Conn, reset: bool, cmds: seq<Command>, step: nat, env: Env, schedule: seq<Turn>)
    requires !conn.inMulti && Plain(cmds)
    ensures InFlight(conn, cmds, step, env, FlightRun(Flight(conn, reset, [], map[]), cmds, step, env, schedule))
  {
    if schedule != [] {
      hide InFlight, FlightStep;
      var last := |schedule| - 1;
      EveryFlightIsClean(conn, reset, cmds, step, env, schedule[..last]);
      FlightStaysClean(conn, cmds, step, env, FlightRun(Flight(conn, reset, [], map[]), cmds, step, env, schedule[..last]), schedule[last]);
    }
  }

  /**
   However sending and answering interleave, a pipeline on a connection out of MULTI runs its
   commands in request order, as far as they reach the server, and slot i is what the reply
   and the fate of command i alone make of it: the order of completion shows nowhere.
   */
  lemma PipelineAnswersInOrder(conn: Conn, reset: bool, cmds: seq<Command>, step: nat, env: Env, schedule: seq<Turn>)
    requires !conn.inMulti && Plain(cmds) && Finishes(|cmds|, schedule)
    ensures var f := FlightRun(Flight(conn, reset, [], map[]), cmds, step, env, schedule);
            && !f.conn.inMulti && f.conn.executed == conn.executed + RanOf(cmds, step, env, |cmds|)
            && forall i :: 0 <= i < |cmds| ==> i in f.slots && f.slots[i] == ResultOf(step, env, i)
  {
    var f := FlightRun(Flight(conn, reset, [], map[]), cmds, step, env, schedule);
    hide FlightRun, Progress, RanOf, ResultOf;
    EveryFlightIsClean(conn, reset, cmds, step, env, schedule);
    FlightProgress(Flight(conn, reset, [], map[]), cmds, step, env, schedule);
    if cmds != [] {
      assert |cmds| - 1 in f.slots;
    }
  }

  // ---------------------------------------------------------------- the life of a pooled connection

  /** One acquisition's use of the connection, under the operation lock; a pipeline has any schedule. */
  datatype Operation =
    | Single(cmd: Command)
    | Pipeline(cmds: seq<Command>, schedule: seq<Turn>)
    | Atomic(cmds: seq<Command>)

  /** Every operation gets a new executor, whose reset is unused. */
  function Operate(conn: Conn, step: nat, op: Operation, env: Env): (Conn, nat) {
    match op
    case Single(cmd) =>
      var k := Raw(Link(conn, false, step, []), cmd, env).0;
      (k.conn, k.step)
    case Pipeline(cmds, schedule) =>
      (FlightRun(Flight(conn, false, [], map[]), cmds, step, env, schedule).conn, step + |cmds|)
    case Atomic(cmds) =>
      var k := Transaction(Link(conn, false, step, []), cmds, env).0;
      (k.conn, k.step)
  }

  function Session(conn: Conn, step: nat, ops: seq<Operation>, env: Env): Conn
    decreases |ops|
  {
    if ops == [] then conn
    else
      var (next, later) := Operate(conn, step, ops[0], env);
      Session(next, later, ops[1..], env)
  }

  function CommandsOf(op: Operation): seq<Command> {
    match op
    case Single(cmd) => [cmd]
    case Pipeline(cmds, _) => cmds
    case Atomic(cmds) => cmds
  }

  /** Every command was approved for some identity, or is the readiness PING. */
  ghost predicate Approved(op: Operation, t: Text) {
    forall c :: c in CommandsOf(op) ==> c == Command("PING", []) || exists id :: Check(id, c, t).Ok?
  }

  lemma ApprovedIsPlain(op: Operation, t: Text)
    requires Approved(op, t)
    ensures Plain(CommandsOf(op))
  {
    forall c | c in CommandsOf(op)
      ensures !TransactionState(Upper(c.name))
    {
      if id :| Check(id, c, t).Ok? {
        if TransactionState(Upper(c.name)) {
          TransactionStateIsNeverPermitted(id, c, t);
        }
      } else {
        assert Upper(c.name) == "PING";
      }
    }
  }

  lemma PlainCommandStaysOut(k: Link, cmd: Command, env: Env)
    requires !k.conn.inMulti && Plain([cmd])
    ensures !Raw(k, cmd, env).0.conn.inMulti
  {
    hide Serve;
    PlainRuns(k.conn, cmd, env.choices(k.step));
  }

  /**
   Whenever the operation lock is free, the connection is out of MULTI: after any sequence of
   approved commands, pipelines, transactions and readiness PINGs, each on its own executor,
   for every schedule and every behaviour of server and network.
   */
  lemma {:induction false} ConnectionsComeBackClean(conn: Conn, step: nat, ops: seq<Operation>, env: Env, t: Text)
    requires env.Valid() && !conn.inMulti && forall op :: op in ops ==> Approved(op, t)
    ensures !Session(conn, step, ops, env).inMulti
    decreases |ops|
  {
    if ops != [] {
      hide Transaction, Raw, Approved, FlightRun;
      var op, k := ops[0], Link(conn, false, step, []);
      ApprovedIsPlain(op, t);
      match op {
        case Single(cmd) => PlainCommandStaysOut(k, cmd, env);
        case Pipeline(cmds, schedule) => EveryFlightIsClean(conn, false, cmds, step, env, schedule);
        case Atomic(cmds) => FreshTransactionEnds(k, cmds, env);
      }
      var (next, later) := Operate(conn, step, op, env);
      ConnectionsComeBackClean(next, later, ops[1..], env, t);
    }
  }
}
