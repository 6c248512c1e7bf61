/** The pipeline and multi-exec handlers, from policy screening to the merged response. */
module Handlers {
  import opened Common
  import opened Resp
  import opened Convert
  import opened Acl
  import opened Fred
  import opened FredRuns

  datatype Slot = Reply(value: RespValue, enc: Encoding) | Failure(message: string)

  datatype AppError =
    | BadRequest(message: string)
    | NotPermitted(message: string)
    | RedisError(message: string)
    | Overloaded(retryAfter: nat)
    | PoolOpen(retryAfter: nat, reason: string)
    | TooLarge
    | Internal(message: string)

  /** How replies are rendered, how heavy a response may be, and the delay advertised when load is shed. */
  datatype Output = Output(enc: Encoding, lossy: Lossy, maxBytes: nat, shedRetryAfter: nat) {
    predicate Valid() {
      maxBytes <= MAX_U64
    }
  }

  predicate Allowed(id: Identity, c: Command, t: Text) {
    Check(id, c, t).Ok?
  }

  /** What the executor must receive: the allowed commands, normalized, in order. */
  function SentOf(id: Identity, cmds: seq<Command>, t: Text): (sent: seq<Command>)
    ensures |sent| <= |cmds|
  {
    if cmds == [] then []
    else
      var last := |cmds| - 1;
      SentOf(id, cmds[..last], t) + if Allowed(id, cmds[last], t) then [Normalize(cmds[last])] else []
  }

  /** The number of allowed commands before position i, which is where its result arrives. */
  function Rank(id: Identity, cmds: seq<Command>, t: Text, i: nat): nat
    requires i <= |cmds|
  {
    |SentOf(id, cmds[..i], t)|
  }

  /** The one-member object that a slot becomes in the response. */
  datatype SlotJson = ResultMember(json: Json) | ErrorMember(message: string)

  function RenderSlot(slot: Slot, lossy: Lossy): SlotJson {
    match slot
    case Reply(value, enc) => ResultMember(Render(value, enc, lossy))
    case Failure(message) => ErrorMember(message)
  }

  /**
   What a slot shows: a success its own value in the requested encoding, a Redis error its own
   message, a timeout and a transport error one fixed text each.
   */
  ghost predicate Shows(slot: Slot, result: ExecResult, out: Output) {
    match result
    case Ok(v) => slot == Reply(v, out.enc) && RenderSlot(slot, out.lossy) == ResultMember(Render(v, out.enc, out.lossy))
    case Err(Redis(message)) => slot == Failure(message)
    case Err(Timeout) => slot == Failure("Redis command timed out")
    case Err(Transport(_)) => slot == Failure("Internal server error")
    case Err(ResponseTooLarge) => false
  }

  /** Rendered bytes and nodes of all successful results together. */
  function TotalWeight(results: seq<ExecResult>, out: Output): nat {
    if results == [] then 0
    else
      var last := results[|results| - 1];
      TotalWeight(results[..|results| - 1], out) + if last.Ok? then Weight(Render(last.value, out.enc, out.lossy)) else 0
  }

  predicate Acceptable(result: ExecResult) {
    result != Err(ResponseTooLarge) && (result.Ok? ==> Depth(result.value) <= MAX_DEPTH)
  }

  /** Nothing was already refused, nothing is too deep, and all successes fit the budget together. */
  predicate Fits(results: seq<ExecResult>, out: Output) {
    (forall i :: 0 <= i < |results| ==> Acceptable(results[i])) && TotalWeight(results, out) <= out.maxBytes
  }

  /** The response slot of command i: its denial, or the result of its rank among the allowed commands. */
  ghost predicate Answers(slot: Slot, id: Identity, cmds: seq<Command>, t: Text, results: seq<ExecResult>, out: Output, i: nat)
    requires i < |cmds|
  {
    match Check(id, cmds[i], t)
    case Err(Forbidden(message)) => slot == Failure(message)
    case Err(InvalidCommand) => false
    case Ok(_) =>
      var rank := Rank(id, cmds, t, i);
      rank < |results| && Acceptable(results[rank]) && Shows(slot, results[rank], out)
  }

  lemma {:induction false} RankGrows(id: Identity, cmds: seq<Command>, t: Text, i: nat)
    requires i <= |cmds|
    ensures Rank(id, cmds, t, i) <= |SentOf(id, cmds, t)|
    ensures SentOf(id, cmds, t)[..Rank(id, cmds, t, i)] == SentOf(id, cmds[..i], t)
    decreases |cmds| - i
  {
    hide Allowed, Normalize;
    if i == |cmds| {
      assert cmds[..i] == cmds;
    } else {
      RankGrows(id, cmds, t, i + 1);
      assert cmds[..i + 1][..i] == cmds[..i];
    }
  }

  /** Each allowed command is sent once, normalized, at its rank, and passes the check in that form. */
  lemma SentAtRank(id: Identity, cmds: seq<Command>, t: Text, i: nat)
    requires i < |cmds| && Allowed(id, cmds[i], t)
    ensures var sent, rank := SentOf(id, cmds, t), Rank(id, cmds, t, i);
            rank < |sent| && sent[rank] == Normalize(cmds[i]) && Allowed(id, sent[rank], t)
  {
    hide Check, Normalize;
    RankGrows(id, cmds, t, i + 1);
    assert cmds[..i + 1][..i] == cmds[..i];
    var sent := SentOf(id, cmds, t);
    assert sent[..Rank(id, cmds, t, i + 1)][Rank(id, cmds, t, i)] == Normalize(cmds[i]);
    NormalizingKeepsTheDecision(id, cmds[i], t);
  }

  /** Nothing else is sent: every sent command is some allowed command of the request, at its rank. */
  lemma {:induction false} SentCameFrom(id: Identity, cmds: seq<Command>, t: Text, n: nat) returns (i: nat)
    requires n < |SentOf(id, cmds, t)|
    ensures i < |cmds| && Allowed(id, cmds[i], t) && Rank(id, cmds, t, i) == n && SentOf(id, cmds, t)[n] == Normalize(cmds[i])
    decreases |cmds|
  {
    hide Allowed, Normalize;
    var last := |cmds| - 1;
    if n < |SentOf(id, cmds[..last], t)| {
      i := SentCameFrom(id, cmds[..last], t, n);
      assert cmds[..last][..i] == cmds[..i];
    } else {
      i := last;
    }
  }

  lemma {:induction false} WeightGrows(results: seq<ExecResult>, out: Output, i: nat)
    requires i <= |results|
    ensures TotalWeight(results[..i], out) <= TotalWeight(results, out)
    decreases |results|
  {
    if i == |results| {
      assert results[..i] == results;
    } else {
      WeightGrows(results[..|results| - 1], out, i);
      assert results[..|results| - 1][..i] == results[..i];
    }
  }

  /** Charges one result against what is left of the shared budget and builds its slot. */
  method Settle(result: ExecResult, out: Output, left: nat) returns (r: Result<Slot, AppError>, left': nat)
    requires left <= MAX_U64
    ensures r.Ok? <==> Acceptable(result) && (result.Ok? ==> Weight(Render(result.value, out.enc, out.lossy)) <= left)
    ensures r.Ok? && result.Ok? ==>
              r.value == Reply(result.value, out.enc) && Depth(result.value) <= 64 &&
              RenderSlot(r.value, out.lossy) == ResultMember(Render(result.value, out.enc, out.lossy))
    ensures forall message :: result == Err(Redis(message)) ==> r == Ok(Failure(message))
    ensures forall message :: result == Err(Transport(message)) ==> r == Ok(Failure("Internal server error"))
    ensures result == Err(Timeout) ==> r == Ok(Failure("Redis command timed out"))
    ensures result == Err(ResponseTooLarge) ==> r.Err?
    ensures r.Ok? ==> Shows(r.value, result, out)
    ensures r.Ok? ==> left' == left - if result.Ok? then Weight(Render(result.value, out.enc, out.lossy)) else 0
    ensures r.Err? ==> r.error == TooLarge
  {
    left' := left;
    match result {
      case Ok(v) =>
        var charged := ChargeResponseBudget(v, out.enc, out.lossy, left);
        if charged.None? {
          return Err(TooLarge), left;
        }
        left' := charged.value;
        r := Ok(Reply(v, out.enc));
      case Err(Redis(message)) => r := Ok(Failure(message));
      case Err(ResponseTooLarge) => r := Err(TooLarge);
      case Err(Timeout) => r := Ok(Failure("Redis command timed out"));
      case Err(Transport(_)) => r := Ok(Failure("Internal server error"));
    }
  }

  method Screen(id: Identity, cmds: seq<Command>, t: Text)
    returns (invalid: bool, sent: seq<Command>, denials: seq<Option<string>>)
    ensures invalid <==> exists i :: 0 <= i < |cmds| && cmds[i].name == ""
    ensures !invalid ==> sent == SentOf(id, cmds, t) && |denials| == |cmds|
    ensures !invalid ==> forall i :: 0 <= i < |cmds| ==>
              if denials[i].None? then Allowed(id, cmds[i], t) else Check(id, cmds[i], t) == Err(Forbidden(denials[i].value))
  {
    hide Check, Normalize;
    invalid, sent, denials := false, [], [];
    for n := 0 to |cmds|
      invariant forall i :: 0 <= i < n ==> cmds[i].name != ""
      invariant sent == SentOf(id, cmds[..n], t) && |denials| == n
      invariant forall i :: 0 <= i < n ==>
                  if denials[i].None? then Allowed(id, cmds[i], t) else Check(id, cmds[i], t) == Err(Forbidden(denials[i].value))
    {
      assert cmds[..n + 1][..n] == cmds[..n];
      InvalidIffUnnamed(id, cmds[n], t);
      match Check(id, cmds[n], t) {
        case Ok(_) =>
          sent := sent + [Normalize(cmds[n])];
          denials := denials + [None];
        case Err(Forbidden(message)) =>
          denials := denials + [Some(message)];
        case Err(InvalidCommand) =>
          invalid := true;
          return;
      }
    }
    assert cmds[..|cmds|] == cmds;
  }

  lemma DenialAnswers(id: Identity, cmds: seq<Command>, t: Text, results: seq<ExecResult>, out: Output, i: nat, message: string)
    requires i < |cmds| && Check(id, cmds[i], t) == Err(Forbidden(message))
    ensures Answers(Failure(message), id, cmds, t, results, out, i)
  {
    hide Check, Rank, Shows;
  }

  lemma ResultAnswers(id: Identity, cmds: seq<Command>, t: Text, results: seq<ExecResult>, out: Output, i: nat, slot: Slot)
    requires i < |cmds| && Allowed(id, cmds[i], t) && Rank(id, cmds, t, i) < |results|
    requires Acceptable(results[Rank(id, cmds, t, i)]) && Shows(slot, results[Rank(id, cmds, t, i)], out)
    ensures Answers(slot, id, cmds, t, results, out, i)
  {
    hide Check, Rank, Shows, Acceptable;
  }

  /** Puts denials and results back in request order, charging successes against one budget. */
  method Merge(id: Identity, cmds: seq<Command>, t: Text, denials: seq<Option<string>>, results: seq<ExecResult>, out: Output)
    returns (r: Result<seq<Slot>, AppError>)
    requires out.Valid() && |denials| == |cmds|
    requires forall i :: 0 <= i < |cmds| ==>
               if denials[i].None? then Allowed(id, cmds[i], t) else Check(id, cmds[i], t) == Err(Forbidden(denials[i].value))
    ensures |results| == |SentOf(id, cmds, t)| ==> (r.Ok? <==> Fits(results, out)) && (r.Err? ==> r.error == TooLarge)
    ensures |results| != |SentOf(id, cmds, t)| ==> r.Err? && (r.error == TooLarge || r.error.Internal?)
    ensures r.Ok? ==> |r.value| == |cmds| && forall i :: 0 <= i < |cmds| ==> Answers(r.value[i], id, cmds, t, results, out, i)
  {
    hide Check, Normalize, Weight, Render, Depth, Shows, Answers;
    var left, next, slots := out.maxBytes, 0, [];
    for n := 0 to |cmds|
      invariant next == Rank(id, cmds, t, n) <= |results| && |slots| == n
      invariant forall i :: 0 <= i < next ==> Acceptable(results[i])
      invariant TotalWeight(results[..next], out) <= out.maxBytes && left == out.maxBytes - TotalWeight(results[..next], out)
      invariant forall i :: 0 <= i < n ==> Answers(slots[i], id, cmds, t, results, out, i)
    {
      assert cmds[..n + 1][..n] == cmds[..n];
      if denials[n].Some? {
        DenialAnswers(id, cmds, t, results, out, n, denials[n].value);
        slots := slots + [Failure(denials[n].value)];
      } else {
        RankGrows(id, cmds, t, n + 1);
        if next == |results| {
          return Err(Internal("pipeline executor returned too few results"));
        }
        assert results[..next + 1][..next] == results[..next];
        var slot, rest := Settle(results[next], out, left);
        if slot.Err? {
          WeightGrows(results, out, next + 1);
          return Err(slot.error);
        }
        ResultAnswers(id, cmds, t, results, out, n, slot.value);
        slots, left, next := slots + [slot.value], rest, next + 1;
      }
    }
    assert cmds[..|cmds|] == cmds;
    if next < |results| {
      return Err(Internal("pipeline executor returned too many results"));
    }
    assert results[..next] == results;
    r := Ok(slots);
  }

  function FromAcquireError(e: AcquireError, out: Output): AppError {
    match e
    case UnknownPool(pool) => Internal("identity referenced unknown Redis pool '" + pool + "'")
    case PoolOverloaded => Overloaded(out.shedRetryAfter)
    case BreakerOpen(retryAfter) => PoolOpen(retryAfter, "circuit breaker cooldown active")
    case PoolFault(message) => Internal(message)
  }

  /** What the caller of a shed request learns: the breaker's own delay, or the configured one; faults carry no delay. */
  lemma SheddingSaysWhenToRetry(e: AcquireError, out: Output)
    ensures FromAcquireError(e, out).PoolOpen? <==> e.BreakerOpen?
    ensures e.BreakerOpen? ==> FromAcquireError(e, out).retryAfter == e.retryAfter
    ensures FromAcquireError(e, out).Overloaded? <==> e.PoolOverloaded?
    ensures e.PoolOverloaded? ==> FromAcquireError(e, out) == Overloaded(out.shedRetryAfter)
    ensures e.UnknownPool? || e.PoolFault? ==> FromAcquireError(e, out).Internal?
  {
  }

  /** A failed transaction: an error of Redis is the client's own, a size is a size, and lost backends say when to retry. */
  lemma FailuresKeepTheirKind(e: ExecError, out: Output)
    ensures e.Redis? ==> FromExecError(e, out) == RedisError(e.message)
    ensures FromExecError(e, out) == TooLarge <==> e == ResponseTooLarge
    ensures e.Timeout? || e.Transport? ==>
              FromExecError(e, out).PoolOpen? && FromExecError(e, out).retryAfter == out.shedRetryAfter
    ensures e.Transport? ==> FromExecError(e, out).reason == e.message
  {
  }

  function FromExecError(e: ExecError, out: Output): AppError {
    match e
    case Redis(message) => RedisError(message)
    case ResponseTooLarge => TooLarge
    case Timeout => PoolOpen(out.shedRetryAfter, "Redis command timed out")
    case Transport(reason) => PoolOpen(out.shedRetryAfter, reason)
  }

  function FromAclError(e: AclError): AppError {
    match e
    case InvalidCommand => BadRequest("Invalid command")
    case Forbidden(message) => NotPermitted(message)
  }

  lemma AllowedIsPlain(id: Identity, c: Command, t: Text)
    requires Allowed(id, c, t)
    ensures !TransactionState(Upper(Normalize(c).name))
  {
    hide Check, Upper;
    NormalizingKeepsTheDecision(id, c, t);
    if TransactionState(Upper(Normalize(c).name)) {
      TransactionStateIsNeverPermitted(id, Normalize(c), t);
    }
  }

  lemma {:induction false} SentIsPlain(id: Identity, cmds: seq<Command>, t: Text)
    ensures FredRuns.Plain(SentOf(id, cmds, t))
  {
    hide Allowed, Upper, Normalize;
    if cmds != [] {
      var last := |cmds| - 1;
      SentIsPlain(id, cmds[..last], t);
      if Allowed(id, cmds[last], t) {
        AllowedIsPlain(id, cmds[last], t);
      }
    }
  }

  /** The results of n commands sent from this step on, each by its own reply and fate. */
  function ResultsOf(step: nat, env: Env, n: nat): (r: seq<ExecResult>)
    ensures |r| == n && forall i :: 0 <= i < n ==> r[i] == ResultOf(step, env, i)
  {
    seq(n, i requires 0 <= i < n => ResultOf(step, env, i))
  }

  /** The allowed commands over the acquired connection, for any schedule of their answers. */
  method SendPipeline(id: Identity, cmds: seq<Command>, t: Text, executor: FredExecutor, schedule: seq<Turn>, sent: seq<Command>)
    returns (results: seq<ExecResult>)
    requires sent == SentOf(id, cmds, t) && !executor.conn.inMulti && Finishes(|sent|, schedule)
    modifies executor
    ensures results == ResultsOf(old(executor.step), executor.env, |sent|) && !executor.conn.inMulti
    ensures executor.conn.executed == old(executor.conn).executed + RanOf(sent, old(executor.step), executor.env, |sent|)
  {
    hide FlightRun, Progress, Finishes, ResultOf, RanOf, FredRuns.Plain;
    SentIsPlain(id, cmds, t);
    PipelineAnswersInOrder(executor.conn, executor.resetStarted, sent, executor.step, executor.env, schedule);
    results := executor.RunPipeline(sent, schedule);
  }

  /**
   The pipeline handler, given the parsed commands, the outcome of acquiring a connection and
   the order in which its answers come back.  The allowed commands, normalized and in order,
   and nothing else, go to the server; nothing is sent or acquired for none.  Each slot is the
   command's denial or what its own reply makes of it.
   */
  method ExecutePipeline(id: Identity, cmds: seq<Command>, t: Text, acquired: Result<FredExecutor, AcquireError>,
                         schedule: seq<Turn>, out: Output)
    returns (r: Result<seq<Slot>, AppError>)
    requires out.Valid()
    requires acquired.Ok? ==> !acquired.value.conn.inMulti && Finishes(|SentOf(id, cmds, t)|, schedule)
    modifies if acquired.Ok? then {acquired.value} else {}
    ensures (exists i :: 0 <= i < |cmds| && cmds[i].name == "") ==>
              r == Err(BadRequest("Invalid command")) && (acquired.Ok? ==> unchanged(acquired.value))
    ensures (forall i :: 0 <= i < |cmds| ==> cmds[i].name != "") && SentOf(id, cmds, t) == [] ==>
              && (acquired.Ok? ==> unchanged(acquired.value))
              && r.Ok? && |r.value| == |cmds| && forall i :: 0 <= i < |cmds| ==> Answers(r.value[i], id, cmds, t, [], out, i)
    ensures (forall i :: 0 <= i < |cmds| ==> cmds[i].name != "") && SentOf(id, cmds, t) != [] && acquired.Err? ==>
              r == Err(FromAcquireError(acquired.error, out))
    ensures (forall i :: 0 <= i < |cmds| ==> cmds[i].name != "") && SentOf(id, cmds, t) != [] && acquired.Ok? ==>
              var executor, sent := acquired.value, SentOf(id, cmds, t);
              var results := ResultsOf(old(executor.step), executor.env, |sent|);
              && !executor.conn.inMulti
              && executor.conn.executed == old(executor.conn).executed + RanOf(sent, old(executor.step), executor.env, |sent|)
              && (r.Ok? <==> Fits(results, out)) && (r.Err? ==> r.error == TooLarge)
              && (r.Ok? ==> |r.value| == |cmds| && forall i :: 0 <= i < |cmds| ==> Answers(r.value[i], id, cmds, t, results, out, i))
  {
    hide Check, SentOf, Answers, RanOf, ResultOf, Finishes;
    var invalid, sent, denials := Screen(id, cmds, t);
    if invalid {
      return Err(BadRequest("Invalid command"));
    }
    var results := [];
    if sent != [] {
      if acquired.Err? {
        return Err(FromAcquireError(acquired.error, out));
      }
      results := SendPipeline(id, cmds, t, acquired.value, schedule, sent);
    }
    r := Merge(id, cmds, t, denials, results, out);
  }

  function NormalizeAll(cmds: seq<Command>): (r: seq<Command>)
    ensures |r| == |cmds| && forall i :: 0 <= i < |cmds| ==> r[i] == Normalize(cmds[i])
  {
    seq(|cmds|, i requires 0 <= i < |cmds| => Normalize(cmds[i]))
  }

  predicate AllAllowed(id: Identity, cmds: seq<Command>, t: Text) {
    forall i :: 0 <= i < |cmds| ==> Allowed(id, cmds[i], t)
  }

  /** The refusal of the first command that is not allowed. */
  ghost predicate FirstRefusal(id: Identity, cmds: seq<Command>, t: Text, i: nat, e: AppError) {
    && i < |cmds| && AllAllowed(id, cmds[..i], t) && Check(id, cmds[i], t).Err?
    && match Check(id, cmds[i], t).error
       case InvalidCommand => e == BadRequest("Invalid command")
       case Forbidden(message) => e == NotPermitted(message)
  }

  method ScreenAll(id: Identity, cmds: seq<Command>, t: Text) returns (refusal: Option<AppError>)
    ensures refusal.None? <==> AllAllowed(id, cmds, t)
    ensures refusal.Some? ==> exists i :: FirstRefusal(id, cmds, t, i, refusal.value)
  {
    hide Check;
    for n := 0 to |cmds|
      invariant AllAllowed(id, cmds[..n], t)
    {
      if Check(id, cmds[n], t).Err? {
        assert !Allowed(id, cmds[n], t);
        assert FirstRefusal(id, cmds, t, n, FromAclError(Check(id, cmds[n], t).error));
        return Some(FromAclError(Check(id, cmds[n], t).error));
      }
    }
    assert cmds[..|cmds|] == cmds;
    refusal := None;
  }

  lemma AllSentArePlain(id: Identity, cmds: seq<Command>, t: Text)
    requires AllAllowed(id, cmds, t)
    ensures FredRuns.Plain(NormalizeAll(cmds))
  {
    hide Allowed, Upper, Normalize;
    forall i | 0 <= i < |cmds|
      ensures !TransactionState(Upper(NormalizeAll(cmds)[i].name))
    {
      AllowedIsPlain(id, cmds[i], t);
    }
  }

  /** One slot per frame: each renders the reply that its command got. */
  ghost predicate Renders(slots: seq<Slot>, frames: seq<Frame>, env: Env, out: Output) {
    && |slots| == |frames|
    && forall i :: 0 <= i < |frames| ==>
         Acceptable(FrameToResp(frames[i], env.utf8)) && Shows(slots[i], FrameToResp(frames[i], env.utf8), out)
  }

  /**
   The multi-exec handler, given the parsed commands and the outcome of acquiring a connection.
   Nothing is sent unless every command is allowed; then all of them run, normalized and in
   order, or none does; and on success there is one slot per command, which renders the reply
   that command got when it ran.
   */
  method ExecuteMulti(id: Identity, cmds: seq<Command>, t: Text, acquired: Result<FredExecutor, AcquireError>, out: Output)
    returns (r: Result<seq<Slot>, AppError>)
    requires out.Valid() && (acquired.Ok? ==> acquired.value.env.Valid() && !acquired.value.conn.inMulti)
    modifies if acquired.Ok? then {acquired.value} else {}
    ensures cmds == [] ==> r == Err(BadRequest("Invalid command"))
    ensures cmds != [] && AllAllowed(id, cmds, t) && acquired.Ok? && Agreeable(acquired.value.env) ==>
              Transaction(old(acquired.value.View()), NormalizeAll(cmds), acquired.value.env).1.Ok?
    ensures cmds != [] && !AllAllowed(id, cmds, t) ==> r.Err? && exists i :: FirstRefusal(id, cmds, t, i, r.error)
    ensures (cmds == [] || !AllAllowed(id, cmds, t)) && acquired.Ok? ==> unchanged(acquired.value)
    ensures cmds != [] && AllAllowed(id, cmds, t) && acquired.Err? ==> r == Err(FromAcquireError(acquired.error, out))
    ensures cmds != [] && AllAllowed(id, cmds, t) && acquired.Ok? ==>
              var executor, sent := acquired.value, NormalizeAll(cmds);
              var (k, outcome) := Transaction(old(executor.View()), sent, executor.env);
              && executor.View() == k
              && (executor.conn.executed == old(executor.conn).executed ||
                  exists frames :: Ran(old(executor.conn), executor.conn, sent, frames))
              && (!old(executor.resetStarted) ==> !executor.conn.inMulti)
              && (outcome.Err? ==> r == Err(FromExecError(outcome.error, out)))
              && (outcome.Ok? ==> (r.Ok? <==> Fits(outcome.value, out)) && (r.Err? ==> r.error == TooLarge))
              && (r.Ok? ==> |r.value| == |cmds| && exists frames ::
                    Ran(old(executor.conn), executor.conn, sent, frames) && Renders(r.value, frames, executor.env, out))
  {
    hide Check, Normalize, Transaction, Ran, FrameToResp, Shows, Acceptable, FredRuns.Plain, Fits;
    if cmds == [] {
      return Err(BadRequest("Invalid command"));
    }
    var refusal := ScreenAll(id, cmds, t);
    if refusal.Some? {
      return Err(refusal.value);
    }
    if acquired.Err? {
      return Err(FromAcquireError(acquired.error, out));
    }
    var executor, sent := acquired.value, NormalizeAll(cmds);
    AllSentArePlain(id, cmds, t);
    TransactionRuns(executor.View(), sent, executor.env);
    if Agreeable(executor.env) {
      AgreeableTransactionSucceeds(executor.View(), sent, executor.env);
    }
    if !executor.resetStarted {
      FreshTransactionEnds(executor.View(), sent, executor.env);
    }
    var outcome := executor.RunTransaction(sent);
    if outcome.Err? {
      return Err(FromExecError(outcome.error, out));
    }
    r := SettleAll(outcome.value, out);
    if r.Ok? {
      ghost var frames :| Ran(old(executor.conn), executor.conn, sent, frames) && outcome.value == ConvertAll(frames, executor.env);
      assert Renders(r.value, frames, executor.env, out);
      RanOneEach(old(executor.conn), executor.conn, sent, frames);
    }
  }

  lemma RanOneEach(before: Conn, after: Conn, cmds: seq<Command>, frames: seq<Frame>)
    requires Ran(before, after, cmds, frames)
    ensures |frames| == |cmds|
  {
  }

  /** Maps transaction results slot by slot, charging successes against one budget. */
  method SettleAll(results: seq<ExecResult>, out: Output) returns (r: Result<seq<Slot>, AppError>)
    requires out.Valid()
    ensures (r.Ok? <==> Fits(results, out)) && (r.Err? ==> r.error == TooLarge)
    ensures r.Ok? ==> |r.value| == |results| && forall i :: 0 <= i < |results| ==>
              Acceptable(results[i]) && Shows(r.value[i], results[i], out)
  {
    hide Weight, Render, Depth, Shows;
    var left, slots := out.maxBytes, [];
    for n := 0 to |results|
      invariant |slots| == n
      invariant forall i :: 0 <= i < n ==> Acceptable(results[i]) && Shows(slots[i], results[i], out)
      invariant TotalWeight(results[..n], out) <= out.maxBytes && left == out.maxBytes - TotalWeight(results[..n], out)
    {
      assert results[..n + 1][..n] == results[..n];
      var slot, rest := Settle(results[n], out, left);
      if slot.Err? {
        WeightGrows(results, out, n + 1);
        return Err(slot.error);
      }
      slots, left := slots + [slot.value], rest;
    }
    assert results[..|results|] == results;
    r := Ok(slots);
  }
}
