/**
 Request parsing under a budget of JSON nodes.

 A request body is a well-formed JSON tree; tokenizing and number formatting are abstract.
 Every value and every object key costs one unit, charged before it is read, and the reader
 stops at the first element that is malformed or cannot be paid for.
 */
module Parse {
  import opened Common
  import opened Resp

  datatype Tree =
    | TNull
    | TBool(b: bool)
    | TNumber(digits: string)
    | TString(text: string)
    | TArray(elements: seq<Tree>)
    | TObject(members: seq<Member>)

  datatype Member = Member(key: string, value: Tree)

  /** The in-memory value; a repeated key keeps its last value. */
  datatype Value =
    | Null
    | Bool(b: bool)
    | Number(digits: string)
    | String(text: string)
    | Array(elements: seq<Value>)
    | Object(members: map<string, Value>)

  /** UTF-8 encoding and the JSON text of a nested value. */
  datatype Codec = Codec(utf8: string -> Bytes, json: Value -> Bytes)

  datatype ParseError = Invalid | PipelineTooLarge | RequestTooComplex

  datatype Limit = PipelineCommands | RequestElements

  function Build(t: Tree): Value {
    match t
    case TNull => Null
    case TBool(b) => Bool(b)
    case TNumber(digits) => Number(digits)
    case TString(text) => String(text)
    case TArray(elements) => Value.Array(BuildAll(elements))
    case TObject(members) => Object(BuildMembers(members))
  }

  function BuildAll(ts: seq<Tree>): (r: seq<Value>)
    ensures |r| == |ts|
  {
    if ts == [] then [] else BuildAll(ts[..|ts| - 1]) + [Build(ts[|ts| - 1])]
  }

  function BuildMembers(ms: seq<Member>): map<string, Value> {
    if ms == [] then map[]
    else
      var last := ms[|ms| - 1];
      BuildMembers(ms[..|ms| - 1])[last.key := Build(last.value)]
  }

  /** Values plus object keys. */
  function Nodes(t: Tree): nat {
    match t
    case TArray(elements) => 1 + NodesAll(elements)
    case TObject(members) => 1 + NodesOfMembers(members)
    case _ => 1
  }

  function NodesAll(ts: seq<Tree>): nat {
    if ts == [] then 0 else NodesAll(ts[..|ts| - 1]) + Nodes(ts[|ts| - 1])
  }

  function NodesOfMembers(ms: seq<Member>): nat {
    if ms == [] then 0 else NodesOfMembers(ms[..|ms| - 1]) + 1 + Nodes(ms[|ms| - 1].value)
  }

  /** The shared contract for argument encoding. */
  function ValueToBytes(v: Value, codec: Codec): Bytes {
    match v
    case String(text) => codec.utf8(text)
    case Number(digits) => codec.utf8(digits)
    case Bool(b) => codec.utf8(if b then "true" else "false")
    case Null => codec.utf8("null")
    case _ => codec.json(v)
  }

  function ArgumentsOf(ts: seq<Tree>, codec: Codec): (r: seq<Bytes>)
    ensures |r| == |ts| && forall i :: 0 <= i < |ts| ==> r[i] == ValueToBytes(Build(ts[i]), codec)
  {
    seq(|ts|, i requires 0 <= i < |ts| => ValueToBytes(Build(ts[i]), codec))
  }

  predicate IsCommand(t: Tree) {
    t.TArray? && t.elements != [] && t.elements[0].TString?
  }

  /** The command has the head's text for a name and one argument per further element, in order. */
  ghost predicate Reads(c: Command, t: Tree, codec: Codec)
    requires IsCommand(t)
  {
    && c.name == t.elements[0].text && |c.args| == |t.elements| - 1
    && forall i :: 0 <= i < |c.args| ==> c.args[i] == ValueToBytes(Build(t.elements[i + 1]), codec)
  }

  function CommandOf(t: Tree, codec: Codec): (c: Command)
    requires IsCommand(t)
    ensures Reads(c, t, codec)
  {
    Command(t.elements[0].text, ArgumentsOf(t.elements[1..], codec))
  }

  /** Arguments by kind: text and digits as they stand, the three literals by name, nested values as JSON text. */
  lemma ArgumentsByKind(t: Tree, codec: Codec)
    ensures var bytes := ValueToBytes(Build(t), codec);
            match t
            case TString(text) => bytes == codec.utf8(text)
            case TNumber(digits) => bytes == codec.utf8(digits)
            case TBool(b) => bytes == if b then codec.utf8("true") else codec.utf8("false")
            case TNull => bytes == codec.utf8("null")
            case _ => bytes == codec.json(Build(t))
  {
  }

  /** Building keeps arrays element by element. */
  lemma {:induction false} BuildsElements(ts: seq<Tree>, i: nat)
    requires i < |ts|
    ensures BuildAll(ts)[i] == Build(ts[i]) && Build(TArray(ts)) == Value.Array(BuildAll(ts))
  {
    if i < |ts| - 1 {
      BuildsElements(ts[..|ts| - 1], i);
    }
  }

  /** An object has the keys that occur, each with the value of its last occurrence. */
  lemma {:induction false} BuildsLastMembers(ms: seq<Member>, key: string)
    ensures key in BuildMembers(ms) <==> exists i :: 0 <= i < |ms| && ms[i].key == key
    ensures key in BuildMembers(ms) ==>
              exists i :: 0 <= i < |ms| && ms[i].key == key && BuildMembers(ms)[key] == Build(ms[i].value) &&
                forall j :: i < j < |ms| ==> ms[j].key != key
  {
    hide Build;
    if ms != [] {
      var last := |ms| - 1;
      BuildsLastMembers(ms[..last], key);
      if ms[last].key != key && key in BuildMembers(ms[..last]) {
        var i :| 0 <= i < last && ms[..last][i].key == key && BuildMembers(ms[..last])[key] == Build(ms[..last][i].value) &&
          forall j :: i < j < last ==> ms[..last][j].key != key;
        assert ms[..last][i] == ms[i] && forall j :: i < j < last ==> ms[..last][j] == ms[j];
      }
    }
  }

  function ValuesOf(ms: seq<Member>): (r: seq<Tree>)
    ensures |r| == |ms| && forall i :: 0 <= i < |ms| ==> r[i] == ms[i].value
  {
    seq(|ms|, i requires 0 <= i < |ms| => ms[i].value)
  }

  /** An object costs one for itself, one per key, repeated keys included, and its values like an array's. */
  lemma {:induction false} ObjectsCostKeysAndValues(ms: seq<Member>)
    ensures NodesOfMembers(ms) == |ms| + NodesAll(ValuesOf(ms)) && Nodes(TObject(ms)) == |ms| + Nodes(TArray(ValuesOf(ms)))
  {
    if ms != [] {
      ObjectsCostKeysAndValues(ms[..|ms| - 1]);
      assert ValuesOf(ms)[..|ms| - 1] == ValuesOf(ms[..|ms| - 1]);
    }
  }

  lemma {:induction false} NodesGrow(ts: seq<Tree>, i: nat)
    requires i <= |ts|
    ensures NodesAll(ts[..i]) <= NodesAll(ts)
    decreases |ts|
  {
    if i == |ts| {
      assert ts[..i] == ts;
    } else {
      NodesGrow(ts[..|ts| - 1], i);
      assert ts[..|ts| - 1][..i] == ts[..i];
    }
  }

  lemma {:induction false} MemberNodesGrow(ms: seq<Member>, i: nat)
    requires i <= |ms|
    ensures NodesOfMembers(ms[..i]) <= NodesOfMembers(ms)
    decreases |ms|
  {
    if i == |ms| {
      assert ms[..i] == ms;
    } else {
      MemberNodesGrow(ms[..|ms| - 1], i);
      assert ms[..|ms| - 1][..i] == ms[..i];
    }
  }

  lemma {:induction false} NodesSplit(ts: seq<Tree>)
    requires ts != []
    ensures NodesAll(ts) == Nodes(ts[0]) + NodesAll(ts[1..])
    decreases |ts|
  {
    if |ts| == 1 {
      assert ts[..0] == [] && ts[1..] == [];
    } else {
      var init := ts[..|ts| - 1];
      NodesSplit(init);
      assert init[1..] == ts[1..][..|ts| - 2];
      assert ts[1..][|ts| - 2] == ts[|ts| - 1];
    }
  }

  class Reader {
    var remaining: nat
    var exceeded: Option<Limit>

    constructor (budget: nat)
      ensures remaining == budget && exceeded == None
    {
      remaining, exceeded := budget, None;
    }

    method Charge() returns (ok: bool)
      modifies this
      ensures ok <==> old(remaining) >= 1
      ensures ok ==> remaining == old(remaining) - 1 && exceeded == old(exceeded)
      ensures !ok ==> remaining == old(remaining) && exceeded == Some(RequestElements)
    {
      if remaining == 0 {
        exceeded := Some(RequestElements);
        return false;
      }
      remaining := remaining - 1;
      ok := true;
    }

    /** Reads a value exactly when its nodes can be paid for. */
    method ReadValue(t: Tree) returns (v: Option<Value>)
      modifies this
      ensures v.Some? <==> Nodes(t) <= old(remaining)
      ensures v.Some? ==> v.value == Build(t) && remaining == old(remaining) - Nodes(t) && exceeded == old(exceeded)
      ensures v.None? ==> exceeded == Some(RequestElements)
      decreases t, 1
    {
      var ok := Charge();
      if !ok {
        return None;
      }
      match t {
        case TNull => v := Some(Null);
        case TBool(b) => v := Some(Bool(b));
        case TNumber(digits) => v := Some(Number(digits));
        case TString(text) => v := Some(String(text));
        case TArray(elements) =>
          var values := ReadElements(elements);
          v := if values.Some? then Some(Value.Array(values.value)) else None;
        case TObject(members) =>
          var values := ReadMembers(members);
          v := if values.Some? then Some(Object(values.value)) else None;
      }
    }

    method ReadElements(ts: seq<Tree>) returns (vs: Option<seq<Value>>)
      modifies this
      ensures vs.Some? <==> NodesAll(ts) <= old(remaining)
      ensures vs.Some? ==> vs.value == BuildAll(ts) && remaining == old(remaining) - NodesAll(ts) && exceeded == old(exceeded)
      ensures vs.None? ==> exceeded == Some(RequestElements)
      decreases ts, 0
    {
      var values := [];
      for i := 0 to |ts|
        invariant values == BuildAll(ts[..i]) && exceeded == old(exceeded)
        invariant NodesAll(ts[..i]) <= old(remaining) && remaining == old(remaining) - NodesAll(ts[..i])
      {
        assert ts[..i + 1][..i] == ts[..i];
        var v := ReadValue(ts[i]);
        if v.None? {
          NodesGrow(ts, i + 1);
          return None;
        }
        values := values + [v.value];
      }
      assert ts[..|ts|] == ts;
      vs := Some(values);
    }

    method ReadMembers(ms: seq<Member>) returns (vs: Option<map<string, Value>>)
      modifies this
      ensures vs.Some? <==> NodesOfMembers(ms) <= old(remaining)
      ensures vs.Some? ==> vs.value == BuildMembers(ms) && remaining == old(remaining) - NodesOfMembers(ms) && exceeded == old(exceeded)
      ensures vs.None? ==> exceeded == Some(RequestElements)
      decreases ms, 0
    {
      var values := map[];
      for i := 0 to |ms|
        invariant values == BuildMembers(ms[..i]) && exceeded == old(exceeded)
        invariant NodesOfMembers(ms[..i]) <= old(remaining) && remaining == old(remaining) - NodesOfMembers(ms[..i])
      {
        assert ms[..i + 1][..i] == ms[..i];
        MemberNodesGrow(ms, i + 1);
        var ok := Charge();
        if !ok {
          return None;
        }
        var v := ReadValue(ms[i].value);
        if v.None? {
          return None;
        }
        values := values[ms[i].key := v.value];
      }
      assert ms[..|ms|] == ms;
      vs := Some(values);
    }

    /** Scalars become bytes directly; nested values go through the shared conversion. */
    method ReadArgument(t: Tree, codec: Codec) returns (arg: Option<Bytes>)
      modifies this
      ensures arg.Some? <==> Nodes(t) <= old(remaining)
      ensures arg.Some? ==> arg.value == ValueToBytes(Build(t), codec) && remaining == old(remaining) - Nodes(t) && exceeded == old(exceeded)
      ensures arg.None? ==> exceeded == Some(RequestElements)
    {
      var ok := Charge();
      if !ok {
        return None;
      }
      match t {
        case TNull => arg := Some(codec.utf8("null"));
        case TBool(b) => arg := Some(codec.utf8(if b then "true" else "false"));
        case TNumber(digits) => arg := Some(codec.utf8(digits));
        case TString(text) => arg := Some(codec.utf8(text));
        case TArray(elements) =>
          var values := ReadElements(elements);
          arg := if values.Some? then Some(ValueToBytes(Value.Array(values.value), codec)) else None;
        case TObject(members) =>
          var values := ReadMembers(members);
          arg := if values.Some? then Some(ValueToBytes(Object(values.value), codec)) else None;
      }
    }

    method ReadArguments(ts: seq<Tree>, codec: Codec) returns (args: Option<seq<Bytes>>)
      modifies this
      ensures args.Some? <==> NodesAll(ts) <= old(remaining)
      ensures args.Some? ==> args.value == ArgumentsOf(ts, codec) && remaining == old(remaining) - NodesAll(ts) && exceeded == old(exceeded)
      ensures args.None? ==> exceeded == Some(RequestElements)
    {
      var bytes := [];
      for i := 0 to |ts|
        invariant |bytes| == i && exceeded == old(exceeded)
        invariant forall j :: 0 <= j < i ==> bytes[j] == ValueToBytes(Build(ts[j]), codec)
        invariant NodesAll(ts[..i]) <= old(remaining) && remaining == old(remaining) - NodesAll(ts[..i])
      {
        assert ts[..i + 1][..i] == ts[..i];
        var arg := ReadArgument(ts[i], codec);
        if arg.None? {
          NodesGrow(ts, i + 1);
          return None;
        }
        bytes := bytes + [arg.value];
      }
      assert ts[..|ts|] == ts && bytes == ArgumentsOf(ts, codec);
      args := Some(bytes);
    }

    method ReadCommand(t: Tree, codec: Codec) returns (c: Option<Command>)
      modifies this
      ensures c.Some? <==> IsCommand(t) && Nodes(t) <= old(remaining)
      ensures c.Some? ==> c.value == CommandOf(t, codec) && remaining == old(remaining) - Nodes(t) && exceeded == old(exceeded)
      ensures c.None? ==> exceeded == if Unpaid(t, old(remaining)) then Some(RequestElements) else old(exceeded)
    {
      var ok := Charge();
      if !ok {
        return None;
      }
      if !t.TArray? || t.elements == [] {
        return None;
      }
      NodesSplit(t.elements);
      var rest := t.elements[1..];
      ok := Charge();
      if !ok {
        return None;
      }
      if !t.elements[0].TString? {
        return None;
      }
      var args := ReadArguments(rest, codec);
      if args.None? {
        return None;
      }
      c := Some(Command(t.elements[0].text, args.value));
    }

    /** The elements of a pipeline, the budget having paid for the array itself. */
    method ReadCommands(ts: seq<Tree>, maxCommands: nat, codec: Codec, ghost budget: nat) returns (cs: Option<seq<Command>>)
      requires exceeded == None && remaining == budget - 1
      modifies this
      ensures cs.Some? <==> |ts| <= maxCommands && Readable(ts, |ts|, budget)
      ensures cs.Some? ==> exceeded == None
      ensures cs.Some? ==> |cs.value| == |ts| && forall i :: 0 <= i < |ts| ==>
                IsCommand(ts[i]) && cs.value[i] == CommandOf(ts[i], codec)
      ensures exceeded == Some(PipelineCommands) <==> |ts| > maxCommands && Readable(ts, maxCommands, budget)
      ensures exceeded == Some(RequestElements) <==>
                exists n: nat :: n < maxCommands && RunsOutAt(ts, n, budget)
    {
      hide Readable, IsCommand, CommandOf, Nodes, Unpaid;
      var commands, n := [], 0;
      NothingRead(ts, budget);
      while n < maxCommands && n < |ts|
        invariant n <= |ts| && n <= maxCommands && |commands| == n && exceeded == None
        invariant Readable(ts, n, budget) && remaining == budget - 1 - NodesAll(ts[..n])
        invariant forall i :: 0 <= i < n ==> IsCommand(ts[i]) && commands[i] == CommandOf(ts[i], codec)
      {
        ReadableNext(ts, n, budget);
        var c := ReadCommand(ts[n], codec);
        if c.None? {
          StopsAt(ts, n, budget);
          assert Unpaid(ts[n], budget - 1 - NodesAll(ts[..n])) ==> RunsOutAt(ts, n, budget);
          return None;
        }
        commands, n := commands + [c.value], n + 1;
      }
      RunsOutOnce(ts, n, budget);
      if n < |ts| {
        exceeded := Some(PipelineCommands);
        return None;
      }
      cs := Some(commands);
    }
  }

  function Classify(exceeded: Option<Limit>): ParseError {
    match exceeded
    case Some(PipelineCommands) => PipelineTooLarge
    case Some(RequestElements) => RequestTooComplex
    case None => Invalid
  }

  /**
   A command is accepted exactly when it is a nonempty array with a string head whose nodes fit
   the budget, and each argument is then what the shared conversion makes of it.
   */
  method ParseCommand(t: Tree, budget: nat, codec: Codec) returns (r: Result<Command, ParseError>)
    ensures r.Ok? <==> IsCommand(t) && Nodes(t) <= budget
    ensures r.Ok? ==>
              && r.value.name == t.elements[0].text && |r.value.args| == |t.elements| - 1
              && forall i :: 0 <= i < |r.value.args| ==> r.value.args[i] == ValueToBytes(Build(t.elements[i + 1]), codec)
    ensures r.Err? ==> r.error == if Unpaid(t, budget) then RequestTooComplex else Invalid
  {
    var reader := new Reader(budget);
    var c := reader.ReadCommand(t, codec);
    r := if c.Some? then Ok(c.value) else Err(Classify(reader.exceeded));
  }

  /** The first n elements are commands that the budget pays for, after the array itself. */
  predicate Readable(ts: seq<Tree>, n: nat, budget: nat)
    requires n <= |ts|
  {
    1 + NodesAll(ts[..n]) <= budget && forall i :: 0 <= i < n ==> IsCommand(ts[i])
  }

  lemma NothingRead(ts: seq<Tree>, budget: nat)
    requires budget >= 1
    ensures NodesAll(ts[..0]) == 0 && Readable(ts, 0, budget)
  {
  }

  lemma ReadableNext(ts: seq<Tree>, n: nat, budget: nat)
    requires n < |ts| && Readable(ts, n, budget)
    ensures Readable(ts, n + 1, budget) <==> IsCommand(ts[n]) && Nodes(ts[n]) <= budget - 1 - NodesAll(ts[..n])
    ensures NodesAll(ts[..n + 1]) == NodesAll(ts[..n]) + Nodes(ts[n])
  {
    assert ts[..n + 1][..n] == ts[..n];
  }

  lemma UnreadableStays(ts: seq<Tree>, n: nat, m: nat, budget: nat)
    requires n <= m <= |ts| && Readable(ts, m, budget)
    ensures Readable(ts, n, budget)
  {
    NodesGrow(ts[..m], n);
    assert ts[..m][..n] == ts[..n];
  }

  /** Element n is where the budget runs out, everything before it having been read. */
  predicate RunsOutAt(ts: seq<Tree>, n: nat, budget: nat) {
    n < |ts| && Readable(ts, n, budget) && Unpaid(ts[n], budget - 1 - NodesAll(ts[..n]))
  }

  lemma RunsOutOnce(ts: seq<Tree>, n: nat, budget: nat)
    requires n <= |ts| && Readable(ts, n, budget)
    ensures forall k: nat :: k < n ==> !RunsOutAt(ts, k, budget)
    ensures n < |ts| && !Readable(ts, n + 1, budget) ==> forall k: nat :: n < k ==> !RunsOutAt(ts, k, budget)
  {
    forall k: nat | k < n && RunsOutAt(ts, k, budget)
      ensures false
    {
      UnreadableStays(ts, k + 1, n, budget);
      ReadableNext(ts, k, budget);
      NodesSplit(ts[k].elements);
    }
    forall k: nat | n < k && RunsOutAt(ts, k, budget)
      ensures Readable(ts, n + 1, budget)
    {
      UnreadableStays(ts, n + 1, k, budget);
    }
  }

  /** Where reading stops short, no longer prefix is readable, and the budget can only have run out right there. */
  lemma StopsAt(ts: seq<Tree>, n: nat, budget: nat)
    requires n < |ts| && Readable(ts, n, budget) && !Readable(ts, n + 1, budget)
    ensures forall m :: n < m <= |ts| ==> !Readable(ts, m, budget)
    ensures forall k: nat :: RunsOutAt(ts, k, budget) <==> k == n && Unpaid(ts[n], budget - 1 - NodesAll(ts[..n]))
  {
    RunsOutOnce(ts, n, budget);
    forall m | n < m <= |ts| && Readable(ts, m, budget)
      ensures false
    {
      UnreadableStays(ts, n + 1, m, budget);
    }
  }

  /**
   A pipeline is accepted exactly when it is an array of at most maxCommands commands whose
   nodes fit the budget; it is reported as too large exactly when it has more elements and the
   first maxCommands of them are commands within the budget.
   */
  method ParsePipeline(t: Tree, maxCommands: nat, budget: nat, codec: Codec) returns (r: Result<seq<Command>, ParseError>)
    ensures r.Ok? <==> t.TArray? && |t.elements| <= maxCommands && Readable(t.elements, |t.elements|, budget)
    ensures r.Ok? ==> |r.value| == |t.elements| && forall i :: 0 <= i < |r.value| ==>
              IsCommand(t.elements[i]) && Reads(r.value[i], t.elements[i], codec)
    ensures r == Err(PipelineTooLarge) <==>
              t.TArray? && |t.elements| > maxCommands && Readable(t.elements, maxCommands, budget)
    ensures r == Err(RequestTooComplex) <==>
              budget == 0 || (t.TArray? && exists n: nat :: n < maxCommands && RunsOutAt(t.elements, n, budget))
  {
    var reader := new Reader(budget);
    var ok := reader.Charge();
    if !ok {
      return Err(Classify(reader.exceeded));
    }
    if !t.TArray? {
      return Err(Classify(reader.exceeded));
    }
    var commands := reader.ReadCommands(t.elements, maxCommands, codec, budget);
    hide Readable, RunsOutAt, Build, ValueToBytes;
    r := if commands.Some? then Ok(commands.value) else Err(Classify(reader.exceeded));
  }

  /** The budget runs out before the shape of the command is known to be wrong. */
  predicate Unpaid(t: Tree, budget: nat) {
    || budget == 0
    || (t.TArray? && t.elements != [] && (budget == 1 || (t.elements[0].TString? && Nodes(t) > budget)))
  }
}
