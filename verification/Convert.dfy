/** Bounding and rendering replies: the response budget, the depth cap and the JSON form. */
module Convert {
  import opened Common
  import opened Resp
  import Base64

  const NODE_COST: nat := 8
  const MAX_DEPTH: nat := 64

  const OK: Bytes := [79, 75]

  datatype Encoding = Plain | Base64Encoded

  datatype Json = JString(text: Bytes) | JNumber(n: int) | JNull | JArray(values: seq<Json>)

  /** Lossy conversion of bytes to UTF-8 text; charging and rendering use the same one. */
  type Lossy = Bytes -> Bytes

  function Render(v: RespValue, enc: Encoding, lossy: Lossy): Json {
    match v
    case Simple(text) =>
      if enc == Base64Encoded && text != OK then JString(Base64.Encode(text)) else JString(text)
    case Bulk(data) =>
      if enc == Base64Encoded then JString(Base64.Encode(data)) else JString(lossy(data))
    case Int(n) => JNumber(n)
    case Nil => JNull
    case Array(values) => JArray(RenderAll(values, enc, lossy))
  }

  function RenderAll(values: seq<RespValue>, enc: Encoding, lossy: Lossy): (r: seq<Json>)
    ensures |r| == |values|
    ensures forall i :: 0 <= i < |values| ==> r[i] == Render(values[i], enc, lossy)
  {
    if values == [] then []
    else
      var last := |values| - 1;
      RenderAll(values[..last], enc, lossy) + [Render(values[last], enc, lossy)]
  }

  /** What a rendered reply weighs: eight per node plus the bytes of its strings. */
  function Weight(j: Json): nat {
    match j
    case JString(text) => NODE_COST + |text|
    case JNumber(_) => NODE_COST
    case JNull => NODE_COST
    case JArray(values) => NODE_COST + WeightAll(values)
  }

  function WeightAll(values: seq<Json>): nat {
    if values == [] then 0
    else WeightAll(values[..|values| - 1]) + Weight(values[|values| - 1])
  }

  function JsonNodes(j: Json): nat {
    if j.JArray? then 1 + JsonNodesAll(j.values) else 1
  }

  function JsonNodesAll(values: seq<Json>): nat {
    if values == [] then 0 else JsonNodesAll(values[..|values| - 1]) + JsonNodes(values[|values| - 1])
  }

  /** All the text of a rendered reply, string after string. */
  function TextOf(j: Json): Bytes {
    match j
    case JString(text) => text
    case JArray(values) => TextOfAll(values)
    case _ => []
  }

  function TextOfAll(values: seq<Json>): Bytes {
    if values == [] then [] else TextOfAll(values[..|values| - 1]) + TextOf(values[|values| - 1])
  }

  /** A rendered reply weighs eight per node and one per byte of its text. */
  lemma {:induction false} WeightCounts(j: Json)
    ensures Weight(j) == 8 * JsonNodes(j) + |TextOf(j)|
    decreases j, 1
  {
    if j.JArray? {
      WeightsCount(j.values);
    }
  }

  lemma {:induction false} WeightsCount(values: seq<Json>)
    ensures WeightAll(values) == 8 * JsonNodesAll(values) + |TextOfAll(values)|
    decreases values, 0
  {
    if values != [] {
      WeightsCount(values[..|values| - 1]);
      WeightCounts(values[|values| - 1]);
    }
  }

  function Max(a: nat, b: nat): nat {
    if a >= b then a else b
  }

  function Depth(v: RespValue): nat {
    if v.Array? then 1 + DepthAll(v.values) else 1
  }

  function DepthAll(values: seq<RespValue>): nat {
    if values == [] then 0
    else Max(DepthAll(values[..|values| - 1]), Depth(values[|values| - 1]))
  }

  /** Padded length with checked arithmetic; None is an overflow. */
  function Base64EncodedLen(inputLen: nat): (r: Option<nat>)
    ensures r.Some? <==> (inputLen + 2) / 3 * 4 <= MAX_U64
    ensures r.Some? ==> r.value == (inputLen + 2) / 3 * 4
  {
    if inputLen + 2 > MAX_U64 then None
    else
      var groups := (inputLen + 2) / 3;
      if groups * 4 > MAX_U64 then None else Some(groups * 4)
  }

  method Charge(budget: nat, amount: nat) returns (left: Option<nat>)
    ensures left == if amount <= budget then Some(budget - amount) else None
  {
    if amount <= budget {
      left := Some(budget - amount);
    } else {
      left := None;
    }
  }

  /**
   Charging succeeds exactly when the nesting fits the cap and the rendered reply fits the
   budget, and then deducts exactly the rendered weight.
   */
  method ChargeWithinDepth(v: RespValue, enc: Encoding, lossy: Lossy, budget: nat, depth: nat) returns (left: Option<nat>)
    requires budget <= MAX_U64
    ensures left.Some? <==> Depth(v) <= depth && Weight(Render(v, enc, lossy)) <= budget
    ensures left.Some? ==> left.value == budget - Weight(Render(v, enc, lossy))
    decreases v, 1
  {
    hide Base64.Encode, RenderAll, WeightAll, DepthAll;
    if depth == 0 {
      return None;
    }
    left := Charge(budget, NODE_COST);
    if left.None? {
      return;
    }
    match v {
      case Simple(text) =>
        if enc == Base64Encoded && text != OK {
          var len := Base64EncodedLen(|text|);
          if len.None? {
            return None;
          }
          left := Charge(left.value, len.value);
        } else {
          left := Charge(left.value, |text|);
        }
      case Bulk(data) =>
        if enc == Base64Encoded {
          var len := Base64EncodedLen(|data|);
          if len.None? {
            return None;
          }
          left := Charge(left.value, len.value);
        } else {
          left := Charge(left.value, |lossy(data)|);
        }
      case Int(_) =>
      case Nil =>
      case Array(values) =>
        left := ChargeAll(values, enc, lossy, left.value, depth - 1);
    }
  }

  method ChargeAll(values: seq<RespValue>, enc: Encoding, lossy: Lossy, budget: nat, depth: nat) returns (left: Option<nat>)
    requires budget <= MAX_U64
    ensures left.Some? <==> DepthAll(values) <= depth && WeightAll(RenderAll(values, enc, lossy)) <= budget
    ensures left.Some? ==> left.value == budget - WeightAll(RenderAll(values, enc, lossy))
    decreases values, 0
  {
    hide Render, Weight, Depth, RenderAll;
    ghost var js := RenderAll(values, enc, lossy);
    left := Some(budget);
    for i := 0 to |values|
      invariant left.Some? && DepthAll(values[..i]) <= depth && WeightAll(js[..i]) <= budget
      invariant left.value == budget - WeightAll(js[..i])
    {
      assert values[..i + 1][..i] == values[..i] && js[..i + 1][..i] == js[..i];
      left := ChargeWithinDepth(values[i], enc, lossy, left.value, depth);
      if left.None? {
        PrefixesGrow(values, js, i + 1);
        return;
      }
    }
    assert values[..|values|] == values && js[..|values|] == js;
  }

  lemma {:induction false} PrefixesGrow(values: seq<RespValue>, js: seq<Json>, i: nat)
    requires i <= |values| == |js|
    ensures DepthAll(values[..i]) <= DepthAll(values) && WeightAll(js[..i]) <= WeightAll(js)
    decreases |values|
  {
    if i == |values| {
      assert values[..i] == values && js[..i] == js;
    } else {
      var last := |values| - 1;
      PrefixesGrow(values[..last], js[..last], i);
      assert values[..last][..i] == values[..i] && js[..last][..i] == js[..i];
    }
  }

  method ChargeResponseBudget(v: RespValue, enc: Encoding, lossy: Lossy, budget: nat) returns (left: Option<nat>)
    requires budget <= MAX_U64
    ensures left == Charged(v, enc, lossy, budget)
    ensures left.Some? <==> Depth(v) <= 64 && Weight(Render(v, enc, lossy)) <= budget
    ensures left.Some? ==> left.value == budget - Weight(Render(v, enc, lossy))
  {
    left := ChargeWithinDepth(v, enc, lossy, budget, MAX_DEPTH);
  }

  /** The budget left after a reply, or None if it is too deep or too heavy. */
  function Charged(v: RespValue, enc: Encoding, lossy: Lossy, budget: nat): Option<nat> {
    var weight := Weight(Render(v, enc, lossy));
    if Depth(v) <= MAX_DEPTH && weight <= budget then Some(budget - weight) else None
  }

  /** An overflow of the base64 length only happens to replies heavier than any 64-bit budget. */
  lemma OverflowMeansTooHeavy(data: Bytes, lossy: Lossy, budget: nat)
    requires budget <= MAX_U64
    ensures Base64EncodedLen(|data|).None? ==> Weight(Render(Bulk(data), Base64Encoded, lossy)) > budget
    ensures Base64EncodedLen(|data|).Some? ==> Base64EncodedLen(|data|).value == |Base64.Encode(data)|
  {
  }

  // ---------------------------------------------------------------- reading the rendered form back

  /** A reply with the distinction between simple and bulk strings forgotten. */
  function Flatten(v: RespValue): RespValue {
    match v
    case Simple(text) => Bulk(text)
    case Array(values) => Array(FlattenAll(values))
    case _ => v
  }

  function FlattenAll(values: seq<RespValue>): seq<RespValue> {
    if values == [] then [] else [Flatten(values[0])] + FlattenAll(values[1..])
  }

  /** How a client reads a reply it asked for in base64: only the bare OK is literal. */
  function Read(j: Json): Option<RespValue> {
    match j
    case JString(text) =>
      if text == OK then Some(Bulk(OK))
      else
        var data := Base64.Decode(text);
        if data.Some? then Some(Bulk(data.value)) else None
    case JNumber(n) => Some(Int(n))
    case JNull => Some(Nil)
    case JArray(values) =>
      var all := ReadAll(values);
      if all.Some? then Some(Array(all.value)) else None
  }

  function ReadAll(values: seq<Json>): Option<seq<RespValue>> {
    if values == [] then Some([])
    else
      var head, tail := Read(values[0]), ReadAll(values[1..]);
      if head.Some? && tail.Some? then Some([head.value] + tail.value) else None
  }

  /** In base64 mode the rendered JSON of any reply reads back as that reply, up to simple against bulk. */
  lemma {:induction false} RenderingRoundTrips(v: RespValue, lossy: Lossy)
    ensures Read(Render(v, Base64Encoded, lossy)) == Some(Flatten(v))
    decreases v, 1
  {
    hide Base64.Encode, Base64.Decode, FlattenAll, ReadAll, RenderAll;
    match v
    case Simple(text) =>
      Base64.RoundTrip(text);
    case Bulk(data) =>
      Base64.RoundTrip(data);
      assert |Base64.Encode(data)| % 4 == 0 && |OK| == 2;
    case Int(_) =>
    case Nil =>
    case Array(values) =>
      AllRoundTrip(values, RenderAll(values, Base64Encoded, lossy), lossy);
  }

  lemma {:induction false} AllRoundTrip(values: seq<RespValue>, js: seq<Json>, lossy: Lossy)
    requires |js| == |values| && forall i :: 0 <= i < |values| ==> js[i] == Render(values[i], Base64Encoded, lossy)
    ensures ReadAll(js) == Some(FlattenAll(values))
    decreases values, 0
  {
    if values != [] {
      RenderingRoundTrips(values[0], lossy);
      AllRoundTrip(values[1..], js[1..], lossy);
    }
  }

  /** How a client reads a reply in the plain form. */
  function ReadPlain(j: Json): RespValue {
    match j
    case JString(text) => Bulk(text)
    case JNumber(n) => Int(n)
    case JNull => Nil
    case JArray(values) => Array(ReadPlainAll(values))
  }

  function ReadPlainAll(values: seq<Json>): seq<RespValue> {
    if values == [] then [] else [ReadPlain(values[0])] + ReadPlainAll(values[1..])
  }

  /** A reply whose bulk strings have been made text; simple strings are text already. */
  function Legible(v: RespValue, lossy: Lossy): RespValue {
    match v
    case Bulk(data) => Bulk(lossy(data))
    case Array(values) => Array(LegibleAll(values, lossy))
    case _ => v
  }

  function LegibleAll(values: seq<RespValue>, lossy: Lossy): seq<RespValue> {
    if values == [] then [] else [Legible(values[0], lossy)] + LegibleAll(values[1..], lossy)
  }

  /** The plain form loses nothing but the bytes that are no text, and simple against bulk. */
  lemma {:induction false} PlainRenderingReadsBack(v: RespValue, lossy: Lossy)
    ensures ReadPlain(Render(v, Plain, lossy)) == Flatten(Legible(v, lossy))
    decreases v, 1
  {
    if v.Array? {
      AllReadBack(v.values, RenderAll(v.values, Plain, lossy), lossy);
    }
  }

  lemma {:induction false} AllReadBack(values: seq<RespValue>, js: seq<Json>, lossy: Lossy)
    requires |js| == |values| && forall i :: 0 <= i < |values| ==> js[i] == Render(values[i], Plain, lossy)
    ensures ReadPlainAll(js) == FlattenAll(LegibleAll(values, lossy))
    decreases values, 0
  {
    if values != [] {
      PlainRenderingReadsBack(values[0], lossy);
      AllReadBack(values[1..], js[1..], lossy);
      assert LegibleAll(values, lossy)[1..] == LegibleAll(values[1..], lossy);
    }
  }

  // ---------------------------------------------------------------- frames from the wire

  datatype Frame =
    | SimpleString(data: Bytes)
    | BlobString(data: Bytes)
    | Number(n: int)
    | Null
    | FrameArray(frames: seq<Frame>)
    | ErrorReply(message: string)    // simple and blob errors
    | Unexpected(kind: string)       // the RESP3 kinds a RESP2 connection must not send

  function ProtocolViolation(message: string): ExecError {
    Transport("Redis protocol violation: " + message)
  }

  /** Converts a frame, spending one level of depth per nesting; the first failure wins. */
  function FrameWithinDepth(f: Frame, utf8: Bytes -> bool, depth: nat): ExecResult {
    if depth == 0 then Err(ResponseTooLarge)
    else
      match f
      case SimpleString(data) => if utf8(data) then Ok(Simple(data)) else Err(ProtocolViolation("non-UTF-8 RESP2 simple string"))
      case BlobString(data) => Ok(Bulk(data))
      case Number(n) => Ok(Int(n))
      case Null => Ok(Nil)
      case FrameArray(frames) =>
        var all := FramesWithinDepth(frames, utf8, depth - 1);
        if all.Ok? then Ok(Array(all.value)) else Err(all.error)
      case ErrorReply(message) => Err(Redis(message))
      case Unexpected(kind) => Err(ProtocolViolation("unexpected RESP3 " + kind))
  }

  function FramesWithinDepth(frames: seq<Frame>, utf8: Bytes -> bool, depth: nat): Result<seq<RespValue>, ExecError> {
    if frames == [] then Ok([])
    else
      var last := |frames| - 1;
      var init := FramesWithinDepth(frames[..last], utf8, depth);
      if init.Err? then init
      else
        var v := FrameWithinDepth(frames[last], utf8, depth);
        if v.Ok? then Ok(init.value + [v.value]) else Err(v.error)
  }

  function FrameToResp(f: Frame, utf8: Bytes -> bool): ExecResult {
    FrameWithinDepth(f, utf8, MAX_DEPTH)
  }

  /** Whether every leaf is a RESP2 value. */
  predicate Clean(f: Frame, utf8: Bytes -> bool) {
    match f
    case SimpleString(data) => utf8(data)
    case FrameArray(frames) => forall i :: 0 <= i < |frames| ==> Clean(frames[i], utf8)
    case ErrorReply(_) => false
    case Unexpected(_) => false
    case _ => true
  }

  function FrameDepth(f: Frame): nat {
    if f.FrameArray? then 1 + FrameDepthAll(f.frames) else 1
  }

  function FrameDepthAll(frames: seq<Frame>): nat {
    if frames == [] then 0
    else Max(FrameDepthAll(frames[..|frames| - 1]), FrameDepth(frames[|frames| - 1]))
  }

  /** The frame that carries a reply. */
  function ToFrame(v: RespValue): Frame {
    match v
    case Simple(text) => SimpleString(text)
    case Bulk(data) => BlobString(data)
    case Int(n) => Number(n)
    case Nil => Null
    case Array(values) => FrameArray(seq(|values|, i requires 0 <= i < |values| => ToFrame(values[i])))
  }

  /** A frame is accepted exactly when it nests within the cap and every leaf is a RESP2 value, and nothing is lost. */
  lemma {:induction false} AcceptedFrames(f: Frame, utf8: Bytes -> bool, depth: nat)
    ensures FrameWithinDepth(f, utf8, depth).Ok? <==> FrameDepth(f) <= depth && Clean(f, utf8)
    ensures var r := FrameWithinDepth(f, utf8, depth);
            r.Ok? ==> ToFrame(r.value) == f && Depth(r.value) == FrameDepth(f)
    decreases f, 1
  {
    if depth > 0 && f.FrameArray? {
      AcceptedAll(f.frames, utf8, depth - 1);
    }
  }

  lemma {:induction false} AcceptedAll(frames: seq<Frame>, utf8: Bytes -> bool, depth: nat)
    ensures FramesWithinDepth(frames, utf8, depth).Ok? <==>
              FrameDepthAll(frames) <= depth && forall i :: 0 <= i < |frames| ==> Clean(frames[i], utf8)
    ensures var r := FramesWithinDepth(frames, utf8, depth);
            r.Ok? ==>
              && |r.value| == |frames| && DepthAll(r.value) == FrameDepthAll(frames)
              && forall i :: 0 <= i < |frames| ==> ToFrame(r.value[i]) == frames[i]
    decreases frames, 0
  {
    hide FrameWithinDepth, FrameDepth, Depth, Clean, ToFrame;
    if frames != [] {
      var last := |frames| - 1;
      AcceptedAll(frames[..last], utf8, depth);
      AcceptedFrames(frames[last], utf8, depth);
    }
  }

  /** Why a frame is refused: too deep, an error of Redis, or a kind that RESP2 does not have; an array by its first refused element. */
  lemma RefusedFrames(f: Frame, utf8: Bytes -> bool, depth: nat)
    requires FrameWithinDepth(f, utf8, depth).Err?
    ensures var e := FrameWithinDepth(f, utf8, depth).error;
            if depth == 0 then e == ResponseTooLarge
            else
              match f
              case ErrorReply(message) => e == Redis(message)
              case FrameArray(frames) =>
                exists i :: 0 <= i < |frames| && FrameWithinDepth(frames[i], utf8, depth - 1) == Err(e) &&
                  forall j :: 0 <= j < i ==> FrameWithinDepth(frames[j], utf8, depth - 1).Ok?
              case _ => e.Transport? && "Redis protocol violation: " <= e.message
  {
    if depth > 0 && f.FrameArray? {
      FirstRefusal(f.frames, utf8, depth - 1);
    }
  }

  lemma {:induction false} FirstRefusal(frames: seq<Frame>, utf8: Bytes -> bool, depth: nat)
    ensures var r := FramesWithinDepth(frames, utf8, depth);
            if r.Ok? then forall j :: 0 <= j < |frames| ==> FrameWithinDepth(frames[j], utf8, depth).Ok?
            else exists i :: 0 <= i < |frames| && FrameWithinDepth(frames[i], utf8, depth) == Err(r.error) &&
                   forall j :: 0 <= j < i ==> FrameWithinDepth(frames[j], utf8, depth).Ok?
  {
    hide FrameWithinDepth;
    if frames != [] {
      var last := |frames| - 1;
      FirstRefusal(frames[..last], utf8, depth);
      var init := FramesWithinDepth(frames[..last], utf8, depth);
      if init.Err? {
        var i :| 0 <= i < last && FrameWithinDepth(frames[..last][i], utf8, depth) == Err(init.error) &&
          forall j :: 0 <= j < i ==> FrameWithinDepth(frames[..last][j], utf8, depth).Ok?;
        assert frames[..last][i] == frames[i] && forall j :: 0 <= j < i ==> frames[..last][j] == frames[j];
      } else {
        assert forall j :: 0 <= j < last ==> frames[..last][j] == frames[j];
        assert FrameWithinDepth(frames[last], utf8, depth).Ok? ==>
                 forall j :: 0 <= j < |frames| ==> FrameWithinDepth(frames[j], utf8, depth).Ok?;
      }
    }
  }

  /** A reply that came through the converter can be refused for its size, never for its depth. */
  lemma ConvertedRepliesFailOnlyOnSize(f: Frame, utf8: Bytes -> bool, enc: Encoding, lossy: Lossy, budget: nat)
    requires FrameToResp(f, utf8).Ok?
    ensures var v := FrameToResp(f, utf8).value;
            Charged(v, enc, lossy, budget).None? <==> Weight(Render(v, enc, lossy)) > budget
  {
    AcceptedFrames(f, utf8, MAX_DEPTH);
  }
}
