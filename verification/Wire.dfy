/** What travels between the engine, the proxy and the client: bytes, decoded text, and JSON. The
    `encoding_rs` decoder, the JSON parser and the JSON printer are arbitrary functions. */
module Wire {
  import opened Text

  type byte = x: int | 0 <= x < 0x100

  /** An incremental decoder: one step per byte, and what it still holds at the end of the stream. */
  datatype Decoder = Decoder(step: (nat, byte) -> (nat, string), flush: nat -> string)

  const FRESH_DECODER: nat := 0

  function Decode(d: Decoder, state: nat, bytes: seq<byte>): (nat, string) {
    if bytes == [] then (state, "")
    else
      var (before, text) := Decode(d, state, bytes[..|bytes| - 1]);
      var (after, more) := d.step(before, bytes[|bytes| - 1]);
      (after, text + more)
  }

  lemma {:induction false} DecodeAppend(d: Decoder, state: nat, a: seq<byte>, b: seq<byte>)
    ensures
      var second := Decode(d, Decode(d, state, a).0, b);
      Decode(d, state, a + b) == (second.0, Decode(d, state, a).1 + second.1)
  {
    if b == [] {
      assert a + b == a && Decode(d, state, a).1 + "" == Decode(d, state, a).1;
    } else {
      var (middle, first) := Decode(d, state, a);
      DecodeAppend(d, state, a, b[..|b| - 1]);
      assert (a + b)[..|a + b| - 1] == a + b[..|b| - 1];
      var (before, text) := Decode(d, middle, b[..|b| - 1]);
      var (_, more) := d.step(before, b[|b| - 1]);
      assert first + text + more == first + (text + more);
    }
  }

  datatype Value =
    | Null
    | Bool(b: bool)
    | Number(unsigned: Option<nat>)
    | Str(s: string)
    | Arr(items: seq<Value>)
    | Obj(fields: map<string, Value>)

  /** `Value::get` with a key. */
  function Get(v: Value, key: string): Option<Value> {
    if v.Obj? && key in v.fields then Some(v.fields[key]) else None
  }

  /** One step of a JSON pointer that reads "0". */
  function GetFirst(v: Value): Option<Value> {
    if v.Arr? then if v.items != [] then Some(v.items[0]) else None
    else Get(v, "0")
  }

  function AndThen(v: Option<Value>, key: string): Option<Value> {
    if v.Some? then Get(v.value, key) else None
  }

  function AsStr(v: Option<Value>): Option<string> {
    if v.Some? && v.value.Str? then Some(v.value.s) else None
  }

  function AsArray(v: Option<Value>): seq<Value> {
    if v.Some? && v.value.Arr? then v.value.items else []
  }

  function AsNat(v: Option<Value>): Option<nat> {
    if v.Some? && v.value.Number? then v.value.unsigned else None
  }

  /** A tool call, and what the engine answers to one request. */
  datatype ToolCall = ToolCall(index: nat, id: string, name: string, arguments: string)

  datatype Completion = Completion(
    content: string,
    toolCalls: seq<ToolCall>,
    finishReason: Option<string>,
    completionTokens: Option<nat>)
}
