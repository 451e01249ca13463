/**
 * What the streaming parser does with a server-sent event stream: a reference machine that takes
 * one character at a time, and the meaning of each payload it finds. The format is the part of
 * sections 9.2.5 and 9.2.6 of the WHATWG HTML Living Standard that the upstreams use: lines end
 * in LF or CRLF, and a field is the exact prefix "data: ".
 */
module SseModel {
  import opened Wrappers

  datatype Json =
    | JNull
    | JBool(b: bool)
    | JNumber(n: real)
    | JString(s: string)
    | JArray(items: seq<Json>)
    | JObject(members: map<string, Json>)
  {
    predicate Has(name: string) {
      JObject? && name in members
    }

    predicate HasString(name: string) {
      Has(name) && members[name].JString?
    }

    predicate IsEmpty() {
      JNull? || (JArray? && items == []) || (JObject? && members == map[])
    }
  }

  /** The JSON library's parser, and whether a tool-call callback was given. */
  datatype Config = Config(parse: string -> Option<Json>, toolCallback: bool)

  datatype Event = Token(text: string) | ToolCall(id: string, name: string, arguments: string) | Done

  /** The tool call under construction. */
  datatype Pending = Pending(id: string, name: string, arguments: string)

  const NO_CALL := Pending("", "", "")

  datatype Parser = Parser(buffer: string, pending: Pending, events: seq<Event>)

  // ---- payloads ----

  /** The first choice of a parsed payload: none, one the library refuses to index, or a delta. */
  datatype Choice = Absent | Refused | Delta(delta: Json, finishes: bool)

  function FirstChoice(obj: Json): Choice {
    if !obj.Has("choices") || obj.members["choices"].IsEmpty() then Absent
    else if !obj.members["choices"].JArray? then Refused
    else
      var c0 := obj.members["choices"].items[0];
      if !c0.JObject? then Refused
      else
        Delta(if c0.Has("delta") then c0.members["delta"] else JNull,
              c0.HasString("finish_reason") && c0.members["finish_reason"].s == "tool_calls")
  }

  function CallPart(delta: Json): Option<Json> {
    if delta.Has("tool_calls") && delta.members["tool_calls"].JArray? && delta.members["tool_calls"].items != []
    then Some(delta.members["tool_calls"].items[0]) else None
  }

  function FunctionPart(delta: Json): Option<Json> {
    var tc := CallPart(delta);
    if tc.Some? && tc.value.Has("function") then Some(tc.value.members["function"]) else None
  }

  function NamedId(delta: Json): Option<string> {
    var tc := CallPart(delta);
    if tc.Some? && tc.value.HasString("id") then Some(tc.value.members["id"].s) else None
  }

  function NamedFunction(delta: Json): Option<string> {
    var fn := FunctionPart(delta);
    if fn.Some? && fn.value.HasString("name") then Some(fn.value.members["name"].s) else None
  }

  /** The piece of the arguments this delta brings. */
  function Fragment(delta: Json): string {
    var fn := FunctionPart(delta);
    if fn.Some? && fn.value.HasString("arguments") then fn.value.members["arguments"].s else ""
  }

  function Extended(p: Pending, delta: Json): Pending {
    Pending(if NamedId(delta).Some? then NamedId(delta).value else p.id,
            if NamedFunction(delta).Some? then NamedFunction(delta).value else p.name,
            p.arguments + Fragment(delta))
  }

  function ContentToken(delta: Json): seq<Event> {
    if delta.HasString("content") && delta.members["content"].s != "" then [Token(delta.members["content"].s)] else []
  }

  const DONE_MARK := "[DONE]"

  /** A payload that is not JSON, or that the library refuses, is passed on as a token itself. */
  function RawToken(payload: string): seq<Event> {
    if payload == "" then [] else [Token(payload)]
  }

  function Handled(cfg: Config, st: Parser, payload: string): Parser {
    if payload == DONE_MARK then st.(events := st.events + [Done])
    else
      match cfg.parse(payload)
      case None => st.(events := st.events + RawToken(payload))
      case Some(obj) =>
        match FirstChoice(obj)
        case Absent => st
        case Refused => st.(events := st.events + RawToken(payload))
        case Delta(delta, finishes) =>
          var p := Extended(st.pending, delta);
          if finishes then
            st.(pending := NO_CALL, events := st.events + Finished(cfg, p))
          else st.(pending := p, events := st.events + ContentToken(delta))
  }

  function Finished(cfg: Config, p: Pending): seq<Event> {
    (if cfg.toolCallback && p.id != "" then [ToolCall(p.id, p.name, p.arguments)] else []) + [Done]
  }

  function AllHandled(cfg: Config, st: Parser, payloads: seq<string>): Parser {
    if payloads == [] then st
    else Handled(cfg, AllHandled(cfg, st, payloads[..|payloads| - 1]), payloads[|payloads| - 1])
  }

  // ---- lines ----

  const PREFIX := "data: "

  function WithoutCr(line: string): string {
    if line != "" && line[|line| - 1] == '\r' then line[..|line| - 1] else line
  }

  function PayloadOf(line: string): Option<string> {
    if line == "" || line[0] == ':' then None
    else if |line| < |PREFIX| || line[..|PREFIX|] != PREFIX then None
    else Some(line[|PREFIX|..])
  }

  function LineHandled(cfg: Config, st: Parser, line: string): Parser {
    match PayloadOf(line)
    case None => st
    case Some(payload) => Handled(cfg, st, payload)
  }

  // ---- the reference machine ----

  /** One character: a newline ends the line collected so far. */
  function Step(cfg: Config, st: Parser, c: char): Parser {
    if c == '\n' then LineHandled(cfg, st.(buffer := ""), WithoutCr(st.buffer))
    else st.(buffer := st.buffer + [c])
  }

  function Fed(cfg: Config, st: Parser, data: string): Parser
    decreases |data|
  {
    if data == "" then st else Fed(cfg, Step(cfg, st, data[0]), data[1..])
  }

  function FedAll(cfg: Config, st: Parser, chunks: seq<string>): Parser
    decreases |chunks|
  {
    if chunks == [] then st else FedAll(cfg, Fed(cfg, st, chunks[0]), chunks[1..])
  }

  function Flatten(chunks: seq<string>): string {
    if chunks == [] then "" else chunks[0] + Flatten(chunks[1..])
  }

  lemma {:induction false} FedConcat(cfg: Config, st: Parser, a: string, b: string)
    ensures Fed(cfg, st, a + b) == Fed(cfg, Fed(cfg, st, a), b)
    decreases |a|
  {
    if a == "" {
      assert a + b == b;
    } else {
      assert (a + b)[1..] == a[1..] + b;
      FedConcat(cfg, Step(cfg, st, a[0]), a[1..], b);
    }
  }

  lemma {:induction false} FedAllIsFed(cfg: Config, st: Parser, chunks: seq<string>)
    ensures FedAll(cfg, st, chunks) == Fed(cfg, st, Flatten(chunks))
    decreases |chunks|
  {
    if chunks != [] {
      FedAllIsFed(cfg, Fed(cfg, st, chunks[0]), chunks[1..]);
      FedConcat(cfg, st, chunks[0], Flatten(chunks[1..]));
    }
  }

  /** However the same bytes are cut up, callbacks, residual buffer and pending call come out the same. */
  lemma ChunkingIsInvisible(cfg: Config, st: Parser, chunks: seq<string>, others: seq<string>)
    requires Flatten(chunks) == Flatten(others)
    ensures FedAll(cfg, st, chunks) == FedAll(cfg, st, others)
  {
    FedAllIsFed(cfg, st, chunks);
    FedAllIsFed(cfg, st, others);
  }

  lemma {:induction false} FedPlain(cfg: Config, st: Parser, data: string)
    requires '\n' !in data
    ensures Fed(cfg, st, data) == st.(buffer := st.buffer + data)
    decreases |data|
  {
    if data != "" {
      FedPlain(cfg, Step(cfg, st, data[0]), data[1..]);
      assert st.buffer + [data[0]] + data[1..] == st.buffer + data;
    }
  }

  /** A complete line, newline included. */
  lemma FedLine(cfg: Config, st: Parser, line: string, rest: string)
    requires '\n' !in line && st.buffer == ""
    ensures Fed(cfg, st, line + "\n" + rest) == Fed(cfg, LineHandled(cfg, st, WithoutCr(line)), rest)
  {
    FedConcat(cfg, st, line, "\n" + rest);
    assert line + ("\n" + rest) == line + "\n" + rest;
    FedPlain(cfg, st, line);
    assert ("\n" + rest)[1..] == rest;
    assert st.buffer + line == line;
    assert st.(buffer := line).(buffer := "") == st;
  }

  /** The next complete line of a text. */
  lemma NextLine(cfg: Config, st: Parser, text: string, start: nat, nl: nat)
    requires start <= nl < |text| && text[nl] == '\n' && '\n' !in text[start..nl] && st.buffer == ""
    ensures Fed(cfg, st, text[start..]) == Fed(cfg, LineHandled(cfg, st, WithoutCr(text[start..nl])), text[nl + 1..])
  {
    FedLine(cfg, st, text[start..nl], text[nl + 1..]);
    assert text[start..] == text[start..nl] + "\n" + text[nl + 1..];
  }
}
