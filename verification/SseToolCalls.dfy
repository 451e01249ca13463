/** Streams with tool calls and with odd payloads, from the bytes on the wire to the callbacks. */
module SseToolCalls {
  import opened Wrappers
  import opened SseModel
  import opened SseRoundTrip

  // ---- the chunks of a streamed tool call ----

  function ChoiceChunk(delta: Json, finishReason: Json): Json {
    JObject(map["object" := JString("chat.completion.chunk"),
                "choices" := JArray([JObject(map["index" := JNumber(0.0), "delta" := delta, "finish_reason" := finishReason])])])
  }

  /** The first chunk names the call and brings the first piece of its arguments. */
  function StartChunk(id: string, name: string, piece: string): Json {
    ChoiceChunk(JObject(map["tool_calls" := JArray([JObject(map["index" := JNumber(0.0), "id" := JString(id),
                                                                "type" := JString("function"),
                                                                "function" := JObject(map["name" := JString(name),
                                                                                          "arguments" := JString(piece)])])])]),
                JNull)
  }

  /** The following ones bring one more piece each. */
  function MoreChunk(piece: string): Json {
    ChoiceChunk(JObject(map["tool_calls" := JArray([JObject(map["index" := JNumber(0.0),
                                                                "function" := JObject(map["arguments" := JString(piece)])])])]),
                JNull)
  }

  function EndChunk(): Json {
    ChoiceChunk(JObject(map[]), JString("tool_calls"))
  }

  /** The chunk is written on one line and reads back, as a JSON library promises. */
  predicate Transmits(cfg: Config, dump: Json -> string, j: Json) {
    OneLine(dump(j)) && dump(j) != "[DONE]" && cfg.parse(dump(j)) == Some(j)
  }

  function MorePayloads(dump: Json -> string, pieces: seq<string>): seq<string> {
    if pieces == [] then []
    else MorePayloads(dump, pieces[..|pieces| - 1]) + [dump(MoreChunk(pieces[|pieces| - 1]))]
  }

  function CallPayloads(dump: Json -> string, id: string, name: string, first: string, pieces: seq<string>): seq<string> {
    [dump(StartChunk(id, name, first))] + MorePayloads(dump, pieces)
  }

  function JoinedPieces(pieces: seq<string>): string {
    if pieces == [] then "" else JoinedPieces(pieces[..|pieces| - 1]) + pieces[|pieces| - 1]
  }

  ghost predicate Sent(cfg: Config, dump: Json -> string, id: string, name: string, first: string, pieces: seq<string>) {
    && Transmits(cfg, dump, StartChunk(id, name, first)) && Transmits(cfg, dump, EndChunk())
    && forall i :: TransmitsAt(cfg, dump, pieces, i)
  }

  predicate TransmitsAt(cfg: Config, dump: Json -> string, pieces: seq<string>, i: int) {
    0 <= i < |pieces| ==> Transmits(cfg, dump, MoreChunk(pieces[i]))
  }

  // ---- what each chunk does ----

  lemma StartHandled(cfg: Config, dump: Json -> string, st: Parser, id: string, name: string, piece: string)
    requires Transmits(cfg, dump, StartChunk(id, name, piece)) && st.pending == NO_CALL
    ensures Handled(cfg, st, dump(StartChunk(id, name, piece))) == st.(pending := Pending(id, name, piece))
  {
    var j := StartChunk(id, name, piece);
    var c0 := j.members["choices"].items[0];
    var delta := c0.members["delta"];
    assert !c0.HasString("finish_reason");
    assert FirstChoice(j) == Delta(delta, false);
    var tc := delta.members["tool_calls"].items[0];
    assert CallPart(delta) == Some(tc) && tc.HasString("id");
    var fn := tc.members["function"];
    assert FunctionPart(delta) == Some(fn) && fn.HasString("name") && fn.HasString("arguments");
    assert !delta.Has("content");
    assert "" + piece == piece;
  }

  lemma MoreHandled(cfg: Config, dump: Json -> string, st: Parser, piece: string)
    requires Transmits(cfg, dump, MoreChunk(piece))
    ensures Handled(cfg, st, dump(MoreChunk(piece))) == st.(pending := st.pending.(arguments := st.pending.arguments + piece))
  {
    var j := MoreChunk(piece);
    var c0 := j.members["choices"].items[0];
    var delta := c0.members["delta"];
    assert !c0.HasString("finish_reason");
    assert FirstChoice(j) == Delta(delta, false);
    var tc := delta.members["tool_calls"].items[0];
    assert CallPart(delta) == Some(tc) && !tc.HasString("id");
    var fn := tc.members["function"];
    assert FunctionPart(delta) == Some(fn) && !fn.HasString("name") && fn.HasString("arguments");
    assert !delta.Has("content");
  }

  lemma EndHandled(cfg: Config, dump: Json -> string, st: Parser)
    requires Transmits(cfg, dump, EndChunk())
    ensures Handled(cfg, st, dump(EndChunk())) ==
            st.(pending := NO_CALL,
                events := st.events + (if cfg.toolCallback && st.pending.id != ""
                                       then [ToolCall(st.pending.id, st.pending.name, st.pending.arguments), Done]
                                       else [Done]))
  {
    var j := EndChunk();
    var c0 := j.members["choices"].items[0];
    var delta := c0.members["delta"];
    assert c0.HasString("finish_reason") && c0.members["finish_reason"].s == "tool_calls";
    assert FirstChoice(j) == Delta(delta, true);
    assert CallPart(delta) == None;
    assert Extended(st.pending, delta) == st.pending by {
      assert st.pending.arguments + "" == st.pending.arguments;
    }
  }

  lemma TransmitsPrefix(cfg: Config, dump: Json -> string, pieces: seq<string>, n: nat)
    requires n <= |pieces| && forall i :: TransmitsAt(cfg, dump, pieces, i)
    ensures forall i :: TransmitsAt(cfg, dump, pieces[..n], i)
  {
    forall i ensures TransmitsAt(cfg, dump, pieces[..n], i) {
      assert TransmitsAt(cfg, dump, pieces, i);
    }
  }

  lemma {:induction false} PiecesAreLines(cfg: Config, dump: Json -> string, pieces: seq<string>)
    requires forall i :: TransmitsAt(cfg, dump, pieces, i)
    ensures forall i :: 0 <= i < |MorePayloads(dump, pieces)| ==> OneLine(MorePayloads(dump, pieces)[i])
  {
    if pieces != [] {
      var n := |pieces| - 1;
      TransmitsPrefix(cfg, dump, pieces, n);
      PiecesAreLines(cfg, dump, pieces[..n]);
      assert TransmitsAt(cfg, dump, pieces, n);
    }
  }

  lemma AllHandledLast(cfg: Config, st: Parser, ps: seq<string>, p: string)
    ensures AllHandled(cfg, st, ps + [p]) == Handled(cfg, AllHandled(cfg, st, ps), p)
  {
    assert (ps + [p])[..|ps|] == ps;
  }

  lemma {:induction false} PiecesHandled(cfg: Config, dump: Json -> string, st: Parser, pieces: seq<string>)
    requires forall i :: TransmitsAt(cfg, dump, pieces, i)
    ensures AllHandled(cfg, st, MorePayloads(dump, pieces))
         == st.(pending := st.pending.(arguments := st.pending.arguments + JoinedPieces(pieces)))
  {
    if pieces == [] {
      assert st.pending.arguments + "" == st.pending.arguments;
    } else {
      var n := |pieces| - 1;
      TransmitsPrefix(cfg, dump, pieces, n);
      PiecesHandled(cfg, dump, st, pieces[..n]);
      PieceHandled(cfg, dump, st, pieces, n);
    }
  }

  lemma PieceHandled(cfg: Config, dump: Json -> string, st: Parser, pieces: seq<string>, n: nat)
    requires |pieces| == n + 1 && TransmitsAt(cfg, dump, pieces, n)
    requires AllHandled(cfg, st, MorePayloads(dump, pieces[..n]))
          == st.(pending := st.pending.(arguments := st.pending.arguments + JoinedPieces(pieces[..n])))
    ensures AllHandled(cfg, st, MorePayloads(dump, pieces))
         == st.(pending := st.pending.(arguments := st.pending.arguments + JoinedPieces(pieces)))
  {
    var before, p := AllHandled(cfg, st, MorePayloads(dump, pieces[..n])), dump(MoreChunk(pieces[n]));
    MoreHandled(cfg, dump, before, pieces[n]);
    assert MorePayloads(dump, pieces) == MorePayloads(dump, pieces[..n]) + [p];
    PieceAdded(cfg, st, MorePayloads(dump, pieces[..n]), p, JoinedPieces(pieces[..n]), pieces[n]);
    assert JoinedPieces(pieces) == JoinedPieces(pieces[..n]) + pieces[n];
  }

  lemma PieceAdded(cfg: Config, st: Parser, ps: seq<string>, p: string, joined: string, piece: string)
    requires var before := st.(pending := st.pending.(arguments := st.pending.arguments + joined));
             && AllHandled(cfg, st, ps) == before
             && Handled(cfg, before, p) == before.(pending := before.pending.(arguments := before.pending.arguments + piece))
    ensures AllHandled(cfg, st, ps + [p])
         == st.(pending := st.pending.(arguments := st.pending.arguments + (joined + piece)))
  {
    AllHandledLast(cfg, st, ps, p);
    assert st.pending.arguments + joined + piece == st.pending.arguments + (joined + piece);
  }

  lemma CallIsAssembled(cfg: Config, dump: Json -> string, id: string, name: string, first: string, pieces: seq<string>)
    requires Sent(cfg, dump, id, name, first, pieces)
    ensures AllHandled(cfg, Parser("", NO_CALL, []), CallPayloads(dump, id, name, first, pieces))
         == Parser("", Pending(id, name, first + JoinedPieces(pieces)), [])
  {
    var start := Parser("", NO_CALL, []);
    AllHandledFirst(cfg, start, dump(StartChunk(id, name, first)), MorePayloads(dump, pieces));
    StartHandled(cfg, dump, start, id, name, first);
    PiecesHandled(cfg, dump, Parser("", Pending(id, name, first), []), pieces);
  }

  lemma FramedCallIsHandled(cfg: Config, calls: seq<string>, end: string, chunks: seq<string>)
    requires OneLine(end) && forall i :: 0 <= i < |calls| ==> OneLine(calls[i])
    requires Flatten(chunks) == Encoded(calls + [end, "[DONE]"])
    ensures var start := Parser("", NO_CALL, []);
            FedAll(cfg, start, chunks) == Handled(cfg, Handled(cfg, AllHandled(cfg, start, calls), end), "[DONE]")
  {
    var start, ps := Parser("", NO_CALL, []), calls + [end, "[DONE]"];
    FramedStreamIsHandled(cfg, start, ps, chunks);
    assert ps == calls + [end] + ["[DONE]"];
    AllHandledLast(cfg, start, calls + [end], "[DONE]");
    AllHandledLast(cfg, start, calls, end);
  }

  lemma CallIsLines(cfg: Config, dump: Json -> string, id: string, name: string, first: string, pieces: seq<string>)
    requires Sent(cfg, dump, id, name, first, pieces)
    ensures var ps := CallPayloads(dump, id, name, first, pieces); forall i :: 0 <= i < |ps| ==> OneLine(ps[i])
  {
    PiecesAreLines(cfg, dump, pieces);
  }

  /**
   * A tool call streamed as chunks reaches the callback once, with its id, its name and all pieces of
   * its arguments in order, however the network cuts the stream; the end is signalled at its last
   * chunk and again at the end of the stream. Without an id or a callback only the ends are.
   */
  lemma ToolCallStreamRoundTrip(cfg: Config, dump: Json -> string, id: string, name: string, first: string,
                                pieces: seq<string>, chunks: seq<string>)
    requires Sent(cfg, dump, id, name, first, pieces)
    requires Flatten(chunks) == Encoded(CallPayloads(dump, id, name, first, pieces) + [dump(EndChunk()), "[DONE]"])
    ensures FedAll(cfg, Parser("", NO_CALL, []), chunks) ==
            Parser("", NO_CALL, if cfg.toolCallback && id != ""
                                then [ToolCall(id, name, first + JoinedPieces(pieces)), Done, Done] else [Done, Done])
  {
    var calls := CallPayloads(dump, id, name, first, pieces);
    CallIsLines(cfg, dump, id, name, first, pieces);
    CallIsAssembled(cfg, dump, id, name, first, pieces);
    FramedCallIsHandled(cfg, calls, dump(EndChunk()), chunks);
    EndHandled(cfg, dump, Parser("", Pending(id, name, first + JoinedPieces(pieces)), []));
  }

  // ---- other payloads ----

  /**
   * One framed payload: text that is not JSON, or JSON whose choices the library refuses to index,
   * is passed on as a token; JSON without choices does nothing; the end mark signals the end.
   */
  lemma OtherPayloads(cfg: Config, st: Parser, payload: string, chunks: seq<string>)
    requires st.buffer == "" && OneLine(payload) && Flatten(chunks) == "data: " + payload + "\n\n"
    ensures var after := FedAll(cfg, st, chunks);
            && (payload == "[DONE]" ==> after == st.(events := st.events + [Done]))
            && (payload != "[DONE]" && payload != "" && cfg.parse(payload).None? ==>
                  after == st.(events := st.events + [Token(payload)]))
            && (payload != "[DONE]" && cfg.parse(payload).Some? && !cfg.parse(payload).value.Has("choices") ==> after == st)
            && (payload != "[DONE]" && payload != "" && cfg.parse(payload).Some?
                && cfg.parse(payload).value.Has("choices") && cfg.parse(payload).value.members["choices"].JString? ==>
                  after == st.(events := st.events + [Token(payload)]))
  {
    assert Encoded([payload]) == Frame(payload) + Encoded([payload][1..]);
    assert Frame(payload) + "" == Frame(payload);
    FramedStreamIsHandled(cfg, st, [payload], chunks);
    assert [payload][..0] == [];
  }
}
