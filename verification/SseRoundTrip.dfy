/** Event streams written by the gateway, read back by its own parser, and assembled tool calls. */
module SseRoundTrip {
  import opened Wrappers
  import opened SseModel

  // ---- the payloads of a text ----

  /** The payloads of the complete lines of a text, given what was collected of the first line. */
  function PayloadsFrom(collected: string, text: string): seq<string>
    decreases |text|
  {
    if text == "" then []
    else if text[0] != '\n' then PayloadsFrom(collected + [text[0]], text[1..])
    else
      var p, rest := PayloadOf(WithoutCr(collected)), PayloadsFrom("", text[1..]);
      if p.Some? then [p.value] + rest else rest
  }

  function Payloads(text: string): seq<string> {
    PayloadsFrom("", text)
  }

  /** The part after the last newline. */
  function Residue(collected: string, text: string): string
    decreases |text|
  {
    if text == "" then collected
    else if text[0] != '\n' then Residue(collected + [text[0]], text[1..])
    else Residue("", text[1..])
  }

  lemma {:induction false} AllHandledFirst(cfg: Config, st: Parser, p: string, ps: seq<string>)
    ensures AllHandled(cfg, st, [p] + ps) == AllHandled(cfg, Handled(cfg, st, p), ps)
    decreases |ps|
  {
    var all := [p] + ps;
    if ps == [] {
      assert all[..0] == [];
      assert all[|all| - 1] == p;
    } else {
      assert all[..|all| - 1] == [p] + ps[..|ps| - 1];
      AllHandledFirst(cfg, st, p, ps[..|ps| - 1]);
    }
  }

  lemma {:induction false} HandledIgnoresBuffer(cfg: Config, st: Parser, b: string, ps: seq<string>)
    ensures AllHandled(cfg, st.(buffer := b), ps) == AllHandled(cfg, st, ps).(buffer := b)
    decreases |ps|
  {
    if ps != [] {
      HandledIgnoresBuffer(cfg, st, b, ps[..|ps| - 1]);
    }
  }

  /** Feeding a text is handling its payloads in order and keeping the residue. */
  lemma {:induction false} FedIsPayloads(cfg: Config, st: Parser, text: string)
    ensures Fed(cfg, st, text)
         == AllHandled(cfg, st, PayloadsFrom(st.buffer, text)).(buffer := Residue(st.buffer, text))
    decreases |text|
  {
    if text != "" {
      FedIsPayloads(cfg, Step(cfg, st, text[0]), text[1..]);
      if text[0] != '\n' {
        HandledIgnoresBuffer(cfg, st, st.buffer + [text[0]], PayloadsFrom(st.buffer + [text[0]], text[1..]));
      } else {
        var p, rest := PayloadOf(WithoutCr(st.buffer)), PayloadsFrom("", text[1..]);
        HandledIgnoresBuffer(cfg, st, "", rest);
        if p.Some? {
          AllHandledFirst(cfg, st, p.value, rest);
          HandledIgnoresBuffer(cfg, Handled(cfg, st, p.value), "", rest);
        }
      }
    }
  }

  // ---- frames ----

  /** How the gateway sends one payload. */
  function Frame(p: string): string {
    "data: " + p + "\n\n"
  }

  function Encoded(ps: seq<string>): string {
    if ps == [] then "" else Frame(ps[0]) + Encoded(ps[1..])
  }

  /** A payload that fits on a line: no newline, and no carriage return that would be taken for the line's. */
  predicate OneLine(p: string) {
    '\n' !in p && (p != "" ==> p[|p| - 1] != '\r')
  }

  lemma {:induction false} PayloadsOfLine(collected: string, line: string, rest: string)
    requires '\n' !in line
    ensures PayloadsFrom(collected, line + "\n" + rest) == PayloadsFrom(collected + line, "\n" + rest)
    ensures Residue(collected, line + "\n" + rest) == Residue("", rest)
    decreases |line|
  {
    if line == "" {
      assert line + "\n" + rest == "\n" + rest && collected + line == collected;
      assert ("\n" + rest)[1..] == rest;
    } else {
      assert (line + "\n" + rest)[1..] == line[1..] + "\n" + rest;
      assert collected + [line[0]] + line[1..] == collected + line;
      PayloadsOfLine(collected + [line[0]], line[1..], rest);
    }
  }

  /** The first line of a text and the rest. */
  function FirstLine(p: string): string {
    if p == "" || p[0] == '\n' then "" else [p[0]] + FirstLine(p[1..])
  }

  lemma {:induction false} FirstLineSplits(p: string)
    ensures '\n' !in FirstLine(p) && |FirstLine(p)| <= |p|
    ensures '\n' !in p ==> FirstLine(p) == p
    ensures '\n' in p ==> |FirstLine(p)| < |p| && p == FirstLine(p) + "\n" + p[|FirstLine(p)| + 1..]
  {
    if p != "" && p[0] != '\n' {
      FirstLineSplits(p[1..]);
      var f := FirstLine(p[1..]);
      if '\n' in p {
        assert '\n' in p[1..];
        assert p == [p[0]] + (f + "\n" + p[1..][|f| + 1..]);
      }
    } else if p != "" {
      assert p == "" + "\n" + p[1..];
    }
  }

  lemma PayloadOfPrefixed(line: string)
    ensures PayloadOf(WithoutCr(PREFIX + line)) == Some(WithoutCr(line))
  {
    var whole := PREFIX + line;
    assert whole[0] == 'd';
    if line != "" && line[|line| - 1] == '\r' {
      assert whole[..|whole| - 1] == PREFIX + line[..|line| - 1];
      assert (PREFIX + line[..|line| - 1])[|PREFIX|..] == line[..|line| - 1];
    } else {
      assert WithoutCr(whole) == whole by {
        assert line == "" ==> whole[|whole| - 1] == ' ';
      }
      assert whole[|PREFIX|..] == line;
    }
  }

  /** What one line that carries the prefix yields. */
  lemma PrefixedLine(line: string, rest: string)
    requires '\n' !in line
    ensures Payloads(PREFIX + line + "\n" + rest) == [WithoutCr(line)] + Payloads(rest)
  {
    assert '\n' !in PREFIX + line;
    PayloadsOfLine("", PREFIX + line, rest);
    assert "" + (PREFIX + line) == PREFIX + line;
    PayloadOfPrefixed(line);
    assert ("\n" + rest)[1..] == rest;
  }

  lemma {:induction false} BlankLine(rest: string)
    ensures Payloads("\n" + rest) == Payloads(rest)
  {
    assert ("\n" + rest)[1..] == rest;
  }

  /** Texts that end in a newline are read independently of what precedes them. */
  lemma {:induction false} PayloadsConcat(collected: string, a: string, b: string)
    requires a != "" && a[|a| - 1] == '\n'
    ensures PayloadsFrom(collected, a + b) == PayloadsFrom(collected, a) + Payloads(b)
    decreases |a|
  {
    assert (a + b)[1..] == a[1..] + b;
    if a[0] != '\n' {
      PayloadsConcat(collected + [a[0]], a[1..], b);
    } else if |a| > 1 {
      PayloadsConcat("", a[1..], b);
      assert (a + b)[0] == '\n';
      var p := PayloadOf(WithoutCr(collected));
      if p.Some? {
        assert [p.value] + (PayloadsFrom("", a[1..]) + Payloads(b)) == [p.value] + PayloadsFrom("", a[1..]) + Payloads(b);
      }
    } else {
      assert a[1..] + b == b;
    }
  }

  /** A frame delivers at least its first line, and exactly its payload when that fits on a line. */
  lemma FrameDelivers(p: string)
    ensures Payloads(Frame(p)) != [] && Payloads(Frame(p))[0] == WithoutCr(FirstLine(p))
    ensures Payloads(Frame(p)) == [p] <==> OneLine(p)
  {
    FirstLineSplits(p);
    var line := FirstLine(p);
    if '\n' in p {
      var rest := p[|line| + 1..] + "\n\n";
      assert Frame(p) == PREFIX + line + "\n" + rest;
      PrefixedLine(line, rest);
      assert |WithoutCr(line)| < |p|;
    } else {
      assert Frame(p) == PREFIX + p + "\n" + "\n";
      PrefixedLine(p, "\n");
      BlankLine("");
      assert "\n" + "" == "\n";
    }
  }

  lemma {:induction false} EncodedPayloads(ps: seq<string>)
    requires ps != []
    ensures Payloads(Encoded(ps)) == Payloads(Frame(ps[0])) + Payloads(Encoded(ps[1..]))
  {
    var f := Frame(ps[0]);
    assert f[|f| - 1] == '\n';
    PayloadsConcat("", f, Encoded(ps[1..]));
  }

  /**
   * Reading the gateway's own framing recovers the sent payloads, in order and with nothing
   * added, exactly when every payload fits on a line.
   */
  lemma {:induction false} FramingRoundTrip(ps: seq<string>)
    ensures |Payloads(Encoded(ps))| >= |ps|
    ensures Payloads(Encoded(ps)) == ps <==> forall i :: 0 <= i < |ps| ==> OneLine(ps[i])
  {
    if ps != [] {
      var first, rest := Payloads(Frame(ps[0])), Payloads(Encoded(ps[1..]));
      EncodedPayloads(ps);
      FrameDelivers(ps[0]);
      FramingRoundTrip(ps[1..]);
      assert ps == [ps[0]] + ps[1..];
      if first + rest == ps {
        assert |first| == 1;
        assert first == [ps[0]] && rest == ps[1..] by {
          assert (first + rest)[..1] == first && ps[..1] == [ps[0]];
          assert (first + rest)[1..] == rest;
        }
      }
      if forall i :: 0 <= i < |ps| ==> OneLine(ps[i]) {
        forall i | 0 <= i < |ps[1..]| ensures OneLine(ps[1..][i]) {
          assert ps[1..][i] == ps[i + 1];
        }
      }
      if forall i :: 0 <= i < |ps[1..]| ==> OneLine(ps[1..][i]) {
        forall i | 1 <= i < |ps| ensures OneLine(ps[i]) {
          assert ps[1..][i - 1] == ps[i];
        }
      }
    }
  }

  lemma {:induction false} EncodedHasNoResidue(ps: seq<string>)
    ensures Residue("", Encoded(ps)) == ""
  {
    if ps != [] {
      EncodedHasNoResidue(ps[1..]);
      FirstLineSplits(ps[0]);
      ResidueOfFrame("", Frame(ps[0]), Encoded(ps[1..]));
    }
  }

  lemma {:induction false} ResidueOfFrame(collected: string, a: string, b: string)
    requires a != "" && a[|a| - 1] == '\n'
    ensures Residue(collected, a + b) == Residue("", b)
    decreases |a|
  {
    assert (a + b)[1..] == a[1..] + b;
    if |a| > 1 {
      ResidueOfFrame(if a[0] == '\n' then "" else collected + [a[0]], a[1..], b);
    } else {
      assert a[1..] + b == b;
    }
  }

  // ---- lines that are no frames ----

  /** A line may end in CR LF as well. */
  lemma CrLfIsLf(cfg: Config, st: Parser, line: string, rest: string)
    requires '\n' !in line && st.buffer == "" && (line != "" ==> line[|line| - 1] != '\r')
    ensures Fed(cfg, st, line + "\r\n" + rest) == Fed(cfg, st, line + "\n" + rest)
  {
    assert line + "\r\n" + rest == (line + "\r") + "\n" + rest;
    FedLine(cfg, st, line + "\r", rest);
    FedLine(cfg, st, line, rest);
    assert (line + "\r")[..|line|] == line;
  }

  /** A line that does not start with "data: " has no effect: comments, other fields, blank lines. */
  lemma OtherLinesAreIgnored(cfg: Config, st: Parser, line: string, rest: string)
    requires '\n' !in line && st.buffer == "" && !("data: " <= line)
    ensures Fed(cfg, st, line + "\n" + rest) == Fed(cfg, st, rest)
  {
    FedLine(cfg, st, line, rest);
    var bare := WithoutCr(line);
    assert |bare| >= 6 ==> bare[..6] == line[..6];
  }

  // ---- the gateway's own stream ----

  /** The chunk object the gateway sends for one token. */
  function TokenChunk(text: string): Json {
    JObject(map["object" := JString("chat.completion.chunk"), "model" := JString("gateway"),
                "choices" := JArray([JObject(map["index" := JNumber(0.0),
                                                 "delta" := JObject(map["content" := JString(text)]),
                                                 "finish_reason" := JNull])])])
  }

  /** The chunk of this token is written on one line and reads back, as a JSON library promises. */
  predicate ReadsBack(cfg: Config, dump: Json -> string, text: string) {
    var p := dump(TokenChunk(text));
    OneLine(p) && p != DONE_MARK && cfg.parse(p) == Some(TokenChunk(text))
  }

  /** That is so for each token that is sent, and none of them is empty. */
  predicate Sendable(cfg: Config, dump: Json -> string, tokens: seq<string>) {
    forall i :: 0 <= i < |tokens| ==> tokens[i] != "" && ReadsBack(cfg, dump, tokens[i])
  }

  function TokenPayloads(dump: Json -> string, tokens: seq<string>): seq<string> {
    if tokens == [] then []
    else TokenPayloads(dump, tokens[..|tokens| - 1]) + [dump(TokenChunk(tokens[|tokens| - 1]))]
  }

  function TokenEvents(tokens: seq<string>): seq<Event> {
    if tokens == [] then [] else TokenEvents(tokens[..|tokens| - 1]) + [Token(tokens[|tokens| - 1])]
  }

  lemma TokenChunkHandled(cfg: Config, dump: Json -> string, st: Parser, text: string)
    requires ReadsBack(cfg, dump, text) && text != ""
    ensures Handled(cfg, st, dump(TokenChunk(text))) == st.(events := st.events + [Token(text)])
  {
    var j := TokenChunk(text);
    var c0 := j.members["choices"].items[0];
    assert !c0.HasString("finish_reason");
    var delta := c0.members["delta"];
    assert FirstChoice(j) == Delta(delta, false);
    assert !delta.Has("tool_calls") && delta.HasString("content");
    assert Extended(st.pending, delta) == st.pending;
  }

  lemma {:induction false} TokenPayloadsHandled(cfg: Config, dump: Json -> string, st: Parser, tokens: seq<string>)
    requires Sendable(cfg, dump, tokens)
    ensures AllHandled(cfg, st, TokenPayloads(dump, tokens)) == st.(events := st.events + TokenEvents(tokens))
    ensures forall i :: 0 <= i < |TokenPayloads(dump, tokens)| ==> OneLine(TokenPayloads(dump, tokens)[i])
    decreases |tokens|
  {
    if tokens != [] {
      var n := |tokens| - 1;
      var ps := TokenPayloads(dump, tokens);
      TokenPayloadsHandled(cfg, dump, st, tokens[..n]);
      assert ps[..|ps| - 1] == TokenPayloads(dump, tokens[..n]);
      TokenChunkHandled(cfg, dump, AllHandled(cfg, st, TokenPayloads(dump, tokens[..n])), tokens[n]);
      assert ReadsBack(cfg, dump, tokens[n]);
    }
  }

  /**
   * Whatever the payloads are, as long as each fits on a line, a client that uses the gateway's
   * parser handles exactly them, in order, however the network cuts the framed stream.
   */
  lemma FramedStreamIsHandled(cfg: Config, st: Parser, ps: seq<string>, chunks: seq<string>)
    requires st.buffer == "" && Flatten(chunks) == Encoded(ps)
    requires forall i :: 0 <= i < |ps| ==> OneLine(ps[i])
    ensures FedAll(cfg, st, chunks) == AllHandled(cfg, st, ps)
  {
    FedAllIsFed(cfg, st, chunks);
    FedIsPayloads(cfg, st, Encoded(ps));
    EncodedHasNoResidue(ps);
    FramingRoundTrip(ps);
    HandledIgnoresBuffer(cfg, st, "", ps);
  }

  /**
   * A client of the gateway that uses the gateway's parser sees exactly the tokens that were
   * sent and then the end, however the network cuts the stream.
   */
  lemma GatewayStreamRoundTrip(cfg: Config, dump: Json -> string, tokens: seq<string>, chunks: seq<string>)
    requires Sendable(cfg, dump, tokens)
    requires Flatten(chunks) == Encoded(TokenPayloads(dump, tokens) + ["[DONE]"])
    ensures FedAll(cfg, Parser("", NO_CALL, []), chunks) == Parser("", NO_CALL, TokenEvents(tokens) + [Done])
  {
    var start, ps := Parser("", NO_CALL, []), TokenPayloads(dump, tokens) + [DONE_MARK];
    TokenPayloadsHandled(cfg, dump, start, tokens);
    assert OneLine(DONE_MARK);
    FramedStreamIsHandled(cfg, start, ps, chunks);
    StreamHandled(cfg, dump, tokens);
  }

  lemma StreamHandled(cfg: Config, dump: Json -> string, tokens: seq<string>)
    requires Sendable(cfg, dump, tokens)
    ensures AllHandled(cfg, Parser("", NO_CALL, []), TokenPayloads(dump, tokens) + [DONE_MARK])
         == Parser("", NO_CALL, TokenEvents(tokens) + [Done])
  {
    var ps := TokenPayloads(dump, tokens) + [DONE_MARK];
    TokenPayloadsHandled(cfg, dump, Parser("", NO_CALL, []), tokens);
    assert ps[..|ps| - 1] == TokenPayloads(dump, tokens);
    assert [] + TokenEvents(tokens) == TokenEvents(tokens);
  }

  // ---- assembled tool calls ----

  /** What a payload contributes to the pending call: its delta, if it parses to one. */
  function DeltaOf(cfg: Config, payload: string): Option<Json> {
    if payload == DONE_MARK || cfg.parse(payload).None? then None
    else match FirstChoice(cfg.parse(payload).value)
      case Delta(delta, _) => Some(delta)
      case _ => None
  }

  predicate Finishes(cfg: Config, payload: string) {
    && payload != DONE_MARK && cfg.parse(payload).Some?
    && FirstChoice(cfg.parse(payload).value).Delta? && FirstChoice(cfg.parse(payload).value).finishes
  }

  /** The number of payloads up to and including the last one that finishes a tool call. */
  function LastFinish(cfg: Config, ps: seq<string>): (r: nat)
    ensures r <= |ps| && (r > 0 ==> Finishes(cfg, ps[r - 1]))
    ensures forall i :: r <= i < |ps| ==> !Finishes(cfg, ps[i])
  {
    if ps == [] then 0
    else if Finishes(cfg, ps[|ps| - 1]) then |ps| else LastFinish(cfg, ps[..|ps| - 1])
  }

  /** The argument fragments of the payloads, in order and joined. */
  function Fragments(cfg: Config, ps: seq<string>): string {
    if ps == [] then ""
    else
      var d := DeltaOf(cfg, ps[0]);
      (if d.Some? then Fragment(d.value) else "") + Fragments(cfg, ps[1..])
  }

  /** The last id the payloads name. */
  function LastId(cfg: Config, ps: seq<string>): string {
    if ps == [] then ""
    else
      var d := DeltaOf(cfg, ps[|ps| - 1]);
      if d.Some? && NamedId(d.value).Some? then NamedId(d.value).value else LastId(cfg, ps[..|ps| - 1])
  }

  function LastName(cfg: Config, ps: seq<string>): string {
    if ps == [] then ""
    else
      var d := DeltaOf(cfg, ps[|ps| - 1]);
      if d.Some? && NamedFunction(d.value).Some? then NamedFunction(d.value).value else LastName(cfg, ps[..|ps| - 1])
  }

  /** The call assembled from a stretch of payloads. */
  function Assembled(cfg: Config, ps: seq<string>): Pending {
    Pending(LastId(cfg, ps), LastName(cfg, ps), Fragments(cfg, ps))
  }

  lemma {:induction false} FragmentsAppend(cfg: Config, ps: seq<string>, p: string)
    ensures Fragments(cfg, ps + [p])
         == Fragments(cfg, ps) + if DeltaOf(cfg, p).Some? then Fragment(DeltaOf(cfg, p).value) else ""
  {
    if ps == [] {
      assert ps + [p] == [p];
      assert [p][1..] == [];
    } else {
      assert (ps + [p])[1..] == ps[1..] + [p];
      FragmentsAppend(cfg, ps[1..], p);
    }
  }

  lemma AssembledAppend(cfg: Config, ps: seq<string>, p: string)
    ensures Assembled(cfg, ps + [p]) ==
            if DeltaOf(cfg, p).Some? then Extended(Assembled(cfg, ps), DeltaOf(cfg, p).value) else Assembled(cfg, ps)
  {
    FragmentsAppend(cfg, ps, p);
    assert (ps + [p])[..|ps|] == ps;
  }

  lemma PendingAfter(cfg: Config, st: Parser, p: string)
    ensures Handled(cfg, st, p).pending ==
            if Finishes(cfg, p) then NO_CALL
            else if DeltaOf(cfg, p).Some? then Extended(st.pending, DeltaOf(cfg, p).value) else st.pending
  {
  }

  /**
   * The call under construction is assembled from exactly the payloads since the last finish:
   * the last id and name they give, and all their argument fragments joined in order.
   */
  lemma {:induction false} PendingIsAssembled(cfg: Config, ps: seq<string>)
    ensures AllHandled(cfg, Parser("", NO_CALL, []), ps).pending == Assembled(cfg, ps[LastFinish(cfg, ps)..])
    decreases |ps|
  {
    if ps != [] {
      var init, p := ps[..|ps| - 1], ps[|ps| - 1];
      PendingIsAssembled(cfg, init);
      PendingAfter(cfg, AllHandled(cfg, Parser("", NO_CALL, []), init), p);
      if Finishes(cfg, p) {
        assert ps[|ps|..] == [];
      } else {
        var r := LastFinish(cfg, init);
        assert ps[r..] == init[r..] + [p];
        AssembledAppend(cfg, init[r..], p);
      }
    }
  }

  /**
   * A finishing payload emits one tool call, assembled from every fragment since the previous
   * finish and its own, provided an id was given and someone listens; then the end of the call.
   */
  lemma FinishEmitsAssembledCall(cfg: Config, ps: seq<string>, p: string)
    requires Finishes(cfg, p)
    ensures var st := AllHandled(cfg, Parser("", NO_CALL, []), ps);
            var after := AllHandled(cfg, Parser("", NO_CALL, []), ps + [p]);
            var since := ps[LastFinish(cfg, ps)..] + [p];
            var id := LastId(cfg, since);
            && after.events == st.events
                 + (if cfg.toolCallback && id != "" then [ToolCall(id, LastName(cfg, since), Fragments(cfg, since)), Done]
                    else [Done])
            && after.pending == Pending("", "", "")
  {
    PendingIsAssembled(cfg, ps);
    AssembledAppend(cfg, ps[LastFinish(cfg, ps)..], p);
    assert (ps + [p])[..|ps|] == ps;
  }
}
