/** The incremental parser object that the transfer callback feeds. */
module SseParsing {
  import opened Wrappers
  import opened SseModel

  class SSEParser {
    var buf: string
    var tcId: string
    var tcName: string
    var tcArgs: string
    /** The callbacks made so far, in order. */
    var events: seq<Event>
    const cfg: Config

    ghost function State(): Parser
      reads this
    {
      Parser(buf, Pending(tcId, tcName, tcArgs), events)
    }

    /** The state apart from the buffer. */
    ghost function Work(): Parser
      reads this
    {
      Parser("", Pending(tcId, tcName, tcArgs), events)
    }

    /** Between calls the buffer holds no complete line. */
    ghost predicate Valid()
      reads this
    {
      '\n' !in buf
    }

    constructor (cfg: Config)
      ensures Valid() && State() == Parser("", NO_CALL, []) && this.cfg == cfg
    {
      buf, tcId, tcName, tcArgs, events, this.cfg := "", "", "", "", [], cfg;
    }

    method Feed(data: string)
      requires Valid()
      modifies this
      ensures Valid() && State() == Fed(cfg, old(State()), data)
    {
      FedConcat(cfg, Work(), buf, data);
      FedPlain(cfg, Work(), buf);
      assert "" + buf == buf;
      buf := buf + data;
      FlushLines();
    }

    /** Process every complete line of the buffer and keep what follows the last newline. */
    method FlushLines()
      modifies this
      ensures Valid() && State() == Fed(cfg, old(Work()), old(buf))
    {
      var start := 0;
      assert buf[0..] == buf;
      while true
        invariant 0 <= start <= |buf| && buf == old(buf)
        invariant Fed(cfg, Work(), buf[start..]) == Fed(cfg, old(Work()), old(buf))
        decreases |buf| - start
      {
        var nl := FindNewline(buf, start);
        if nl.None? {
          break;
        }
        var line := buf[start..nl.value];
        NextLine(cfg, Work(), buf, start, nl.value);
        if line != "" && line[|line| - 1] == '\r' {
          line := line[..|line| - 1];
        }
        start := nl.value + 1;
        ProcessLine(line);
      }
      FedPlain(cfg, Work(), buf[start..]);
      buf := buf[start..];
    }

    method ProcessLine(line: string)
      modifies this`tcId, this`tcName, this`tcArgs, this`events
      ensures Work() == LineHandled(cfg, old(Work()), line)
    {
      if line == "" || line[0] == ':' {
        return;
      }
      if |line| < |PREFIX| || line[..|PREFIX|] != PREFIX {
        return;
      }
      var payload := line[|PREFIX|..];
      if payload == DONE_MARK {
        events := events + [Done];
        return;
      }
      var parsed := cfg.parse(payload);
      var choice := if parsed.Some? then FirstChoice(parsed.value) else Refused;
      match choice
      case Refused =>
        if payload != "" {
          events := events + [Token(payload)];
        }
      case Absent =>
      case Delta(delta, finishes) => HandleDelta(delta, finishes);
    }

    method HandleDelta(delta: Json, finishes: bool)
      modifies this`tcId, this`tcName, this`tcArgs, this`events
      ensures var p := Extended(old(Work()).pending, delta);
              Work() == if finishes then Parser("", NO_CALL, old(events) + Finished(cfg, p))
                        else Parser("", p, old(events) + ContentToken(delta))
    {
      ghost var before := Work();
      if delta.Has("tool_calls") && delta.members["tool_calls"].JArray? && delta.members["tool_calls"].items != [] {
        var tc := delta.members["tool_calls"].items[0];
        if tc.HasString("id") {
          tcId := tc.members["id"].s;
        }
        if tc.Has("function") {
          var fn := tc.members["function"];
          if fn.HasString("name") {
            tcName := fn.members["name"].s;
          }
          if fn.HasString("arguments") {
            tcArgs := tcArgs + fn.members["arguments"].s;
          }
        }
      }
      assert Work().pending == Extended(before.pending, delta);
      if finishes {
        if cfg.toolCallback && tcId != "" {
          events := events + [ToolCall(tcId, tcName, tcArgs)];
        }
        tcId, tcName, tcArgs := "", "", "";
        events := events + [Done];
        return;
      }
      if delta.HasString("content") {
        var tok := delta.members["content"].s;
        if tok != "" {
          events := events + [Token(tok)];
        }
      }
    }
  }

  method FindNewline(s: string, start: nat) returns (r: Option<nat>)
    requires start <= |s|
    ensures r.None? <==> '\n' !in s[start..]
    ensures r.Some? ==> start <= r.value < |s| && s[r.value] == '\n' && '\n' !in s[start..r.value]
  {
    var i := start;
    while i < |s|
      invariant start <= i <= |s| && '\n' !in s[start..i]
    {
      if s[i] == '\n' {
        assert s[start..][i - start] == '\n';
        return Some(i);
      }
      i := i + 1;
    }
    return None;
  }
}
