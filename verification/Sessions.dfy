/** The per-session buffer of agent turns and its pruning. */
module Sessions {
  import opened AgentTypes

  const MAX_TURNS: nat := 50
  const MAX_TOTAL_TOKENS: nat := 50000

  function TurnTokens(t: SessionTurn): nat {
    (|t.inputSummary| + |t.outputSummary|) / 4 + 10
  }

  function Tokens(s: seq<SessionTurn>): nat {
    if s == [] then 0 else Tokens(s[..|s| - 1]) + TurnTokens(s[|s| - 1])
  }

  /** The limits a pruned buffer respects; the last three turns stay whatever they cost. */
  predicate Fits(s: seq<SessionTurn>) {
    |s| <= MAX_TURNS && (Tokens(s) <= MAX_TOTAL_TOKENS || |s| <= 3)
  }

  /** Drop turns from the front until the rest fits. */
  function Kept(h: seq<SessionTurn>): seq<SessionTurn> {
    if Fits(h) then h else if h == [] then h else Kept(h[1..])
  }

  ghost predicate IsSuffix<T>(s: seq<T>, h: seq<T>) {
    |s| <= |h| && s == h[|h| - |s|..]
  }

  /** The turns of one capability, latest first. */
  function Matching(s: seq<SessionTurn>, capability: string): seq<SessionTurn> {
    if s == [] then []
    else
      var last, rest := s[|s| - 1], Matching(s[..|s| - 1], capability);
      if last.capability == capability then [last] + rest else rest
  }

  class SessionBuffer {
    var turns: seq<SessionTurn>

    constructor ()
      ensures turns == []
    {
      turns := [];
    }

    method EstimatedTokens() returns (total: nat)
      ensures total == Tokens(turns)
    {
      total := 0;
      for i := 0 to |turns|
        invariant total == Tokens(turns[..i])
      {
        assert turns[..i + 1][..i] == turns[..i];
        total := total + TurnTokens(turns[i]);
      }
      assert turns[..|turns|] == turns;
    }

    method Append(turn: SessionTurn)
      modifies this
      ensures turns == Kept(old(turns) + [turn])
    {
      turns := turns + [turn];
      Prune();
    }

    method Prune()
      modifies this
      ensures turns == Kept(old(turns))
    {
      while |turns| > MAX_TURNS
        invariant Kept(turns) == Kept(old(turns))
        decreases |turns|
      {
        turns := turns[1..];
      }
      var estimate := EstimatedTokens();
      while estimate > MAX_TOTAL_TOKENS && |turns| > 3
        invariant Kept(turns) == Kept(old(turns)) && |turns| <= MAX_TURNS
        invariant estimate == Tokens(turns)
        decreases |turns|
      {
        turns := turns[1..];
        estimate := EstimatedTokens();
      }
    }

    /** The count is checked after a turn is taken, so at least one match is returned. */
    method Recent(capability: string, n: int) returns (r: seq<SessionTurn>)
      ensures var all, most := Matching(turns, capability), if n < 1 then 1 else n;
              r == if |all| <= most then all else all[..most]
    {
      r := [];
      var i := |turns|;
      assert turns[..i] == turns;
      while i > 0
        invariant 0 <= i <= |turns| && (|r| < n || r == [])
        invariant Matching(turns, capability) == r + Matching(turns[..i], capability)
      {
        i := i - 1;
        assert turns[..i + 1][..i] == turns[..i];
        if turns[i].capability == capability {
          r := r + [turns[i]];
          if |r| >= n {
            return;
          }
        }
      }
    }
  }

  lemma {:induction false} TokensDropFirst(s: seq<SessionTurn>)
    requires s != []
    ensures Tokens(s) == TurnTokens(s[0]) + Tokens(s[1..])
  {
    if |s| > 1 {
      assert s[1..][..|s| - 2] == s[..|s| - 1][1..];
      TokensDropFirst(s[..|s| - 1]);
    }
  }

  lemma {:induction false} FitsSuffix(s: seq<SessionTurn>, h: seq<SessionTurn>)
    requires Fits(h) && IsSuffix(s, h)
    ensures Fits(s)
  {
    if |s| < |h| {
      TokensDropFirst(h);
      FitsSuffix(s, h[1..]);
    }
  }

  /** One-shot pruning leaves the longest suffix of the history that fits. */
  lemma {:induction false} KeptIsLongestFitting(h: seq<SessionTurn>, s: seq<SessionTurn>)
    ensures IsSuffix(Kept(h), h) && Fits(Kept(h))
    ensures IsSuffix(s, h) && Fits(s) ==> IsSuffix(s, Kept(h))
  {
    if !Fits(h) {
      if |s| < |h| && IsSuffix(s, h) {
        assert s == h[1..][|h[1..]| - |s|..];
      }
      KeptIsLongestFitting(h[1..], s);
    }
  }

  /** Pruning before an append loses nothing that pruning after it would have kept. */
  lemma {:induction false} KeptAppend(h: seq<SessionTurn>, t: SessionTurn)
    ensures Kept(Kept(h) + [t]) == Kept(h + [t])
  {
    if !Fits(h) {
      assert (h + [t])[1..] == h[1..] + [t];
      assert !Fits(h + [t]) by {
        if Fits(h + [t]) {
          AppendCosts(h, t);
        }
      }
      KeptAppend(h[1..], t);
    }
  }

  lemma AppendCosts(h: seq<SessionTurn>, t: SessionTurn)
    requires Fits(h + [t])
    ensures Fits(h)
  {
    assert (h + [t])[..|h|] == h;
  }

  function AppendedAll(buffer: seq<SessionTurn>, ts: seq<SessionTurn>): seq<SessionTurn> {
    if ts == [] then buffer else Kept(AppendedAll(buffer, ts[..|ts| - 1]) + [ts[|ts| - 1]])
  }

  /** After any appends the buffer is the one-shot pruning of the whole history. */
  lemma {:induction false} IncrementalIsOneShot(ts: seq<SessionTurn>)
    ensures AppendedAll([], ts) == Kept(ts)
  {
    if ts != [] {
      var init, last := ts[..|ts| - 1], ts[|ts| - 1];
      assert init + [last] == ts;
      IncrementalIsOneShot(init);
      KeptAppend(init, last);
      assert AppendedAll([], ts) == Kept(AppendedAll([], init) + [last]);
    }
  }

  /** The head of the matching turns is the latest turn of that capability, if there is one at all. */
  lemma {:induction false} MatchingHeadIsLatest(s: seq<SessionTurn>, capability: string)
    ensures Matching(s, capability) == [] <==> forall i :: 0 <= i < |s| ==> s[i].capability != capability
    ensures Matching(s, capability) != [] ==>
              exists i :: 0 <= i < |s| && s[i] == Matching(s, capability)[0] && s[i].capability == capability
                && forall j :: i < j < |s| ==> s[j].capability != capability
  {
    if s != [] {
      var n := |s| - 1;
      MatchingHeadIsLatest(s[..n], capability);
      if s[n].capability != capability && Matching(s, capability) != [] {
        var i :| 0 <= i < n && s[..n][i] == Matching(s[..n], capability)[0] && s[..n][i].capability == capability
                 && forall j :: i < j < n ==> s[..n][j].capability != capability;
        assert s[i] == Matching(s, capability)[0];
        forall j | i < j < |s| ensures s[j].capability != capability {
          assert j < n ==> s[..n][j] == s[j];
        }
      }
    }
  }

  // ---- the limits, written out ----

  /** A quarter of the characters of both summaries, rounded down, and 10 more for each turn. */
  function Estimate(s: seq<SessionTurn>): nat {
    if s == [] then 0 else (|s[0].inputSummary| + |s[0].outputSummary|) / 4 + 10 + Estimate(s[1..])
  }

  lemma {:induction false} EstimateAppend(s: seq<SessionTurn>, t: SessionTurn)
    ensures Estimate(s + [t]) == Estimate(s) + (|t.inputSummary| + |t.outputSummary|) / 4 + 10
  {
    if s == [] {
      assert s + [t] == [t];
      assert [t][1..] == [];
    } else {
      assert (s + [t])[1..] == s[1..] + [t];
      EstimateAppend(s[1..], t);
    }
  }

  lemma {:induction false} TokensAreEstimate(s: seq<SessionTurn>)
    ensures Tokens(s) == Estimate(s)
  {
    if s != [] {
      var init, t := s[..|s| - 1], s[|s| - 1];
      TokensAreEstimate(init);
      assert s == init + [t];
      EstimateAppend(init, t);
    }
  }

  predicate WithinLimits(s: seq<SessionTurn>) {
    |s| <= 50 && (Estimate(s) <= 50000 || |s| <= 3)
  }

  /** What pruning leaves is the longest suffix of at most 50 turns and either 50000 estimated tokens or 3 turns. */
  lemma KeptIsLongestWithinLimits(h: seq<SessionTurn>, s: seq<SessionTurn>)
    ensures IsSuffix(Kept(h), h) && WithinLimits(Kept(h))
    ensures IsSuffix(s, h) && WithinLimits(s) ==> IsSuffix(s, Kept(h))
  {
    KeptIsLongestFitting(h, s);
    TokensAreEstimate(Kept(h));
    TokensAreEstimate(s);
  }
}
