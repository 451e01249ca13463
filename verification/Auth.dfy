/** API keys and their token buckets, with time in seconds as a parameter. */
module Auth {
  datatype Bucket = Bucket(capacity: real, rate: real, tokens: real, last: real)

  datatype KeyInfo = KeyInfo(key: string, allowedModels: string, qpsLimit: int, enabled: bool)

  function Min(a: real, b: real): real {
    if a <= b then a else b
  }

  function Full(qps: int, now: real): Bucket {
    Bucket(qps as real, qps as real, qps as real, now)
  }

  function Earned(elapsed: real, rate: real): real {
    elapsed * rate
  }

  function Refilled(b: Bucket, now: real): Bucket {
    b.(last := now, tokens := Min(b.capacity, b.tokens + Earned(now - b.last, b.rate)))
  }

  predicate Affords(b: Bucket, now: real) {
    Refilled(b, now).tokens >= 1.0
  }

  function Consumed(b: Bucket, now: real): Bucket {
    var r := Refilled(b, now);
    if r.tokens < 1.0 then r else r.(tokens := r.tokens - 1.0)
  }

  datatype Keys = Keys(infos: map<string, KeyInfo>, buckets: map<string, Bucket>)

  datatype Verdict = Passed | InvalidKey | Disabled | RateLimited

  /** A key that is added again gets its new record but keeps the bucket it has. */
  function Added(st: Keys, info: KeyInfo, now: real): Keys {
    Keys(st.infos[info.key := info],
         if info.key in st.buckets then st.buckets else st.buckets[info.key := Full(info.qpsLimit, now)])
  }

  /** Every registered key has a bucket. */
  ghost predicate Paired(st: Keys) {
    st.infos.Keys == st.buckets.Keys
  }

  function VerdictOf(st: Keys, key: string, now: real): Verdict
    requires Paired(st)
  {
    if key == "" then Passed
    else if key !in st.infos then InvalidKey
    else if !st.infos[key].enabled then Disabled
    else if Affords(st.buckets[key], now) then Passed else RateLimited
  }

  function Verified(st: Keys, key: string, now: real): Keys
    requires Paired(st)
  {
    if key == "" || key !in st.infos || !st.infos[key].enabled then st
    else st.(buckets := st.buckets[key := Consumed(st.buckets[key], now)])
  }

  class TokenBucket {
    const capacity: real
    const rate: real
    var tokens: real
    var last: real

    ghost function Value(): Bucket
      reads this
    {
      Bucket(capacity, rate, tokens, last)
    }

    constructor (cap: real, r: real, now: real)
      ensures Value() == Bucket(cap, r, cap, now)
    {
      capacity, rate, tokens, last := cap, r, cap, now;
    }

    method Consume(now: real) returns (ok: bool)
      modifies this
      ensures ok == Affords(old(Value()), now) && Value() == Consumed(old(Value()), now)
    {
      var elapsed := now - last;
      last := now;
      tokens := Min(capacity, tokens + Earned(elapsed, rate));
      if tokens < 1.0 {
        return false;
      }
      tokens := tokens - 1.0;
      return true;
    }
  }

  class AuthManager {
    var keys: map<string, KeyInfo>
    var buckets: map<string, TokenBucket>

    /** Every registered key has a bucket of its own. */
    ghost predicate Valid()
      reads this
    {
      && keys.Keys == buckets.Keys
      && forall a, b :: a in buckets && b in buckets && a != b ==> buckets[a] != buckets[b]
    }

    ghost function State(): Keys
      reads this, buckets.Values
    {
      Keys(keys, map k | k in buckets :: buckets[k].Value())
    }

    constructor ()
      ensures Valid() && State() == Keys(map[], map[]) && buckets == map[]
    {
      keys, buckets := map[], map[];
    }

    method AddKey(info: KeyInfo, now: real)
      requires Valid()
      modifies this
      ensures Valid() && State() == Added(old(State()), info, now)
      ensures fresh(buckets.Values - old(buckets.Values))
    {
      ghost var before := State().buckets;
      keys := keys[info.key := info];
      assert State().buckets == before;
      if info.key !in buckets {
        var bucket := new TokenBucket(info.qpsLimit as real, info.qpsLimit as real, now);
        buckets := buckets[info.key := bucket];
        assert State().buckets == before[info.key := Full(info.qpsLimit, now)];
      }
    }

    method Verify(apiKey: string, now: real) returns (verdict: Verdict)
      requires Valid()
      modifies buckets.Values
      ensures Valid() && verdict == VerdictOf(old(State()), apiKey, now)
      ensures State() == Verified(old(State()), apiKey, now)
    {
      if apiKey == "" {
        return Passed;
      }
      if apiKey !in keys {
        return InvalidKey;
      }
      if !keys[apiKey].enabled {
        return Disabled;
      }
      var ok := buckets[apiKey].Consume(now);
      return if ok then Passed else RateLimited;
    }
  }

  // ---- runs ----

  datatype Step = Add(info: KeyInfo, now: real) | Check(key: string, now: real)

  function Next(st: Keys, step: Step): (r: Keys)
    requires Paired(st)
    ensures Paired(r)
  {
    match step
    case Add(info, now) => Added(st, info, now)
    case Check(key, now) => Verified(st, key, now)
  }

  function Run(st: Keys, steps: seq<Step>): (r: Keys)
    requires Paired(st)
    ensures Paired(r)
  {
    if steps == [] then st else Next(Run(st, steps[..|steps| - 1]), steps[|steps| - 1])
  }

  predicate Admits(st: Keys, step: Step, key: string)
    requires Paired(st)
  {
    step.Check? && step.key == key && VerdictOf(st, key, step.now).Passed?
  }

  /** How many checks of key pass in a run, from its step m on. */
  function AdmittedFrom(steps: seq<Step>, m: nat, key: string): nat {
    if |steps| <= m then 0
    else
      var init, step := steps[..|steps| - 1], steps[|steps| - 1];
      AdmittedFrom(init, m, key) + if Admits(Run(NO_KEYS, init), step, key) then 1 else 0
  }

  // ---- one bucket ----

  /** A bucket registered with qps q: its capacity and rate are q and its tokens lie in [0, q]. */
  ghost predicate Sane(b: Bucket, q: int) {
    q >= 0 && b.capacity == b.rate == q as real && 0.0 <= b.tokens <= q as real
  }

  /** The bucket after calls at the given times. */
  function Calls(b: Bucket, times: seq<real>): Bucket {
    if times == [] then b else Consumed(Calls(b, times[..|times| - 1]), times[|times| - 1])
  }

  /** How many of the calls the bucket lets pass. */
  function Passes(b: Bucket, times: seq<real>): nat {
    if times == [] then 0
    else
      var before, t := times[..|times| - 1], times[|times| - 1];
      Passes(b, before) + if Affords(Calls(b, before), t) then 1 else 0
  }

  /** The times do not go back, nor behind the bucket's own. */
  ghost predicate Ascending(b: Bucket, times: seq<real>) {
    && (forall i :: 0 <= i < |times| ==> b.last <= times[i])
    && (forall i, j :: 0 <= i < j < |times| ==> times[i] <= times[j])
  }

  lemma EarnedBounds(elapsed: real, longer: real, q: int)
    requires 0.0 <= elapsed <= longer && q >= 0
    ensures 0.0 <= Earned(elapsed, q as real) <= Earned(longer, q as real)
  {
    var rate := q as real;
    ProductNotNegative(elapsed, rate);
    ProductNotNegative(longer - elapsed, rate);
    assert longer * rate == elapsed * rate + (longer - elapsed) * rate;
  }

  lemma ProductNotNegative(a: real, b: real)
    requires a >= 0.0 && b >= 0.0
    ensures a * b >= 0.0
  {
  }

  lemma EarnedExactly(elapsed: real, rate: real)
    ensures Earned(elapsed, rate) == rate * elapsed
  {
  }

  lemma EarnedAdds(a: real, b: real, rate: real)
    ensures Earned(a + b, rate) == Earned(a, rate) + Earned(b, rate)
  {
  }

  lemma CallKeepsSane(b: Bucket, q: int, now: real)
    requires Sane(b, q) && b.last <= now
    ensures Sane(Consumed(b, now), q) && Consumed(b, now).last == now
    ensures Consumed(b, now).tokens + (if Affords(b, now) then 1.0 else 0.0) <= b.tokens + Earned(now - b.last, q as real)
    ensures Consumed(b, now).tokens + (if Affords(b, now) then 1.0 else 0.0) <= q as real
  {
    EarnedBounds(0.0, now - b.last, q);
  }

  /** Every call that passes was paid for by tokens present at the start or earned since. */
  lemma {:induction false} PassesArePaid(b: Bucket, times: seq<real>, q: int)
    requires Sane(b, q) && Ascending(b, times)
    ensures var after := Calls(b, times);
            && Sane(after, q)
            && after.last == (if times == [] then b.last else times[|times| - 1])
            && Passes(b, times) as real + after.tokens <= b.tokens + Earned(after.last - b.last, q as real)
  {
    if times == [] {
      EarnedAdds(0.0, 0.0, q as real);
    } else {
      var n := |times| - 1;
      var mid, t := Calls(b, times[..n]), times[n];
      PassesArePaid(b, times[..n], q);
      CallKeepsSane(mid, q, t);
      EarnedAdds(mid.last - b.last, t - mid.last, q as real);
    }
  }

  lemma {:induction false} PassesSplit(b: Bucket, t: real, rest: seq<real>)
    ensures Calls(b, [t] + rest) == Calls(Consumed(b, t), rest)
    ensures Passes(b, [t] + rest) == (if Affords(b, t) then 1 else 0) + Passes(Consumed(b, t), rest)
    decreases |rest|
  {
    var all := [t] + rest;
    if rest == [] {
      assert all[..0] == [];
    } else {
      assert all[..|all| - 1] == [t] + rest[..|rest| - 1];
      PassesSplit(b, t, rest[..|rest| - 1]);
    }
  }

  function EndOf(t: real, rest: seq<real>): real {
    if rest == [] then t else rest[|rest| - 1]
  }

  lemma PassesAfterFirst(b: Bucket, t: real, rest: seq<real>, q: int)
    requires Sane(b, q) && b.last <= t && Ascending(Consumed(b, t), rest)
    ensures (if Affords(b, t) then 1.0 else 0.0) + Passes(Consumed(b, t), rest) as real
         <= q as real + Earned(EndOf(t, rest) - t, q as real)
  {
    CallKeepsSane(b, q, t);
    PassesArePaid(Consumed(b, t), rest, q);
  }

  /** Between its first and its last call a bucket passes at most q plus q per second. */
  lemma PassesInWindow(b: Bucket, t: real, rest: seq<real>, q: int)
    requires Sane(b, q) && Ascending(b, [t] + rest)
    ensures Passes(b, [t] + rest) as real <= q as real + Earned(EndOf(t, rest) - t, q as real)
  {
    PassesSplit(b, t, rest);
    RestAscends(b, t, rest);
    PassesAfterFirst(b, t, rest, q);
  }

  lemma RestAscends(b: Bucket, t: real, rest: seq<real>)
    requires Ascending(b, [t] + rest)
    ensures b.last <= t && Ascending(Consumed(b, t), rest)
  {
    var times := [t] + rest;
    assert times[0] == t && forall i :: 0 <= i < |rest| ==> rest[i] == times[i + 1];
    assert Consumed(b, t).last == t;
  }

  // ---- the manager's runs, key by key ----

  /** The qps of each key's first registration. */
  function FirstQps(steps: seq<Step>): map<string, int> {
    if steps == [] then map[]
    else
      var m, step := FirstQps(steps[..|steps| - 1]), steps[|steps| - 1];
      if step.Add? && step.info.key !in m then m[step.info.key := step.info.qpsLimit] else m
  }

  const NO_KEYS := Keys(map[], map[])

  /** The clock never goes back. */
  ghost predicate WellTimed(steps: seq<Step>) {
    forall i, j :: 0 <= i < j < |steps| ==> steps[i].now <= steps[j].now
  }

  /** In any run, whatever its clock, a key has a bucket once it was registered, of the capacity and rate of its first qps. */
  lemma {:induction false} BucketOfFirstQps(steps: seq<Step>, key: string)
    ensures var st, first := Run(NO_KEYS, steps), FirstQps(steps);
            && (key in st.buckets <==> key in first)
            && (key in st.buckets ==> st.buckets[key].capacity == st.buckets[key].rate == first[key] as real)
  {
    if steps != [] {
      BucketOfFirstQps(steps[..|steps| - 1], key);
    }
  }

  /** The tokens of a key first registered with a qps q of at least 0 stay in [0, q]. */
  lemma {:induction false} TokensStayInRange(steps: seq<Step>, key: string)
    requires WellTimed(steps)
    ensures var st, first := Run(NO_KEYS, steps), FirstQps(steps);
            && (key in st.buckets <==> key in first)
            && (key in st.buckets && first[key] >= 0 ==>
                  && Sane(st.buckets[key], first[key])
                  && steps != [] && st.buckets[key].last <= steps[|steps| - 1].now)
  {
    BucketOfFirstQps(steps, key);
    if steps != [] {
      var n := |steps| - 1;
      TokensStayInRange(steps[..n], key);
      BucketOfFirstQps(steps[..n], key);
      var mid, step := Run(NO_KEYS, steps[..n]), steps[n];
      if step.Check? && step.key == key && key in mid.buckets && FirstQps(steps)[key] >= 0 {
        CallKeepsSane(mid.buckets[key], FirstQps(steps[..n])[key], step.now);
      }
    }
  }

  /** Seen from one key, the steps so far were these calls on this bucket, and none before it had one. */
  ghost predicate Seen(st: Keys, admitted: nat, key: string, q: int, b: Bucket, times: seq<real>) {
    if key in st.buckets
    then Sane(b, q) && st.buckets[key] == Calls(b, times) && admitted == Passes(b, times)
    else admitted == 0 && times == []
  }

  ghost predicate NoneAfter(b: Bucket, times: seq<real>, now: real) {
    b.last <= now && forall i :: 0 <= i < |times| ==> times[i] <= now
  }

  /** What is known of one key's calls between the times lo and hi. */
  ghost predicate ViewOf(st: Keys, admitted: nat, key: string, q: int, b: Bucket, times: seq<real>, lo: real, hi: real) {
    && Seen(st, admitted, key, q, b, times)
    && Ascending(b, times)
    && (key in st.buckets ==> NoneAfter(b, times, hi))
    && forall i :: 0 <= i < |times| ==> lo <= times[i]
  }

  /** One more call after the others. */
  lemma CallsSnoc(b: Bucket, times: seq<real>, now: real)
    requires Ascending(b, times) && NoneAfter(b, times, now)
    ensures Ascending(b, times + [now]) && NoneAfter(b, times + [now], now)
    ensures Calls(b, times + [now]) == Consumed(Calls(b, times), now)
    ensures Passes(b, times + [now]) == Passes(b, times) + if Affords(Calls(b, times), now) then 1 else 0
  {
    assert (times + [now])[..|times|] == times;
  }

  /** What a step does to one key's bucket, and whether it admits the key. */
  lemma StepOnKey(st: Keys, step: Step, key: string)
    requires Paired(st) && key != ""
    ensures var after := Next(st, step);
            if key !in st.buckets then
              && (key in after.buckets <==> step.Add? && step.info.key == key)
              && (key in after.buckets ==> after.buckets[key] == Full(step.info.qpsLimit, step.now))
              && !Admits(st, step, key)
            else if step.Check? && step.key == key && st.infos[key].enabled then
              && key in after.buckets && after.buckets[key] == Consumed(st.buckets[key], step.now)
              && (Admits(st, step, key) <==> Affords(st.buckets[key], step.now))
            else key in after.buckets && after.buckets[key] == st.buckets[key] && !Admits(st, step, key)
  {
  }

  lemma ViewOfStep(st: Keys, step: Step, admitted: nat, key: string, q: int, b: Bucket, times: seq<real>, lo: real, hi: real)
    returns (b': Bucket, times': seq<real>)
    requires Paired(st) && key != "" && ViewOf(st, admitted, key, q, b, times, lo, hi)
    requires lo <= step.now && (key in st.buckets ==> hi <= step.now)
    requires key !in st.buckets && step.Add? && step.info.key == key ==> step.info.qpsLimit == q && q >= 0
    ensures ViewOf(Next(st, step), admitted + (if Admits(st, step, key) then 1 else 0), key, q, b', times', lo, step.now)
  {
    b', times' := b, times;
    StepOnKey(st, step, key);
    if key !in st.buckets && step.Add? && step.info.key == key {
      b', times' := Full(q, step.now), [];
    } else if key in st.buckets && step.Check? && step.key == key && st.infos[key].enabled {
      times' := times + [step.now];
      CallsSnoc(b, times, step.now);
    }
  }

  function QpsOf(steps: seq<Step>, key: string): int {
    if key in FirstQps(steps) then FirstQps(steps)[key] else 0
  }

  lemma AdmittedGrows(init: seq<Step>, step: Step, m: nat, key: string)
    requires m <= |init|
    ensures AdmittedFrom(init + [step], m, key)
         == AdmittedFrom(init, m, key) + if Admits(Run(NO_KEYS, init), step, key) then 1 else 0
  {
    assert (init + [step])[..|init|] == init;
  }

  /** A key's qps is settled by the step that first registers it. */
  lemma QpsSettled(init: seq<Step>, step: Step, key: string)
    ensures var before, q := Run(NO_KEYS, init), QpsOf(init + [step], key);
            && (key in before.buckets ==> q == QpsOf(init, key))
            && (key !in before.buckets ==> QpsOf(init, key) == 0)
            && (key !in before.buckets && step.Add? && step.info.key == key ==> step.info.qpsLimit == q)
  {
    BucketOfFirstQps(init, key);
    assert (init + [step])[..|init|] == init && (init + [step])[|init|] == step;
  }

  lemma WellTimedInit(init: seq<Step>, step: Step)
    requires WellTimed(init + [step])
    ensures WellTimed(init) && (init != [] ==> LastTime(init) <= step.now)
    ensures forall i :: 0 <= i < |init| ==> init[i].now <= step.now
  {
    var steps := init + [step];
    forall i | 0 <= i < |init| ensures steps[i] == init[i] && init[i].now <= step.now {
      assert steps[i].now <= steps[|init|].now;
    }
  }

  lemma RunSnoc(init: seq<Step>, step: Step)
    ensures Run(NO_KEYS, init + [step]) == Next(Run(NO_KEYS, init), step)
  {
    assert (init + [step])[..|init|] == init;
  }

  function LastTime(steps: seq<Step>): real {
    if steps == [] then 0.0 else steps[|steps| - 1].now
  }

  /** One key's view of a run from step m on. */
  ghost predicate View(steps: seq<Step>, m: nat, key: string, q: int, b: Bucket, times: seq<real>, lo: real)
  {
    ViewOf(Run(NO_KEYS, steps), AdmittedFrom(steps, m, key), key, q, b, times, lo, LastTime(steps))
  }

  lemma ViewFromHere(steps: seq<Step>, key: string, lo: real) returns (b: Bucket)
    requires WellTimed(steps) && QpsOf(steps, key) >= 0 && key != ""
    ensures View(steps, |steps|, key, QpsOf(steps, key), b, [], lo)
  {
    TokensStayInRange(steps, key);
    b := if key in Run(NO_KEYS, steps).buckets then Run(NO_KEYS, steps).buckets[key] else Full(0, 0.0);
  }

  lemma ViewStep(init: seq<Step>, step: Step, m: nat, key: string, b: Bucket, times: seq<real>, lo: real)
    returns (b': Bucket, times': seq<real>)
    requires WellTimed(init + [step]) && QpsOf(init + [step], key) >= 0 && m <= |init| && key != "" && lo <= step.now
    requires View(init, m, key, QpsOf(init, key), b, times, lo)
    ensures View(init + [step], m, key, QpsOf(init + [step], key), b', times', lo)
  {
    var st, q, admitted := Run(NO_KEYS, init), QpsOf(init + [step], key), AdmittedFrom(init, m, key);
    WellTimedInit(init, step);
    TokensStayInRange(init, key);
    QpsSettled(init, step, key);
    assert ViewOf(st, admitted, key, q, b, times, lo, LastTime(init));
    b', times' := ViewOfStep(st, step, admitted, key, q, b, times, lo, LastTime(init));
    RunSnoc(init, step);
    AdmittedGrows(init, step, m, key);
    assert LastTime(init + [step]) == step.now;
  }

  /**
   * Seen from one key, the part of a run that starts at step m is a series of calls on one bucket:
   * the one it had at m, or the full one it got when it was registered later. Its first qps is to be
   * at least 0; what other keys are registered with, or the key itself later, does not matter.
   */
  lemma {:induction false} OneKeysView(steps: seq<Step>, m: nat, key: string, lo: real) returns (b: Bucket, times: seq<real>)
    requires WellTimed(steps) && QpsOf(steps, key) >= 0 && m <= |steps| && key != ""
    requires m < |steps| ==> lo <= steps[m].now
    ensures View(steps, m, key, QpsOf(steps, key), b, times, lo)
    decreases |steps|
  {
    if m == |steps| {
      b := ViewFromHere(steps, key, lo);
      times := [];
    } else {
      var init, step := steps[..|steps| - 1], steps[|steps| - 1];
      assert steps == init + [step];
      WellTimedInit(init, step);
      QpsSettled(init, step, key);
      b, times := OneKeysView(init, m, key, lo);
      b, times := ViewStep(init, step, m, key, b, times, lo);
    }
  }

  /** A key first registered with a qps of 0 or less never passes, whatever the clock does. */
  lemma NoQpsNeverPasses(steps: seq<Step>, key: string, now: real)
    requires key != "" && QpsOf(steps, key) <= 0
    ensures !VerdictOf(Run(NO_KEYS, steps), key, now).Passed?
  {
    BucketOfFirstQps(steps, key);
  }

  lemma {:induction false} NoneAdmitted(steps: seq<Step>, m: nat, key: string)
    requires key != "" && QpsOf(steps, key) <= 0
    ensures AdmittedFrom(steps, m, key) == 0
  {
    if |steps| > m {
      var init, step := steps[..|steps| - 1], steps[|steps| - 1];
      assert steps == init + [step];
      QpsSettled(init, step, key);
      BucketOfFirstQps(init, key);
      NoneAdmitted(init, m, key);
      if Admits(Run(NO_KEYS, init), step, key) {
        NoQpsNeverPasses(init, key, step.now);
      }
    }
  }

  /** At most q calls and q more per second between the two times. */
  predicate WithinBound(admitted: nat, q: int, lo: real, hi: real) {
    admitted as real <= q as real + q as real * (hi - lo)
  }

  /**
   * In any window of any run, the checks of one non-empty key that pass number at most q + q*T:
   * T is the time between the window's first and last step, q the qps with which the key was
   * first registered, whatever was registered for it again later. With a negative q none pass.
   */
  lemma AdmissionBound(steps: seq<Step>, m: nat, key: string)
    requires WellTimed(steps) && m < |steps| && key != ""
    ensures if key in FirstQps(steps) && QpsOf(steps, key) >= 0
            then WithinBound(AdmittedFrom(steps, m, key), QpsOf(steps, key), steps[m].now, LastTime(steps))
            else AdmittedFrom(steps, m, key) == 0
  {
    TokensStayInRange(steps, key);
    if QpsOf(steps, key) < 0 {
      NoneAdmitted(steps, m, key);
      return;
    }
    var b, times := OneKeysView(steps, m, key, steps[m].now);
    if key in FirstQps(steps) {
      BoundFromView(Run(NO_KEYS, steps), AdmittedFrom(steps, m, key), key, QpsOf(steps, key), b, times,
                    steps[m].now, LastTime(steps));
    }
  }

  lemma BoundFromView(st: Keys, admitted: nat, key: string, q: int, b: Bucket, times: seq<real>, lo: real, hi: real)
    requires ViewOf(st, admitted, key, q, b, times, lo, hi) && key in st.buckets && lo <= hi
    ensures WithinBound(admitted, q, lo, hi)
  {
    PassesBetween(b, times, q, lo, hi);
    EarnedExactly(hi - lo, q as real);
  }

  lemma PassesBetween(b: Bucket, times: seq<real>, q: int, lo: real, hi: real)
    requires Sane(b, q) && Ascending(b, times) && NoneAfter(b, times, hi) && lo <= hi
    requires forall i :: 0 <= i < |times| ==> lo <= times[i]
    ensures Passes(b, times) as real <= q as real + Earned(hi - lo, q as real)
  {
    if times == [] {
      EarnedBounds(0.0, hi - lo, q);
    } else {
      var t, rest := times[0], times[1..];
      assert times == [t] + rest;
      assert EndOf(t, rest) == times[|times| - 1];
      PassesBetweenCalls(b, t, rest, q, lo, hi);
    }
  }

  lemma PassesBetweenCalls(b: Bucket, t: real, rest: seq<real>, q: int, lo: real, hi: real)
    requires Sane(b, q) && Ascending(b, [t] + rest) && lo <= t <= EndOf(t, rest) <= hi
    ensures Passes(b, [t] + rest) as real <= q as real + Earned(hi - lo, q as real)
  {
    PassesInWindow(b, t, rest, q);
    EarnedBounds(EndOf(t, rest) - t, hi - lo, q);
  }

  // ---- a polite client is never limited ----

  lemma SpacedCallIsServed(b: Bucket, q: int, now: real)
    requires Sane(b, q) && q >= 1 && now - b.last >= 1.0 / q as real
    ensures Affords(b, now)
  {
    EnoughTime(now - b.last, q as real);
  }

  lemma EnoughTime(elapsed: real, rate: real)
    requires rate >= 1.0 && elapsed >= 1.0 / rate
    ensures Earned(elapsed, rate) >= 1.0
  {
    assert (elapsed - 1.0 / rate) * rate >= 0.0;
    assert (1.0 / rate) * rate == 1.0;
  }

  predicate Checks(step: Step, key: string) {
    step.Check? && step.key == key
  }

  /** Any two checks of the key, and so any two consecutive ones, are at least 1/q apart. */
  ghost predicate Spaced(steps: seq<Step>, key: string, q: int)
    requires q >= 1
  {
    forall i, j :: 0 <= i < j < |steps| && Checks(steps[i], key) && Checks(steps[j], key) ==>
      steps[j].now - steps[i].now >= 1.0 / q as real
  }

  /** The bucket is as full as when it was made, or was last called by one of the run's checks. */
  ghost predicate FullOrChecked(steps: seq<Step>, key: string, b: Bucket) {
    b.tokens == b.capacity || exists i :: 0 <= i < |steps| && Checks(steps[i], key) && steps[i].now == b.last
  }

  lemma {:induction false} BucketIsFullOrChecked(steps: seq<Step>, key: string)
    ensures var st := Run(NO_KEYS, steps); key in st.buckets ==> FullOrChecked(steps, key, st.buckets[key])
  {
    if steps != [] {
      var init, step := steps[..|steps| - 1], steps[|steps| - 1];
      BucketIsFullOrChecked(init, key);
      assert forall i :: 0 <= i < |init| ==> steps[i] == init[i];
      assert Checks(step, key) ==> Checks(steps[|steps| - 1], key);
    }
  }

  /**
   * In any run, a check of a key whose checks are at least 1/q apart is never rate limited, q >= 1
   * being the qps of its first registration: whatever happens to other keys, and however often the
   * key itself is registered again, disabled or enabled in between.
   */
  lemma PoliteClientIsNeverLimited(steps: seq<Step>, key: string, now: real)
    requires WellTimed(steps + [Check(key, now)]) && QpsOf(steps, key) >= 1
    requires Spaced(steps + [Check(key, now)], key, QpsOf(steps, key))
    ensures VerdictOf(Run(NO_KEYS, steps), key, now) != RateLimited
  {
    var st, q, all := Run(NO_KEYS, steps), QpsOf(steps, key), steps + [Check(key, now)];
    WellTimedInit(steps, Check(key, now));
    TokensStayInRange(steps, key);
    BucketIsFullOrChecked(steps, key);
    var b := st.buckets[key];
    if b.tokens == b.capacity {
      EarnedBounds(0.0, now - b.last, q);
    } else {
      var i :| 0 <= i < |steps| && Checks(steps[i], key) && steps[i].now == b.last;
      assert Checks(all[i], key) && Checks(all[|steps|], key);
      SpacedCallIsServed(b, q, now);
    }
  }
}
