/** Exactly which checks of a key pass, over any run of the key manager. */
module Admission {
  import opened Auth

  // ---- nothing is lost between a full bucket and now ----

  /**
   * Since the step m, at which the bucket was full, every token earned is still there or was paid
   * for a check that passed.
   */
  ghost predicate NothingLostSince(steps: seq<Step>, key: string, q: int, m: nat) {
    && m < |steps| && key in Run(NO_KEYS, steps).buckets
    && var b := Run(NO_KEYS, steps).buckets[key];
       b.tokens == q as real + Earned(b.last - steps[m].now, q as real) - AdmittedFrom(steps, m, key) as real
  }

  // One bucket: a call that fills it up, any other call, and a call at the moment of the last one.

  lemma FillingCall(b: Bucket, q: int, now: real)
    requires b.capacity == b.rate == q as real && b.tokens + Earned(now - b.last, q as real) >= q as real
    ensures Consumed(b, now) == b.(last := now, tokens := q as real - if Affords(b, now) then 1.0 else 0.0)
  {
  }

  lemma PayingCall(b: Bucket, q: int, now: real)
    requires b.capacity == b.rate == q as real && b.tokens + Earned(now - b.last, q as real) < q as real
    ensures Consumed(b, now) ==
            b.(last := now, tokens := b.tokens + Earned(now - b.last, q as real) - if Affords(b, now) then 1.0 else 0.0)
    ensures Affords(b, now) <==> b.tokens + Earned(now - b.last, q as real) >= 1.0
  {
  }

  lemma RepeatedCall(b: Bucket)
    requires b.tokens <= b.capacity
    ensures Consumed(b, b.last) == b.(tokens := b.tokens - if b.tokens >= 1.0 then 1.0 else 0.0)
    ensures Affords(b, b.last) <==> b.tokens >= 1.0
  {
    EarnedAdds(0.0, 0.0, b.rate);
  }

  lemma AdmittedFromLast(init: seq<Step>, step: Step, key: string)
    ensures AdmittedFrom(init + [step], |init|, key) == if Admits(Run(NO_KEYS, init), step, key) then 1 else 0
  {
    AdmittedGrows(init, step, |init|, key);
  }

  lemma FullAtLast(init: seq<Step>, step: Step, key: string, q: int, b: Bucket, paid: nat)
    requires key in Run(NO_KEYS, init + [step]).buckets && b == Run(NO_KEYS, init + [step]).buckets[key]
    requires b.last == step.now && b.tokens == q as real - paid as real
    requires AdmittedFrom(init + [step], |init|, key) == paid
    ensures NothingLostSince(init + [step], key, q, |init|)
  {
    EarnedAdds(0.0, 0.0, q as real);
    assert (init + [step])[|init|] == step;
  }

  /** The step that registers the key makes its bucket, full. */
  lemma RegisteredNow(init: seq<Step>, step: Step, key: string)
    requires key != "" && key !in Run(NO_KEYS, init).buckets && step.Add? && step.info.key == key
    ensures NothingLostSince(init + [step], key, step.info.qpsLimit, |init|)
  {
    RunSnoc(init, step);
    AdmittedFromLast(init, step, key);
    FullAtLast(init, step, key, step.info.qpsLimit, Full(step.info.qpsLimit, step.now), 0);
  }

  /** A check that finds more than the bucket holds fills it again. */
  lemma FilledNow(init: seq<Step>, step: Step, key: string, q: int)
    requires key != "" && key in Run(NO_KEYS, init).buckets && Checks(step, key) && Run(NO_KEYS, init).infos[key].enabled
    requires var b := Run(NO_KEYS, init).buckets[key];
             b.capacity == b.rate == q as real && b.tokens + Earned(step.now - b.last, q as real) >= q as real
    ensures NothingLostSince(init + [step], key, q, |init|)
  {
    var st := Run(NO_KEYS, init);
    var b, paid := Consumed(st.buckets[key], step.now), if Affords(st.buckets[key], step.now) then 1 else 0;
    assert b.last == step.now && b.tokens == q as real - paid as real by {
      FillingCall(st.buckets[key], q, step.now);
    }
    StepOnKey(st, step, key);
    RunSnoc(init, step);
    AdmittedFromLast(init, step, key);
    assert Admits(st, step, key) <==> paid == 1;
    FullAtLast(init, step, key, q, b, paid);
  }

  /** Any other enabled check adds what was earned and takes what it pays. */
  lemma PaidNow(init: seq<Step>, step: Step, key: string, q: int, m: nat)
    requires key != "" && NothingLostSince(init, key, q, m) && Checks(step, key) && Run(NO_KEYS, init).infos[key].enabled
    requires var b := Run(NO_KEYS, init).buckets[key];
             b.capacity == b.rate == q as real && b.tokens + Earned(step.now - b.last, q as real) < q as real
    ensures NothingLostSince(init + [step], key, q, m)
  {
    var b := Run(NO_KEYS, init).buckets[key];
    PayingCall(b, q, step.now);
    RunSnoc(init, step);
    StepOnKey(Run(NO_KEYS, init), step, key);
    AdmittedGrows(init, step, m, key);
    EarnedAdds(b.last - init[m].now, step.now - b.last, q as real);
    assert (init + [step])[m] == init[m];
  }

  lemma UntouchedNow(init: seq<Step>, step: Step, key: string, q: int, m: nat)
    requires key != "" && NothingLostSince(init, key, q, m)
    requires !(Checks(step, key) && Run(NO_KEYS, init).infos[key].enabled)
    ensures NothingLostSince(init + [step], key, q, m)
  {
    RunSnoc(init, step);
    StepOnKey(Run(NO_KEYS, init), step, key);
    AdmittedGrows(init, step, m, key);
    assert (init + [step])[m] == init[m];
  }

  lemma {:induction false} SomeFullMoment(steps: seq<Step>, key: string) returns (m: nat)
    requires key != "" && key in FirstQps(steps)
    ensures NothingLostSince(steps, key, QpsOf(steps, key), m)
    decreases |steps|
  {
    var init, step := steps[..|steps| - 1], steps[|steps| - 1];
    assert steps == init + [step];
    BucketOfFirstQps(init, key);
    QpsSettled(init, step, key);
    if key !in FirstQps(init) {
      RegisteredNow(init, step, key);
      m := |init|;
    } else {
      m := SomeFullMoment(init, key);
      var b, q := Run(NO_KEYS, init).buckets[key], QpsOf(init, key);
      if !(Checks(step, key) && Run(NO_KEYS, init).infos[key].enabled) {
        UntouchedNow(init, step, key, q, m);
      } else if b.tokens + Earned(step.now - b.last, q as real) >= q as real {
        FilledNow(init, step, key, q);
        m := |init|;
      } else {
        PaidNow(init, step, key, q, m);
      }
    }
  }

  // ---- which checks pass ----

  /** With one more pass at the time now, the passes since step m stay within the bound. */
  predicate RoomSince(steps: seq<Step>, key: string, q: int, m: nat, now: real)
    requires m < |steps|
  {
    WithinBound(AdmittedFrom(steps, m, key) + 1, q, steps[m].now, now)
  }

  lemma PassLeavesRoom(steps: seq<Step>, key: string, now: real, m: nat)
    requires WellTimed(steps + [Check(key, now)]) && key != "" && m < |steps|
    requires VerdictOf(Run(NO_KEYS, steps), key, now).Passed?
    ensures RoomSince(steps, key, QpsOf(steps, key), m, now)
  {
    if QpsOf(steps, key) < 0 {
      NoQpsNeverPasses(steps, key, now);
    } else {
      PassIsWithinBound(steps, key, now, m);
    }
  }

  lemma PassIsWithinBound(steps: seq<Step>, key: string, now: real, m: nat)
    requires WellTimed(steps + [Check(key, now)]) && key != "" && m < |steps| && QpsOf(steps, key) >= 0
    requires VerdictOf(Run(NO_KEYS, steps), key, now).Passed?
    ensures WithinBound(AdmittedFrom(steps, m, key) + 1, QpsOf(steps, key), steps[m].now, now)
  {
    var step := Check(key, now);
    var all := steps + [step];
    QpsSettled(steps, step, key);
    BucketOfFirstQps(steps, key);
    BucketOfFirstQps(all, key);
    RunSnoc(steps, step);
    AdmissionBound(all, m, key);
    AdmittedGrows(steps, step, m, key);
    assert all[m] == steps[m] && LastTime(all) == now;
    assert AdmittedFrom(all, m, key) == AdmittedFrom(steps, m, key) + 1;
  }

  lemma RefusalLeavesNone(steps: seq<Step>, key: string, now: real) returns (m: nat)
    requires WellTimed(steps + [Check(key, now)]) && key != ""
    requires VerdictOf(Run(NO_KEYS, steps), key, now).RateLimited? && QpsOf(steps, key) >= 1
    ensures m < |steps| && !RoomSince(steps, key, QpsOf(steps, key), m, now)
  {
    BucketOfFirstQps(steps, key);
    m := SomeFullMoment(steps, key);
    var b, q := Run(NO_KEYS, steps).buckets[key], QpsOf(steps, key);
    EarnedAdds(b.last - steps[m].now, now - b.last, q as real);
    EarnedExactly(now - steps[m].now, q as real);
    if b.tokens + Earned(now - b.last, q as real) >= q as real {
      FillingCall(b, q, now);
    } else {
      PayingCall(b, q, now);
    }
  }

  /**
   * A check of an enabled key whose first qps is at least 1 passes if and only if the bound allows
   * it: at no earlier moment of the run would the passes from then to now, this one included, exceed
   * q plus q per second.
   */
  lemma ChecksPassExactly(steps: seq<Step>, key: string, now: real)
    requires WellTimed(steps + [Check(key, now)]) && key != "" && QpsOf(steps, key) >= 1
    requires key in Run(NO_KEYS, steps).infos && Run(NO_KEYS, steps).infos[key].enabled
    ensures VerdictOf(Run(NO_KEYS, steps), key, now).Passed? <==>
            forall m :: 0 <= m < |steps| ==> RoomSince(steps, key, QpsOf(steps, key), m, now)
  {
    if VerdictOf(Run(NO_KEYS, steps), key, now).Passed? {
      forall m | 0 <= m < |steps| ensures RoomSince(steps, key, QpsOf(steps, key), m, now) {
        PassLeavesRoom(steps, key, now, m);
      }
    } else {
      var m := RefusalLeavesNone(steps, key, now);
    }
  }

  // ---- a burst ----

  function Repeated(step: Step, n: nat): seq<Step> {
    if n == 0 then [] else Repeated(step, n - 1) + [step]
  }

  /** How many of the first n checks of a burst pass. */
  function Taken(n: nat, q: nat): nat {
    if n <= q then n else q
  }

  /** The bucket after n checks at the moment it was made. */
  function AfterBurst(q: nat, now: real, n: nat): Bucket {
    Full(q, now).(tokens := (q - Taken(n, q)) as real)
  }

  lemma BurstCall(q: nat, now: real, n: nat)
    ensures Consumed(AfterBurst(q, now, n), now) == AfterBurst(q, now, n + 1)
    ensures Affords(AfterBurst(q, now, n), now) <==> n < q
  {
    RepeatedCall(AfterBurst(q, now, n));
  }

  /** After n checks the key is registered as it was, its bucket has paid for them, and those that could passed. */
  ghost predicate BurstDone(all: seq<Step>, from: nat, info: KeyInfo, now: real, n: nat)
    requires info.qpsLimit >= 0
  {
    var st := Run(NO_KEYS, all);
    && from <= |all| && info.key in st.buckets && st.infos[info.key] == info
    && st.buckets[info.key] == AfterBurst(info.qpsLimit, now, n)
    && AdmittedFrom(all, from, info.key) == Taken(n, info.qpsLimit)
  }

  lemma BurstStarts(steps: seq<Step>, info: KeyInfo, now: real)
    requires info.key != "" && info.key !in FirstQps(steps) && info.qpsLimit >= 0
    ensures BurstDone(steps + [Add(info, now)], |steps|, info, now, 0)
  {
    BucketOfFirstQps(steps, info.key);
    RunSnoc(steps, Add(info, now));
    AdmittedFromLast(steps, Add(info, now), info.key);
  }

  lemma BurstContinues(all: seq<Step>, from: nat, info: KeyInfo, now: real, n: nat)
    requires info.key != "" && info.enabled && info.qpsLimit >= 0 && BurstDone(all, from, info, now, n)
    ensures BurstDone(all + [Check(info.key, now)], from, info, now, n + 1)
  {
    var step := Check(info.key, now);
    RunSnoc(all, step);
    AdmittedGrows(all, step, from, info.key);
    BurstCall(info.qpsLimit, now, n);
    StepOnKey(Run(NO_KEYS, all), step, info.key);
  }

  lemma {:induction false} BurstSoFar(steps: seq<Step>, info: KeyInfo, now: real, n: nat)
    requires info.key != "" && info.key !in FirstQps(steps) && info.enabled && info.qpsLimit >= 0
    ensures BurstDone(steps + [Add(info, now)] + Repeated(Check(info.key, now), n), |steps|, info, now, n)
  {
    var step, start := Check(info.key, now), steps + [Add(info, now)];
    if n == 0 {
      assert start + [] == start;
      BurstStarts(steps, info, now);
    } else {
      BurstSoFar(steps, info, now, n - 1);
      assert start + Repeated(step, n) == start + Repeated(step, n - 1) + [step];
      BurstContinues(start + Repeated(step, n - 1), |steps|, info, now, n - 1);
    }
  }

  /** Of n checks at the moment of its first registration a key with qps q passes the first q, and so all of them exactly if n <= q. */
  lemma BurstPasses(steps: seq<Step>, info: KeyInfo, now: real, n: nat)
    requires info.key != "" && info.key !in FirstQps(steps) && info.enabled && info.qpsLimit >= 0
    ensures var all := steps + [Add(info, now)] + Repeated(Check(info.key, now), n);
            && AdmittedFrom(all, |steps|, info.key) == (if n <= info.qpsLimit then n else info.qpsLimit)
            && (AdmittedFrom(all, |steps|, info.key) == n <==> n <= info.qpsLimit)
  {
    BurstSoFar(steps, info, now, n);
  }

  // ---- which refusal is given ----

  /** Step i registered the key, and nothing registered it again later. */
  ghost predicate LatestAdd(steps: seq<Step>, key: string, i: int, info: KeyInfo) {
    && 0 <= i < |steps| && steps[i].Add? && steps[i].info == info && info.key == key
    && forall j :: i < j < |steps| && steps[j].Add? ==> steps[j].info.key != key
  }

  lemma {:induction false} InfoIsLatest(steps: seq<Step>, key: string)
    ensures var st := Run(NO_KEYS, steps);
            && (key in st.infos <==> exists i, info :: LatestAdd(steps, key, i, info))
            && (forall i, info :: LatestAdd(steps, key, i, info) ==> key in st.infos && st.infos[key] == info)
  {
    if steps != [] {
      var n := |steps| - 1;
      var init, step := steps[..n], steps[n];
      InfoIsLatest(init, key);
      if step.Add? && step.info.key == key {
        assert LatestAdd(steps, key, n, step.info);
      } else {
        forall i, info ensures LatestAdd(steps, key, i, info) <==> LatestAdd(init, key, i, info) {
        }
      }
    }
  }

  /**
   * The empty key always passes; another is invalid exactly if it was never registered, and disabled
   * exactly if its latest registration says so; only then does its bucket decide.
   */
  lemma RefusalsExact(steps: seq<Step>, key: string, now: real)
    ensures var v := VerdictOf(Run(NO_KEYS, steps), key, now);
            if key == "" then v == Passed
            else
              && (v == InvalidKey <==> forall i, info :: !LatestAdd(steps, key, i, info))
              && (v == Disabled <==> exists i, info :: LatestAdd(steps, key, i, info) && !info.enabled)
              && (v == Passed || v == RateLimited <==> exists i, info :: LatestAdd(steps, key, i, info) && info.enabled)
  {
    InfoIsLatest(steps, key);
    if i, info :| LatestAdd(steps, key, i, info) {
      assert Run(NO_KEYS, steps).infos[key] == info;
    }
  }
}
