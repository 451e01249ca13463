/**
 * The lock-free maximum: any number of threads, each loading a shared counter once and then
 * trying to swap its value in, where a swap may fail for no reason and then reloads the counter.
 */
module MetricMax {

  /** A thread before its load, in its loop with the value it last saw, and past its loop. */
  datatype Thread = Waiting(mine: nat) | Looping(mine: nat, seen: nat) | Finished(mine: nat)

  datatype State = State(counter: nat, threads: map<nat, Thread>)

  /**
   * What a thread can do next. Start submits a value; Load reads the counter; Leave ends the
   * loop when the value seen is no smaller; Swap is the compare-and-swap that succeeds because the
   * counter still is what was seen; Fail is one that fails, spuriously or not, and reloads.
   */
  datatype Step = Start(id: nat, value: nat) | Load(id: nat) | Leave(id: nat) | Swap(id: nat) | Fail(id: nat)

  predicate Enabled(st: State, step: Step) {
    match step
    case Start(id, _) => id !in st.threads
    case Load(id) => id in st.threads && st.threads[id].Waiting?
    case Leave(id) => id in st.threads && st.threads[id].Looping? && st.threads[id].mine <= st.threads[id].seen
    case Swap(id) =>
      id in st.threads && st.threads[id].Looping? && st.threads[id].mine > st.threads[id].seen
      && st.counter == st.threads[id].seen
    case Fail(id) => id in st.threads && st.threads[id].Looping? && st.threads[id].mine > st.threads[id].seen
  }

  function Next(st: State, step: Step): State
    requires Enabled(st, step)
  {
    match step
    case Start(id, value) => st.(threads := st.threads[id := Waiting(value)])
    case Load(id) => st.(threads := st.threads[id := Looping(st.threads[id].mine, st.counter)])
    case Leave(id) => st.(threads := st.threads[id := Finished(st.threads[id].mine)])
    case Swap(id) => State(st.threads[id].mine, st.threads[id := Finished(st.threads[id].mine)])
    case Fail(id) => st.(threads := st.threads[id := Looping(st.threads[id].mine, st.counter)])
  }

  /** states[0] is where the run starts and each step leads from one state to the next. */
  ghost predicate IsRun(states: seq<State>, steps: seq<Step>) {
    && |states| == |steps| + 1
    && states[0].threads == map[]
    && forall i :: 0 <= i < |steps| ==> Enabled(states[i], steps[i]) && states[i + 1] == Next(states[i], steps[i])
  }

  ghost predicate Submitted(st: State, v: nat) {
    exists id :: id in st.threads && st.threads[id].mine == v
  }

  /** The counter is the first value or a submitted one, and no thread is ahead of it. */
  ghost predicate Sound(st: State, initial: nat) {
    && initial <= st.counter && (st.counter == initial || Submitted(st, st.counter))
    && (forall id :: id in st.threads && st.threads[id].Looping? ==> st.threads[id].seen <= st.counter)
    && (forall id :: id in st.threads && st.threads[id].Finished? ==> st.threads[id].mine <= st.counter)
  }

  /** A thread keeps its value, and stays finished once it is. */
  ghost predicate SameThread(before: State, after: State, id: nat)
    requires id in before.threads
  {
    && id in after.threads && after.threads[id].mine == before.threads[id].mine
    && (before.threads[id].Finished? ==> after.threads[id].Finished?)
  }

  lemma StepKeepsSound(st: State, step: Step, initial: nat)
    requires Enabled(st, step) && Sound(st, initial)
    ensures Sound(Next(st, step), initial) && st.counter <= Next(st, step).counter
    ensures forall id :: id in st.threads ==> SameThread(st, Next(st, step), id)
  {
    var after := Next(st, step);
    if st.counter != initial {
      var id :| id in st.threads && st.threads[id].mine == st.counter;
      assert id in after.threads && after.threads[id].mine == st.counter;
    }
    if step.Swap? {
      assert after.threads[step.id].mine == after.counter;
    }
  }

  /**
   * A thread is never stuck: before its load it can load, and in its loop it can leave when the value
   * seen is no smaller, and otherwise can retry, and puts its own value in if nobody came in between.
   */
  lemma ThreadCanMove(st: State, id: nat)
    requires id in st.threads
    ensures var t := st.threads[id];
            && (t.Waiting? ==> Enabled(st, Load(id)) && Next(st, Load(id)).threads[id] == Looping(t.mine, st.counter))
            && (t.Looping? && t.mine <= t.seen ==> Enabled(st, Leave(id)) && Next(st, Leave(id)).threads[id].Finished?)
            && (t.Looping? && t.mine > t.seen ==>
                  Enabled(st, Fail(id)) && Next(st, Fail(id)).threads[id] == Looping(t.mine, st.counter))
            && (t.Looping? && t.mine > t.seen == st.counter ==>
                  Enabled(st, Swap(id)) && Next(st, Swap(id)).counter == t.mine && Next(st, Swap(id)).threads[id].Finished?)
  {
  }

  lemma {:induction false} RunIsSound(states: seq<State>, steps: seq<Step>, i: nat)
    requires IsRun(states, steps) && i < |states|
    ensures Sound(states[i], states[0].counter)
  {
    if i > 0 {
      RunIsSound(states, steps, i - 1);
      StepKeepsSound(states[i - 1], steps[i - 1], states[0].counter);
    }
  }

  /**
   * Under every interleaving, spurious failures included: the counter never decreases, it is
   * always the initial value or a submitted one, and it is at least every finished thread's value,
   * from the moment that thread finishes.
   */
  lemma {:induction false} CounterIsMaximum(states: seq<State>, steps: seq<Step>, i: nat, j: nat, id: nat)
    requires IsRun(states, steps) && i <= j < |states|
    ensures states[i].counter <= states[j].counter
    ensures states[j].counter == states[0].counter || Submitted(states[j], states[j].counter)
    ensures id in states[i].threads && states[i].threads[id].Finished? ==> states[i].threads[id].mine <= states[j].counter
  {
    RunIsSound(states, steps, i);
    RunIsSound(states, steps, j);
    if i < j {
      CounterIsMaximum(states, steps, i, j - 1, id);
      RunIsSound(states, steps, j - 1);
      StepKeepsSound(states[j - 1], steps[j - 1], states[0].counter);
    }
  }

  /** Once every thread has finished, the counter is exactly the largest of the initial and submitted values. */
  lemma QuietCounterIsExact(states: seq<State>, steps: seq<Step>)
    requires IsRun(states, steps)
    requires forall id :: id in states[|steps|].threads ==> states[|steps|].threads[id].Finished?
    ensures var last := states[|steps|];
            && states[0].counter <= last.counter
            && (forall id :: id in last.threads ==> last.threads[id].mine <= last.counter)
            && (last.counter == states[0].counter || Submitted(last, last.counter))
  {
    RunIsSound(states, steps, |steps|);
  }
}
