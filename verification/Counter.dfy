/** The shared counter: threads of fibers that add one to it under a mutex. */
module Counter {

  /** Where a fiber stands in the body of its loop. */
  datatype At = Start | Locked | Read(temp: int) | Written

  /** A fiber: how many iterations it has finished, and where it stands in the next. */
  datatype Fiber = Fiber(done: nat, at: At)

  type Name = nat

  datatype Mutex = Free | HeldBy(f: Name)

  /** The counter, the mutex, the fibers of all threads, and the number of writes made so far. */
  datatype State = State(shared: int, mutex: Mutex, fibers: seq<Fiber>, writes: nat)

  datatype Step = Lock(f: Name) | Load(f: Name) | Store(f: Name) | Unlock(f: Name)

  function Init(count: nat): State {
    State(0, Free, seq(count, _ => Fiber(0, Start)), 0)
  }

  predicate Enabled(s: State, rounds: nat, step: Step) {
    && step.f < |s.fibers|
    && match step
       case Lock(f) => s.fibers[f].at == Start && s.fibers[f].done < rounds && s.mutex == Free
       case Load(f) => s.fibers[f].at == Locked
       case Store(f) => s.fibers[f].at.Read?
       case Unlock(f) => s.fibers[f].at == Written
  }

  function With(s: State, f: Name, x: Fiber): State
    requires f < |s.fibers|
  {
    s.(fibers := s.fibers[f := x])
  }

  function Next(s: State, rounds: nat, step: Step): State
    requires Enabled(s, rounds, step)
  {
    var x := s.fibers[step.f];
    match step
    case Lock(f) => With(s.(mutex := HeldBy(f)), f, x.(at := Locked))
    case Load(f) => With(s, f, x.(at := Read(s.shared)))
    case Store(f) => With(s.(shared := x.at.temp + 1, writes := s.writes + 1), f, x.(at := Written))
    case Unlock(f) => With(s.(mutex := Free), f, Fiber(x.done + 1, Start))
  }

  predicate RunOk(s: State, rounds: nat, steps: seq<Step>)
    decreases |steps|
  {
    steps == [] || (Enabled(s, rounds, steps[0]) && RunOk(Next(s, rounds, steps[0]), rounds, steps[1..]))
  }

  function After(s: State, rounds: nat, steps: seq<Step>): State
    requires RunOk(s, rounds, steps)
    decreases |steps|
  {
    if steps == [] then s else After(Next(s, rounds, steps[0]), rounds, steps[1..])
  }

  /** The writes a fiber has made: those of its finished iterations, and of the one it is in. */
  function WritesOf(x: Fiber): nat {
    x.done + if x.at == Written then 1 else 0
  }

  function Total(fibers: seq<Fiber>): nat {
    if fibers == [] then 0 else Total(fibers[..|fibers| - 1]) + WritesOf(fibers[|fibers| - 1])
  }

  /** Only the holder of the mutex is inside; what it has read is still the value of the counter; and the counter
      is the number of writes, all of them accounted for. */
  predicate Invariant(s: State, rounds: nat) {
    && s.shared == s.writes == Total(s.fibers)
    && (s.mutex.HeldBy? ==> s.mutex.f < |s.fibers|)
    && (forall f | 0 <= f < |s.fibers| ::
          && (s.fibers[f].at != Start <==> s.mutex == HeldBy(f))
          && (s.fibers[f].at.Read? ==> s.fibers[f].at.temp == s.shared)
          && s.fibers[f].done <= rounds && (s.fibers[f].at != Start ==> s.fibers[f].done < rounds))
  }

  lemma {:induction false} TotalUpdate(fibers: seq<Fiber>, f: Name, x: Fiber)
    requires f < |fibers|
    ensures Total(fibers[f := x]) == Total(fibers) - WritesOf(fibers[f]) + WritesOf(x)
  {
    var n := |fibers| - 1;
    var next := fibers[f := x];
    if f == n {
      assert next[..n] == fibers[..n];
    } else {
      assert next[..n] == fibers[..n][f := x];
      TotalUpdate(fibers[..n], f, x);
    }
  }

  lemma {:induction false} OneMore(n: nat, each: nat)
    ensures (n + 1) * each == n * each + each
  {
  }

  lemma {:induction false} TotalSame(fibers: seq<Fiber>, each: nat)
    requires forall f | 0 <= f < |fibers| :: WritesOf(fibers[f]) == each
    ensures Total(fibers) == |fibers| * each
  {
    if fibers != [] {
      var n := |fibers| - 1;
      TotalSame(fibers[..n], each);
      OneMore(n, each);
    }
  }

  lemma {:induction false} StepKeeps(s: State, rounds: nat, step: Step)
    requires Invariant(s, rounds) && Enabled(s, rounds, step)
    ensures Invariant(Next(s, rounds, step), rounds)
  {
    var f := step.f;
    TotalUpdate(s.fibers, f, Next(s, rounds, step).fibers[f]);
  }

  lemma {:induction false} RunKeeps(s: State, rounds: nat, steps: seq<Step>)
    requires Invariant(s, rounds) && RunOk(s, rounds, steps)
    ensures Invariant(After(s, rounds, steps), rounds) && |After(s, rounds, steps).fibers| == |s.fibers|
    decreases |steps|
  {
    if steps != [] {
      StepKeeps(s, rounds, steps[0]);
      RunKeeps(Next(s, rounds, steps[0]), rounds, steps[1..]);
    }
  }

  lemma {:induction false} InitHolds(count: nat, rounds: nat)
    ensures Invariant(Init(count), rounds)
  {
    TotalSame(Init(count).fibers, 0);
  }

  /** In every interleaving the counter is the number of writes made. */
  lemma {:induction false} NoLostUpdate(count: nat, rounds: nat, steps: seq<Step>)
    requires RunOk(Init(count), rounds, steps)
    ensures var s := After(Init(count), rounds, steps); s.shared == s.writes == Total(s.fibers)
  {
    InitHolds(count, rounds);
    RunKeeps(Init(count), rounds, steps);
  }

  /** When every fiber of every thread is through, the counter is threads * fibers * iterations. */
  lemma {:induction false} FinalValue(threads: nat, fibers: nat, rounds: nat, steps: seq<Step>)
    requires RunOk(Init(threads * fibers), rounds, steps)
    requires var s := After(Init(threads * fibers), rounds, steps);
             forall f | 0 <= f < |s.fibers| :: s.fibers[f] == Fiber(rounds, Start)
    ensures After(Init(threads * fibers), rounds, steps).shared == threads * fibers * rounds
  {
    InitHolds(threads * fibers, rounds);
    RunKeeps(Init(threads * fibers), rounds, steps);
    TotalSame(After(Init(threads * fibers), rounds, steps).fibers, rounds);
  }

  // ----- every run ends -----

  /** Until every fiber is through, some step is possible: the mutex deadlocks nobody. */
  lemma {:induction false} Progress(s: State, rounds: nat, f: Name)
    requires Invariant(s, rounds) && f < |s.fibers| && s.fibers[f] != Fiber(rounds, Start)
    ensures exists step :: Enabled(s, rounds, step)
  {
    if s.mutex == Free {
      assert Enabled(s, rounds, Lock(f));
    } else {
      var g := s.mutex.f;
      match s.fibers[g].at
      case Locked => assert Enabled(s, rounds, Load(g));
      case Read(_) => assert Enabled(s, rounds, Store(g));
      case Written => assert Enabled(s, rounds, Unlock(g));
    }
  }

  /** The steps a fiber still has before it. */
  function StepsOf(x: Fiber, rounds: nat): int {
    4 * (rounds - x.done) - match x.at
                            case Start => 0
                            case Locked => 1
                            case Read(_) => 2
                            case Written => 3
  }

  function StepsLeft(fibers: seq<Fiber>, rounds: nat): int {
    if fibers == [] then 0 else StepsLeft(fibers[..|fibers| - 1], rounds) + StepsOf(fibers[|fibers| - 1], rounds)
  }

  lemma {:induction false} StepsUpdate(fibers: seq<Fiber>, rounds: nat, f: Name, x: Fiber)
    requires f < |fibers|
    ensures StepsLeft(fibers[f := x], rounds) == StepsLeft(fibers, rounds) - StepsOf(fibers[f], rounds) + StepsOf(x, rounds)
  {
    var n := |fibers| - 1;
    var next := fibers[f := x];
    if f == n {
      assert next[..n] == fibers[..n];
    } else {
      assert next[..n] == fibers[..n][f := x];
      StepsUpdate(fibers[..n], rounds, f, x);
    }
  }

  lemma {:induction false} StepsOfAll(fibers: seq<Fiber>, rounds: nat)
    requires forall f | 0 <= f < |fibers| :: fibers[f].done <= rounds && (fibers[f].at != Start ==> fibers[f].done < rounds)
    ensures StepsLeft(fibers, rounds) >= 0
    ensures (forall f | 0 <= f < |fibers| :: fibers[f].done == 0 && fibers[f].at == Start) ==>
              StepsLeft(fibers, rounds) == |fibers| * (4 * rounds)
  {
    if fibers != [] {
      var n := |fibers| - 1;
      StepsOfAll(fibers[..n], rounds);
      OneMore(n, 4 * rounds);
    }
  }

  lemma {:induction false} StepsTaken(s: State, rounds: nat, steps: seq<Step>)
    requires Invariant(s, rounds) && RunOk(s, rounds, steps)
    ensures StepsLeft(After(s, rounds, steps).fibers, rounds) + |steps| == StepsLeft(s.fibers, rounds)
    decreases |steps|
  {
    if steps != [] {
      var next := Next(s, rounds, steps[0]);
      StepKeeps(s, rounds, steps[0]);
      StepsUpdate(s.fibers, rounds, steps[0].f, next.fibers[steps[0].f]);
      StepsTaken(next, rounds, steps[1..]);
    }
  }

  /** No run is longer than four steps for each iteration of each fiber. */
  lemma {:induction false} RunsEnd(count: nat, rounds: nat, steps: seq<Step>)
    requires RunOk(Init(count), rounds, steps)
    ensures |steps| <= count * (4 * rounds)
  {
    InitHolds(count, rounds);
    RunKeeps(Init(count), rounds, steps);
    StepsTaken(Init(count), rounds, steps);
    StepsOfAll(Init(count).fibers, rounds);
    StepsOfAll(After(Init(count), rounds, steps).fibers, rounds);
  }
}
