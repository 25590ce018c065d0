/**
 The shared timestamp counter: threads in the load / compare-exchange loop of
 `next_micros`, and the `fetch_max` of explicit writes, in any interleaving.
 */
module Counter {
  import opened Wrappers
  import opened Bytes

  type ThreadId = nat

  /** `at` counts the events before the load. */
  datatype Pc = Ready(clock: i64) | Loaded(clock: i64, prev: i64, at: nat)

  /** What happened to the counter, in the order of its atomic operations. */
  datatype Event = Issued(thread: ThreadId, clock: i64, value: i64) | Raised(value: i64)

  datatype State = State(counter: i64, threads: map<ThreadId, Pc>, log: seq<Event>)

  datatype Step = ReadClock(t: ThreadId, clock: i64) | Load(t: ThreadId) | CompareExchange(t: ThreadId) | FetchMax(value: i64)

  function Start(counter: i64): State {
    State(counter, map[], [])
  }

  /** The value a thread will try to install. */
  function Candidate(clock: i64, prev: i64): int {
    if prev >= clock then prev + 1 else clock
  }

  /** No step where the source could not take it, nor where adding one would overflow. */
  function Next(s: State, step: Step): Option<State> {
    match step
    case ReadClock(t, clock) =>
      if t in s.threads then None else Some(s.(threads := s.threads[t := Ready(clock)]))
    case Load(t) =>
      if t !in s.threads || !s.threads[t].Ready? then None
      else Some(s.(threads := s.threads[t := Loaded(s.threads[t].clock, s.counter, |s.log|)]))
    case CompareExchange(t) =>
      if t !in s.threads || !s.threads[t].Loaded? then None
      else
        var pc := s.threads[t];
        var next := Candidate(pc.clock, pc.prev);
        if next > I64_MAX then None
        else if s.counter == pc.prev then
          Some(State(next, s.threads - {t}, s.log + [Issued(t, pc.clock, next)]))
        else
          Some(s.(threads := s.threads[t := Ready(pc.clock)]))
    case FetchMax(value) =>
      Some(s.(counter := if s.counter < value then value else s.counter, log := s.log + [Raised(value)]))
  }

  function Run(s: State, steps: seq<Step>): Option<State>
    decreases |steps|
  {
    if steps == [] then Some(s)
    else
      match Next(s, steps[0])
      case None => None
      case Some(s1) => Run(s1, steps[1..])
  }

  /** The greatest of a start value and the values of some events. */
  function Top(start: i64, log: seq<Event>): (top: i64)
    ensures start <= top && forall i :: 0 <= i < |log| ==> log[i].value <= top
    ensures top == start || exists i :: 0 <= i < |log| && log[i].value == top
  {
    if log == [] then start
    else
      var init, last := log[..|log| - 1], log[|log| - 1];
      var top := Top(start, init);
      assert forall i :: 0 <= i < |init| ==> log[i] == init[i];
      if top < last.value then last.value else top
  }

  lemma {:induction false} TopGrows(start: i64, log: seq<Event>, at: nat)
    requires at <= |log|
    ensures Top(start, log[..at]) <= Top(start, log)
    ensures Top(start, log[..at]) < Top(start, log) ==>
              exists i :: at <= i < |log| && log[i].value > Top(start, log[..at])
    decreases |log|
  {
    if at == |log| {
      assert log[..at] == log;
    } else {
      var init := log[..|log| - 1];
      assert init[..at] == log[..at];
      TopGrows(start, init, at);
      if i :| at <= i < |init| && init[i].value > Top(start, init[..at]) {
        assert log[i] == init[i];
      }
      assert log[|log| - 1].value > Top(start, log[..at]) ==> at <= |log| - 1 < |log|;
    }
  }

  /** Everything handed out exceeds everything before it, handed out or explicitly applied, and its own clock reading. */
  ghost predicate Ordered(start: i64, log: seq<Event>) {
    forall j :: 0 <= j < |log| && log[j].Issued? ==>
      && start < log[j].value
      && log[j].clock <= log[j].value
      && forall i :: 0 <= i < j ==> log[i].value < log[j].value
  }

  /** Nothing handed out is later than it must be: it is its clock reading, or one more than what the counter had reached. */
  ghost predicate Tight(start: i64, log: seq<Event>) {
    forall j :: 0 <= j < |log| && log[j].Issued? ==>
      || log[j].value == log[j].clock
      || log[j].value == start + 1
      || exists i :: 0 <= i < j && log[j].value == log[i].value + 1
  }

  ghost predicate Inv(start: i64, s: State) {
    && s.counter == Top(start, s.log)
    && Ordered(start, s.log) && Tight(start, s.log)
    && LoadsAreTops(start, s.threads, s.log)
  }

  /** What a thread loaded is what the counter had come to then. */
  ghost predicate LoadsAreTops(start: i64, threads: map<ThreadId, Pc>, log: seq<Event>) {
    forall t :: t in threads && threads[t].Loaded? ==>
      threads[t].at <= |log| && threads[t].prev == Top(start, log[..threads[t].at])
  }

  lemma TightGrows(start: i64, log: seq<Event>, e: Event)
    requires Tight(start, log)
    requires e.Issued? ==> e.value == e.clock || e.value == Top(start, log) + 1
    ensures Tight(start, log + [e])
  {
    var longer := log + [e];
    forall j | 0 <= j < |longer| && longer[j].Issued?
      ensures longer[j].value == longer[j].clock || longer[j].value == start + 1
              || exists i :: 0 <= i < j && longer[j].value == longer[i].value + 1
    {
      if j < |log| {
        assert longer[j] == log[j];
        if i :| 0 <= i < j && log[j].value == log[i].value + 1 {
          assert longer[i] == log[i];
        }
      } else if e.value != e.clock && Top(start, log) != start {
        var i :| 0 <= i < |log| && log[i].value == Top(start, log);
        assert longer[i] == log[i];
      }
    }
  }

  lemma OrderedGrows(start: i64, log: seq<Event>, e: Event)
    requires Ordered(start, log)
    requires e.Issued? ==> Top(start, log) < e.value && e.clock <= e.value
    ensures Ordered(start, log + [e])
  {
    assert forall i :: 0 <= i < |log| ==> (log + [e])[i] == log[i];
  }

  lemma TopAfter(start: i64, log: seq<Event>, e: Event)
    ensures Top(start, log + [e]) == if Top(start, log) < e.value then e.value else Top(start, log)
  {
    assert (log + [e])[..|log|] == log;
  }

  lemma LogGrows(start: i64, s: State, e: Event, counter: i64, threads: map<ThreadId, Pc>)
    requires Inv(start, s)
    requires counter == if s.counter < e.value then e.value else s.counter
    requires e.Issued? ==> s.counter < e.value && e.clock <= e.value && (e.value == e.clock || e.value == s.counter + 1)
    requires forall t :: t in threads ==> t in s.threads && threads[t] == s.threads[t]
    ensures Inv(start, State(counter, threads, s.log + [e]))
  {
    TightGrows(start, s.log, e);
    OrderedGrows(start, s.log, e);
    TopAfter(start, s.log, e);
    LoadsStand(start, s.threads, threads, s.log, e);
    hide Tight, Ordered, Top, LoadsAreTops;
  }

  lemma LoadsStand(start: i64, before: map<ThreadId, Pc>, threads: map<ThreadId, Pc>, log: seq<Event>, e: Event)
    requires LoadsAreTops(start, before, log)
    requires forall t :: t in threads ==> t in before && threads[t] == before[t]
    ensures LoadsAreTops(start, threads, log + [e])
  {
    hide Top;
    forall t | t in threads && threads[t].Loaded?
      ensures threads[t].at <= |log + [e]| && threads[t].prev == Top(start, (log + [e])[..threads[t].at])
    {
      assert (log + [e])[..threads[t].at] == log[..threads[t].at];
    }
  }

  lemma StepKeepsInv(start: i64, s: State, step: Step)
    requires Inv(start, s) && Next(s, step).Some?
    ensures Inv(start, Next(s, step).value)
    ensures s.counter <= Next(s, step).value.counter
  {
    match step
    case FetchMax(value) =>
      LogGrows(start, s, Raised(value), Next(s, step).value.counter, s.threads);
    case CompareExchange(t) =>
      var pc := s.threads[t];
      if s.counter == pc.prev {
        var next := Candidate(pc.clock, pc.prev);
        LogGrows(start, s, Issued(t, pc.clock, next), next, s.threads - {t});
      }
    case Load(t) =>
      assert s.log[..|s.log|] == s.log;
    case ReadClock(_, _) =>
  }

  /**
   In every interleaving the counter never decreases, and timestamps come out
   pairwise distinct, increasing in the order of the exchanges, at least their
   caller's clock and above every explicit timestamp applied before them.
   */
  lemma {:induction false} RunKeepsInv(start: i64, s: State, steps: seq<Step>)
    requires Inv(start, s) && Run(s, steps).Some?
    ensures Inv(start, Run(s, steps).value) && s.counter <= Run(s, steps).value.counter
    decreases |steps|
  {
    if steps != [] {
      StepKeepsInv(start, s, steps[0]);
      RunKeepsInv(start, Next(s, steps[0]).value, steps[1..]);
    }
  }

  lemma TimestampsIncrease(start: i64, steps: seq<Step>)
    requires Run(Start(start), steps).Some?
    ensures var s := Run(Start(start), steps).value;
            && Ordered(start, s.log) && Tight(start, s.log)
            && start <= s.counter
            && forall i :: 0 <= i < |s.log| ==> s.log[i].value <= s.counter
  {
    RunKeepsInv(start, Start(start), steps);
  }

  /** A thread is done only when it was handed a timestamp, for the clock reading it came with. */
  lemma DoneMeansIssued(s: State, step: Step, t: ThreadId)
    requires Next(s, step).Some? && t in s.threads && t !in Next(s, step).value.threads
    ensures var log := Next(s, step).value.log;
            && |log| == |s.log| + 1 && log[..|s.log|] == s.log
            && log[|s.log|].Issued? && log[|s.log|].thread == t && log[|s.log|].clock == s.threads[t].clock
            && log[|s.log|].value == Next(s, step).value.counter
  {
  }

  /** A failed exchange means the counter moved past what was loaded: some other thread got through. */
  lemma FailureMeansProgress(start: i64, s: State, t: ThreadId)
    requires Inv(start, s) && t in s.threads && s.threads[t].Loaded? && s.counter != s.threads[t].prev
    ensures exists i :: s.threads[t].at <= i < |s.log| && s.log[i].value > s.threads[t].prev
  {
    TopGrows(start, s.log, s.threads[t].at);
  }

  /** The counter after other threads raised it to each of these values in turn. */
  function RaiseAll(counter: i64, values: seq<i64>): (top: i64)
    ensures counter <= top && forall i :: 0 <= i < |values| ==> values[i] <= top
    ensures top == counter || top in values
  {
    if values == [] then counter
    else
      var n := |values| - 1;
      var top := RaiseAll(counter, values[..n]);
      if top < values[n] then values[n] else top
  }

  /** The greatest of a value and some others. */
  ghost predicate Greatest(top: i64, value: i64, others: seq<i64>) {
    && (top == value || top in others)
    && value <= top && forall i :: 0 <= i < |others| ==> others[i] <= top
  }

  /** The timestamp for a clock reading: the reading itself, or one more than the greatest of the counter and what it was raised to. */
  ghost predicate Stamped(counter: i64, clock: i64, raises: seq<i64>, t: i64) {
    exists top: i64 :: Greatest(top, counter, raises) && t == if top < clock then clock else top + 1
  }

  lemma StampedBy(counter: i64, clock: i64, raises: seq<i64>)
    requires RaiseAll(counter, raises) < I64_MAX
    ensures Stamped(counter, clock, raises, Candidate(clock, RaiseAll(counter, raises)))
  {
    RaisedToGreatest(counter, raises);
    assert Greatest(RaiseAll(counter, raises), counter, raises);
  }

  lemma RaisedToGreatest(counter: i64, values: seq<i64>)
    ensures forall top: i64 :: Greatest(top, counter, values) <==> top == RaiseAll(counter, values)
  {
  }

  class AtomicCounter {
    var value: i64

    constructor (value: i64)
      ensures this.value == value
    {
      this.value := value;
    }

    method FetchMax(v: i64)
      modifies this
      ensures value == RaiseAll(old(value), [v])
      ensures value == if old(value) < v then v else old(value)
    {
      if value < v {
        value := v;
      }
      assert [v][..0] == [];
    }

    method Exchange(prev: i64, next: i64) returns (ok: bool)
      modifies this
      ensures ok <==> old(value) == prev
      ensures value == if ok then next else old(value)
    {
      ok := value == prev;
      if ok {
        value := next;
      }
    }

    /**
     The allocation loop. `env` is what other threads raise the counter to, one
     value between each load and the exchange that follows it, for as long as
     they keep interfering; `seen` counts the values that came in between. None
     stands for the overflow of the addition on a counter that has no successor.
     */
    method NextMicros(now: i64, env: seq<i64>) returns (next: Option<i64>, seen: nat)
      modifies this
      ensures seen <= |env|
      ensures var top := RaiseAll(old(value), env[..seen]);
              if top == I64_MAX then next == None && value == top
              else next == Some(Candidate(now, top)) && next == Some(value)
      ensures next.Some? ==>
                old(value) < next.value && now <= next.value && forall i :: 0 <= i < seen ==> env[i] < next.value
      ensures next.Some? ==> Stamped(old(value), now, env[..seen], next.value)
      ensures next.None? ==> old(value) == 0x7fff_ffff_ffff_ffff || 0x7fff_ffff_ffff_ffff in env
      ensures old(value) < now && (forall i :: 0 <= i < seen ==> env[i] < now) ==> next == Some(now)
      ensures forall i :: 0 <= i < seen - 1 ==> forall j :: 0 <= j < i ==> env[j] < env[i]
      ensures forall i :: 0 <= i < seen - 1 ==> old(value) < env[i]
    {
      hide RaiseAll, Greatest, Stamped;
      seen := 0;
      RaiseNone(value, env);
      while true
        invariant seen <= |env|
        invariant value == RaiseAll(old(value), env[..seen])
        invariant forall i :: 0 <= i < seen ==> old(value) < env[i] <= value
        invariant forall i :: 0 <= i < seen ==> forall j :: 0 <= j < i ==> env[j] < env[i]
        decreases |env| - seen
      {
        var prev := value;
        if prev >= now && prev == I64_MAX {
          RaisedToOne(old(value), env, seen);
          return None, seen;
        }
        var candidate := if prev >= now then prev + 1 else now;
        var quiet := seen == |env|;
        if !quiet {
          FetchMax(env[seen]);
          RaiseOneMore(old(value), env, seen);
          seen := seen + 1;
        }
        var ok := Exchange(prev, candidate);
        if ok {
          StampedBy(old(value), now, env[..seen]);
          return Some(candidate), seen;
        }
      }
    }
  }

  lemma RaisedToOne(counter: i64, values: seq<i64>, n: nat)
    requires n <= |values|
    ensures var top := RaiseAll(counter, values[..n]); top == counter || top in values
  {
  }

  lemma RaiseNone(counter: i64, values: seq<i64>)
    ensures RaiseAll(counter, values[..0]) == counter
  {
  }

  lemma RaiseOneMore(counter: i64, values: seq<i64>, n: nat)
    requires n < |values|
    ensures RaiseAll(counter, values[..n + 1]) == RaiseAll(RaiseAll(counter, values[..n]), [values[n]])
  {
    assert values[..n + 1][..n] == values[..n];
    assert [values[n]][..0] == [];
  }
}
