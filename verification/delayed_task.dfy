/** `C_DelayQueue`: delayed tasks that fall due at a trigger time in nanoseconds, ordered
    by that trigger, with the static id counter and `sequence` list their constructor
    updates. The clock (`System.nanoTime`) is a parameter. */
module DelayedTasks {
  import opened Wrappers
  import opened JavaLang

  /** A `DelayedTask` (or its subclass `EndSentinel` when `sentinel` holds): id, delay in
      milliseconds, trigger time in nanoseconds. */
  datatype DelayedTask = DelayedTask(id: int, delta: int, trigger: int, sentinel: bool)

  const NANOS_PER_MILLI: int := 1_000_000

  /** `System.nanoTime() + NANOSECONDS.convert(delta, MILLISECONDS)` stored in a `long`.
      An `int` number of milliseconds always fits in a `long` of nanoseconds, so the
      conversion never saturates; the addition wraps like any `long` addition. */
  function Trigger(now: int, delta: int): (t: int)
    requires IsLong(now) && IsInt(delta)
    ensures IsLong(t)
    ensures IsLong(now + delta * NANOS_PER_MILLI) ==> t == now + delta * NANOS_PER_MILLI
  {
    WrapLong(now + delta * NANOS_PER_MILLI)
  }

  /** `compareTo`: the sign of the difference of the triggers. */
  function CompareTo(self: DelayedTask, that: DelayedTask): (r: int)
    ensures r == -1 || r == 0 || r == 1
    ensures r > 0 <==> self.trigger > that.trigger
    ensures r < 0 <==> self.trigger < that.trigger
  {
    if self.trigger > that.trigger then 1 else if self.trigger == that.trigger then 0 else -1
  }

  /** `compareTo` is antisymmetric, a task equals itself, and the order is transitive. */
  lemma CompareToIsAnOrder(a: DelayedTask, b: DelayedTask, c: DelayedTask)
    ensures CompareTo(a, b) == -CompareTo(b, a)
    ensures CompareTo(a, a) == 0
    ensures CompareTo(a, b) <= 0 && CompareTo(b, c) <= 0 ==> CompareTo(a, c) <= 0
  {
  }

  /** The units `getDelay` may be asked for. */
  datatype TimeUnit = Nanoseconds | Microseconds | Milliseconds | Seconds | Minutes | Hours | Days

  /** The length of one unit in nanoseconds. */
  function UnitNanos(unit: TimeUnit): (n: int)
    ensures n >= 1
    ensures unit == Nanoseconds <==> n == 1
  {
    match unit
    case Nanoseconds => 1
    case Microseconds => 1_000
    case Milliseconds => 1_000_000
    case Seconds => 1_000_000_000
    case Minutes => 60_000_000_000
    case Hours => 3_600_000_000_000
    case Days => 86_400_000_000_000
  }

  /** Java's `long` division by a positive divisor: truncates toward zero. */
  function TruncDiv(a: int, b: int): (q: int)
    requires b > 0
    ensures a >= 0 ==> q >= 0 && q * b <= a < q * b + b
    ensures a < 0 ==> q <= 0 && q * b >= a > q * b - b
  {
    if a >= 0 then
      DivBounds(a, b);
      a / b
    else
      DivBounds(-a, b);
      var p := (-a) / b;
      assert (-p) * b == -(p * b);
      -p
  }

  /** Euclidean division of a natural number: the quotient times the divisor is the
      largest multiple not above the dividend. */
  lemma DivBounds(a: nat, b: int)
    requires b > 0
    ensures a / b >= 0 && (a / b) * b <= a < (a / b) * b + b
  {
    var q, r := a / b, a % b;
    assert a == q * b + r && 0 <= r < b;
  }

  /** `unit.convert(d, NANOSECONDS)`: every unit is at least a nanosecond, so the
      conversion is a division that truncates toward zero and never saturates. */
  function FromNanos(d: int, unit: TimeUnit): (r: int)
    ensures unit == Nanoseconds ==> r == d
  {
    TruncDiv(d, UnitNanos(unit))
  }

  /** `getDelay(unit)` at clock reading `now`: while the subtraction does not wrap, it is
      positive exactly while at least one whole unit remains before the trigger. */
  function GetDelay(task: DelayedTask, now: int, unit: TimeUnit): (r: int)
    ensures IsLong(task.trigger - now) ==> (r > 0 <==> task.trigger - now >= UnitNanos(unit))
  {
    var d := task.trigger - now;
    var r := FromNanos(WrapLong(d), unit);
    assert IsLong(d) ==> (r > 0 <==> d >= UnitNanos(unit)) by {
      if IsLong(d) {
        WrapLongFits(d);
      }
    }
    r
  }

  /** While the subtraction does not wrap, the delay is positive exactly while at least one
      whole unit remains before the trigger, and never positive once the trigger is
      reached; in nanoseconds it is positive exactly before the trigger. */
  lemma GetDelaySign(task: DelayedTask, now: int, unit: TimeUnit)
    requires IsLong(task.trigger - now)
    ensures GetDelay(task, now, unit) > 0 <==> task.trigger - now >= UnitNanos(unit)
    ensures now >= task.trigger ==> GetDelay(task, now, unit) <= 0
    ensures GetDelay(task, now, Nanoseconds) > 0 <==> now < task.trigger
  {
    var d := task.trigger - now;
    WrapLongFits(d);
    assert GetDelay(task, now, unit) == TruncDiv(d, UnitNanos(unit));
    assert GetDelay(task, now, Nanoseconds) == d;
  }

  /** `summary()`: `(id:delta)`, from which both numbers can be read back. */
  function Summary(task: DelayedTask): (s: string)
    ensures ParsePair(s) == Some((task.id, task.delta))
  {
    PairText(task.id, task.delta)
  }

  /** The static state of the class: `counter` and `sequence`. */
  class TaskRegistry {
    var counter: int
    var sequence: seq<DelayedTask>

    /** Ids are the construction order: the j-th task constructed has id j. */
    ghost predicate Valid()
      reads this
    {
      counter == |sequence| && forall j :: 0 <= j < |sequence| ==> sequence[j].id == j
    }

    /** The class as it is loaded: `counter = 0`, `sequence` empty. */
    constructor ()
      ensures counter == 0 && sequence == [] && Valid()
    {
      counter := 0;
      sequence := [];
    }

    /** `new DelayedTask(delta)` (or `new EndSentinel(delta, service)` when `sentinel`)
        with the clock reading `now`: the next id, the trigger, and the task appended to
        `sequence`. */
    method New(delta: int, now: int, sentinel: bool) returns (task: DelayedTask)
      requires Valid() && IsLong(now) && IsInt(delta)
      modifies this
      ensures Valid()
      ensures task == DelayedTask(old(counter), delta, Trigger(now, delta), sentinel)
      ensures sequence == old(sequence) + [task] && counter == old(counter) + 1
    {
      task := DelayedTask(counter, delta, Trigger(now, delta), sentinel);
      counter := counter + 1;
      sequence := sequence + [task];
    }
  }

  /** The delay `main` gives the end sentinel, one more than `nextInt(5000)` can draw. */
  const SENTINEL_DELAY: int := 5000

  /** A task created with a delay below 5000 ms no later than the sentinel falls due
      strictly before it, as long as the sentinel's trigger does not overflow. */
  lemma SentinelFallsDueLast(early: int, delta: int, late: int)
    requires IsLong(early) && IsLong(late) && early <= late
    requires 0 <= delta < SENTINEL_DELAY
    requires IsLong(late + SENTINEL_DELAY * NANOS_PER_MILLI)
    ensures Trigger(early, delta) < Trigger(late, SENTINEL_DELAY)
  {
  }

  /** What `main` puts in the queue: 20 tasks with delays `draws` (from `nextInt(5000)`),
      then the sentinel, created at the non-decreasing clock readings `clock`. */
  method Populate(registry: TaskRegistry, draws: seq<int>, clock: seq<int>) returns (queued: seq<DelayedTask>)
    requires registry.Valid()
    requires |draws| == 20 && forall j :: 0 <= j < 20 ==> 0 <= draws[j] < SENTINEL_DELAY
    requires |clock| == 21 && forall j :: 0 <= j < 21 ==> IsLong(clock[j])
    requires forall j, k :: 0 <= j <= k < 21 ==> clock[j] <= clock[k]
    requires IsLong(clock[20] + SENTINEL_DELAY * NANOS_PER_MILLI)
    modifies registry
    ensures registry.Valid()
    ensures registry.sequence == old(registry.sequence) + queued
    ensures |queued| == 21 && queued[20].sentinel && queued[20].delta == SENTINEL_DELAY
    ensures forall j :: 0 <= j < 20 ==> queued[j].delta == draws[j] && !queued[j].sentinel
    // the sentinel compares greater than every other task, so it is taken last
    ensures forall j :: 0 <= j < 20 ==> CompareTo(queued[20], queued[j]) == 1
  {
    queued := [];
    var i := 0;
    while i < 20
      invariant 0 <= i <= 20 && |queued| == i
      invariant registry.Valid() && registry.sequence == old(registry.sequence) + queued
      invariant forall j :: 0 <= j < i ==> queued[j] == DelayedTask(queued[j].id, draws[j], Trigger(clock[j], draws[j]), false)
    {
      var task := registry.New(draws[i], clock[i], false);
      queued := queued + [task];
      i := i + 1;
    }
    var end := registry.New(SENTINEL_DELAY, clock[20], true);
    queued := queued + [end];
    forall j | 0 <= j < 20
      ensures CompareTo(queued[20], queued[j]) == 1
    {
      SentinelFallsDueLast(clock[j], draws[j], clock[20]);
    }
  }

  /** The summaries of the tasks, one after another, as `EndSentinel.run` prints them. */
  function Summaries(tasks: seq<DelayedTask>): string
    decreases |tasks|
  {
    if tasks == [] then [] else Summaries(tasks[..|tasks| - 1]) + Summary(tasks[|tasks| - 1])
  }

  /** The listing holds one summary per task, on a single line. */
  lemma {:induction false} SummariesShape(tasks: seq<DelayedTask>)
    ensures Occurrences('(', Summaries(tasks)) == |tasks|
    ensures Occurrences('\n', Summaries(tasks)) == 0
    decreases |tasks|
  {
    if tasks != [] {
      var n := |tasks|;
      SummariesShape(tasks[..n - 1]);
      PairTextCharacters(tasks[n - 1].id, tasks[n - 1].delta);
      assert multiset(Summaries(tasks)) == multiset(Summaries(tasks[..n - 1])) + multiset(Summary(tasks[n - 1]));
    }
  }

  /** `EndSentinel.run`: every summary of `sequence`, a line break, and then the
      executor is shut down (the sentinel's own description printed before the shutdown
      is not modelled). */
  method SentinelRun(sequence: seq<DelayedTask>) returns (out: string, shutdown: bool)
    ensures out == Summaries(sequence) + "\n" && shutdown
  {
    out := [];
    for k := 0 to |sequence|
      invariant out == Summaries(sequence[..k])
    {
      assert sequence[..k + 1][..k] == sequence[..k];
      out := out + Summary(sequence[k]);
    }
    assert sequence[..|sequence|] == sequence;
    out := out + "\n";
    shutdown := true;
  }
}
