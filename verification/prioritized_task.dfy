/** `D_PriorityBlockingQueue`: prioritized tasks ordered highest priority first, the
    static id counter and `sequence` list their constructor updates, and the end
    sentinel's listing. */
module PrioritizedTasks {
  import opened Wrappers
  import opened JavaLang

  /** A `PrioritizedTask` (or its subclass `EndSentinel` when `sentinel` holds). */
  datatype PrioritizedTask = PrioritizedTask(id: int, priority: int, sentinel: bool)

  /** The priority `EndSentinel` passes to `super`. */
  const SENTINEL_PRIORITY: int := -1

  /** `compareTo`: the reverse of the natural order on priorities, so that the queue's
      head is the task with the highest priority. */
  function CompareTo(self: PrioritizedTask, that: PrioritizedTask): (r: int)
    ensures r == -1 || r == 0 || r == 1
    ensures r < 0 <==> self.priority > that.priority
    ensures r > 0 <==> self.priority < that.priority
  {
    if self.priority < that.priority then 1 else if self.priority > that.priority then -1 else 0
  }

  /** `compareTo` is antisymmetric, a task equals itself, and the order is transitive. */
  lemma CompareToIsAnOrder(a: PrioritizedTask, b: PrioritizedTask, c: PrioritizedTask)
    ensures CompareTo(a, b) == -CompareTo(b, a)
    ensures CompareTo(a, a) == 0
    ensures CompareTo(a, b) <= 0 && CompareTo(b, c) <= 0 ==> CompareTo(a, c) <= 0
    ensures CompareTo(a, b) < 0 && CompareTo(b, c) < 0 ==> CompareTo(a, c) < 0
  {
  }

  /** `summary()`: `(id:priority)`, from which both numbers can be read back. */
  function Summary(task: PrioritizedTask): (s: string)
    ensures ParsePair(s) == Some((task.id, task.priority))
  {
    PairText(task.id, task.priority)
  }

  /** Distinct tasks of one run have distinct summaries: a summary names its task's id. */
  lemma SummaryNamesTask(a: PrioritizedTask, b: PrioritizedTask)
    requires a.id != b.id
    ensures Summary(a) != Summary(b)
  {
  }

  /** The static state of the class: `counter` and `sequence`. */
  class TaskRegistry {
    var counter: int
    var sequence: seq<PrioritizedTask>

    /** Ids are the construction order: the j-th task constructed has id j. */
    ghost predicate Valid()
      reads this
    {
      counter == |sequence| && forall j :: 0 <= j < |sequence| ==> sequence[j].id == j
    }

    /** The class as it is loaded: `counter = 0`, `sequence` empty. */
    constructor ()
      ensures counter == 0 && sequence == [] && Valid()
    {
      counter := 0;
      sequence := [];
    }

    /** `new PrioritizedTask(priority)` (or `new EndSentinel(service)` when `sentinel`,
        with priority -1): the next id, and the task appended to `sequence`. */
    method New(priority: int, sentinel: bool) returns (task: PrioritizedTask)
      requires Valid()
      modifies this
      ensures Valid()
      ensures task == PrioritizedTask(old(counter), if sentinel then SENTINEL_PRIORITY else priority, sentinel)
      ensures sequence == old(sequence) + [task] && counter == old(counter) + 1
    {
      task := PrioritizedTask(counter, if sentinel then SENTINEL_PRIORITY else priority, sentinel);
      counter := counter + 1;
      sequence := sequence + [task];
    }
  }

  /** The end sentinel orders after every task whose priority is not negative. */
  lemma SentinelOrdersLast(task: PrioritizedTask, sentinel: PrioritizedTask)
    requires sentinel.priority == SENTINEL_PRIORITY && task.priority >= 0
    ensures CompareTo(task, sentinel) == -1 && CompareTo(sentinel, task) == 1
  {
  }

  /** What `PrioritizedTaskProducer.run` queues, from the 20 draws of `nextInt(10)`: 20
      tasks of those priorities, then 20 of priority 10, then the end sentinel. */
  method Produce(registry: TaskRegistry, draws: seq<int>) returns (queued: seq<PrioritizedTask>)
    requires registry.Valid()
    requires |draws| == 20 && forall j :: 0 <= j < 20 ==> 0 <= draws[j] < 10
    modifies registry
    ensures registry.Valid()
    ensures registry.sequence == old(registry.sequence) + queued
    ensures |queued| == 41 && queued[40].sentinel
    ensures forall j :: 0 <= j < 20 ==> queued[j].priority == draws[j]
    ensures forall j :: 20 <= j < 40 ==> queued[j].priority == 10
    // the sentinel is the last task the consumer takes
    ensures forall j :: 0 <= j < 40 ==> CompareTo(queued[j], queued[40]) == -1
  {
    queued := [];
    var i := 0;
    while i < 40
      invariant 0 <= i <= 40 && |queued| == i
      invariant registry.Valid() && registry.sequence == old(registry.sequence) + queued
      invariant forall j :: 0 <= j < i && j < 20 ==> queued[j].priority == draws[j]
      invariant forall j :: 20 <= j < i ==> queued[j].priority == 10
      invariant forall j :: 0 <= j < i ==> !queued[j].sentinel
    {
      var task := registry.New(if i < 20 then draws[i] else 10, false);
      queued := queued + [task];
      i := i + 1;
    }
    var end := registry.New(0, true);
    queued := queued + [end];
  }

  /** Texts printed one after another, with a line break after every fifth. */
  function Lines(items: seq<string>): string
    decreases |items|
  {
    if items == [] then []
    else Lines(items[..|items| - 1]) + items[|items| - 1] + (if |items| % 5 == 0 then "\n" else [])
  }

  /** The summaries of the tasks, in order. */
  function Summaries(tasks: seq<PrioritizedTask>): (r: seq<string>)
    ensures |r| == |tasks| && forall i :: 0 <= i < |tasks| ==> r[i] == Summary(tasks[i])
  {
    seq(|tasks|, i requires 0 <= i < |tasks| => Summary(tasks[i]))
  }

  /** What `EndSentinel.run` prints for the tasks listed so far: every summary, and a
      line break after every fifth. */
  function Listing(tasks: seq<PrioritizedTask>): string {
    Lines(Summaries(tasks))
  }

  /** One more text adds its own characters, and at every fifth text a line break. */
  lemma LinesStep(items: seq<string>, c: char)
    requires items != []
    ensures Occurrences(c, Lines(items))
      == Occurrences(c, Lines(items[..|items| - 1])) + Occurrences(c, items[|items| - 1])
         + (if c == '\n' && |items| % 5 == 0 then 1 else 0)
  {
    var n := |items|;
    var front := Lines(items[..n - 1]);
    var last := items[n - 1];
    var tail: string := if n % 5 == 0 then "\n" else [];
    assert Lines(items) == front + last + tail;
    assert multiset(Lines(items)) == multiset(front) + multiset(last) + multiset(tail);
  }

  lemma FifthStep(n: nat, before: int, after: int)
    requires n > 0 && before == (n - 1) / 5 && after == before + (if n % 5 == 0 then 1 else 0)
    ensures after == n / 5
  {
  }

  /** Texts holding `c` once each, `c` not a line break: `c` occurs once per text. */
  lemma {:induction false} LinesKeepEveryText(items: seq<string>, c: char)
    requires c != '\n' && forall i :: 0 <= i < |items| ==> Occurrences(c, items[i]) == 1
    ensures Occurrences(c, Lines(items)) == |items|
    decreases |items|
  {
    if items != [] {
      LinesKeepEveryText(items[..|items| - 1], c);
      LinesStep(items, c);
    }
  }

  /** Texts without line breaks: the line breaks are those after every fifth text. */
  lemma {:induction false} LinesBreakEveryFifth(items: seq<string>)
    requires forall i :: 0 <= i < |items| ==> Occurrences('\n', items[i]) == 0
    ensures Occurrences('\n', Lines(items)) == |items| / 5
    decreases |items|
  {
    if items != [] {
      var front := items[..|items| - 1];
      LinesBreakEveryFifth(front);
      LinesStep(items, '\n');
      FifthStep(|items|, Occurrences('\n', Lines(front)), Occurrences('\n', Lines(items)));
    }
  }

  /** A summary holds one `(` and no line break. */
  lemma SummaryCharacters(tasks: seq<PrioritizedTask>)
    ensures forall i :: 0 <= i < |tasks| ==>
      Occurrences('(', Summaries(tasks)[i]) == 1 && Occurrences('\n', Summaries(tasks)[i]) == 0
  {
    forall i | 0 <= i < |tasks|
      ensures Occurrences('(', Summaries(tasks)[i]) == 1 && Occurrences('\n', Summaries(tasks)[i]) == 0
    {
      PairTextCharacters(tasks[i].id, tasks[i].priority);
    }
  }

  /** The listing holds one summary per task. */
  lemma ListingHasEverySummary(tasks: seq<PrioritizedTask>)
    ensures Occurrences('(', Listing(tasks)) == |tasks|
  {
    SummaryCharacters(tasks);
    LinesKeepEveryText(Summaries(tasks), '(');
  }

  /** The listing breaks a line after every fifth summary and nowhere else. */
  lemma ListingBreaksEveryFifth(tasks: seq<PrioritizedTask>)
    ensures Occurrences('\n', Listing(tasks)) == |tasks| / 5
  {
    SummaryCharacters(tasks);
    LinesBreakEveryFifth(Summaries(tasks));
  }

  /** `EndSentinel.run`: the listing of `sequence`, a final line break, and then the
      executor is shut down (the console message in between is not modelled). */
  method SentinelRun(sequence: seq<PrioritizedTask>) returns (out: string, shutdown: bool)
    ensures out == Listing(sequence) + "\n" && shutdown
  {
    out := [];
    var count := 0;
    for k := 0 to |sequence|
      invariant count == k && out == Listing(sequence[..k])
    {
      assert Summaries(sequence[..k + 1])[..k] == Summaries(sequence[..k]);
      out := out + Summary(sequence[k]);
      count := count + 1;
      if count % 5 == 0 {
        out := out + "\n";
      }
    }
    assert sequence[..|sequence|] == sequence;
    out := out + "\n";
    shutdown := true;
  }
}
