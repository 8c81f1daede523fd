/** The manager of the multi-reactor server: its constructor opens the paired write
    and read selectors into the two static lists and submits a reactor for each; its
    accept loop (`startNIO`) hands every accepted connection to the read selectors in
    round-robin order. */
module SelectorManagers {
  import opened Wrappers
  import opened JavaLang
  import opened Nio
  import opened ReadSelectors
  import opened WriteSelectors

  /** The two `private final static` lists every manager appends to. */
  class SelectorLists {
    var readSelectors: seq<Selector>
    var writeSelectors: seq<Selector>

    constructor ()
      ensures readSelectors == [] && writeSelectors == []
      ensures Distinct(readSelectors)
    {
      readSelectors := [];
      writeSelectors := [];
    }
  }

  /** A reactor task handed to the socket thread pool. */
  datatype Reactor = WriteReactor(writer: WriteSelector) | ReadReactor(reader: ReadSelector)

  /** The socket thread pool, known only by the tasks submitted to it, in order. */
  class SocketPool {
    var submitted: seq<Reactor>

    constructor ()
      ensures submitted == []
    {
      submitted := [];
    }
  }

  /** The number of iterations of `for (int i = 0; i < count; i++)`. */
  function Iterations(count: int): (n: nat)
    ensures count > 0 ==> n == count
    ensures count <= 0 ==> n == 0
  {
    if count > 0 then count else 0
  }

  /** Iteration k of the constructor loop submitted, at `pool[s + 2k]`, a write reactor on
      `writers[w + k]`. */
  ghost predicate WriterAt(pool: seq<Reactor>, s: nat, writers: seq<Selector>, w: nat, k: nat) {
    && s + 2 * k < |pool| && w + k < |writers|
    && pool[s + 2 * k].WriteReactor?
    && pool[s + 2 * k].writer.thisSelector == writers[w + k]
  }

  /** Iteration k of the constructor loop submitted, at `pool[s + 2k]`, a write reactor on
      `writers[w + k]` and, at `pool[s + 2k + 1]`, a read reactor on `readers[r + k]` paired
      with that same write selector. */
  ghost predicate PairedAt(pool: seq<Reactor>, s: nat, readers: seq<Selector>, r: nat, writers: seq<Selector>, w: nat, k: nat) {
    && WriterAt(pool, s, writers, w, k)
    && s + 2 * k + 1 < |pool| && r + k < |readers|
    && pool[s + 2 * k + 1].ReadReactor?
    && pool[s + 2 * k + 1].reader.thisSelector == readers[r + k]
    && pool[s + 2 * k + 1].reader.writeSelector == writers[w + k]
  }

  /** Appending to the pool and the lists keeps what earlier iterations paired. */
  lemma PairedAtGrows(pool: seq<Reactor>, s: nat, readers: seq<Selector>, r: nat, writers: seq<Selector>, w: nat, k: nat,
                      pool': seq<Reactor>, readers': seq<Selector>, writers': seq<Selector>)
    requires PairedAt(pool, s, readers, r, writers, w, k)
    requires |pool| <= |pool'| && pool'[..|pool|] == pool
    requires |readers| <= |readers'| && readers'[..|readers|] == readers
    requires |writers| <= |writers'| && writers'[..|writers|] == writers
    ensures PairedAt(pool', s, readers', r, writers', w, k)
  {
    assert pool'[s + 2 * k] == pool[s + 2 * k] && pool'[s + 2 * k + 1] == pool[s + 2 * k + 1];
    assert readers'[r + k] == readers[r + k] && writers'[w + k] == writers[w + k];
  }

  /** The selectors a list holds are distinct objects. */
  ghost predicate Distinct(readSelectors: seq<Selector>) {
    forall a, b :: 0 <= a < b < |readSelectors| ==> readSelectors[a] != readSelectors[b]
  }

  /** Appending a selector the list does not hold keeps it distinct. */
  lemma DistinctSnoc(readSelectors: seq<Selector>, selector: Selector)
    requires Distinct(readSelectors) && selector !in readSelectors
    ensures Distinct(readSelectors + [selector])
  {
    var s := readSelectors + [selector];
    forall a, b | 0 <= a < b < |s|
      ensures s[a] != s[b]
    {
      if b == |readSelectors| {
        assert s[a] in readSelectors;
      }
    }
  }

  /** The `Selector.open()` calls of a constructor with this count that succeed: all
      `2 * Iterations(count)` of them, or those before `failingOpen`, the index in call
      order of the first one that throws `IOException`. Call 2k opens iteration k's write
      selector and call 2k + 1 its read selector. */
  function Opened(count: int, failingOpen: Option<nat>): (o: nat)
    ensures o <= 2 * Iterations(count)
    ensures o < 2 * Iterations(count) <==> failingOpen.Some? && failingOpen.value < 2 * Iterations(count)
    ensures o < 2 * Iterations(count) ==> o == failingOpen.value
  {
    if failingOpen.Some? && failingOpen.value < 2 * Iterations(count) then failingOpen.value else 2 * Iterations(count)
  }

  /** The body of the constructor loop: a write selector opened, its reactor submitted and
      the selector appended, then a read selector opened, its reactor submitted paired with
      that write selector and the selector appended. An `open` that throws ends the body
      where it stands: when the write selector cannot be opened nothing changes, and when
      the read selector cannot be opened the write selector stays appended and submitted. */
  method OpenPair(lists: SelectorLists, pool: SocketPool, writerOpens: bool, readerOpens: bool) returns (ok: bool)
    modifies lists, pool
    ensures ok <==> writerOpens && readerOpens
    ensures |lists.writeSelectors| == |old(lists.writeSelectors)| + (if writerOpens then 1 else 0)
    ensures |lists.readSelectors| == |old(lists.readSelectors)| + (if ok then 1 else 0)
    ensures |pool.submitted| == |old(pool.submitted)| + (if ok then 2 else if writerOpens then 1 else 0)
    ensures lists.writeSelectors[..|old(lists.writeSelectors)|] == old(lists.writeSelectors)
    ensures lists.readSelectors[..|old(lists.readSelectors)|] == old(lists.readSelectors)
    ensures pool.submitted[..|old(pool.submitted)|] == old(pool.submitted)
    ensures writerOpens ==> fresh(lists.writeSelectors[|old(lists.writeSelectors)|])
    ensures writerOpens ==> WriterAt(pool.submitted, |old(pool.submitted)|, lists.writeSelectors, |old(lists.writeSelectors)|, 0)
    ensures ok ==> fresh(lists.readSelectors[|old(lists.readSelectors)|])
    ensures ok ==> lists.readSelectors[|old(lists.readSelectors)|] !in old(lists.readSelectors)
    ensures ok ==> PairedAt(pool.submitted, |old(pool.submitted)|, lists.readSelectors, |old(lists.readSelectors)|,
                            lists.writeSelectors, |old(lists.writeSelectors)|, 0)
  {
    if !writerOpens {
      return false;
    }
    var writeSelector := new Selector.Open();
    var writer := new WriteSelector(writeSelector);
    pool.submitted := pool.submitted + [WriteReactor(writer)];
    lists.writeSelectors := lists.writeSelectors + [writeSelector];
    if !readerOpens {
      return false;
    }
    var readSelector := new Selector.Open();
    var reader := new ReadSelector(readSelector, writeSelector);
    pool.submitted := pool.submitted + [ReadReactor(reader)];
    lists.readSelectors := lists.readSelectors + [readSelector];
    return true;
  }

  /** The `IOException` a throwing `Selector.open()` passes out of the constructor. */
  datatype OpenFailure = OpenIOException

  /** `SelectorManager`: the port it serves and the shared lists it appends to. */
  class SelectorManager {
    const port: int
    const lists: SelectorLists

    constructor (port: int, lists: SelectorLists)
      ensures this.port == port && this.lists == lists
    {
      this.port := port;
      this.lists := lists;
    }
  }

  /** The state after a constructor that started from the pool `s0` and the lists `r0`
      and `w0` finished n iterations and, when `half` holds, opened the write selector of
      one more: each successful `Selector.open()` appended its selector and submitted its
      reactor, earlier entries are kept, the read selectors it appended are distinct (and
      the whole list is when `r0` was), every finished iteration k paired its read reactor
      with its write selector, and the unfinished iteration's write selector is appended
      and submitted without a read selector. */
  ghost predicate Built(pool: seq<Reactor>, readers: seq<Selector>, writers: seq<Selector>,
                        s0: seq<Reactor>, r0: seq<Selector>, w0: seq<Selector>, n: nat, half: bool) {
    var h := if half then 1 else 0;
    && |writers| == |w0| + n + h && |readers| == |r0| + n && |pool| == |s0| + 2 * n + h
    && writers[..|w0|] == w0 && readers[..|r0|] == r0 && pool[..|s0|] == s0
    && Distinct(readers[|r0|..]) && (Distinct(r0) ==> Distinct(readers))
    && (forall k :: 0 <= k < n ==> PairedAt(pool, |s0|, readers, |r0|, writers, |w0|, k))
    && (half ==> WriterAt(pool, |s0|, writers, |w0|, n))
  }

  /** Iteration i of the constructor loop, after i finished iterations: both opens succeed
      unless one of them is the call `failingOpen`, and the state then records the opens
      made before it. */
  method OpenIteration(lists: SelectorLists, pool: SocketPool, i: nat, failingOpen: Option<nat>,
                       ghost s0: seq<Reactor>, ghost r0: seq<Selector>, ghost w0: seq<Selector>) returns (ok: bool)
    requires Built(pool.submitted, lists.readSelectors, lists.writeSelectors, s0, r0, w0, i, false)
    requires failingOpen.Some? ==> 2 * i <= failingOpen.value
    modifies lists, pool
    ensures ok <==> failingOpen.None? || 2 * i + 2 <= failingOpen.value
    ensures Built(pool.submitted, lists.readSelectors, lists.writeSelectors, s0, r0, w0,
                  if ok then i + 1 else i, failingOpen == Some(2 * i + 1))
    ensures lists.writeSelectors[..|old(lists.writeSelectors)|] == old(lists.writeSelectors)
    ensures lists.readSelectors[..|old(lists.readSelectors)|] == old(lists.readSelectors)
    ensures forall j :: |old(lists.writeSelectors)| <= j < |lists.writeSelectors| ==> fresh(lists.writeSelectors[j])
    ensures forall j :: |old(lists.readSelectors)| <= j < |lists.readSelectors| ==> fresh(lists.readSelectors[j])
  {
    ghost var s1, r1, w1 := pool.submitted, lists.readSelectors, lists.writeSelectors;
    ok := OpenPair(lists, pool, failingOpen != Some(2 * i), failingOpen != Some(2 * i + 1));
    PrefixGrows(s0, s1, pool.submitted);
    PrefixGrows(r0, r1, lists.readSelectors);
    PrefixGrows(w0, w1, lists.writeSelectors);
    forall k | 0 <= k < i
      ensures PairedAt(pool.submitted, |s0|, lists.readSelectors, |r0|, lists.writeSelectors, |w0|, k)
    {
      PairedAtGrows(s1, |s0|, r1, |r0|, w1, |w0|, k, pool.submitted, lists.readSelectors, lists.writeSelectors);
    }
    if ok {
      ReadersStayDistinct(r0, r1, lists.readSelectors);
      assert PairedAt(pool.submitted, |s0|, lists.readSelectors, |r0|, lists.writeSelectors, |w0|, i);
    } else {
      assert lists.readSelectors == r1;
    }
  }

  /** `new SelectorManager(port, count)`: opens `count` write selectors and `count` read
      selectors (none when `count <= 0`), one of each per iteration, appends them to the
      shared lists and submits their reactors, the read reactor paired with the write
      selector of its iteration. When `Selector.open()` throws, no manager is made but what
      the earlier calls appended and submitted stays: after a failed read-selector open the
      write list is one entry longer than the read list. */
  method NewSelectorManager(port: int, count: int, lists: SelectorLists, pool: SocketPool, failingOpen: Option<nat>)
    returns (r: Result<SelectorManager, OpenFailure>)
    modifies lists, pool
    ensures r.Failure? <==> Opened(count, failingOpen) < 2 * Iterations(count)
    ensures r.Success? ==> fresh(r.value) && r.value.port == port && r.value.lists == lists
    ensures var o := Opened(count, failingOpen);
      Built(pool.submitted, lists.readSelectors, lists.writeSelectors,
            old(pool.submitted), old(lists.readSelectors), old(lists.writeSelectors), o / 2, o % 2 == 1)
    // every new entry is a newly opened selector
    ensures forall j :: |old(lists.writeSelectors)| <= j < |lists.writeSelectors| ==> fresh(lists.writeSelectors[j])
    ensures forall j :: |old(lists.readSelectors)| <= j < |lists.readSelectors| ==> fresh(lists.readSelectors[j])
  {
    ghost var s0, r0, w0 := pool.submitted, lists.readSelectors, lists.writeSelectors;
    var i := 0;
    while i < count
      invariant 0 <= i <= Iterations(count)
      invariant failingOpen.Some? ==> 2 * i <= failingOpen.value
      invariant Built(pool.submitted, lists.readSelectors, lists.writeSelectors, s0, r0, w0, i, false)
      invariant forall j :: |w0| <= j < |lists.writeSelectors| ==> fresh(lists.writeSelectors[j])
      invariant forall j :: |r0| <= j < |lists.readSelectors| ==> fresh(lists.readSelectors[j])
    {
      ghost var r1, w1 := lists.readSelectors, lists.writeSelectors;
      var ok := OpenIteration(lists, pool, i, failingOpen, s0, r0, w0);
      PrefixGrows(w1, w1, lists.writeSelectors);
      PrefixGrows(r1, r1, lists.readSelectors);
      if !ok {
        assert Opened(count, failingOpen) == failingOpen.value;
        return Failure(OpenIOException);
      }
      i := i + 1;
    }
    var manager := new SelectorManager(port, lists);
    return Success(manager);
  }

  /** A list extended twice still starts with what it first held, and the second extension
      keeps every entry of the first. */
  lemma PrefixGrows<T>(s0: seq<T>, s1: seq<T>, s2: seq<T>)
    requires |s0| <= |s1| <= |s2| && s1[..|s0|] == s0 && s2[..|s1|] == s1
    ensures s2[..|s0|] == s0
    ensures forall j :: 0 <= j < |s1| ==> s2[j] == s1[j]
  {
    assert forall j :: 0 <= j < |s1| ==> s2[j] == s2[..|s1|][j];
  }

  /** One more read selector not already listed keeps the list, and the part of it a
      constructor appended, distinct. */
  lemma ReadersStayDistinct(r0: seq<Selector>, r1: seq<Selector>, r2: seq<Selector>)
    requires |r0| <= |r1| && r1[..|r0|] == r0
    requires |r2| == |r1| + 1 && r2[..|r1|] == r1 && r2[|r1|] !in r1
    requires Distinct(r1[|r0|..]) && (Distinct(r0) ==> Distinct(r1))
    ensures Distinct(r2[|r0|..]) && (Distinct(r0) ==> Distinct(r2))
  {
    assert r2 == r1 + [r2[|r1|]];
    assert r2[|r0|..] == r1[|r0|..] + [r2[|r1|]];
    DistinctSnoc(r1[|r0|..], r2[|r1|]);
    if Distinct(r0) {
      DistinctSnoc(r1, r2[|r1|]);
    }
  }

  /** How `startNIO` can end: an `IOException` from `selectNow`, an `IOException` from
      `accept`, `configureBlocking` or `register` (a `ClosedChannelException` there), a
      `NullPointerException` when `accept` finds no pending connection and returns null,
      or an `ArithmeticException` from `i % readSelectors.size()` on an empty list. */
  datatype Crash = SelectIOException | AcceptIOException | NullChannel | DivideByZero

  /** What one acceptable key meets, in the order of the calls: `accept` returns a
      connection that is then configured and registered without error, returns null,
      throws, or returns a connection whose `configureBlocking` or `register` throws. */
  datatype Incoming =
    | Pending(channel: Channel)
    | NonePending
    | AcceptThrows
    | ConfigureThrows(channel: Channel)
    | RegisterThrows(channel: Channel)

  /** `i++` followed by the reset to 0 on reaching `Integer.MAX_VALUE - 1`: the counter
      moves on by one and stays in [0, MAX_VALUE - 1), so `i++` never overflows. */
  function NextCounter(i: int): (j: int)
    requires 0 <= i < INT_MAX - 1
    ensures 0 <= j < INT_MAX - 1
    ensures i + 1 < INT_MAX - 1 ==> j == i + 1
    ensures i + 1 == INT_MAX - 1 ==> j == 0
  {
    if i + 1 == INT_MAX - 1 then 0 else i + 1
  }

  /** `readSelectors.get(i % readSelectors.size())`: the index chosen for a counter
      value, or `None` for the division by zero on an empty list. (`i` is never
      negative, so Java's `%` agrees with Dafny's here.) */
  function Chosen(i: int, size: nat): (k: Option<nat>)
    requires 0 <= i
    ensures k.None? <==> size == 0
    ensures k.Some? ==> k.value < size && (i < size ==> k.value == i)
  {
    if size == 0 then None else Some(i % size)
  }

  /** The choice repeats every `size` accepts. */
  lemma ChosenIsPeriodic(i: int, size: nat)
    requires 0 <= i
    ensures Chosen(i + size, size) == Chosen(i, size)
  {
    if size > 0 {
      ModShift(i, 1, size);
      assert size * 1 + i == i + size;
    }
  }

  /** What one pass of the accept loop leaves behind: the counter, the selected-key set
      and the calls made, and whether an exception ended `startNIO`. */
  datatype AcceptOutcome = AcceptOutcome(counter: int, round: Round, crash: Option<Crash>)

  /** The calls made for one accepted connection, in order. */
  function Dispatch(key: Key, channel: Channel, readSelector: Selector): seq<Effect> {
    [Accepted(channel), Register(channel, readSelector, OpRead, None), RemoveSelected(key.id), Wakeup(readSelector)]
  }

  /** The inner `while (keyIterator.hasNext())` loop. An acceptable key takes the next
      outcome from `incoming` (nothing left is a null from `accept`). A pending connection
      is registered for reading on the read selector the counter chooses; then the key is
      removed, that selector woken and the counter advanced. Other keys stay selected.
      An exception ends the pass with the key and every later key still selected. */
  function AcceptKeys(keys: seq<Key>, counter: int, readSelectors: seq<Selector>, incoming: seq<Incoming>): (o: AcceptOutcome)
    requires 0 <= counter < INT_MAX - 1
    // the pass itself never reports a failed `selectNow`
    ensures o.crash != Some(SelectIOException)
    // without an exception, every key the pass takes out made exactly the four calls of a dispatch
    ensures |o.round.remaining| <= |keys|
    ensures o.crash.None? ==> |o.round.effects| == 4 * (|keys| - |o.round.remaining|)
    decreases |keys|
  {
    if keys == [] then AcceptOutcome(counter, Round([], []), None)
    else if !keys[0].acceptable then
      var o := AcceptKeys(keys[1..], counter, readSelectors, incoming);
      o.(round := Round([keys[0]] + o.round.remaining, o.round.effects))
    else
      var next := if incoming == [] then NonePending else incoming[0];
      var later := if incoming == [] then [] else incoming[1..];
      var choice := Chosen(counter, |readSelectors|);
      if next.NonePending? then AcceptOutcome(counter, Round(keys, []), Some(NullChannel))
      else if next.AcceptThrows? then AcceptOutcome(counter, Round(keys, []), Some(AcceptIOException))
      else if next.ConfigureThrows? then AcceptOutcome(counter, Round(keys, [Accepted(next.channel)]), Some(AcceptIOException))
      else if choice.None? then AcceptOutcome(counter, Round(keys, [Accepted(next.channel)]), Some(DivideByZero))
      else if next.RegisterThrows? then AcceptOutcome(counter, Round(keys, [Accepted(next.channel)]), Some(AcceptIOException))
      else
        var o := AcceptKeys(keys[1..], NextCounter(counter), readSelectors, later);
        o.(round := Round(o.round.remaining, Dispatch(keys[0], next.channel, readSelectors[choice.value]) + o.round.effects))
  }

  /** One iteration of `while (true)` in `startNIO`: nothing when `selectNow` returns 0. */
  function AcceptRound(keys: seq<Key>, counter: int, select: SelectOutcome, readSelectors: seq<Selector>, incoming: seq<Incoming>): (o: AcceptOutcome)
    requires 0 <= counter < INT_MAX - 1
    // the `IOException` of `selectNow` ends `startNIO` exactly when `selectNow` throws
    ensures o.crash == Some(SelectIOException) <==> select.SelectFailed?
    ensures o.crash.None? ==> |o.round.effects| == 4 * (|keys| - |o.round.remaining|)
  {
    match select
    case SelectFailed => AcceptOutcome(counter, Round(keys, []), Some(SelectIOException))
    case Ready(n) =>
      if n == 0 then AcceptOutcome(counter, Round(keys, []), None)
      else AcceptKeys(keys, counter, readSelectors, incoming)
  }

  /** The read selectors a pass registered connections on, in order. */
  function Targets(effects: seq<Effect>): seq<Selector>
    decreases |effects|
  {
    if effects == [] then []
    else (if effects[0].Register? then [effects[0].selector] else []) + Targets(effects[1..])
  }

  lemma {:induction false} TargetsAppend(a: seq<Effect>, b: seq<Effect>)
    ensures Targets(a + b) == Targets(a) + Targets(b)
    decreases |a|
  {
    if a == [] {
      assert a + b == b;
    } else {
      assert (a + b)[0] == a[0] && (a + b)[1..] == a[1..] + b;
      TargetsAppend(a[1..], b);
    }
  }

  /** `selectNow` returning 0 leaves everything as it was. */
  lemma NoReadyKeysChangesNothing(keys: seq<Key>, counter: int, readSelectors: seq<Selector>, incoming: seq<Incoming>)
    requires 0 <= counter < INT_MAX - 1
    ensures AcceptRound(keys, counter, Ready(0), readSelectors, incoming) == AcceptOutcome(counter, Round(keys, []), None)
  {
  }

  /** The counter stays in [0, MAX_VALUE - 1) whatever happens. */
  lemma {:induction false} CounterStaysInRange(keys: seq<Key>, counter: int, readSelectors: seq<Selector>, incoming: seq<Incoming>)
    requires 0 <= counter < INT_MAX - 1
    ensures 0 <= AcceptKeys(keys, counter, readSelectors, incoming).counter < INT_MAX - 1
    decreases |keys|
  {
    if keys != [] {
      var later := if incoming == [] then [] else incoming[1..];
      CounterStaysInRange(keys[1..], counter, readSelectors, incoming);
      CounterStaysInRange(keys[1..], NextCounter(counter), readSelectors, later);
    }
  }

  /** One acceptable key with a pending connection and a non-empty list: the pass
      dispatches it to the selector the counter chooses and carries on with the next
      counter value. */
  lemma {:induction false} AcceptKeysDispatches(keys: seq<Key>, counter: int, readSelectors: seq<Selector>, incoming: seq<Incoming>)
    requires keys != [] && keys[0].acceptable && incoming != [] && incoming[0].Pending?
    requires |readSelectors| > 0 && 0 <= counter < INT_MAX - 1
    ensures var o := AcceptKeys(keys, counter, readSelectors, incoming);
      var o' := AcceptKeys(keys[1..], NextCounter(counter), readSelectors, incoming[1..]);
      && o.counter == o'.counter && o.crash == o'.crash && o.round.remaining == o'.round.remaining
      && o.round.effects == Dispatch(keys[0], incoming[0].channel, readSelectors[counter % |readSelectors|]) + o'.round.effects
  {
  }

  /** A dispatch registers on exactly one read selector. */
  lemma DispatchTargets(key: Key, channel: Channel, readSelector: Selector)
    ensures Targets(Dispatch(key, channel, readSelector)) == [readSelector]
  {
    var d := Dispatch(key, channel, readSelector);
    assert d[1..][1..][1..][1..] == [];
    assert Targets(d[1..][1..][1..]) == [];
    assert Targets(d[1..][1..]) == [];
    assert Targets(d[1..]) == [readSelector];
  }

  /** Prepending the selector for counter c to the selectors for c + 1, c + 2, ... */
  lemma TargetsShift(t: seq<Selector>, t': seq<Selector>, counter: nat, readSelectors: seq<Selector>)
    requires |readSelectors| > 0
    requires t == [readSelectors[counter % |readSelectors|]] + t'
    requires forall j :: 0 <= j < |t'| ==> t'[j] == readSelectors[(counter + 1 + j) % |readSelectors|]
    ensures forall j :: 0 <= j < |t| ==> t[j] == readSelectors[(counter + j) % |readSelectors|]
  {
    forall j | 0 <= j < |t|
      ensures t[j] == readSelectors[(counter + j) % |readSelectors|]
    {
      if j > 0 {
        assert t[j] == t'[j - 1];
        assert counter + 1 + (j - 1) == counter + j;
      }
    }
  }

  /** Round robin: while the counter does not reach its reset, the j-th connection of a
      pass goes to read selector (c + j) mod N, where c is the counter at the start of the
      pass, and the counter ends at c plus the number of connections. */
  lemma {:induction false} RoundRobin(keys: seq<Key>, counter: int, readSelectors: seq<Selector>, incoming: seq<Incoming>)
    requires |readSelectors| > 0
    requires 0 <= counter && counter + |keys| < INT_MAX - 1
    ensures var o := AcceptKeys(keys, counter, readSelectors, incoming);
      var t := Targets(o.round.effects);
      && o.counter == counter + |t|
      && forall j :: 0 <= j < |t| ==> t[j] == readSelectors[(counter + j) % |readSelectors|]
    decreases |keys|
  {
    if keys == [] {
    } else if !keys[0].acceptable {
      RoundRobin(keys[1..], counter, readSelectors, incoming);
    } else if incoming == [] || !incoming[0].Pending? {
      assert Targets([]) == [];
      if incoming != [] && (incoming[0].ConfigureThrows? || incoming[0].RegisterThrows?) {
        var accepted := [Accepted(incoming[0].channel)];
        assert accepted[1..] == [];
      }
    } else {
      var o := AcceptKeys(keys, counter, readSelectors, incoming);
      var o' := AcceptKeys(keys[1..], counter + 1, readSelectors, incoming[1..]);
      var mine := Dispatch(keys[0], incoming[0].channel, readSelectors[counter % |readSelectors|]);
      AcceptKeysDispatches(keys, counter, readSelectors, incoming);
      RoundRobin(keys[1..], counter + 1, readSelectors, incoming[1..]);
      TargetsAppend(mine, o'.round.effects);
      DispatchTargets(keys[0], incoming[0].channel, readSelectors[counter % |readSelectors|]);
      var t, t' := Targets(o.round.effects), Targets(o'.round.effects);
      assert t == [readSelectors[counter % |readSelectors|]] + t';
      assert o.counter == o'.counter == counter + 1 + |t'|;
      TargetsShift(t, t', counter, readSelectors);
    }
  }

  /** The number of k in [0, m) with k mod n == r: how many of the first m connections
      of a manager reach read selector r. */
  function Share(m: nat, n: nat, r: nat): nat
    requires n > 0
  {
    if m == 0 then 0 else Share(m - 1, n, r) + (if (m - 1) % n == r then 1 else 0)
  }

  /** Balance: of m connections dealt round robin over n read selectors, selector r gets
      m / n of them, plus one when r < m mod n, so every selector gets the floor or the
      ceiling of m / n. */
  lemma {:induction false} ShareIsBalanced(m: nat, n: nat, r: nat)
    requires n > 0 && r < n
    ensures Share(m, n, r) == m / n + (if r < m % n then 1 else 0)
    decreases m
  {
    if m > 0 {
      ShareIsBalanced(m - 1, n, r);
      var q, p := (m - 1) / n, (m - 1) % n;
      var before, after := Share(m - 1, n, r), Share(m, n, r);
      assert after == before + (if p == r then 1 else 0);
      DivMod(m - 1, n);
      if p + 1 < n {
        ModUnique(m, q, p + 1, n);
      } else {
        MulSucc(n, q);
        ModUnique(m, q + 1, 0, n);
      }
      ShareStep(n, r, q, p, before, after);
    }
  }

  /** The count for selector r after one more connection, which lands on selector p. */
  lemma ShareStep(n: int, r: int, q: int, p: int, before: int, after: int)
    requires 0 <= p < n && 0 <= r < n
    requires before == q + (if r < p then 1 else 0) && after == before + (if p == r then 1 else 0)
    ensures p + 1 < n ==> after == q + (if r < p + 1 then 1 else 0)
    ensures p + 1 == n ==> after == q + 1
  {
  }

  /** Dealing m connections from counter c adds to selector r's count exactly what the
      connections c, ..., c + m - 1 of `Share` add. */
  lemma {:induction false} DealtShare(t: seq<Selector>, counter: nat, readSelectors: seq<Selector>, r: nat, m: nat)
    requires |readSelectors| > 0 && Distinct(readSelectors) && r < |readSelectors| && m <= |t|
    requires forall j :: 0 <= j < |t| ==> t[j] == readSelectors[(counter + j) % |readSelectors|]
    ensures multiset(t[..m])[readSelectors[r]] + Share(counter, |readSelectors|, r) == Share(counter + m, |readSelectors|, r)
    decreases m
  {
    if m > 0 {
      var n := |readSelectors|;
      DealtShare(t, counter, readSelectors, r, m - 1);
      assert t[..m] == t[..m - 1] + [t[m - 1]];
      var p := (counter + m - 1) % n;
      assert t[m - 1] == readSelectors[p];
      assert t[m - 1] == readSelectors[r] <==> p == r;
    }
  }

  /** Dealt from counter 0, selector r's count is its share of the balance. */
  lemma DealtIsBalanced(t: seq<Selector>, readSelectors: seq<Selector>, r: nat)
    requires |readSelectors| > 0 && Distinct(readSelectors) && r < |readSelectors|
    requires forall j :: 0 <= j < |t| ==> t[j] == readSelectors[j % |readSelectors|]
    ensures multiset(t)[readSelectors[r]] == |t| / |readSelectors| + (if r < |t| % |readSelectors| then 1 else 0)
  {
    var n, m := |readSelectors|, |t|;
    assert Share(0, n, r) == 0;
    DealtShare(t, 0, readSelectors, r, m);
    assert t[..m] == t;
    ShareIsBalanced(m, n, r);
  }

  /** Balance of one accept pass from a fresh counter: with N distinct read selectors, read
      selector r receives `M / N` of the pass's M connections, plus one when r < M mod N,
      so every read reactor gets the floor or the ceiling of M / N. */
  lemma DispatchIsBalanced(keys: seq<Key>, readSelectors: seq<Selector>, incoming: seq<Incoming>, r: nat)
    requires |readSelectors| > 0 && Distinct(readSelectors) && r < |readSelectors|
    requires |keys| < INT_MAX - 1
    ensures var t := Targets(AcceptKeys(keys, 0, readSelectors, incoming).round.effects);
      multiset(t)[readSelectors[r]] == |t| / |readSelectors| + (if r < |t| % |readSelectors| then 1 else 0)
  {
    var t := Targets(AcceptKeys(keys, 0, readSelectors, incoming).round.effects);
    RoundRobin(keys, 0, readSelectors, incoming);
    assert forall j :: 0 <= j < |t| ==> t[j] == readSelectors[(0 + j) % |readSelectors|];
    DealtIsBalanced(t, readSelectors, r);
  }

  /** A pass removes every acceptable key it dispatched and never a key that is not
      acceptable; when no exception ends it, no acceptable key is left selected. */
  lemma {:induction false} AcceptKeysRemovesOnlyAcceptable(keys: seq<Key>, counter: int, readSelectors: seq<Selector>, incoming: seq<Incoming>)
    requires 0 <= counter < INT_MAX - 1
    ensures var o := AcceptKeys(keys, counter, readSelectors, incoming);
      && (forall j :: 0 <= j < |keys| && !keys[j].acceptable ==> keys[j] in o.round.remaining)
      && (o.crash.None? ==> forall key :: key in o.round.remaining ==> !key.acceptable)
      && (forall key :: key in o.round.remaining ==> key in keys)
    decreases |keys|
  {
    if keys != [] {
      var o := AcceptKeys(keys, counter, readSelectors, incoming);
      if !keys[0].acceptable {
        AcceptKeysRemovesOnlyAcceptable(keys[1..], counter, readSelectors, incoming);
        AcceptKeysSkips(keys, counter, readSelectors, incoming);
        forall j | 0 <= j < |keys| && !keys[j].acceptable
          ensures keys[j] in o.round.remaining
        {
          if j > 0 {
            assert keys[j] == keys[1..][j - 1];
          }
        }
      } else if incoming != [] && incoming[0].Pending? && |readSelectors| > 0 {
        AcceptKeysRemovesOnlyAcceptable(keys[1..], NextCounter(counter), readSelectors, incoming[1..]);
        AcceptKeysDispatches(keys, counter, readSelectors, incoming);
        forall j | 0 <= j < |keys| && !keys[j].acceptable
          ensures keys[j] in o.round.remaining
        {
          assert keys[j] == keys[1..][j - 1];
        }
      } else {
        // an exception ends the pass with the whole batch still selected
        assert o.round.remaining == keys && o.crash.Some?;
      }
    }
  }

  /** With at least one read selector the modulo never divides by zero. */
  lemma {:induction false} NoDivideByZeroWithReaders(keys: seq<Key>, counter: int, readSelectors: seq<Selector>, incoming: seq<Incoming>)
    requires |readSelectors| > 0 && 0 <= counter < INT_MAX - 1
    ensures AcceptKeys(keys, counter, readSelectors, incoming).crash != Some(DivideByZero)
    decreases |keys|
  {
    if keys != [] {
      var later := if incoming == [] then [] else incoming[1..];
      NoDivideByZeroWithReaders(keys[1..], counter, readSelectors, incoming);
      NoDivideByZeroWithReaders(keys[1..], NextCounter(counter), readSelectors, later);
    }
  }

  /** A key that is not acceptable is passed over and stays selected. */
  lemma {:induction false} AcceptKeysSkips(keys: seq<Key>, counter: int, readSelectors: seq<Selector>, incoming: seq<Incoming>)
    requires keys != [] && !keys[0].acceptable && 0 <= counter < INT_MAX - 1
    ensures var o := AcceptKeys(keys, counter, readSelectors, incoming);
      var o' := AcceptKeys(keys[1..], counter, readSelectors, incoming);
      && o.counter == o'.counter && o.crash == o'.crash && o.round.effects == o'.round.effects
      && o.round.remaining == [keys[0]] + o'.round.remaining
  {
  }

  /** The inner `while (keyIterator.hasNext())` loop over a batch of selected keys,
      starting from counter value `counter`. */
  method AcceptPass(keys: seq<Key>, counter: int, readSelectors: seq<Selector>, incoming: seq<Incoming>) returns (o: AcceptOutcome)
    requires 0 <= counter < INT_MAX - 1
    ensures o == AcceptKeys(keys, counter, readSelectors, incoming)
  {
    var i, next, kept, effects, rest := 0, counter, [], [], incoming;
    ghost var whole := AcceptKeys(keys, counter, readSelectors, incoming);
    // `tail`: what the keys not yet visited still do
    ghost var tail := whole;
    assert keys[0..] == keys;
    while i < |keys|
      invariant 0 <= i <= |keys| && 0 <= next < INT_MAX - 1
      invariant tail == AcceptKeys(keys[i..], next, readSelectors, rest)
      invariant whole.counter == tail.counter && whole.crash == tail.crash
      invariant whole.round.remaining == kept + tail.round.remaining
      invariant whole.round.effects == effects + tail.round.effects
    {
      var key := keys[i];
      assert keys[i..][0] == key && keys[i..][1..] == keys[i + 1..];
      if key.acceptable {
        var accepted := if rest == [] then NonePending else rest[0];
        if accepted.NonePending? {
          return AcceptOutcome(next, Round(kept + keys[i..], effects), Some(NullChannel));
        }
        if accepted.AcceptThrows? {
          return AcceptOutcome(next, Round(kept + keys[i..], effects), Some(AcceptIOException));
        }
        var socketChannel := accepted.channel;
        if accepted.ConfigureThrows? {
          return AcceptOutcome(next, Round(kept + keys[i..], effects + [Accepted(socketChannel)]), Some(AcceptIOException));
        }
        if |readSelectors| == 0 {
          return AcceptOutcome(next, Round(kept + keys[i..], effects + [Accepted(socketChannel)]), Some(DivideByZero));
        }
        var readSelector := readSelectors[next % |readSelectors|];
        if accepted.RegisterThrows? {
          return AcceptOutcome(next, Round(kept + keys[i..], effects + [Accepted(socketChannel)]), Some(AcceptIOException));
        }
        AcceptKeysDispatches(keys[i..], next, readSelectors, rest);
        var dispatched := Dispatch(key, socketChannel, readSelector);
        ghost var tail' := AcceptKeys(keys[i + 1..], NextCounter(next), readSelectors, rest[1..]);
        assert tail.round.effects == dispatched + tail'.round.effects;
        assert effects + (dispatched + tail'.round.effects) == effects + dispatched + tail'.round.effects;
        effects := effects + dispatched;
        rest := rest[1..];
        next := next + 1;
        if next == INT_MAX - 1 {
          next := 0;
        }
        tail := tail';
      } else {
        AcceptKeysSkips(keys[i..], next, readSelectors, rest);
        ghost var tail' := AcceptKeys(keys[i + 1..], next, readSelectors, rest);
        assert kept + ([key] + tail'.round.remaining) == kept + [key] + tail'.round.remaining;
        kept := kept + [key];
        tail := tail';
      }
      i := i + 1;
    }
    o := AcceptOutcome(next, Round(kept, effects), None);
  }

  /** The state `startNIO` keeps across iterations of its `while (true)` loop: the accept
      selector and the counter `i`. */
  class Acceptor {
    const acceptSelector: Selector
    const lists: SelectorLists
    var counter: int

    ghost predicate Valid()
      reads this
    {
      0 <= counter < INT_MAX - 1
    }

    /** `int i = 0` before the loop. */
    constructor (acceptSelector: Selector, lists: SelectorLists)
      ensures this.acceptSelector == acceptSelector && this.lists == lists
      ensures counter == 0 && Valid()
    {
      this.acceptSelector := acceptSelector;
      this.lists := lists;
      counter := 0;
    }

    /** One iteration of the `while (true)` loop. The keys the iterator removes are taken
        out of the selected-key set in one step when the pass ends, normally or by an
        exception: nothing reads the set while the pass runs. */
    method AcceptOnce(select: SelectOutcome, incoming: seq<Incoming>) returns (effects: seq<Effect>, crash: Option<Crash>)
      requires Valid()
      modifies this, acceptSelector
      ensures Valid()
      ensures var o := AcceptRound(old(acceptSelector.selectedKeys), old(counter), select, lists.readSelectors, incoming);
        && acceptSelector.selectedKeys == o.round.remaining
        && effects == o.round.effects
        && counter == o.counter
        && crash == o.crash
    {
      effects, crash := [], None;
      if select.SelectFailed? {
        crash := Some(SelectIOException);
        return;
      }
      if select.count == 0 {
        return;
      }
      var o := AcceptPass(acceptSelector.selectedKeys, counter, lists.readSelectors, incoming);
      CounterStaysInRange(acceptSelector.selectedKeys, counter, lists.readSelectors, incoming);
      acceptSelector.selectedKeys := o.round.remaining;
      counter := o.counter;
      effects, crash := o.round.effects, o.crash;
    }
  }
}
