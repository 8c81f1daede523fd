/** `SelectorManagerBuilder.build`: the guard on the number of reactor pairs, then the
    manager's constructor. */
module SelectorManagerBuilders {
  import opened Wrappers
  import opened JavaLang
  import opened Nio
  import opened SelectorManagers

  /** How `build` fails: the `IllegalArgumentException` of its guard, or the `IOException`
      a `Selector.open()` of the constructor throws, which `build` passes on. */
  datatype BuildError = IllegalArgument | SelectorIOException

  /** The guard of `build` as written: only a count of exactly 0 is rejected. */
  predicate Admits(count: int) {
    count != 0
  }

  /** The guard `build` evidently intends: at least one pair of reactors. */
  predicate AdmitsPositive(count: int) {
    count > 0
  }

  /** `build` as written. A rejected count throws before any selector is opened; an
      admitted one reaches the constructor with the port and count unchanged, and a
      failing `Selector.open()` there fails the build after the selectors opened before
      it were appended. `failingOpen` is the index of the first `open` call that throws. */
  method Build(port: int, count: int, lists: SelectorLists, pool: SocketPool, failingOpen: Option<nat>)
    returns (r: Result<SelectorManager, BuildError>)
    modifies lists, pool
    ensures r == Failure(IllegalArgument) <==> count == 0
    ensures r == Failure(IllegalArgument) ==> unchanged(lists, pool)
    ensures r == Failure(SelectorIOException) <==> count != 0 && Opened(count, failingOpen) < 2 * Iterations(count)
    ensures r.Success? ==> r.value.port == port && r.value.lists == lists
    ensures r.Success? ==>
      && |lists.readSelectors| == |old(lists.readSelectors)| + Iterations(count)
      && |lists.writeSelectors| == |old(lists.writeSelectors)| + Iterations(count)
      && lists.readSelectors[..|old(lists.readSelectors)|] == old(lists.readSelectors)
    ensures Distinct(old(lists.readSelectors)) ==> Distinct(lists.readSelectors)
  {
    if !Admits(count) {
      return Failure(IllegalArgument);
    }
    var made := NewSelectorManager(port, count, lists, pool, failingOpen);
    if made.Failure? {
      return Failure(SelectorIOException);
    }
    return Success(made.value);
  }

  /** `build` with the corrected guard: every manager it returns has opened at least
      one read selector, and the shared read selectors stay distinct. */
  method BuildPositive(port: int, count: int, lists: SelectorLists, pool: SocketPool, failingOpen: Option<nat>)
    returns (r: Result<SelectorManager, BuildError>)
    modifies lists, pool
    ensures r == Failure(IllegalArgument) <==> count <= 0
    ensures r == Failure(IllegalArgument) ==> unchanged(lists, pool)
    ensures r == Failure(SelectorIOException) <==> count > 0 && Opened(count, failingOpen) < 2 * count
    ensures r.Success? ==> r.value.port == port && r.value.lists == lists
    ensures r.Success? ==>
      && |lists.readSelectors| == |old(lists.readSelectors)| + count
      && |lists.writeSelectors| == |old(lists.writeSelectors)| + count
      && |lists.readSelectors| > 0
    ensures Distinct(old(lists.readSelectors)) ==> Distinct(lists.readSelectors)
  {
    if !AdmitsPositive(count) {
      return Failure(IllegalArgument);
    }
    var made := NewSelectorManager(port, count, lists, pool, failingOpen);
    if made.Failure? {
      return Failure(SelectorIOException);
    }
    return Success(made.value);
  }

  /** The setup of `TestNIO.main`: `build(8090, 4)` in a fresh process, whose static lists
      start empty. Unless one of the eight `Selector.open()` calls throws, the server holds
      four distinct read selectors, so an accept pass of its `startNIO` deals each read
      reactor a quarter of the connections, rounded down or up. */
  method BuildTestServer(failingOpen: Option<nat>, keys: seq<Key>, incoming: seq<Incoming>)
    returns (lists: SelectorLists, r: Result<SelectorManager, BuildError>)
    ensures r.Failure? <==> failingOpen.Some? && failingOpen.value < 8
    ensures r.Success? ==> r.value.port == 8090 && |lists.readSelectors| == 4 && Distinct(lists.readSelectors)
    ensures r.Success? && |keys| < INT_MAX - 1 ==>
      var t := Targets(AcceptKeys(keys, 0, lists.readSelectors, incoming).round.effects);
      forall k :: 0 <= k < 4 ==> multiset(t)[lists.readSelectors[k]] == |t| / 4 + (if k < |t| % 4 then 1 else 0)
  {
    lists := new SelectorLists();
    var pool := new SocketPool();
    r := Build(8090, 4, lists, pool, failingOpen);
    assert Iterations(4) == 4;
    assert r != Failure(IllegalArgument);
    assert r.Failure? ==> r.error == SelectorIOException;
    if r.Success? && |keys| < INT_MAX - 1 {
      forall k | 0 <= k < 4
        ensures multiset(Targets(AcceptKeys(keys, 0, lists.readSelectors, incoming).round.effects))[lists.readSelectors[k]]
          == |Targets(AcceptKeys(keys, 0, lists.readSelectors, incoming).round.effects)| / 4
             + (if k < |Targets(AcceptKeys(keys, 0, lists.readSelectors, incoming).round.effects)| % 4 then 1 else 0)
      {
        DispatchIsBalanced(keys, lists.readSelectors, incoming, k);
      }
    }
  }

  /** A negative count passes the guard as written, opens no selector, and on a server
      whose static lists are still empty the first accepted connection ends the accept
      loop with an `ArithmeticException` from `i % 0`. */
  lemma NegativeCountPassesGuard(key: Key, channel: Channel)
    requires key.acceptable
    ensures Admits(-1) && Iterations(-1) == 0
    ensures AcceptKeys([key], 0, [], [Pending(channel)]).crash == Some(DivideByZero)
  {
  }

  /** Under the corrected guard a manager opens at least one read selector, so on a
      server built only through it the accept loop never divides by zero. */
  lemma PositiveCountNeverDividesByZero(count: int, keys: seq<Key>, counter: int, readSelectors: seq<Selector>, incoming: seq<Incoming>)
    requires AdmitsPositive(count) && |readSelectors| >= Iterations(count)
    requires 0 <= counter < INT_MAX - 1
    ensures Iterations(count) >= 1
    ensures AcceptKeys(keys, counter, readSelectors, incoming).crash != Some(DivideByZero)
  {
    NoDivideByZeroWithReaders(keys, counter, readSelectors, incoming);
  }

  /** The two guards differ exactly on the negative counts. */
  lemma GuardsDifferOnNegatives(count: int)
    ensures Admits(count) && !AdmitsPositive(count) <==> count < 0
    ensures AdmitsPositive(count) ==> Admits(count)
  {
  }
}
