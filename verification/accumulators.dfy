/** `A_CompareConcurrentTech`: the four accumulators, each a template-method subclass
    whose `accumulate` walks an index over the preloaded `int` array and adds the element
    it visits to a `long` sum. Here one step is taken at a time; the benchmark's threads,
    timing and ratios are not part of this model. */
module Accumulators {
  import opened JavaLang

  /** `Accumulator.SIZE` and `Accumulator.N`. */
  const SIZE: int := 100000
  const N: int := 4

  /** The preloaded data: `SIZE` values drawn by `nextInt()`. */
  predicate IsPreLoaded(pre: seq<int>) {
    |pre| == SIZE && forall j :: 0 <= j < SIZE ==> IsInt(pre[j])
  }

  /** The concrete subclass. */
  datatype Kind = BaseLine | SynchronizedTest | LockTest | AtomicLine

  /** The fields `accumulate` updates (for `AtomicLine`, its own atomic `index` and
      `value`). */
  datatype State = State(index: int, value: int)

  /** The indices `accumulate` keeps to: `BaseLine` stops N short of the end. */
  predicate InRange(kind: Kind, index: int) {
    if kind == BaseLine then 0 <= index <= SIZE - N else 0 <= index < SIZE
  }

  predicate Good(kind: Kind, s: State) {
    InRange(kind, s.index) && IsLong(s.value)
  }

  /** One call of `accumulate` on each subclass. `SynchronizedTest` and `LockTest` add the
      element at `index` and move on, wrapping to 0 at SIZE; `BaseLine` resets to 0 and adds
      nothing when `index + N` reaches SIZE; `AtomicLine` moves on first and adds the element
      at the new index, or resets to 0 and adds nothing when that index reaches SIZE. */
  function Step(kind: Kind, pre: seq<int>, s: State): (r: State)
    requires IsPreLoaded(pre) && Good(kind, s)
    ensures Good(kind, r)
    // the reset steps add nothing
    ensures r.index == 0 && kind != SynchronizedTest && kind != LockTest ==> r.value == s.value
  {
    match kind
    case SynchronizedTest | LockTest =>
      var i := s.index + 1;
      State(if i >= SIZE then 0 else i, WrapLong(s.value + pre[s.index]))
    case BaseLine =>
      if s.index + N >= SIZE then State(0, s.value)
      else State(s.index + 1, WrapLong(s.value + pre[s.index]))
    case AtomicLine =>
      var i := s.index + 1;
      if i >= SIZE then State(0, s.value)
      else State(i, WrapLong(s.value + pre[i]))
  }

  /** `k` calls of `accumulate` from state `s`. */
  function Steps(kind: Kind, pre: seq<int>, k: nat, s: State): (r: State)
    requires IsPreLoaded(pre) && Good(kind, s)
    ensures Good(kind, r)
  {
    if k == 0 then s else Step(kind, pre, Steps(kind, pre, k - 1, s))
  }

  /** The sum of the elements at indices `lo` to `hi - 1`. */
  function SumRange(s: seq<int>, lo: nat, hi: nat): int
    requires lo <= hi <= |s|
    decreases hi - lo
  {
    if lo == hi then 0 else SumRange(s, lo, hi - 1) + s[hi - 1]
  }

  /** Adding to a wrapped running sum wraps to the same value as adding to the exact one. */
  lemma AddWrapped(before: int, x: int, after: int)
    requires after == before + x
    ensures WrapLong(WrapLong(before) + x) == WrapLong(after)
  {
    WrapLongAdd(before, x);
  }

  /** Away from a reset, one step moves the index on and adds the element it passes:
      the one at the old index, or for `AtomicLine` the one at the new index. */
  lemma StepAdds(kind: Kind, pre: seq<int>, i: nat, w: int)
    requires IsPreLoaded(pre) && IsLong(w) && i + 1 < SIZE && (kind == BaseLine ==> i + N < SIZE)
    ensures kind != AtomicLine ==> Step(kind, pre, State(i, w)) == State(i + 1, WrapLong(w + pre[i]))
    ensures kind == AtomicLine ==> Step(kind, pre, State(i, w)) == State(i + 1, WrapLong(w + pre[i + 1]))
  {
  }

  /** `SynchronizedTest` and `LockTest` from index 0: after k < SIZE calls the index is k
      and the sum has grown by the first k elements. */
  lemma {:induction false} LockedPrefix(kind: Kind, pre: seq<int>, k: nat, v: int)
    requires kind == SynchronizedTest || kind == LockTest
    requires IsPreLoaded(pre) && IsLong(v) && k < SIZE
    ensures Steps(kind, pre, k, State(0, v)) == State(k, WrapLong(v + SumRange(pre, 0, k)))
  {
    if k == 0 {
      WrapLongFits(v);
    } else {
      LockedPrefix(kind, pre, k - 1, v);
      var before := v + SumRange(pre, 0, k - 1);
      StepAdds(kind, pre, k - 1, WrapLong(before));
      AddWrapped(before, pre[k - 1], v + SumRange(pre, 0, k));
    }
  }

  /** SIZE calls from index 0 bring `SynchronizedTest` and `LockTest` back to index 0 with
      the sum of the whole array added, modulo 2^64. */
  lemma LockedFullCycle(kind: Kind, pre: seq<int>, v: int)
    requires kind == SynchronizedTest || kind == LockTest
    requires IsPreLoaded(pre) && IsLong(v)
    ensures Steps(kind, pre, |pre|, State(0, v)) == State(0, WrapLong(v + SumRange(pre, 0, |pre|)))
  {
    LockedPrefix(kind, pre, |pre| - 1, v);
    LockedWrap(kind, pre, v);
  }

  /** The last call of a cycle adds the last element and wraps the index to 0. */
  lemma LockedWrap(kind: Kind, pre: seq<int>, v: int)
    requires kind == SynchronizedTest || kind == LockTest
    requires IsPreLoaded(pre) && IsLong(v)
    ensures Step(kind, pre, State(|pre| - 1, WrapLong(v + SumRange(pre, 0, |pre| - 1))))
         == State(0, WrapLong(v + SumRange(pre, 0, |pre|)))
  {
    var last := |pre| - 1;
    var before := v + SumRange(pre, 0, last);
    AddWrapped(before, pre[last], v + SumRange(pre, 0, |pre|));
  }

  /** `AtomicLine` from index 0: after k < SIZE calls the index is k and the sum has grown
      by the elements 1 to k; element 0 is skipped. */
  lemma {:induction false} AtomicPrefix(pre: seq<int>, k: nat, v: int)
    requires IsPreLoaded(pre) && IsLong(v) && k < SIZE
    ensures Steps(AtomicLine, pre, k, State(0, v)) == State(k, WrapLong(v + SumRange(pre, 1, k + 1)))
  {
    if k == 0 {
      WrapLongFits(v);
    } else {
      AtomicPrefix(pre, k - 1, v);
      var before := v + SumRange(pre, 1, k);
      StepAdds(AtomicLine, pre, k - 1, WrapLong(before));
      AddWrapped(before, pre[k], v + SumRange(pre, 1, k + 1));
    }
  }

  /** SIZE calls from index 0 bring `AtomicLine` back to index 0 having added every
      element but `preLoaded[0]`, which it never adds. */
  lemma AtomicFullCycle(pre: seq<int>, v: int)
    requires IsPreLoaded(pre) && IsLong(v)
    ensures Steps(AtomicLine, pre, |pre|, State(0, v)) == State(0, WrapLong(v + SumRange(pre, 1, |pre|)))
  {
    var last := |pre| - 1;
    AtomicPrefix(pre, last, v);
    assert last + 1 == |pre|;
    var w := WrapLong(v + SumRange(pre, 1, last + 1));
    assert Steps(AtomicLine, pre, last + 1, State(0, v)) == Step(AtomicLine, pre, State(last, w));
  }

  /** `BaseLine` from index 0: after k <= SIZE - N calls the index is k and the sum has
      grown by the first k elements. */
  lemma {:induction false} BaseLinePrefix(pre: seq<int>, k: nat, v: int)
    requires IsPreLoaded(pre) && IsLong(v) && k <= SIZE - N
    ensures Steps(BaseLine, pre, k, State(0, v)) == State(k, WrapLong(v + SumRange(pre, 0, k)))
  {
    if k == 0 {
      WrapLongFits(v);
    } else {
      BaseLinePrefix(pre, k - 1, v);
      var before := v + SumRange(pre, 0, k - 1);
      StepAdds(BaseLine, pre, k - 1, WrapLong(before));
      AddWrapped(before, pre[k - 1], v + SumRange(pre, 0, k));
    }
  }

  /** `BaseLine` runs a cycle of SIZE - N + 1 calls: it adds the first SIZE - N elements,
      then one call resets the index and adds nothing. */
  lemma BaseLineFullCycle(pre: seq<int>, v: int)
    requires IsPreLoaded(pre) && IsLong(v)
    ensures Steps(BaseLine, pre, |pre| - N + 1, State(0, v)) == State(0, WrapLong(v + SumRange(pre, 0, |pre| - N)))
  {
    BaseLinePrefix(pre, |pre| - N, v);
  }

  /** An accumulator: its subclass, the shared preloaded array, and its `index` and
      `value`. */
  class Accumulator {
    const kind: Kind
    const preLoaded: seq<int>
    var index: int
    var value: int

    ghost predicate Valid()
      reads this
    {
      IsPreLoaded(preLoaded) && Good(kind, State(index, value))
    }

    /** A new accumulator of the given subclass: index 0, value 0. */
    constructor (kind: Kind, preLoaded: seq<int>)
      requires IsPreLoaded(preLoaded)
      ensures this.kind == kind && this.preLoaded == preLoaded
      ensures index == 0 && value == 0 && Valid()
    {
      this.kind := kind;
      this.preLoaded := preLoaded;
      index, value := 0, 0;
    }

    /** `accumulate` of the subclass. */
    method Accumulate()
      requires Valid()
      modifies this
      ensures Valid()
      ensures State(index, value) == Step(kind, preLoaded, old(State(index, value)))
    {
      match kind
      case SynchronizedTest | LockTest =>
        value := WrapLong(value + preLoaded[index]);
        index := index + 1;
        if index >= SIZE {
          index := 0;
        }
      case BaseLine =>
        if index + N >= SIZE {
          index := 0;
          return;
        }
        value := WrapLong(value + preLoaded[index]);
        index := index + 1;
      case AtomicLine =>
        var i := index;
        index := index + 1;
        i := i + 1;
        if i >= SIZE {
          index := 0;
          return;
        }
        value := WrapLong(value + preLoaded[i]);
    }

    /** `read`: the current sum; nothing changes. */
    method Read() returns (v: int)
      requires Valid()
      ensures v == value && IsLong(v)
    {
      v := value;
    }

    /** `Modifier.run` alone: `cycles` calls of `accumulate` (none when `cycles <= 0`). */
    method Modify(cycles: int)
      requires Valid()
      modifies this
      ensures Valid()
      ensures State(index, value) == Steps(kind, preLoaded, if cycles > 0 then cycles else 0, old(State(index, value)))
    {
      ghost var start := State(index, value);
      var i := 0;
      while i < cycles
        invariant Valid() && 0 <= i && (cycles > 0 ==> i <= cycles) && (cycles <= 0 ==> i == 0)
        invariant State(index, value) == Steps(kind, preLoaded, i, start)
      {
        Accumulate();
        i := i + 1;
      }
    }
  }
}
