/** The read reactor: one pass of `ReadSelector.run`'s loop. For every readable key
    it drains the channel into a request, hands the request to the worker pool
    together with the write selector it was paired with at construction, then
    cancels the key and removes it from the selected-key set. */
module ReadSelectors {
  import opened Wrappers
  import opened Nio

  /** `ByteBuffer.allocate(1024)`. */
  const BUFFER_SIZE: nat := 1024

  /** One call of `channel.read(buffer)` on a buffer with all its 1024 bytes free:
      it put `data` (at least one byte) at position 0, returned 0, returned -1, or
      threw an `IOException`. */
  datatype ReadResult = Got(data: Text) | NoData | EndOfStream | ReadFailed

  /** A read transfers at least one and at most 1024 bytes when it returns a positive count. */
  predicate Fits(r: ReadResult) {
    r.Got? ==> 1 <= |r.data| <= BUFFER_SIZE
  }

  predicate AllFit(results: seq<ReadResult>) {
    forall i :: 0 <= i < |results| ==> Fits(results[i])
  }

  predicate ChannelsFit(results: map<Channel, seq<ReadResult>>) {
    forall ch | ch in results :: AllFit(results[ch])
  }

  /** The successive results of reading `ch`; a channel with none listed has no data now. */
  function ReadsOf(results: map<Channel, seq<ReadResult>>, ch: Channel): seq<ReadResult> {
    if ch in results then results[ch] else []
  }

  /** A freshly allocated backing array. */
  function Zeros(): (z: Text)
    ensures |z| == BUFFER_SIZE && forall i :: 0 <= i < |z| ==> z[i] == 0
  {
    seq(BUFFER_SIZE, _ => 0)
  }

  /** The backing array after a read put `data` at position 0; `clear()` resets only the
      position, so the bytes beyond `data` are those of earlier reads. */
  function Overlay(buf: Text, data: Text): Text
    requires |data| <= |buf|
  {
    data + buf[|data|..]
  }

  /** What `while (read(buffer) > 0) { readData.append(buffer.array()); buffer.clear(); }`
      accumulates from backing array `buf`: `None` when a read throws. Every successful
      read appends the whole array. */
  function Drain(buf: Text, results: seq<ReadResult>): (got: Option<Text>)
    requires |buf| == BUFFER_SIZE && AllFit(results)
    // the drain fails only when a read throws, and what it returns is whole 1024-byte arrays
    ensures got.None? ==> exists i :: 0 <= i < |results| && results[i].ReadFailed?
    ensures got.Some? ==> |got.value| % BUFFER_SIZE == 0
    decreases |results|
  {
    if results == [] || results[0].NoData? || results[0].EndOfStream? then Some([])
    else if results[0].ReadFailed? then None
    else
      var next := Overlay(buf, results[0].data);
      match Drain(next, results[1..])
      case None => None
      case Some(rest) => Some(next + rest)
  }

  /** The number of reads that return a positive count before the first one that does not. */
  function Successes(results: seq<ReadResult>): (n: nat)
    ensures n <= |results|
    ensures forall i :: 0 <= i < n ==> results[i].Got?
    ensures n < |results| ==> !results[n].Got?
  {
    if results == [] || !results[0].Got? then 0 else 1 + Successes(results[1..])
  }

  /** The request holds 1024 bytes per successful read, whatever the reads transferred. */
  lemma {:induction false} DrainLength(buf: Text, results: seq<ReadResult>)
    requires |buf| == BUFFER_SIZE && AllFit(results)
    requires Drain(buf, results).Some?
    ensures |Drain(buf, results).value| == BUFFER_SIZE * Successes(results)
    decreases |results|
  {
    if results != [] && results[0].Got? {
      DrainLength(Overlay(buf, results[0].data), results[1..]);
    }
  }

  /** A successful read followed by a drain that does not throw: the request is the whole
      array after that read, then the rest of the drain. */
  lemma DrainGot(buf: Text, results: seq<ReadResult>)
    requires |buf| == BUFFER_SIZE && AllFit(results)
    requires results != [] && results[0].Got? && Drain(buf, results).Some?
    ensures |results[0].data| <= BUFFER_SIZE
    ensures var next := Overlay(buf, results[0].data);
      && |next| == BUFFER_SIZE && AllFit(results[1..]) && Drain(next, results[1..]).Some?
      && Drain(buf, results).value == next + Drain(next, results[1..]).value
  {
    assert Fits(results[0]);
  }

  /** The k-th 1024-byte block of the request starts with the bytes of the k-th read. */
  lemma {:induction false} DrainBlockStartsWithRead(buf: Text, results: seq<ReadResult>, k: nat)
    requires |buf| == BUFFER_SIZE && AllFit(results)
    requires Drain(buf, results).Some? && k < Successes(results)
    ensures |Drain(buf, results).value| >= BUFFER_SIZE * k + |results[k].data|
    ensures Drain(buf, results).value[BUFFER_SIZE * k .. BUFFER_SIZE * k + |results[k].data|] == results[k].data
    decreases k
  {
    DrainGot(buf, results);
    var next := Overlay(buf, results[0].data);
    var rest := Drain(next, results[1..]).value;
    if k > 0 {
      DrainBlockStartsWithRead(next, results[1..], k - 1);
      var lo := BUFFER_SIZE * (k - 1);
      var d := results[k].data;
      assert results[1..][k - 1] == results[k];
      assert BUFFER_SIZE * k == |next| + lo;
      SliceOfSecond(next, rest, |next| + lo, |next| + lo + |d|);
    } else {
      var d := results[0].data;
      assert next[..|d|] == d;
      SliceOfFirst(next, rest, |d|);
    }
  }

  lemma SliceOfFirst(a: Text, b: Text, j: nat)
    requires j <= |a|
    ensures (a + b)[0..j] == a[..j]
  {
  }

  lemma SliceOfSecond(a: Text, b: Text, i: nat, j: nat)
    requires |a| <= i <= j <= |a| + |b|
    ensures (a + b)[i..j] == b[i - |a|..j - |a|]
  {
  }

  /** A full read followed by a shorter one: the second block carries the stale tail of
      the first, because the array is neither zeroed nor truncated between reads. */
  lemma StaleBytesAfterShortRead(a: Text, b: Text)
    requires |a| == BUFFER_SIZE && 1 <= |b| < BUFFER_SIZE
    ensures Drain(Zeros(), [Got(a), Got(b), NoData]) == Some(a + b + a[|b|..])
  {
    var results := [Got(a), Got(b), NoData];
    var second := [Got(b), NoData];
    var third := [NoData];
    assert results[0] == Got(a) && results[1..] == second;
    assert second[0] == Got(b) && second[1..] == third;
    assert Overlay(Zeros(), a) == a;
    assert Overlay(a, b) == b + a[|b|..];
    assert Drain(b + a[|b|..], third) == Some([]);
    assert Drain(a, second) == Some(b + a[|b|..] + []);
    assert Drain(Zeros(), results) == Some(a + (b + a[|b|..] + []));
    assert a + (b + a[|b|..] + []) == a + b + a[|b|..];
  }

  /** `prefix` followed by a drained request, or the failure. */
  function Prefixed(prefix: Text, drained: Option<Text>): (r: Option<Text>)
    ensures r.None? <==> drained.None?
    ensures r.Some? ==> r.value == prefix + drained.value
  {
    match drained
    case None => None
    case Some(rest) => Some(prefix + rest)
  }

  lemma PrefixedTwice(p: Text, q: Text, drained: Option<Text>)
    ensures Prefixed(p, Prefixed(q, drained)) == Prefixed(p + q, drained)
  {
    if drained.Some? {
      assert p + (q + drained.value) == p + q + drained.value;
    }
  }

  /** The drain loop of one readable key, over a fresh 1024-byte array that each read
      overwrites from position 0. */
  method DrainChannel(results: seq<ReadResult>) returns (request: Option<Text>)
    requires AllFit(results)
    ensures request == Drain(Zeros(), results)
  {
    var buffer := new Byte[BUFFER_SIZE](_ => 0);
    var readData: Text := [];
    var k := 0;
    assert buffer[..] == Zeros();
    assert results[0..] == results;
    ghost var drained := Drain(Zeros(), results);
    assert drained.Some? ==> Prefixed(readData, drained).value == drained.value;
    while k < |results|
      invariant 0 <= k <= |results|
      invariant buffer.Length == BUFFER_SIZE
      invariant Drain(Zeros(), results) == Prefixed(readData, Drain(buffer[..], results[k..]))
    {
      var r := results[k];
      assert results[k..][0] == r && results[k..][1..] == results[k + 1..];
      if r.ReadFailed? {
        assert Drain(buffer[..], results[k..]).None?;
        return None;
      }
      if !r.Got? {
        assert Drain(buffer[..], results[k..]) == Some([]);
        break;
      }
      ghost var before := buffer[..];
      forall j | 0 <= j < |r.data| {
        buffer[j] := r.data[j];
      }
      assert buffer[..] == Overlay(before, r.data);
      assert Drain(before, results[k..]) == Prefixed(buffer[..], Drain(buffer[..], results[k + 1..]));
      PrefixedTwice(readData, buffer[..], Drain(buffer[..], results[k + 1..]));
      readData := readData + buffer[..];
      k := k + 1;
    }
    assert readData + [] == readData;
    request := Some(readData);
  }

  /** The request a readable key yields: its channel drained into a fresh buffer. */
  function Request(results: map<Channel, seq<ReadResult>>, key: Key): Option<Text>
    requires ChannelsFit(results)
  {
    Drain(Zeros(), ReadsOf(results, key.channel))
  }

  /** What handling one readable key does, in order: hand off, cancel, remove. */
  function Handling(key: Key, request: Text, writeSelector: Selector): seq<Effect> {
    [Handoff(request, writeSelector, key.channel), Cancel(key.id), RemoveSelected(key.id)]
  }

  /** One pass over the selected keys. A readable key is drained; when the drain throws,
      the exception leaves the pass, so that key and all later ones stay selected and
      nothing more happens. Otherwise the request is handed off, the key cancelled and
      removed. A key that is not readable is left alone. */
  function ReadKeys(keys: seq<Key>, results: map<Channel, seq<ReadResult>>, writeSelector: Selector): (r: Round)
    requires ChannelsFit(results)
    // the pass only hands off, cancels and removes: it never writes or closes a channel
    ensures forall e :: e in r.effects ==> e.Handoff? || e.Cancel? || e.RemoveSelected?
    decreases |keys|
  {
    if keys == [] then Round([], [])
    else if !keys[0].readable then
      var r := ReadKeys(keys[1..], results, writeSelector);
      Round([keys[0]] + r.remaining, r.effects)
    else if Request(results, keys[0]).None? then Round(keys, [])
    else
      var r := ReadKeys(keys[1..], results, writeSelector);
      Round(r.remaining, Handling(keys[0], Request(results, keys[0]).value, writeSelector) + r.effects)
  }

  /** One iteration of the reactor: nothing at all when `select` reports no key or throws. */
  function ReadRound(keys: seq<Key>, select: SelectOutcome, results: map<Channel, seq<ReadResult>>, writeSelector: Selector): (r: Round)
    requires ChannelsFit(results)
    // nothing happens unless `select` reports a key, and then the pass runs
    ensures select.SelectFailed? || select.count == 0 ==> r.effects == []
    ensures forall e :: e in r.effects ==> e.Handoff? || e.Cancel? || e.RemoveSelected?
  {
    if select.SelectFailed? || select.count == 0 then Round(keys, [])
    else ReadKeys(keys, results, writeSelector)
  }

  /** The readable keys a pass hands off, in order: those before the first failing drain. */
  function HandedOff(keys: seq<Key>, results: map<Channel, seq<ReadResult>>): seq<Key>
    requires ChannelsFit(results)
    decreases |keys|
  {
    if keys == [] then []
    else if !keys[0].readable then HandedOff(keys[1..], results)
    else if Request(results, keys[0]).None? then []
    else [keys[0]] + HandedOff(keys[1..], results)
  }

  /** One key of a pass: what the pass over `keys[i..]` is, given the pass over `keys[i + 1..]`. */
  lemma ReadKeysStep(keys: seq<Key>, i: nat, results: map<Channel, seq<ReadResult>>, writeSelector: Selector)
    requires ChannelsFit(results) && i < |keys|
    ensures var key, r, r' := keys[i], ReadKeys(keys[i..], results, writeSelector), ReadKeys(keys[i + 1..], results, writeSelector);
      && (!key.readable ==> r == Round([key] + r'.remaining, r'.effects))
      && (key.readable && Request(results, key).None? ==> r == Round(keys[i..], []))
      && (key.readable && Request(results, key).Some? ==>
            r == Round(r'.remaining, Handling(key, Request(results, key).value, writeSelector) + r'.effects))
    ensures var key, h, h' := keys[i], HandedOff(keys[i..], results), HandedOff(keys[i + 1..], results);
      && (!key.readable ==> h == h')
      && (key.readable && Request(results, key).None? ==> h == [])
      && (key.readable && Request(results, key).Some? ==> h == [key] + h')
  {
    assert keys[i..][0] == keys[i] && keys[i..][1..] == keys[i + 1..];
  }

  /** Every handed-off key is a readable key of the batch whose drain succeeded. */
  lemma {:induction false} HandedOffAreReadable(keys: seq<Key>, results: map<Channel, seq<ReadResult>>)
    requires ChannelsFit(results)
    ensures forall k :: k in HandedOff(keys, results) ==> k in keys && k.readable && Request(results, k).Some?
    decreases |keys|
  {
    if keys != [] {
      HandedOffAreReadable(keys[1..], results);
    }
  }

  /** The effects are the handed-off keys' handlings back to back: three effects per key,
      in this order: the handoff carrying its drained request, its channel and the paired
      write selector; its cancellation; its removal from the selected-key set. */
  ghost predicate HandledInOrder(effects: seq<Effect>, handed: seq<Key>, results: map<Channel, seq<ReadResult>>, writeSelector: Selector)
    requires ChannelsFit(results)
  {
    && |effects| == 3 * |handed|
    && forall j :: 0 <= j < |handed| ==>
         Request(results, handed[j]).Some? &&
         effects[3 * j .. 3 * j + 3] == Handling(handed[j], Request(results, handed[j]).value, writeSelector)
  }

  /** Handling one more key in front keeps the effects in blocks of three. */
  lemma HandledInOrderCons(key: Key, effects': seq<Effect>, handed': seq<Key>, results: map<Channel, seq<ReadResult>>, writeSelector: Selector)
    requires ChannelsFit(results) && Request(results, key).Some?
    requires HandledInOrder(effects', handed', results, writeSelector)
    ensures HandledInOrder(Handling(key, Request(results, key).value, writeSelector) + effects', [key] + handed', results, writeSelector)
  {
    var effects := Handling(key, Request(results, key).value, writeSelector) + effects';
    var handed := [key] + handed';
    forall j | 0 <= j < |handed|
      ensures Request(results, handed[j]).Some?
      ensures effects[3 * j .. 3 * j + 3] == Handling(handed[j], Request(results, handed[j]).value, writeSelector)
    {
      if j > 0 {
        assert handed[j] == handed'[j - 1];
        assert effects[3 * j .. 3 * j + 3] == effects'[3 * (j - 1) .. 3 * (j - 1) + 3];
      }
    }
  }

  /** Each handed-off key yields exactly its three effects, in order, and nothing else
      happens in a pass. */
  lemma {:induction false} ReadKeysHandOffThenCancel(keys: seq<Key>, results: map<Channel, seq<ReadResult>>, writeSelector: Selector)
    requires ChannelsFit(results)
    ensures HandledInOrder(ReadKeys(keys, results, writeSelector).effects, HandedOff(keys, results), results, writeSelector)
    decreases |keys|
  {
    if keys != [] {
      var key := keys[0];
      ReadKeysHandOffThenCancel(keys[1..], results, writeSelector);
      assert keys[0..] == keys;
      ReadKeysStep(keys, 0, results, writeSelector);
      if key.readable && Request(results, key).Some? {
        HandledInOrderCons(key, ReadKeys(keys[1..], results, writeSelector).effects, HandedOff(keys[1..], results), results, writeSelector);
      }
    }
  }

  /** A pass neither loses nor invents keys: the keys still selected and those handed off
      together make up the batch. */
  lemma {:induction false} ReadKeysPartition(keys: seq<Key>, results: map<Channel, seq<ReadResult>>, writeSelector: Selector)
    requires ChannelsFit(results)
    ensures multiset(ReadKeys(keys, results, writeSelector).remaining) + multiset(HandedOff(keys, results)) == multiset(keys)
    decreases |keys|
  {
    if keys != [] {
      ReadKeysPartition(keys[1..], results, writeSelector);
      assert keys[0..] == keys;
      ReadKeysStep(keys, 0, results, writeSelector);
      assert keys == [keys[0]] + keys[1..];
      var rest, handed := ReadKeys(keys[1..], results, writeSelector).remaining, HandedOff(keys[1..], results);
      if !keys[0].readable {
        MultisetCons(keys[0], rest, handed, keys[1..]);
      } else if Request(results, keys[0]).Some? {
        MultisetCons(keys[0], handed, rest, keys[1..]);
      }
    }
  }

  /** Putting one more element in front of either part of a split puts it in front of the whole. */
  lemma MultisetCons<T>(x: T, a: seq<T>, b: seq<T>, whole: seq<T>)
    requires multiset(a) + multiset(b) == multiset(whole)
    ensures multiset([x] + a) + multiset(b) == multiset([x] + whole)
    ensures multiset(b) + multiset([x] + a) == multiset([x] + whole)
  {
  }

  /** A key that is not readable is never cancelled or removed: it is still selected after the pass. */
  lemma {:induction false} NonReadableKeysStay(keys: seq<Key>, results: map<Channel, seq<ReadResult>>, writeSelector: Selector)
    requires ChannelsFit(results)
    ensures forall i :: 0 <= i < |keys| && !keys[i].readable ==> keys[i] in ReadKeys(keys, results, writeSelector).remaining
    decreases |keys|
  {
    if keys != [] {
      NonReadableKeysStay(keys[1..], results, writeSelector);
      forall i | 0 <= i < |keys| && !keys[i].readable
        ensures keys[i] in ReadKeys(keys, results, writeSelector).remaining
      {
        if i > 0 {
          assert keys[i] == keys[1..][i - 1];
        }
      }
    }
  }

  /** A readable key whose drain throws stays selected, and so does every key after it:
      the exception abandons the rest of the batch. */
  lemma {:induction false} FailedDrainAbandonsBatch(keys: seq<Key>, results: map<Channel, seq<ReadResult>>, writeSelector: Selector, i: nat)
    requires ChannelsFit(results)
    requires i < |keys| && keys[i].readable && Request(results, keys[i]).None?
    ensures forall j :: i <= j < |keys| ==> keys[j] in ReadKeys(keys, results, writeSelector).remaining
    decreases |keys|
  {
    var r := ReadKeys(keys, results, writeSelector);
    var key := keys[0];
    if key.readable && Request(results, key).None? {
      assert r.remaining == keys;
    } else {
      assert i > 0;
      FailedDrainAbandonsBatch(keys[1..], results, writeSelector, i - 1);
      var r' := ReadKeys(keys[1..], results, writeSelector);
      assert forall x :: x in r'.remaining ==> x in r.remaining;
      forall j | i <= j < |keys|
        ensures keys[j] in r.remaining
      {
        assert keys[j] == keys[1..][j - 1];
      }
    }
  }

  /** The inner `while (keyIterator.hasNext())` loop of `run` over a batch of selected
      keys: the keys still selected and the calls made, in order. */
  method ReadPass(keys: seq<Key>, results: map<Channel, seq<ReadResult>>, writeSelector: Selector) returns (round: Round)
    requires ChannelsFit(results)
    ensures round == ReadKeys(keys, results, writeSelector)
  {
    var kept: seq<Key> := [];
    var effects: seq<Effect> := [];
    var i := 0;
    assert keys[0..] == keys;
    while i < |keys|
      invariant 0 <= i <= |keys|
      invariant var r := ReadKeys(keys[i..], results, writeSelector);
        ReadKeys(keys, results, writeSelector) == Round(kept + r.remaining, effects + r.effects)
    {
      var key := keys[i];
      ReadKeysStep(keys, i, results, writeSelector);
      ghost var rest := ReadKeys(keys[i + 1..], results, writeSelector);
      if key.readable {
        var request := DrainChannel(ReadsOf(results, key.channel));
        if request.None? {
          assert effects + [] == effects;
          return Round(kept + keys[i..], effects);
        }
        var handling := Handling(key, request.value, writeSelector);
        assert effects + (handling + rest.effects) == effects + handling + rest.effects;
        effects := effects + handling;
      } else {
        assert kept + ([key] + rest.remaining) == kept + [key] + rest.remaining;
        kept := kept + [key];
      }
      i := i + 1;
    }
    assert kept + [] == kept && effects + [] == effects;
    round := Round(kept, effects);
  }

  /** `ReadSelector`: a reactor thread over its own selector, paired at construction with
      the write selector that receives its connections' replies. */
  class ReadSelector {
    const thisSelector: Selector
    const writeSelector: Selector

    constructor (thisSelector: Selector, writeSelector: Selector)
      ensures this.thisSelector == thisSelector && this.writeSelector == writeSelector
    {
      this.thisSelector := thisSelector;
      this.writeSelector := writeSelector;
    }

    /** One iteration of the `while (true)` loop of `run`. The keys the iterator removes
        are taken out of the selected-key set in one step when the pass ends, normally or
        by an exception: nothing reads the set while the pass runs. */
    method RunOnce(select: SelectOutcome, results: map<Channel, seq<ReadResult>>) returns (effects: seq<Effect>)
      requires ChannelsFit(results)
      modifies thisSelector
      ensures var r := ReadRound(old(thisSelector.selectedKeys), select, results, writeSelector);
        thisSelector.selectedKeys == r.remaining && effects == r.effects
    {
      effects := [];
      if select.SelectFailed? || select.count == 0 {
        return;
      }
      var r := ReadPass(thisSelector.selectedKeys, results, writeSelector);
      thisSelector.selectedKeys := r.remaining;
      effects := r.effects;
    }
  }
}
