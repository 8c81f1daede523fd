/** The write reactor: one pass of `WriteSelector.run`'s loop. Every selected key is
    answered at most once with the reply attached to it, then cancelled and its channel
    closed, whatever happened on the way. */
module WriteSelectors {
  import opened Wrappers
  import opened Nio

  /** `isStringEmpty`: null or the empty string. Text with a character in it, "null"
      among them, is never empty. */
  predicate IsStringEmpty(data: Option<Text>): (empty: bool)
    ensures data.Some? && |data.value| > 0 ==> !empty
    ensures empty ==> data != Some(NULL_TEXT)
  {
    data.None? || data.value == []
  }

  /** `String.valueOf(key.attachment())`: the attached reply, or "null" when there is none. */
  function Reply(key: Key): (reply: Text)
    ensures key.attachment.Some? ==> reply == key.attachment.value
    ensures key.attachment.None? ==> reply == NULL_TEXT
  {
    match key.attachment
    case Some(text) => text
    case None => NULL_TEXT
  }

  /** The guard in front of `write`. */
  predicate WillWrite(key: Key) {
    key.valid && key.writable && !IsStringEmpty(Some(Reply(key)))
  }

  /** What the loop body does with one key; `writeFails` says whether `write` throws on
      its channel. The `try` block writes (when the guard holds), cancels and removes; an
      `IOException` from `write` skips the rest of the `try`; the `finally` block cancels
      again and closes the channel in every case. */
  function KeyEffects(key: Key, writeFails: bool): (effects: seq<Effect>)
    // at most one write, and only as the first call
    ensures forall i :: 0 < i < |effects| ==> !effects[i].Write?
    // the `finally` block ends every path
    ensures |effects| >= 3 && effects[|effects| - 2..] == [Cancel(key.id), Close(key.channel)]
  {
    var finally := [Cancel(key.id), Close(key.channel)];
    if WillWrite(key) && writeFails then [Write(key.channel, Reply(key))] + finally
    else if WillWrite(key) then [Write(key.channel, Reply(key)), Cancel(key.id), RemoveSelected(key.id)] + finally
    else [Cancel(key.id), RemoveSelected(key.id)] + finally
  }

  /** Whether the key leaves the selected-key set: only when no exception was thrown. */
  predicate Removed(key: Key, writeFails: bool) {
    !(WillWrite(key) && writeFails)
  }

  /** One pass over the selected keys; `failing` holds the channels whose write throws.
      An exception on one key does not stop the pass. */
  function WriteKeys(keys: seq<Key>, failing: set<Channel>): (r: Round)
    // no key is invented, and every key gets at least its cancel and its close
    ensures forall k :: k in r.remaining ==> k in keys
    ensures |r.effects| >= 3 * |keys|
    decreases |keys|
  {
    if keys == [] then Round([], [])
    else Cons(keys[0], keys[0].channel in failing, WriteKeys(keys[1..], failing))
  }

  /** Handling `key` before the rest of a pass: what it keeps selected and what it does
      come first. */
  function Cons(key: Key, writeFails: bool, r: Round): Round {
    Round((if Removed(key, writeFails) then [] else [key]) + r.remaining, KeyEffects(key, writeFails) + r.effects)
  }

  /** One iteration of the reactor: nothing when `select` reports no key; when `select`
      throws, the exception is only logged and the current selected-key set is processed. */
  function WriteRound(keys: seq<Key>, select: SelectOutcome, failing: set<Channel>): (r: Round)
    ensures forall k :: k in r.remaining ==> k in keys
    // a failed `select` does not skip the pass
    ensures select != Ready(0) ==> |r.effects| >= 3 * |keys|
  {
    if select == Ready(0) then Round(keys, [])
    else WriteKeys(keys, failing)
  }

  /** The only empty reply is the empty string: a null attachment reads as "null". */
  lemma OnlyEmptyAttachmentIsEmpty(key: Key)
    ensures IsStringEmpty(Some(Reply(key))) <==> key.attachment == Some([])
  {
  }

  /** The one write of a key, if any: a single call with the whole reply, and only for a
      valid, writable key with a non-empty reply. */
  lemma WriteOnlyWhenGuardHolds(key: Key, writeFails: bool)
    ensures forall e :: e in KeyEffects(key, writeFails) && e.Write? ==> WillWrite(key) && e == Write(key.channel, Reply(key))
    ensures WillWrite(key) ==> KeyEffects(key, writeFails)[0] == Write(key.channel, Reply(key))
    ensures |KeyEffects(key, writeFails)| >= 2
  {
  }

  /** A valid, writable key with no attachment gets the four bytes "null" written. */
  lemma NullAttachmentIsWritten(key: Key, writeFails: bool)
    requires key.valid && key.writable && key.attachment.None?
    ensures Write(key.channel, NULL_TEXT) in KeyEffects(key, writeFails)
  {
  }

  /** Every processed key ends cancelled with its channel closed, whatever path it took;
      it is removed from the selected-key set exactly when no exception was thrown. */
  lemma KeyEndsCancelledAndClosed(key: Key, writeFails: bool)
    ensures var effects := KeyEffects(key, writeFails);
      effects[|effects| - 2..] == [Cancel(key.id), Close(key.channel)]
    ensures RemoveSelected(key.id) in KeyEffects(key, writeFails) <==> Removed(key, writeFails)
  {
  }

  /** The pass processes every key: each one is cancelled and its channel closed. */
  lemma {:induction false} WriteKeysReachesEveryKey(keys: seq<Key>, failing: set<Channel>)
    ensures var effects := WriteKeys(keys, failing).effects;
      forall i :: 0 <= i < |keys| ==> Cancel(keys[i].id) in effects && Close(keys[i].channel) in effects
    decreases |keys|
  {
    if keys != [] {
      WriteKeysReachesEveryKey(keys[1..], failing);
      var rest := WriteKeys(keys[1..], failing).effects;
      var mine := KeyEffects(keys[0], keys[0].channel in failing);
      assert WriteKeys(keys, failing).effects == mine + rest;
      assert Cancel(keys[0].id) in mine && Close(keys[0].channel) in mine;
      forall i | 0 < i < |keys|
        ensures Cancel(keys[i].id) in mine + rest && Close(keys[i].channel) in mine + rest
      {
        assert keys[i] == keys[1..][i - 1];
      }
    }
  }

  /** The keys that stay selected after a pass are exactly those whose write threw. */
  lemma {:induction false} WriteKeysKeepsFailedKeys(keys: seq<Key>, failing: set<Channel>)
    ensures forall k :: k in WriteKeys(keys, failing).remaining <==> k in keys && !Removed(k, k.channel in failing)
    decreases |keys|
  {
    if keys != [] {
      WriteKeysKeepsFailedKeys(keys[1..], failing);
      var key := keys[0];
      var kept := if Removed(key, key.channel in failing) then [] else [key];
      assert WriteKeys(keys, failing).remaining == kept + WriteKeys(keys[1..], failing).remaining;
      assert keys == [key] + keys[1..];
    }
  }

  /** The number of `write` calls of a pass: one per key whose guard holds, never more. */
  function Writes(effects: seq<Effect>): nat {
    if effects == [] then 0 else (if effects[0].Write? then 1 else 0) + Writes(effects[1..])
  }

  function Guarded(keys: seq<Key>): nat {
    if keys == [] then 0 else (if WillWrite(keys[0]) then 1 else 0) + Guarded(keys[1..])
  }

  lemma {:induction false} WritesAppend(a: seq<Effect>, b: seq<Effect>)
    ensures Writes(a + b) == Writes(a) + Writes(b)
    decreases |a|
  {
    if a != [] {
      assert (a + b)[0] == a[0] && (a + b)[1..] == a[1..] + b;
      WritesAppend(a[1..], b);
      assert Writes(a + b) == (if a[0].Write? then 1 else 0) + Writes(a[1..] + b);
    } else {
      assert a + b == b;
    }
  }

  lemma {:induction false} NoWrites(effects: seq<Effect>)
    requires forall i :: 0 <= i < |effects| ==> !effects[i].Write?
    ensures Writes(effects) == 0
    decreases |effects|
  {
    if effects != [] {
      NoWrites(effects[1..]);
    }
  }

  /** No retry: a pass makes exactly one `write` call per key whose guard holds. */
  lemma {:induction false} OneWritePerGuardedKey(keys: seq<Key>, failing: set<Channel>)
    ensures Writes(WriteKeys(keys, failing).effects) == Guarded(keys)
    decreases |keys|
  {
    if keys != [] {
      OneWritePerGuardedKey(keys[1..], failing);
      var key := keys[0];
      var mine := KeyEffects(key, key.channel in failing);
      WritesAppend(mine, WriteKeys(keys[1..], failing).effects);
      assert Writes(mine) == if WillWrite(key) then 1 else 0 by {
        if WillWrite(key) {
          NoWrites(mine[1..]);
        } else {
          NoWrites(mine);
        }
      }
    }
  }

  /** What the pass has done after handling one more key. */
  function Then(r: Round, key: Key, writeFails: bool): Round {
    Round(r.remaining + (if Removed(key, writeFails) then [] else [key]), r.effects + KeyEffects(key, writeFails))
  }

  /** Handling a key first and another one last can be done in either grouping. */
  lemma ConsThen(first: Key, firstFails: bool, r: Round, key: Key, writeFails: bool)
    ensures Then(Cons(first, firstFails, r), key, writeFails) == Cons(first, firstFails, Then(r, key, writeFails))
  {
    var kept0 := if Removed(first, firstFails) then [] else [first];
    var kept := if Removed(key, writeFails) then [] else [key];
    assert kept0 + r.remaining + kept == kept0 + (r.remaining + kept);
    assert KeyEffects(first, firstFails) + r.effects + KeyEffects(key, writeFails)
        == KeyEffects(first, firstFails) + (r.effects + KeyEffects(key, writeFails));
  }

  /** Processing one more key extends what the pass did before it. */
  lemma {:induction false} WriteKeysSnoc(keys: seq<Key>, key: Key, failing: set<Channel>)
    ensures WriteKeys(keys + [key], failing) == Then(WriteKeys(keys, failing), key, key.channel in failing)
    decreases |keys|
  {
    if keys == [] {
      assert [] + [key] == [key] && [key][1..] == [];
      assert WriteKeys([key], failing) == Cons(key, key.channel in failing, Round([], []));
    } else {
      var first := keys[0];
      assert (keys + [key])[0] == first && (keys + [key])[1..] == keys[1..] + [key];
      WriteKeysSnoc(keys[1..], key, failing);
      ConsThen(first, first.channel in failing, WriteKeys(keys[1..], failing), key, key.channel in failing);
    }
  }

  /** The pass over the first i + 1 keys extends the pass over the first i. */
  lemma WriteKeysPrefix(keys: seq<Key>, i: nat, failing: set<Channel>)
    requires i < |keys|
    ensures WriteKeys(keys[..i + 1], failing) == Then(WriteKeys(keys[..i], failing), keys[i], keys[i].channel in failing)
  {
    assert keys[..i + 1] == keys[..i] + [keys[i]];
    WriteKeysSnoc(keys[..i], keys[i], failing);
  }

  /** The body of the iterator loop for one key: the calls it makes, and whether it
      reached `keyIterator.remove()`. */
  method HandleKey(key: Key, writeFails: bool) returns (done: seq<Effect>, removed: bool)
    ensures done == KeyEffects(key, writeFails) && removed == Removed(key, writeFails)
  {
    var responseData := Reply(key);
    var thrown := false;
    done := [];
    if key.valid && key.writable && !IsStringEmpty(Some(responseData)) {
      done := [Write(key.channel, responseData)];
      thrown := writeFails;
    }
    removed := !thrown;
    if removed {
      done := done + [Cancel(key.id), RemoveSelected(key.id)];
    }
    done := done + [Cancel(key.id), Close(key.channel)];
  }

  /** `WriteSelector`: a reactor thread over its own selector. */
  class WriteSelector {
    const thisSelector: Selector

    constructor (thisSelector: Selector)
      ensures this.thisSelector == thisSelector
    {
      this.thisSelector := thisSelector;
    }

    /** One iteration of the `while (true)` loop of `run`. The keys the iterator removes
        are taken out of the selected-key set in one step at the end of the pass: nothing
        reads the set while the pass runs. */
    method RunOnce(select: SelectOutcome, failing: set<Channel>) returns (effects: seq<Effect>)
      modifies thisSelector
      ensures var r := WriteRound(old(thisSelector.selectedKeys), select, failing);
        thisSelector.selectedKeys == r.remaining && effects == r.effects
    {
      effects := [];
      if select == Ready(0) {
        return;
      }
      var keys := thisSelector.selectedKeys;
      var kept: seq<Key> := [];
      var i := 0;
      while i < |keys|
        invariant 0 <= i <= |keys|
        invariant Round(kept, effects) == WriteKeys(keys[..i], failing)
      {
        var key := keys[i];
        WriteKeysPrefix(keys, i, failing);
        var done, removed := HandleKey(key, key.channel in failing);
        if !removed {
          kept := kept + [key];
        }
        effects := effects + done;
        i := i + 1;
      }
      assert keys[..i] == keys;
      thisSelector.selectedKeys := kept;
    }
  }
}
