/** The parts of Java NIO that the reactors' control flow depends on: channels as
    handles, selection keys as the values a selected-key set holds, selectors as
    objects whose selected-key set the reactors edit through an iterator, and the
    side effects a reactor performs, recorded in the order it performs them. */
module Nio {
  import opened Wrappers

  /** One byte as a `ByteBuffer` holds it (its sign plays no part here). */
  type Byte = b: int | 0 <= b < 256

  /** Text as the bytes it is encoded to: `new String(bytes)` and `getBytes()`
      are taken to be inverse to each other. */
  type Text = seq<Byte>

  /** `String.valueOf((Object) null)`, the text "null". */
  const NULL_TEXT: Text := [110, 117, 108, 108]

  /** A socket channel, known only by its handle. */
  type Channel = nat

  datatype Interest = OpAccept | OpRead | OpWrite

  /** A selection key as it sits in a selected-key set: its identity, its channel,
      whether it is still valid, which operations are ready, and its attachment
      (`None` for a null attachment). */
  datatype Key = Key(
    id: nat,
    channel: Channel,
    valid: bool,
    acceptable: bool,
    readable: bool,
    writable: bool,
    attachment: Option<Text>)

  /** No two keys in a selected-key set are the same key. */
  predicate DistinctIds(keys: seq<Key>) {
    forall i, j :: 0 <= i < j < |keys| ==> keys[i].id != keys[j].id
  }

  /** A multiplexer. Readiness itself comes from the operating system and is an
      input of each round; what the reactors change is the selected-key set. */
  class Selector {
    var selectedKeys: seq<Key>

    /** `Selector.open()`. */
    constructor Open()
      ensures selectedKeys == []
    {
      selectedKeys := [];
    }
  }

  /** The outcome of `select(timeout)` / `selectNow()`: the number of keys that became
      ready, or an `IOException`. */
  datatype SelectOutcome = Ready(count: nat) | SelectFailed

  /** A side effect of a reactor or handler, in the order it happens. */
  datatype Effect =
    | Accepted(channel: Channel)                    // accept() returned a new connection
    | Register(channel: Channel, selector: Selector, interest: Interest, attachment: Option<Text>)
    | Wakeup(selector: Selector)
    | RemoveSelected(key: nat)                      // keyIterator.remove()
    | Cancel(key: nat)                              // key.cancel()
    | Handoff(request: Text, writeSelector: Selector, channel: Channel)
                                                    // a SelectedServiceHandler submitted to the worker pool
    | Handle(request: Text)                         // the request handler was invoked
    | Write(channel: Channel, data: Text)           // one channel.write call with this payload
    | Close(channel: Channel)                       // channel.close()

  /** What one round of a reactor leaves in its selected-key set, and what it did. */
  datatype Round = Round(remaining: seq<Key>, effects: seq<Effect>)
}
