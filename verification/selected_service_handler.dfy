/** The worker task a read reactor submits for each request: it computes the reply
    with the service layer's handler and registers the client channel on the paired
    write selector with the reply attached, then wakes that selector. */
module SelectedService {
  import opened Wrappers
  import opened Nio

  /** The service layer's request handler. Its code is not part of this model, so it is
      any function from request text to reply; `None` is a null reply. */
  type Handler = Text -> Option<Text>

  /** Where `run` may leave through a caught exception: `getRemoteAddress` throwing an
      `IOException`, or `register` throwing (`ClosedChannelException` or another
      `IOException`). */
  datatype Failure = NoFailure | AddressFails | RegisterFails

  /** `SelectedServiceHandler`: the request text, the write selector and the client
      channel, all fixed at construction. */
  datatype SelectedServiceHandler = SelectedServiceHandler(requestData: Text, writeSelector: Selector, clientChannel: Channel)

  /** `doGet`: the handler applied to the request captured at construction. */
  function DoGet(task: SelectedServiceHandler, handler: Handler): Option<Text> {
    handler(task.requestData)
  }

  /** The reply depends on the request text alone: neither the write selector nor the
      client channel of the task changes what the service layer is asked. */
  lemma DoGetReadsOnlyRequest(task: SelectedServiceHandler, other: SelectedServiceHandler, handler: Handler)
    requires task.requestData == other.requestData
    ensures DoGet(task, handler) == DoGet(other, handler)
    ensures DoGet(task, handler) == handler(task.requestData)
  {
  }

  /** The registration `run` makes on success. */
  function Registration(task: SelectedServiceHandler, handler: Handler): Effect {
    Register(task.clientChannel, task.writeSelector, OpWrite, DoGet(task, handler))
  }

  /** `run`: the calls it makes, in order. */
  function Run(task: SelectedServiceHandler, handler: Handler, failure: Failure): (effects: seq<Effect>)
    // the write selector is woken exactly when nothing was thrown, and then right after the registration
    ensures Wakeup(task.writeSelector) in effects <==> failure == NoFailure
    ensures failure == NoFailure ==>
      && |effects| >= 2
      && effects[|effects| - 2..] == [Register(task.clientChannel, task.writeSelector, OpWrite, handler(task.requestData)), Wakeup(task.writeSelector)]
    // a wakeup never comes before a registration
    ensures forall i, j :: 0 <= i < |effects| && 0 <= j < |effects| && effects[i].Wakeup? && effects[j].Register? ==> j < i
    // no registration survives a failed `register`, and the channel is never closed or its key cancelled here
    ensures failure != NoFailure ==> forall e :: e in effects ==> !e.Register? && !e.Wakeup?
    ensures forall e :: e in effects ==> !e.Close? && !e.Cancel?
    // the handler sees the request text captured at construction, and only when the address was read
    ensures Handle(task.requestData) in effects <==> failure != AddressFails
  {
    match failure
    case AddressFails => []
    case RegisterFails => [Handle(task.requestData)]
    case NoFailure =>
      var effects := [Handle(task.requestData), Registration(task, handler), Wakeup(task.writeSelector)];
      assert effects[2] == Wakeup(task.writeSelector);
      effects
  }
}
