/** The three reactor stages composed for one request: the read reactor hands the
    drained request off, the worker task built from the handoff registers the client
    channel on the write selector the read reactor was paired with, and the write
    reactor answers with the reply attached to that registration. */
module Server {
  import opened Wrappers
  import opened Nio
  import opened ReadSelectors
  import opened SelectedService
  import opened WriteSelectors

  /** `new SelectedServiceHandler(requestData, writeSelector, clientChannel)`, as
      `ReadSelector.run` submits it. */
  function TaskOf(handoff: Effect): (task: SelectedServiceHandler)
    requires handoff.Handoff?
    ensures task.requestData == handoff.request && task.writeSelector == handoff.writeSelector
    ensures task.clientChannel == handoff.channel
  {
    SelectedServiceHandler(handoff.request, handoff.writeSelector, handoff.channel)
  }

  /** The key a registration gives once its channel is ready for writing. */
  function WritableKey(id: nat, registration: Effect): (key: Key)
    requires registration.Register?
    ensures key.channel == registration.channel && key.attachment == registration.attachment
    ensures key.valid && key.writable
  {
    Key(id, registration.channel, true, false, false, true, registration.attachment)
  }

  /** For the j-th request a read pass hands off: the worker task registers the same
      channel on the paired write selector with the handler's reply attached, and the
      write reactor then writes that reply (or "null" for a null reply) to the channel in
      one call, unless the reply is empty, and in every case cancels the key and closes
      the channel. */
  lemma ReplyReachesClient(keys: seq<Key>, results: map<Channel, seq<ReadResult>>, writeSelector: Selector,
                           handler: Handler, j: nat, writeKeyId: nat)
    requires ChannelsFit(results) && j < |HandedOff(keys, results)|
    ensures var key := HandedOff(keys, results)[j];
      var request := Request(results, key);
      var effects := ReadKeys(keys, results, writeSelector).effects;
      && request.Some?
      && |effects| == 3 * |HandedOff(keys, results)|
      && effects[3 * j] == Handoff(request.value, writeSelector, key.channel)
      && var service := Run(TaskOf(effects[3 * j]), handler, NoFailure);
         var registration := service[|service| - 2];
         && registration == Register(key.channel, writeSelector, OpWrite, handler(request.value))
         && var written := KeyEffects(WritableKey(writeKeyId, registration), false);
            && (handler(request.value) != Some([]) ==>
                  written[0] == Write(key.channel, if handler(request.value).Some? then handler(request.value).value else NULL_TEXT))
            && (handler(request.value) == Some([]) ==> forall e :: e in written ==> !e.Write?)
            && written[|written| - 2..] == [Cancel(writeKeyId), Close(key.channel)]
  {
    var handed := HandedOff(keys, results);
    ReadKeysHandOffThenCancel(keys, results, writeSelector);
    var key := handed[j];
    var effects := ReadKeys(keys, results, writeSelector).effects;
    assert effects[3 * j] == effects[3 * j .. 3 * j + 3][0];
    var service := Run(TaskOf(effects[3 * j]), handler, NoFailure);
    var registration := service[|service| - 2];
    var writable := WritableKey(writeKeyId, registration);
    KeyEndsCancelledAndClosed(writable, false);
    WriteOnlyWhenGuardHolds(writable, false);
    OnlyEmptyAttachmentIsEmpty(writable);
  }
}
