/** The message factory of the TypeScript engine: payload normalisation, the
    subscription-scoped acknowledgement id, the fixed fields, and the
    acknowledgement actions, of which only the negative ones do anything. */
module Messages {
  import opened Wrappers
  import opened Utf8
  import opened Decimal
  import opened JsValues
  import opened Utils
  import opened Subscriptions

  /** A buffer is kept, a string is encoded, anything else becomes an empty
      buffer. */
  function NormalizePayload(dataInput: DataInput): (data: seq<byte>)
    ensures dataInput.BufferData? ==> data == dataInput.bytes
    ensures dataInput.TextData? ==> Decode(data) == Some(dataInput.text)
    ensures dataInput.OtherData? ==> data == []
  {
    match dataInput
    case BufferData(bytes) => bytes
    case TextData(text) => DecodeEncode(text); Encode(text)
    case OtherData => Encode("")
  }

  /** The `attributes = {}` parameter default: only `undefined` is replaced. */
  function DefaultAttributes(attributes: Attributes): Attributes
  {
    if attributes == UndefinedAttributes then AttributeMap(map[]) else attributes
  }

  /** `${subscription.name}:${sequence}`. */
  function AckId(subscriptionName: string, sequence: nat): string {
    subscriptionName + ":" + NatToDecimal(sequence)
  }

  /** An acknowledgement id determines both its subscription name and its
      sequence number, even when the name itself contains `:`. So messages
      built from different counter values never share an ack id. */
  lemma AckIdInjective(name1: string, seq1: nat, name2: string, seq2: nat)
    requires AckId(name1, seq1) == AckId(name2, seq2)
    ensures name1 == name2 && seq1 == seq2
  {
    var x := AckId(name1, seq1);
    var d1, d2 := NatToDecimal(seq1), NatToDecimal(seq2);
    assert x == AckId(name2, seq2);
    assert x[|x| - |d1|..] == d1 && x[|x| - |d2|..] == d2;
    assert x[|x| - |d1| - 1] == ':' && x[|x| - |d2| - 1] == ':';
    // Renderings are all digits, so the `:` before the shorter one would
    // fall inside the longer one: both have the same length.
    assert |d1| == |d2|;
    NatToDecimalInjective(seq1, seq2);
    assert name1 == x[..|x| - |d1| - 1] == name2;
  }

  /** The message `createMessage` builds for counter value `sequence`. */
  function BuildMessage(id: string, subscription: Subscription, dataInput: DataInput,
                        attributes: Attributes, sequence: nat): Message
  {
    var data := NormalizePayload(dataInput);
    Message(
      ackId := AckId(subscription.name, sequence),
      id := id,
      data := data,
      attributes := DefaultAttributes(attributes),
      length := |data|,
      deliveryAttempt := 0,
      orderingKey := "",
      isExactlyOnceDelivery := false,
      subscription := subscription)
  }

  /** `createMessage`: draws the next counter value for the ack id. */
  method CreateMessage(id: string, subscription: Subscription, dataInput: DataInput,
                       attributes: Attributes, counter: SequenceCounter) returns (m: Message)
    modifies counter
    ensures counter.sequentialNumber == old(counter.sequentialNumber) + 1
    ensures m == BuildMessage(id, subscription, dataInput, attributes, counter.sequentialNumber)
    ensures m.ackId == subscription.name + ":" + NatToDecimal(counter.sequentialNumber)
    ensures m.id == id && m.subscription == subscription
    ensures m.data == NormalizePayload(dataInput) && m.length == |m.data|
    ensures m.attributes == DefaultAttributes(attributes)
    ensures m.deliveryAttempt == 0 && m.orderingKey == "" && !m.isExactlyOnceDelivery
  {
    // The string returned is the rendering `AckId` makes of the new counter value.
    var _ := counter.MakeSequentialNumberString();
    m := BuildMessage(id, subscription, dataInput, attributes, counter.sequentialNumber);
  }

  /** The acknowledgement methods of a message. */
  datatype MessageAction =
    | Ack
    | AckWithResponse
    | ModAck(deadline: int)
    | ModAckWithResponse(deadline: int)
    | Nack
    | NackWithResponse

  predicate IsNegative(action: MessageAction) {
    action.Nack? || action.NackWithResponse?
  }

  predicate HasResponse(action: MessageAction) {
    action.AckWithResponse? || action.ModAckWithResponse? || action.NackWithResponse?
  }

  /** Calling `action` on `message`: acknowledgements change nothing; a
      negative acknowledgement puts the same message back through its owning
      subscription's `_queueMessage`. The response variants resolve to
      `'SUCCESS'`. */
  method Settle(message: Message, action: MessageAction, random: RandomSource) returns (response: Option<string>)
    requires message.subscription.Valid()
    modifies message.subscription, random
    ensures message.subscription.Valid()
    ensures response == if HasResponse(action) then Some("SUCCESS") else None
    ensures IsNegative(action) ==>
              var s := message.subscription;
              s.listeners == old(s.listeners)
              && Received(s.listeners, old(s.messageQueue), old(s.deliveries), s.messageQueue, s.deliveries, [message])
    ensures !IsNegative(action) ==> unchanged(message.subscription) && unchanged(random)
  {
    if IsNegative(action) {
      message.subscription.QueueMessage(message, random);
    }
    response := if HasResponse(action) then Some("SUCCESS") else None;
  }
}
