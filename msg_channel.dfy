/**
 * The one-slot message mailbox of collections/msg_channel.rs: a message is
 * handed from the reception callback to the main loop through a single
 * process-wide `Option<Message>`. The slot type holds at most one message.
 */
module MsgChannel {
  import opened Wrappers
  import opened Messages

  /** The sending handle; it has no state of its own. */
  datatype Tx = Tx
  /** The receiving handle; it has no state of its own. */
  datatype Rx = Rx

  /** `message_queue`: makes the two handles. As a function it can neither
      read nor write the slot, so a pending message survives it. */
  function MessageQueue(): (r: (Tx, Rx)) {
    (Tx, Rx)
  }

  /** The static `MSG`. */
  class Channel {
    var slot: Option<Message>

    /** Program start: `MSG` is `None`. */
    constructor ()
      ensures slot == None
    {
      slot := None;
    }

    /** `Tx::send`: the slot holds `msg`, whatever it held before. */
    method Send(msg: Message)
      modifies this
      ensures slot == Some(msg)
    {
      slot := Some(msg);
    }

    /** `Rx::recv`: returns a copy of what the slot held and leaves it empty;
        the slot is written only when it held a message. */
    method Recv() returns (r: Option<Message>)
      modifies this
      ensures r == old(slot)
      ensures slot == None
      ensures old(slot) == None ==> unchanged(this)
    {
      r := slot;
      if r.Some? {
        slot := None;
      }
    }
  }

  /** The slot after `sends` are sent one after the other, starting from `slot`. */
  function SlotAfterSends(slot: Option<Message>, sends: seq<Message>): (r: Option<Message>)
    decreases |sends|
  {
    if sends == [] then slot else SlotAfterSends(Some(sends[0]), sends[1..])
  }

  /** Sends overwrite: after any sequence of sends, the slot holds the last. */
  lemma {:induction false} LastSendWins(slot: Option<Message>, sends: seq<Message>, last: Message)
    ensures SlotAfterSends(slot, sends + [last]) == Some(last)
    decreases |sends|
  {
    if sends != [] {
      assert (sends + [last])[1..] == sends[1..] + [last];
      LastSendWins(Some(sends[0]), sends[1..], last);
    }
  }

  /** Test `read_empty`: an empty slot reads `None`, and stays empty. */
  method ReadEmpty() returns (first: Option<Message>, second: Option<Message>)
    ensures first == None && second == None
  {
    var ch := new Channel();
    first := ch.Recv();
    second := ch.Recv();
  }

  /** Test `send_and_read`: the message sent is read back once, then `None`. */
  method SendAndRead(msg: Message) returns (got: Option<Message>, again: Option<Message>)
    ensures got == Some(msg) && again == None
  {
    var ch := new Channel();
    ch.Send(msg);
    got := ch.Recv();
    again := ch.Recv();
  }

  /** Test `send_multiple`: after several sends the last one is read back,
      once. */
  method SendMultiple(sends: seq<Message>) returns (got: Option<Message>, again: Option<Message>)
    requires sends != []
    ensures got == Some(sends[|sends| - 1]) && again == None
  {
    var ch := new Channel();
    for k := 0 to |sends|
      invariant ch.slot == SlotAfterSends(None, sends[..k])
    {
      LastSendWins(None, sends[..k], sends[k]);
      assert sends[..k + 1] == sends[..k] + [sends[k]];
      ch.Send(sends[k]);
    }
    LastSendWins(None, sends[..|sends| - 1], sends[|sends| - 1]);
    assert sends[..|sends| - 1] + [sends[|sends| - 1]] == sends == sends[..|sends|];
    got := ch.Recv();
    again := ch.Recv();
  }

  /** Making the handles after a send does not lose the pending message. */
  method PendingSurvivesQueue(msg: Message) returns (got: Option<Message>)
    ensures got == Some(msg)
  {
    var ch := new Channel();
    ch.Send(msg);
    var handles := MessageQueue();
    got := ch.Recv();
  }
}
