/**
 * The protocol engine's state and entry points (`Core` in robus_core.rs).
 *
 * The source keeps its state in process-wide statics: the module registry
 * `REGISTRY: Option<Vec<Module>>`, the transmit lock `TX_LOCK`, and the
 * framer's reception buffer. Here they are the fields of one `Core` object;
 * its constructor is the program start (statics at their initial values) and
 * `NewCore` is `Core::new`, which may run more than once and then discards
 * the earlier registry.
 */
module RobusCore {
  import opened Wrappers
  import opened Messages
  import opened Dispatch

  class Core {
    /** `REGISTRY`: `None` until `Core::new` runs. */
    var registry: Option<seq<Module>>
    /** `TX_LOCK`: the line is taken, by a local send or by incoming bytes. */
    var txLock: bool
    /** The bytes the framer holds of a frame not yet complete. */
    var rxBuffer: seq<bv8>
    /** Every callback invocation so far, in the order they happened. */
    var deliveries: seq<Delivery>

    /** Bus discipline: a frame being assembled always holds the line, so a
        local send (which waits for a free line) never starts in the middle
        of an incoming frame. */
    ghost predicate Valid()
      reads this
    {
      rxBuffer != [] ==> txLock
    }

    /** Program start: `REGISTRY` is `None`, the line is free, nothing buffered. */
    constructor ()
      ensures Valid()
      ensures registry == None && !txLock && rxBuffer == [] && deliveries == []
    {
      registry := None;
      txLock := false;
      rxBuffer := [];
      deliveries := [];
    }

    /** `Core::new`: the registry becomes present and empty, whatever it held. */
    method NewCore()
      modifies this`registry
      ensures registry == Some([])
    {
      registry := Some([]);
    }

    /** `create_module`: appends a module and returns its local index. The
        id `Module::new` gives a fresh module is `initialId`. Panics (here:
        may not be called) before `Core::new`. */
    method CreateModule(alias: string, modType: ModuleType, initialId: bv16) returns (handle: nat)
      requires registry.Some?
      modifies this`registry
      ensures handle == |old(registry.value)|
      ensures registry == Some(old(registry.value) + [Module(alias, modType, initialId)])
      ensures registry.value[handle] == Module(alias, modType, initialId)
    {
      var reg := registry.value;
      reg := reg + [Module(alias, modType, initialId)];
      registry := Some(reg);
      handle := |reg| - 1;
    }

    /** `set_module_id`: overwrites the bus id of the module at `handle`; an
        index out of range panics, so it may not be passed. */
    method SetModuleId(handle: nat, busId: bv16)
      requires registry.Some? && handle < |registry.value|
      modifies this`registry
      ensures registry.Some? && |registry.value| == |old(registry.value)|
      ensures registry.value[handle] == old(registry.value)[handle].(id := busId)
      ensures forall j :: 0 <= j < |registry.value| && j != handle ==>
        registry.value[j] == old(registry.value)[j]
    {
      var reg := registry.value;
      registry := Some(reg[handle := reg[handle].(id := busId)]);
    }

    /** The `if let Some(msg)` branch of `receive`: the selected modules'
        callbacks are called in registry order, each with a copy of `msg`. */
    method CallTargets(msg: Message)
      requires registry.Some?
      modifies this`deliveries
      ensures deliveries == old(deliveries) + Deliveries(Targets(registry.value, msg), msg)
    {
      var matches := Targets(registry.value, msg);
      for k := 0 to |matches|
        invariant deliveries == old(deliveries) + Deliveries(matches[..k], msg)
      {
        deliveries := deliveries + [Delivery(matches[k], msg)];
      }
      assert matches[..|matches|] == matches;
    }

    /** `receive`: one byte from the bus. The line is taken; the byte goes to
        the framer, whose answer is `framed`. A completed frame empties the
        framer and is dispatched; the registry is consulted, and must exist,
        only then. */
    method Receive(byte: bv8, framed: Option<Message>)
      requires Valid()
      requires framed.Some? ==> registry.Some?
      modifies this`txLock, this`rxBuffer, this`deliveries
      ensures Valid() && txLock
      ensures framed.None? ==>
        rxBuffer == old(rxBuffer) + [byte] && deliveries == old(deliveries)
      ensures framed.Some? ==> rxBuffer == []
      ensures framed.Some? ==>
        deliveries == old(deliveries) + Deliveries(Targets(registry.value, framed.value), framed.value)
    {
      txLock := true;
      if framed.None? {
        rxBuffer := rxBuffer + [byte];
      } else {
        rxBuffer := [];
        CallTargets(framed.value);
      }
    }

    /** `send`: stamps the sender's bus id into the message, waits for a
        free line (here: requires it) and takes it. The bytes are looped
        back through `receive`; since serialisation round-trips, the framer
        completes exactly the stamped message on the last byte, which is then
        dispatched like any received message. Returns the stamped message,
        which the source writes back through `&mut`. */
    method Send(handle: nat, msg: Message) returns (sent: Message)
      requires Valid()
      requires registry.Some? && handle < |registry.value|
      requires !txLock
      modifies this`txLock, this`rxBuffer, this`deliveries
      ensures sent == msg.(source := registry.value[handle].id)
      ensures old(rxBuffer) == []
      ensures Valid() && txLock && rxBuffer == []
      ensures deliveries == old(deliveries) + Deliveries(Targets(registry.value, msg), sent)
    {
      var reg := registry.value;
      sent := msg.(source := reg[handle].id);
      txLock := true;
      rxBuffer := [];
      CallTargets(sent);
      TargetsIgnoreSource(reg, msg, sent.source);
    }

    /** The idle timer fired (`physical::timeout`): the line is released and
        whatever the framer held is thrown away. */
    method Timeout()
      modifies this`txLock, this`rxBuffer
      ensures Valid() && !txLock && rxBuffer == []
    {
      txLock := false;
      rxBuffer := [];
    }
  }

  /** Test `fill_source_on_send`: whatever source the caller put in the
      message, the sent message carries the sending module's bus id. */
  method FillSourceOnSend(msg: Message, modType: ModuleType, initialId: bv16, from: bv16)
    returns (sent: Message)
    ensures sent.source == from
    ensures sent.targetMode == msg.targetMode && sent.target == msg.target
    ensures sent.command == msg.command && sent.data == msg.data
  {
    var core := new Core();
    core.NewCore();
    var m1 := core.CreateModule("m1", modType, initialId);
    core.SetModuleId(m1, from);
    sent := core.Send(m1, msg);
  }

  /** Test `id_local_loop`: `m1` has the target id, `m2` another id; only
      `m1` is called, once, with the command and data sent. The test draws
      `m2`'s type at random, and a `Sniffer` would be called too, so `m2`
      is required not to be one. */
  method IdLocalLoop(msg: Message, type1: ModuleType, type2: ModuleType, initialId: bv16, diffId: bv16)
    returns (trace: seq<Delivery>)
    requires msg.targetMode == Id && diffId != msg.target && type2 != Sniffer
    ensures |trace| == 1 && trace[0].index == 0
    ensures trace[0].msg.command == msg.command && trace[0].msg.data == msg.data
  {
    var core := new Core();
    core.NewCore();
    var m1 := core.CreateModule("m1", type1, initialId);
    core.SetModuleId(m1, msg.target);
    var m2 := core.CreateModule("m2", type2, initialId);
    core.SetModuleId(m2, diffId);
    var sent := core.Send(m1, msg);
    ghost var reg := core.registry.value;
    IdTargetsExactly(reg, msg, [0]);
    trace := core.deliveries;
  }

  /** Test `id_local_loop` as written, when `m2` happens to be a `Sniffer`:
      `m2`'s callback, which the test makes fail, is called as well. */
  method IdLocalLoopSnifferM2(msg: Message, type1: ModuleType, initialId: bv16, diffId: bv16)
    returns (trace: seq<Delivery>)
    requires msg.targetMode == Id && diffId != msg.target
    ensures |trace| == 2 && trace[0].index == 0 && trace[1].index == 1
  {
    var core := new Core();
    core.NewCore();
    var m1 := core.CreateModule("m1", type1, initialId);
    core.SetModuleId(m1, msg.target);
    var m2 := core.CreateModule("m2", Sniffer, initialId);
    core.SetModuleId(m2, diffId);
    var sent := core.Send(m1, msg);
    IdTargetsExactly(core.registry.value, msg, [0, 1]);
    trace := core.deliveries;
  }

  /** Test `broadcast`: both modules are called exactly once, in registry
      order, with the command and data sent and the sender's id as source. */
  method BroadcastBoth(msg: Message, type1: ModuleType, type2: ModuleType, initialId: bv16, id1: bv16, id2: bv16)
    returns (trace: seq<Delivery>)
    requires msg.targetMode == Broadcast
    ensures |trace| == 2 && trace[0].index == 0 && trace[1].index == 1
    ensures forall k :: 0 <= k < 2 ==>
      trace[k].msg.command == msg.command && trace[k].msg.data == msg.data && trace[k].msg.source == id1
  {
    var core := new Core();
    core.NewCore();
    var m1 := core.CreateModule("m1", type1, initialId);
    core.SetModuleId(m1, id1);
    var m2 := core.CreateModule("m2", type2, initialId);
    core.SetModuleId(m2, id2);
    var sent := core.Send(m1, msg);
    BroadcastTargetsAll(core.registry.value, msg);
    trace := core.deliveries;
  }
}
