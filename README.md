# Robus core: registry, targeted dispatch, source stamping and the message mailbox

Robus is a field-bus stack for embedded modules sharing one half-duplex
serial line. This project models its protocol engine, `Core`, and proves
properties of that model:

- the **module registry**, which `Core::new` resets, `create_module` appends
  to, and `set_module_id` updates in place;
- **targeted dispatch**: a completed message is handed to the modules it
  targets. A broadcast goes to every module. An `Id` message goes to the
  modules with that bus id and to every `Sniffer`. Any other addressing
  scheme goes to no module. Callbacks are called in registry order, one
  copy each;
- **sending**: the sender's bus id is stamped into the message, the sender
  waits for the transmit lock (`TX_LOCK`) and takes it, and the message is
  looped back to the local receive path as the test build does;
- the **idle timeout**, which releases the lock and flushes the framer;
- the **one-slot mailbox** (`message_queue`, `Tx::send`, `Rx::recv`).

The source keeps `REGISTRY`, `TX_LOCK` and the framer's buffer in
process-wide statics. In the model they are fields of one `RobusCore.Core`
object. Its constructor stands for program start. `NewCore` stands for
`Core::new`. `get_registry` panics when `Core::new` has not run; in the
model that panic is the precondition `registry.Some?` on every operation
that reads the registry. An out-of-range index also panics in the source;
in the model it is a precondition too. Callbacks are opaque closures. The
model records each call as a `Delivery(index, msg)` in the `deliveries`
trace, where `index` is the module's registry index.

`Core.Valid()` is the bus discipline: a frame being assembled always holds
the line. `Receive`, `Send` and `Timeout` preserve it. As a result, a
`Send`, which waits for a free line, never starts in the middle of an
incoming frame.

Files: `wrappers.dfy` (Option), `messages.dfy` (message, module and
delivery values), `dispatch.dfy` (the selection rule and its lemmas),
`robus_core.dfy` (the `Core` class and the source's core tests as
scenarios), `msg_channel.dfy` (the mailbox and its tests as scenarios).

## Model

| member | source | states |
|---|---|---|
| Dispatch.Selects | src/robus_core.rs:94-101 | the rule for one module: Broadcast keeps every module, Id keeps a module whose id is the target or whose type is Sniffer, any other mode keeps none |
| Dispatch.Targets | src/robus_core.rs:94-102 | the selected indices are registry indices in strictly increasing order, and index i is selected iff module i matches: any module for Broadcast, id equal to the target or type Sniffer for Id, none otherwise |
| Dispatch.TargetsUnique | src/robus_core.rs:94-107 | any list of registry indices in registry order that holds exactly the matching modules equals the selection, so each matching module is called once and in registry order |
| Dispatch.BroadcastTargetsAll | src/robus_core.rs:94-95 | a broadcast selects every registered module: indices 0 to n-1, in order |
| Dispatch.IdTargetsExactly | src/robus_core.rs:96-100 | an Id message selects exactly the modules whose id is the target or whose type is Sniffer, in registry order |
| Dispatch.NonTargetNeverCalled | src/robus_core.rs:96-100 | for an Id message, no delivery names a module that is not a Sniffer and has a different id |
| Dispatch.OtherTargetsNone | src/robus_core.rs:101 | any target mode other than Broadcast and Id selects no module |
| Dispatch.TargetsIgnoreSource | src/robus_core.rs:94-102 | the selection does not depend on the source field, so stamping the source does not change which modules are called |
| Dispatch.TargetsAfterAppend | src/robus_core.rs:55-61 | after a module is appended, the earlier modules are selected exactly as before, and the new index is added at the end iff the new module matches |
| Dispatch.DeliveriesAfterCreate | src/robus_core.rs:55-61 | after a module is created, a message reaches the earlier modules exactly as before, and reaches the new module, last, iff it is selected |
| RobusCore.Core.constructor | src/robus_core.rs:15-17 | at program start the registry is absent, the lock is free, and nothing is buffered or delivered |
| RobusCore.Core.NewCore | src/robus_core.rs:36-39 | afterwards the registry is present and empty, whatever it held before; nothing else changes |
| RobusCore.Core.CreateModule | src/robus_core.rs:49-62 | requires an initialised registry; appends exactly one module, keeps the earlier modules, and returns the old length, which is the new module's index |
| RobusCore.Core.SetModuleId | src/robus_core.rs:72-76 | requires the index to be in range; only that module's id changes; the length, the other modules and that module's alias and type stay the same |
| RobusCore.Core.CallTargets | src/robus_core.rs:104-107 | appends one delivery per selected module to the trace, in registry order, each carrying the received message |
| RobusCore.Core.Receive | src/robus_core.rs:83-109 | always leaves the lock taken; an incomplete frame only buffers the byte; a completed frame empties the buffer and is delivered to exactly the selected modules |
| RobusCore.Core.Send | src/robus_core.rs:116-136 | requires a valid index and a free line; the sent message is the input with source set to the sender's bus id, whatever it was; the lock ends up taken; the buffer was empty at the start; the looped-back message is delivered to the modules the original addressing selects |
| RobusCore.Core.Timeout | src/physical.rs:287-300 | releases the lock and flushes the framer's buffer |
| RobusCore.FillSourceOnSend | src/robus_core.rs:177-189 | after the module's id is set to `from`, the sent message's source is `from`; all other fields are unchanged |
| RobusCore.IdLocalLoop | src/robus_core.rs:192-225 | with m1 holding the target id and m2, not a Sniffer, holding another id, exactly one callback runs: m1's, with the command and data sent |
| RobusCore.IdLocalLoopSnifferM2 | src/robus_core.rs:192-225 | in the same test, if m2 is a Sniffer, both m1 and m2 are called, once each, in that order, although the test's m2 callback fails whenever it runs |
| RobusCore.BroadcastBoth | src/robus_core.rs:227-264 | a broadcast calls m1 and then m2, once each, with the command and data sent and the sender's id as source |
| MsgChannel.MessageQueue | src/collections/msg_channel.rs:8-13 | makes the two stateless handles and neither reads nor writes the slot |
| MsgChannel.Channel.constructor | src/collections/msg_channel.rs:15 | the slot starts empty |
| MsgChannel.Channel.Send | src/collections/msg_channel.rs:19-23 | the slot holds the message sent, whatever it held before |
| MsgChannel.Channel.Recv | src/collections/msg_channel.rs:28-43 | returns what the slot held and leaves it empty; an empty slot is not written at all |
| MsgChannel.LastSendWins | src/collections/msg_channel.rs:19-23 | after any sequence of sends, the slot holds the last message sent |
| MsgChannel.ReadEmpty | src/collections/msg_channel.rs:56-62 | reading an empty slot gives None twice in a row |
| MsgChannel.SendAndRead | src/collections/msg_channel.rs:64-74 | a sent message is read back equal, and the next read gives None |
| MsgChannel.SendMultiple | src/collections/msg_channel.rs:76-92 | after several sends, the read gives the last message sent, and the next read gives None |
| MsgChannel.PendingSurvivesQueue | src/collections/msg_channel.rs:8-13 | making the handles neither reads nor writes the slot, so a pending message is still read back |

## Left out

- Concurrency: `TX_LOCK`, the framer and the registry are shared between interrupt and main context. The model has sequential transitions only. The volatile spin-wait of `send` becomes the precondition that the lock is free.
- RobusCore.Core.Send: the source takes the lock only on the ARM build and loops back only in the test build. The model does both in one operation. Instead of physical transmission, it dispatches the stamped message directly. This assumes that serialisation round-trips and that the framer completes exactly that message on its last byte.
- RobusCore.Core.Receive: the framer (recv_buf.rs) is not part of this model. Its answer for the byte is the parameter `framed`. `rxBuffer` stands for the bytes it holds. A completed frame is assumed to empty it.
- The wire format (msg.rs) is not part of this model. Target modes other than Broadcast and Id are `Other(mode)`, and the command is an opaque number.
- RobusCore.Core.CreateModule: module.rs is not part of this model. The id `Module::new` gives a new module is the parameter `initialId`.
- `get_registry`: its panic is not a behaviour of the model. It is the precondition `registry.Some?` on each operation that reads the registry. Out-of-range indices likewise become preconditions.
- `usize` and `Vec` capacity limits are not modelled: the registry is an unbounded sequence.
- The lifetime transmutes (`extend_lifetime` in robus_core.rs and physical.rs) and the callback bodies: callbacks are recorded as deliveries only.
- physical.rs: everything except `timeout`. This covers UART, GPIO, timer and NVIC register configuration, direction switching, the transmit-complete busy-wait, critical sections and the byte-duration timing.
- lib.rs `init` and examples/led.rs: glue and application wiring.
- RobusCore.IdLocalLoop: the test draws m2's type at random. The scenario requires it not to be `Sniffer`, since a sniffer m2 would be called as well (see "## Findings").

## Findings

| source | as written | input that shows it | evidently intended | confidence | as-written member | corrected member |
|---|---|---|---|---|---|---|
| src/robus_core.rs:203-216 | the test `id_local_loop` gives m2 a random module type, and m2's callback fails whenever it is called | m2's type is `Sniffer`: an Id message selects every sniffer (src/robus_core.rs:98), so m2's callback runs | m2's type is drawn from the non-sniffer types, so only m1 is called | low: depends on whether `rand_type` in module.rs, which is not part of this model, can return `Sniffer`; not executed | RobusCore.IdLocalLoopSnifferM2 | RobusCore.IdLocalLoop |
