/**
 * The values the core exchanges: a bus message (msg.rs, whose byte layout is
 * not part of this model) and a registered module (module.rs, likewise).
 */
module Messages {

  /** The addressing scheme of a message. Dispatch distinguishes only
      `Broadcast` and `Id`; every other scheme of the wire format (by type,
      by group) is `Other`, carrying the scheme's number. */
  datatype TargetMode = Broadcast | Id | Other(mode: nat)

  /** A bus message: header fields and payload. `command` is passed through
      opaquely to the callbacks. */
  datatype Message = Message(
    targetMode: TargetMode,
    target: bv16,
    source: bv16,
    command: nat,
    data: seq<bv8>)

  /** The category of a module; `Sniffer` receives every `Id`-addressed message. */
  datatype ModuleType = Sniffer | Kind(code: nat)

  /** A registered module. Its callback is identified by the module's index in
      the registry, so the module value itself only holds the addressing data. */
  datatype Module = Module(alias: string, modType: ModuleType, id: bv16)

  /** One callback invocation: the module at registry index `index` was
      called with (a copy of) `msg`. */
  datatype Delivery = Delivery(index: nat, msg: Message)
}
