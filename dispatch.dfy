/**
 * Target selection of `Core::receive`: which registered modules a completed
 * message is handed to, and in which order.
 */
module Dispatch {
  import opened Messages

  /** The selection rule for one module. */
  predicate Selects(m: Module, msg: Message) {
    match msg.targetMode
    case Broadcast => true
    case Id => m.id == msg.target || m.modType == Sniffer
    case Other(_) => false
  }

  /** `s` lists indices below `n`, strictly increasing: registry order, each
      index at most once. */
  ghost predicate InRegistryOrder(s: seq<nat>, n: nat) {
    && (forall k :: 0 <= k < |s| ==> s[k] < n)
    && (forall j, k :: 0 <= j < k < |s| ==> s[j] < s[k])
  }

  /** The registry indices of the modules whose callbacks are called, as the
      source's `filter(..).collect()` yields them. */
  function Targets(reg: seq<Module>, msg: Message): (r: seq<nat>)
    ensures InRegistryOrder(r, |reg|)
    ensures forall i :: 0 <= i < |reg| ==> (i in r <==> Selects(reg[i], msg))
  {
    if reg == [] then []
    else
      var n := |reg| - 1;
      Targets(reg[..n], msg) + (if Selects(reg[n], msg) then [n] else [])
  }

  /** The callback invocations for `targets`, each with its own copy of `msg`. */
  function Deliveries(targets: seq<nat>, msg: Message): seq<Delivery> {
    seq(|targets|, k requires 0 <= k < |targets| => Delivery(targets[k], msg))
  }

  /** The indices 0, 1, ..., n - 1. */
  function Indices(n: nat): seq<nat> {
    seq(n, k => k)
  }

  /** The tail of a strictly increasing sequence holds all elements but the first. */
  lemma TailElements(s: seq<nat>, n: nat, x: nat)
    requires InRegistryOrder(s, n) && s != []
    ensures x in s[1..] <==> x in s && x != s[0]
  {
    if x in s[1..] {
      var k :| 1 <= k < |s| && s[k] == x;
    }
    if x in s && x != s[0] {
      var k :| 0 <= k < |s| && s[k] == x;
      assert s[1..][k - 1] == x;
    }
  }

  /** Two strictly increasing sequences with the same elements are equal. */
  lemma {:induction false} SameOrderedElements(a: seq<nat>, b: seq<nat>, n: nat)
    requires InRegistryOrder(a, n) && InRegistryOrder(b, n)
    requires forall x :: x in a <==> x in b
    ensures a == b
  {
    if a == [] {
      assert forall k :: 0 <= k < |b| ==> b[k] in a;
    } else {
      assert b != [] by { assert a[0] in b; }
      assert a[0] == b[0] by {
        assert a[0] in b;
        assert b[0] in a;
      }
      forall x ensures x in a[1..] <==> x in b[1..] {
        TailElements(a, n, x);
        TailElements(b, n, x);
      }
      SameOrderedElements(a[1..], b[1..], n);
      assert a == [a[0]] + a[1..];
      assert b == [b[0]] + b[1..];
    }
  }

  /** The selection is unique: any list of registry indices in registry order
      that holds exactly the selected modules is `Targets`. So every selected
      module is called exactly once and in registry order. */
  lemma {:induction false} TargetsUnique(reg: seq<Module>, msg: Message, s: seq<nat>)
    requires InRegistryOrder(s, |reg|)
    requires forall i :: 0 <= i < |reg| ==> (i in s <==> Selects(reg[i], msg))
    ensures s == Targets(reg, msg)
  {
    var t := Targets(reg, msg);
    forall x ensures x in s <==> x in t {
      if x in s {
        var k :| 0 <= k < |s| && s[k] == x;
      }
      if x in t {
        var k :| 0 <= k < |t| && t[k] == x;
      }
    }
    SameOrderedElements(s, t, |reg|);
  }

  /** A broadcast calls every registered module once, in registry order. */
  lemma {:induction false} BroadcastTargetsAll(reg: seq<Module>, msg: Message)
    requires msg.targetMode == Broadcast
    ensures Targets(reg, msg) == Indices(|reg|)
  {
    var all := Indices(|reg|);
    forall i | 0 <= i < |reg| ensures i in all {
      assert all[i] == i;
    }
    TargetsUnique(reg, msg, all);
  }

  /** An `Id` message calls exactly the modules with the target id and the
      sniffers, in registry order. */
  lemma {:induction false} IdTargetsExactly(reg: seq<Module>, msg: Message, s: seq<nat>)
    requires msg.targetMode == Id
    requires InRegistryOrder(s, |reg|)
    requires forall i :: 0 <= i < |reg| ==>
      (i in s <==> reg[i].id == msg.target || reg[i].modType == Sniffer)
    ensures Targets(reg, msg) == s
  {
    TargetsUnique(reg, msg, s);
  }

  /** A module that is no sniffer and has another id never sees an `Id` message. */
  lemma NonTargetNeverCalled(reg: seq<Module>, msg: Message, j: nat)
    requires msg.targetMode == Id
    requires j < |reg| && reg[j].id != msg.target && reg[j].modType != Sniffer
    ensures forall d :: d in Deliveries(Targets(reg, msg), msg) ==> d.index != j
  {
  }

  /** Any other addressing scheme calls no module at all. */
  lemma {:induction false} OtherTargetsNone(reg: seq<Module>, msg: Message)
    requires msg.targetMode.Other?
    ensures Targets(reg, msg) == []
  {
    TargetsUnique(reg, msg, []);
  }

  /** The selection never looks at the source field, so stamping the source
      before the loopback does not change who is called. */
  lemma {:induction false} TargetsIgnoreSource(reg: seq<Module>, msg: Message, source: bv16)
    ensures Targets(reg, msg.(source := source)) == Targets(reg, msg)
  {
    var t := Targets(reg, msg);
    assert forall i :: 0 <= i < |reg| ==>
      (Selects(reg[i], msg.(source := source)) <==> Selects(reg[i], msg));
    TargetsUnique(reg, msg.(source := source), t);
  }

  /** Appending a module leaves the selection among the earlier modules as it
      was and adds the new index at the end when the new module is selected.
      This is one unfolding of `Targets`; `DeliveriesAfterCreate` uses it. */
  lemma {:induction false} TargetsAfterAppend(reg: seq<Module>, m: Module, msg: Message)
    ensures Targets(reg + [m], msg) ==
      Targets(reg, msg) + (if Selects(m, msg) then [|reg|] else [])
  {
    assert (reg + [m])[..|reg|] == reg;
  }

  /** After `create_module` appends `m`, a message is delivered to the earlier
      modules exactly as before, and to the new module (last) iff it is
      selected. */
  lemma {:induction false} DeliveriesAfterCreate(reg: seq<Module>, m: Module, msg: Message)
    ensures Deliveries(Targets(reg + [m], msg), msg) ==
      Deliveries(Targets(reg, msg), msg) + (if Selects(m, msg) then [Delivery(|reg|, msg)] else [])
  {
    TargetsAfterAppend(reg, m, msg);
    var t := Targets(reg, msg);
    var extra: seq<nat> := if Selects(m, msg) then [|reg|] else [];
    assert Deliveries(t + extra, msg) == Deliveries(t, msg) + Deliveries(extra, msg);
  }
}
