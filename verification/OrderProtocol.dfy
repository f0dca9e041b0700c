/** The order-placement protocol of any number of collators as interleaved steps.

    Each collator has one `OrderRecord` behind a mutex. The relay-head task and the
    event task write it, the inherent builder reads it (services/order/src/lib.rs,
    template/node/src/service.rs). A step is what happens between two awaits. */
module OrderProtocol {
  import opened SlotArithmetic
  import opened Wrappers

  type Hash = nat

  datatype Record = Record(relayBlockHash: Option<Hash>, lastSlot: u32)

  /** What the runtime API answers at the para head: authorities and slot width. */
  datatype View = View(authorities: seq<Key>, width: u32)

  /** A best relay head, with the number of the para head that goes with it and what
      this collator reads there. */
  datatype Head = Head(height: u32, hash: Hash, para: nat, view: View)

  function Slot(h: Head): (slot: u32) { CurrentSlot(h.height, h.view.width) }

  function PlacerOf(h: Head): (p: Placer<Key>) { OrderPlacer(h.view.authorities, h.height, h.view.width) }

  /** Where the relay-head task stands. It holds the lock from `Checking` on. */
  datatype HeadTask =
    | Idle
    | Waiting(head: Head)
    | Checking(head: Head)
    | Submitting(head: Head)
    | Submitted(head: Head)   // the call returned Ok, the record is not written yet
    | Crashed

  datatype Holder = Free | ByHeadTask | ByEventTask | ByInherent

  /** `pendingEvent` is the block hash the event task holds the lock to write. */
  datatype Node = Node(keystore: set<Key>, record: Record, holder: Holder, task: HeadTask, pendingEvent: Option<Hash>)

  /** An order whose submission returned Ok. */
  datatype Order = Order(node: nat, head: Head)

  datatype Net = Net(nodes: seq<Node>, orders: seq<Order>)

  datatype Move =
    | SeeHead(seen: Head)     // all gates before the lock passed
    | TakeLock
    | StaleSlot               // order already placed for this slot
    | NotPlacer               // somebody else's turn
    | NoAuthorities           // remainder by zero: the task panics
    | GiveUp                  // authorities or price unreadable, or criterion unmet
    | StartSubmit
    | SubmitOk
    | SubmitErr
    | WriteRecord
    | EventLock(blockHash: Hash)
    | EventWrite
    | InherentLock
    | InherentRelease

  datatype Action = Action(node: nat, move: Move)

  predicate MayPlace(n: Node, h: Head) {
    Slot(h) > n.record.lastSlot && PlacerOf(h).Found? && PlacerOf(h).key in n.keystore
  }

  predicate Enabled(n: Node, m: Move) {
    match m
    case SeeHead(_) => n.task.Idle?
    case TakeLock => n.task.Waiting? && n.holder.Free?
    case StaleSlot => n.task.Checking? && Slot(n.task.head) <= n.record.lastSlot
    case NotPlacer =>
      n.task.Checking? && Slot(n.task.head) > n.record.lastSlot
      && PlacerOf(n.task.head).Found? && PlacerOf(n.task.head).key !in n.keystore
    case NoAuthorities =>
      n.task.Checking? && Slot(n.task.head) > n.record.lastSlot && PlacerOf(n.task.head).RemainderByZero?
    case GiveUp => n.task.Checking? && Slot(n.task.head) > n.record.lastSlot
    case StartSubmit => n.task.Checking? && MayPlace(n, n.task.head)
    case SubmitOk => n.task.Submitting?
    case SubmitErr => n.task.Submitting?
    case WriteRecord => n.task.Submitted?
    case EventLock(_) => n.holder.Free?
    case EventWrite => n.holder.ByEventTask? && n.pendingEvent.Some?
    case InherentLock => n.holder.Free?
    case InherentRelease => n.holder.ByInherent?
  }

  function After(n: Node, m: Move): (n': Node)
    requires Enabled(n, m)
  {
    match m
    case SeeHead(h) => n.(task := Waiting(h))
    case TakeLock => n.(task := Checking(n.task.head), holder := ByHeadTask)
    case StaleSlot => n.(task := Idle, holder := Free)
    case NotPlacer => n.(task := Idle, holder := Free)
    case NoAuthorities => n.(task := Crashed, holder := Free)
    case GiveUp => n.(task := Idle, holder := Free)
    case StartSubmit => n.(task := Submitting(n.task.head))
    case SubmitOk => n.(task := Submitted(n.task.head))
    case SubmitErr => n.(task := Idle, holder := Free)
    case WriteRecord =>
      n.(task := Idle, holder := Free, record := Record(Some(n.task.head.hash), Slot(n.task.head)))
    case EventLock(hash) => n.(holder := ByEventTask, pendingEvent := Some(hash))
    case EventWrite =>
      n.(holder := Free, pendingEvent := None, record := n.record.(relayBlockHash := n.pendingEvent))
    case InherentLock => n.(holder := ByInherent)
    case InherentRelease => n.(holder := Free)
  }

  predicate CanAct(net: Net, a: Action) {
    a.node < |net.nodes| && Enabled(net.nodes[a.node], a.move)
  }

  function Act(net: Net, a: Action): (net': Net)
    requires CanAct(net, a)
  {
    var n := net.nodes[a.node];
    Net(net.nodes[a.node := After(n, a.move)],
        if a.move.SubmitOk? then net.orders + [Order(a.node, n.task.head)] else net.orders)
  }

  predicate ValidRun(net: Net, actions: seq<Action>) {
    actions == []
    || (&& ValidRun(net, actions[..|actions| - 1])
        && CanAct(Exec(net, actions[..|actions| - 1]), actions[|actions| - 1]))
  }

  /** The network after a run; actions that are not possible are passed over. */
  function Exec(net: Net, actions: seq<Action>): (net': Net) {
    if actions == [] then net
    else
      var before, a := Exec(net, actions[..|actions| - 1]), actions[|actions| - 1];
      if CanAct(before, a) then Act(before, a) else before
  }

  const FRESH_RECORD := Record(None, 0)

  /** Nodes as started: an empty record, nothing running, nothing ordered. */
  predicate Initial(net: Net) {
    && net.orders == []
    && forall i :: 0 <= i < |net.nodes| ==>
         net.nodes[i] == Node(net.nodes[i].keystore, FRESH_RECORD, Free, Idle, None)
  }

  // ---------------------------------------------------------------- invariant

  predicate LockedByHead(t: HeadTask) { t.Checking? || t.Submitting? || t.Submitted? }

  predicate NodeInv(n: Node) {
    && (n.holder.ByHeadTask? <==> LockedByHead(n.task))
    && (n.holder.ByEventTask? <==> n.pendingEvent.Some?)
    && (n.task.Submitting? || n.task.Submitted? ==> MayPlace(n, n.task.head))
  }

  /** The latest slot this node has an order for, written to its record or not. */
  function Reached(n: Node): (slot: u32) {
    if n.task.Submitted? then Slot(n.task.head) else n.record.lastSlot
  }

  predicate Backed(net: Net, o: Order) {
    && o.node < |net.nodes|
    && PlacerOf(o.head).Found? && PlacerOf(o.head).key in net.nodes[o.node].keystore
    && 0 < Slot(o.head) <= Reached(net.nodes[o.node])
  }

  /** A node's orders have rising slots. */
  predicate RisingPerNode(orders: seq<Order>) {
    forall a, b :: 0 <= a < b < |orders| && orders[a].node == orders[b].node ==>
      Slot(orders[a].head) < Slot(orders[b].head)
  }

  /** What a node has reached comes from one of its orders. */
  predicate Earned(net: Net, i: nat)
    requires i < |net.nodes|
  {
    Reached(net.nodes[i]) == 0
    || exists a :: 0 <= a < |net.orders| && net.orders[a].node == i
                   && Slot(net.orders[a].head) == Reached(net.nodes[i])
  }

  predicate Inv(net: Net) {
    && (forall i :: 0 <= i < |net.nodes| ==> NodeInv(net.nodes[i]) && Earned(net, i))
    && (forall a :: 0 <= a < |net.orders| ==> Backed(net, net.orders[a]))
    && RisingPerNode(net.orders)
  }

  /** One node's step: the invariant, and what a successful submission does. */
  lemma MoveKeepsNodeInv(n: Node, m: Move)
    requires NodeInv(n) && Enabled(n, m)
    ensures NodeInv(After(n, m)) && After(n, m).keystore == n.keystore
    ensures !m.SubmitOk? ==> Reached(After(n, m)) == Reached(n)
    ensures m.SubmitOk? ==> MayPlace(n, n.task.head) && Reached(n) < Slot(n.task.head) == Reached(After(n, m))
  {
  }

  lemma ActKeepsBacked(net: Net, a: Action, k: nat)
    requires Inv(net) && CanAct(net, a) && k < |net.orders|
    ensures Backed(Act(net, a), net.orders[k])
  {
    MoveKeepsNodeInv(net.nodes[a.node], a.move);
    assert Backed(net, net.orders[k]);
  }

  lemma ActKeepsEarned(net: Net, a: Action, i: nat)
    requires Inv(net) && CanAct(net, a) && i < |net.nodes|
    ensures Earned(Act(net, a), i)
  {
    var net' := Act(net, a);
    MoveKeepsNodeInv(net.nodes[a.node], a.move);
    assert Earned(net, i);
    if i == a.node && a.move.SubmitOk? {
      assert net'.orders[|net.orders|].node == i;
    } else if Reached(net.nodes[i]) != 0 {
      var k :| 0 <= k < |net.orders| && net.orders[k].node == i && Slot(net.orders[k].head) == Reached(net.nodes[i]);
      assert net'.orders[k] == net.orders[k];
    }
  }

  lemma ActKeepsRising(net: Net, a: Action)
    requires Inv(net) && CanAct(net, a)
    ensures RisingPerNode(Act(net, a).orders)
  {
    MoveKeepsNodeInv(net.nodes[a.node], a.move);
    forall k | 0 <= k < |net.orders| && net.orders[k].node == a.node && a.move.SubmitOk?
      ensures Slot(net.orders[k].head) < Slot(net.nodes[a.node].task.head)
    {
      assert Backed(net, net.orders[k]);
    }
  }

  lemma ActKeepsInv(net: Net, a: Action)
    requires Inv(net) && CanAct(net, a)
    ensures Inv(Act(net, a))
  {
    var net' := Act(net, a);
    MoveKeepsNodeInv(net.nodes[a.node], a.move);
    forall i | 0 <= i < |net'.nodes| ensures NodeInv(net'.nodes[i]) && Earned(net', i) {
      ActKeepsEarned(net, a, i);
    }
    forall k | 0 <= k < |net'.orders| ensures Backed(net', net'.orders[k]) {
      if k < |net.orders| {
        ActKeepsBacked(net, a, k);
      }
    }
    ActKeepsRising(net, a);
  }

  lemma {:induction false} InvHolds(net: Net, actions: seq<Action>)
    requires Inv(net)
    ensures Inv(Exec(net, actions))
    ensures |Exec(net, actions).nodes| == |net.nodes|
    ensures forall i :: 0 <= i < |net.nodes| ==> Exec(net, actions).nodes[i].keystore == net.nodes[i].keystore
  {
    if actions != [] {
      var before, a := Exec(net, actions[..|actions| - 1]), actions[|actions| - 1];
      InvHolds(net, actions[..|actions| - 1]);
      if CanAct(before, a) {
        ActKeepsInv(before, a);
        MoveKeepsNodeInv(before.nodes[a.node], a.move);
      }
    }
  }

  // ------------------------------------------------------------------- safety

  predicate AtMostOnePerSlot(orders: seq<Order>) {
    forall a, b :: 0 <= a < b < |orders| ==> Slot(orders[a].head) != Slot(orders[b].head)
  }

  predicate DisjointKeystores(nodes: seq<Node>) {
    forall i, j :: 0 <= i < j < |nodes| ==> nodes[i].keystore !! nodes[j].keystore
  }

  /** With no assumption on what nodes see: two orders for one slot come from two
      nodes, and if no key is in two keystores these saw two different placers. */
  lemma DoubleOrderNeedsDisagreement(net: Net, actions: seq<Action>, a: nat, b: nat)
    requires Initial(net)
    requires a < b < |Exec(net, actions).orders|
    requires var o := Exec(net, actions).orders; Slot(o[a].head) == Slot(o[b].head)
    ensures var o := Exec(net, actions).orders;
            && o[a].node != o[b].node
            && (DisjointKeystores(net.nodes) ==> PlacerOf(o[a].head) != PlacerOf(o[b].head))
  {
    InvHolds(net, actions);
    var after := Exec(net, actions);
    assert Backed(after, after.orders[a]) && Backed(after, after.orders[b]);
    var i, j := after.orders[a].node, after.orders[b].node;
    assert i < j || j < i;
  }

  /** Every head seen in the run is one of these. */
  ghost predicate SeesOnly(actions: seq<Action>, heads: iset<Head>) {
    forall k :: 0 <= k < |actions| && actions[k].move.SeeHead? ==> actions[k].move.seen in heads
  }

  /** All heads, of any height, that carry one of these views. */
  ghost function UnderViews(views: set<View>): (heads: iset<Head>) { iset h: Head | h.view in views }

  ghost predicate TaskSees(t: HeadTask, heads: iset<Head>) {
    t.Idle? || t.Crashed? || t.head in heads
  }

  ghost predicate NetSees(net: Net, heads: iset<Head>) {
    && (forall i :: 0 <= i < |net.nodes| ==> TaskSees(net.nodes[i].task, heads))
    && (forall k :: 0 <= k < |net.orders| ==> net.orders[k].head in heads)
  }

  /** Orders are placed for heads that were seen. */
  lemma {:induction false} RunSees(net: Net, actions: seq<Action>, heads: iset<Head>)
    requires NetSees(net, heads) && SeesOnly(actions, heads)
    ensures NetSees(Exec(net, actions), heads)
  {
    if actions != [] {
      RunSees(net, actions[..|actions| - 1], heads);
      ActSees(Exec(net, actions[..|actions| - 1]), actions[|actions| - 1], heads);
    }
  }

  lemma ActSees(net: Net, a: Action, heads: iset<Head>)
    requires NetSees(net, heads)
    requires a.move.SeeHead? ==> a.move.seen in heads
    ensures CanAct(net, a) ==> NetSees(Act(net, a), heads)
  {
    if CanAct(net, a) {
      var n := net.nodes[a.node];
      assert TaskSees(n.task, heads);
      assert TaskSees(After(n, a.move).task, heads);
    }
  }

  /** Network-wide safety. All collators see one non-empty authority list and one
      width, and no key is in two keystores: then in every interleaving at most one
      order per slot goes through, submitted by the holder of `authorities[slot % n]`. */
  lemma OneOrderPerSlot(net: Net, actions: seq<Action>, v: View)
    requires Initial(net) && DisjointKeystores(net.nodes)
    requires v.authorities != [] && SeesOnly(actions, UnderViews({v}))
    ensures AtMostOnePerSlot(Exec(net, actions).orders)
    ensures forall k :: 0 <= k < |Exec(net, actions).orders| ==>
              var o := Exec(net, actions).orders[k];
              && o.node < |net.nodes|
              && Slot(o.head) == CurrentSlot(o.head.height, v.width)
              && v.authorities[Slot(o.head) % |v.authorities|] in net.nodes[o.node].keystore
  {
    InvHolds(net, actions);
    RunSees(net, actions, UnderViews({v}));
    var after := Exec(net, actions);
    forall k | 0 <= k < |after.orders|
      ensures var o := after.orders[k];
              && o.node < |net.nodes|
              && o.head.view == v
              && v.authorities[Slot(o.head) % |v.authorities|] in net.nodes[o.node].keystore
    {
      assert Backed(after, after.orders[k]);
    }
    forall a, b | 0 <= a < b < |after.orders|
      ensures Slot(after.orders[a].head) != Slot(after.orders[b].head)
    {
      if Slot(after.orders[a].head) == Slot(after.orders[b].head) {
        DoubleOrderNeedsDisagreement(net, actions, a, b);
      }
    }
  }

  // ------------------------------------------------ the exact safety condition

  /** Two nodes that both find themselves placer of one slot at these heads. */
  predicate Clash(nodes: seq<Node>, i: nat, g: Head, j: nat, h: Head) {
    && i < |nodes| && j < |nodes| && i != j
    && Slot(g) == Slot(h) > 0
    && PlacerOf(g).Found? && PlacerOf(g).key in nodes[i].keystore
    && PlacerOf(h).Found? && PlacerOf(h).key in nodes[j].keystore
  }

  ghost predicate NoClash(nodes: seq<Node>, heads: iset<Head>) {
    forall i: nat, g: Head, j: nat, h: Head :: g in heads && h in heads ==> !Clash(nodes, i, g, j, h)
  }

  /** Heads of one slot name one placer, whatever authorities and widths they carry. */
  ghost predicate OnePlacerPerSlot(heads: iset<Head>) {
    forall g, h :: g in heads && h in heads && Slot(g) == Slot(h) ==> PlacerOf(g) == PlacerOf(h)
  }

  /** The list may rotate, grow and shrink from slot to slot: as long as no slot sees
      two placers and no key is in two keystores, nobody clashes. */
  lemma AgreementHasNoClash(nodes: seq<Node>, heads: iset<Head>)
    requires DisjointKeystores(nodes) && OnePlacerPerSlot(heads)
    ensures NoClash(nodes, heads)
  {
    forall i: nat, g: Head, j: nat, h: Head | g in heads && h in heads
      ensures !Clash(nodes, i, g, j, h)
    {
      assert i < j || j < i || i == j;
    }
  }

  function Approach(i: nat, h: Head): (actions: seq<Action>) { [Action(i, SeeHead(h)), Action(i, TakeLock)] }

  function Submission(i: nat): (actions: seq<Action>) { [Action(i, StartSubmit), Action(i, SubmitOk)] }

  /** The whole course of one successful placement. */
  function Placement(i: nat, h: Head): (actions: seq<Action>) {
    Approach(i, h) + Submission(i)
  }

  lemma OneActionMore(net: Net, actions: seq<Action>, a: Action)
    requires ValidRun(net, actions) && CanAct(Exec(net, actions), a)
    ensures ValidRun(net, actions + [a]) && Exec(net, actions + [a]) == Act(Exec(net, actions), a)
  {
    assert (actions + [a])[..|actions|] == actions;
  }

  lemma {:induction false} RunsCompose(net: Net, a: seq<Action>, b: seq<Action>)
    requires ValidRun(net, a) && ValidRun(Exec(net, a), b)
    ensures ValidRun(net, a + b) && Exec(net, a + b) == Exec(Exec(net, a), b)
    decreases |b|
  {
    if b == [] {
      assert a + b == a;
    } else {
      RunsCompose(net, a, b[..|b| - 1]);
      assert (a + b)[..|a + b| - 1] == a + b[..|b| - 1];
    }
  }

  lemma TwoActions(net: Net, a: Action, b: Action)
    requires CanAct(net, a) && CanAct(Act(net, a), b)
    ensures ValidRun(net, [a, b]) && Exec(net, [a, b]) == Act(Act(net, a), b)
  {
    OneActionMore(net, [], a);
    assert [] + [a] == [a];
    OneActionMore(net, [a], b);
    assert [a] + [b] == [a, b];
  }

  lemma ApproachRuns(net: Net, i: nat, h: Head)
    requires i < |net.nodes| && net.nodes[i].task.Idle? && net.nodes[i].holder.Free?
    ensures ValidRun(net, Approach(i, h))
    ensures Exec(net, Approach(i, h))
            == Net(net.nodes[i := net.nodes[i].(task := Checking(h), holder := ByHeadTask)], net.orders)
  {
    TwoActions(net, Action(i, SeeHead(h)), Action(i, TakeLock));
  }

  lemma SubmissionRuns(net: Net, i: nat)
    requires i < |net.nodes| && net.nodes[i].task.Checking? && MayPlace(net.nodes[i], net.nodes[i].task.head)
    ensures ValidRun(net, Submission(i))
    ensures var h := net.nodes[i].task.head;
            Exec(net, Submission(i))
            == Net(net.nodes[i := net.nodes[i].(task := Submitted(h))], net.orders + [Order(i, h)])
  {
    TwoActions(net, Action(i, StartSubmit), Action(i, SubmitOk));
  }

  lemma PlacementRuns(net: Net, i: nat, h: Head)
    requires i < |net.nodes| && net.nodes[i].task.Idle? && net.nodes[i].holder.Free? && MayPlace(net.nodes[i], h)
    ensures ValidRun(net, Placement(i, h))
    ensures Exec(net, Placement(i, h))
            == Net(net.nodes[i := net.nodes[i].(task := Submitted(h), holder := ByHeadTask)],
                   net.orders + [Order(i, h)])
  {
    ApproachRuns(net, i, h);
    SubmissionRuns(Exec(net, Approach(i, h)), i);
    RunsCompose(net, Approach(i, h), Submission(i));
  }

  lemma TwoPlacements(net: Net, i: nat, g: Head, j: nat, h: Head)
    requires i < |net.nodes| && net.nodes[i].task.Idle? && net.nodes[i].holder.Free? && MayPlace(net.nodes[i], g)
    requires j < |net.nodes| && net.nodes[j].task.Idle? && net.nodes[j].holder.Free? && MayPlace(net.nodes[j], h)
    requires i != j
    ensures ValidRun(net, Placement(i, g) + Placement(j, h))
    ensures Exec(net, Placement(i, g) + Placement(j, h)).orders == net.orders + [Order(i, g)] + [Order(j, h)]
  {
    PlacementRuns(net, i, g);
    PlacementRuns(Exec(net, Placement(i, g)), j, h);
    RunsCompose(net, Placement(i, g), Placement(j, h));
  }

  /** Two nodes that clash can both place an order for the slot. */
  lemma ClashGivesTwoOrders(net: Net, i: nat, g: Head, j: nat, h: Head)
    requires Initial(net) && Clash(net.nodes, i, g, j, h)
    ensures var actions := Placement(i, g) + Placement(j, h);
            && ValidRun(net, actions)
            && SeesOnly(actions, iset{g, h})
            && Exec(net, actions).orders == [Order(i, g), Order(j, h)]
  {
    TwoPlacements(net, i, g, j, h);
  }

  ghost predicate AllRunsSafe(net: Net, heads: iset<Head>) {
    forall actions ::
      ValidRun(net, actions) && SeesOnly(actions, heads) ==> AtMostOnePerSlot(Exec(net, actions).orders)
  }

  /** Safety of all runs over a set of heads holds if and only if no two nodes can
      both be placer of one slot at those heads. With `UnderViews` this is safety under
      given authority lists and widths, at whatever heights. */
  lemma SafeExactlyWithoutClash(net: Net, heads: iset<Head>)
    requires Initial(net)
    ensures AllRunsSafe(net, heads) <==> NoClash(net.nodes, heads)
  {
    if NoClash(net.nodes, heads) {
      forall actions | ValidRun(net, actions) && SeesOnly(actions, heads)
        ensures AtMostOnePerSlot(Exec(net, actions).orders)
      {
        NoClashIsSafe(net, actions, heads);
      }
    } else {
      var i: nat, g: Head, j: nat, h: Head :| g in heads && h in heads && Clash(net.nodes, i, g, j, h);
      ClashIsUnsafe(net, heads, i, g, j, h);
    }
  }

  lemma ClashIsUnsafe(net: Net, heads: iset<Head>, i: nat, g: Head, j: nat, h: Head)
    requires Initial(net) && g in heads && h in heads && Clash(net.nodes, i, g, j, h)
    ensures !AllRunsSafe(net, heads)
  {
    ClashGivesTwoOrders(net, i, g, j, h);
    var actions := Placement(i, g) + Placement(j, h);
    var orders := Exec(net, actions).orders;
    assert SeesOnly(actions, heads);
    assert Slot(orders[0].head) == Slot(orders[1].head);
    assert !AtMostOnePerSlot(orders);
  }

  lemma NoClashIsSafe(net: Net, actions: seq<Action>, heads: iset<Head>)
    requires Initial(net) && SeesOnly(actions, heads) && NoClash(net.nodes, heads)
    ensures AtMostOnePerSlot(Exec(net, actions).orders)
  {
    InvHolds(net, actions);
    RunSees(net, actions, heads);
    var after := Exec(net, actions);
    forall a, b | 0 <= a < b < |after.orders|
      ensures Slot(after.orders[a].head) != Slot(after.orders[b].head)
    {
      var o, p := after.orders[a], after.orders[b];
      assert Backed(after, o) && Backed(after, p);
      if o.node != p.node {
        assert !Clash(net.nodes, o.node, o.head, p.node, p.head);
      }
    }
  }

  // -------------------------------------------------------------- the record

  /** Per step, under every schedule: `last_slot` never falls and changes only when a
      successful submission is written down; a failed submission leaves the record
      alone; a block hash once recorded is never lost. */
  lemma RecordStepLaws(n: Node, m: Move)
    requires NodeInv(n) && Enabled(n, m)
    ensures var r, r' := n.record, After(n, m).record;
            && (m.WriteRecord? <==> r'.lastSlot != r.lastSlot)
            && r.lastSlot <= r'.lastSlot
            && (m.WriteRecord? ==> r' == Record(Some(n.task.head.hash), Slot(n.task.head)))
            && (!m.WriteRecord? && !m.EventWrite? ==> r' == r)
            && (r.relayBlockHash.Some? ==> r'.relayBlockHash.Some?)
  {
  }

  predicate RecordGrows(r: Record, r': Record) {
    r.lastSlot <= r'.lastSlot && (r.relayBlockHash.Some? ==> r'.relayBlockHash.Some?)
  }

  /** ... hence over whole runs. */
  lemma {:induction false} RecordOnlyGrows(net: Net, actions: seq<Action>, i: nat)
    requires Inv(net) && i < |net.nodes|
    ensures |Exec(net, actions).nodes| == |net.nodes|
    ensures RecordGrows(net.nodes[i].record, Exec(net, actions).nodes[i].record)
  {
    if actions != [] {
      var before, a := Exec(net, actions[..|actions| - 1]), actions[|actions| - 1];
      RecordOnlyGrows(net, actions[..|actions| - 1], i);
      InvHolds(net, actions[..|actions| - 1]);
      if CanAct(before, a) {
        RecordStepLaws(before.nodes[a.node], a.move);
      }
    }
  }

  /** Whenever no write is pending, `last_slot` is exactly the slot of the node's
      latest order: it is above zero only because an order went through, and no order
      of the node has a later slot. */
  lemma LastSlotIsLatestOrder(net: Net, actions: seq<Action>, i: nat)
    requires Initial(net) && i < |net.nodes|
    ensures var after := Exec(net, actions);
            && |after.nodes| == |net.nodes|
            && (!after.nodes[i].task.Submitted? ==>
                  && (forall k :: 0 <= k < |after.orders| && after.orders[k].node == i ==>
                        Slot(after.orders[k].head) <= after.nodes[i].record.lastSlot)
                  && (after.nodes[i].record.lastSlot > 0 ==>
                        exists k :: 0 <= k < |after.orders| && after.orders[k].node == i
                                    && Slot(after.orders[k].head) == after.nodes[i].record.lastSlot))
  {
    InvHolds(net, actions);
    var after := Exec(net, actions);
    assert Earned(after, i);
    forall k | 0 <= k < |after.orders| && after.orders[k].node == i
      ensures Slot(after.orders[k].head) <= Reached(after.nodes[i])
    {
      assert Backed(after, after.orders[k]);
    }
  }

  /** Slot 0 is never ordered: a fresh record already counts it as done. */
  lemma SlotZeroIsNeverOrdered(net: Net, actions: seq<Action>, k: nat)
    requires Initial(net) && k < |Exec(net, actions).orders|
    ensures Slot(Exec(net, actions).orders[k].head) > 0
  {
    InvHolds(net, actions);
    assert Backed(Exec(net, actions), Exec(net, actions).orders[k]);
  }

  // ------------------------------------------------------- what is in the record

  /** The event task's pass over a free record: it writes the hash and nothing else. */
  lemma EventPassWritesHash(n: Node, hash: Hash)
    requires NodeInv(n) && n.holder == Free
    ensures Enabled(n, EventLock(hash)) && Enabled(After(n, EventLock(hash)), EventWrite)
    ensures After(After(n, EventLock(hash)), EventWrite) == n.(record := Record(Some(hash), n.record.lastSlot))
  {
  }

  /** The inherent builder's pass: it changes nothing. */
  lemma InherentPassReads(n: Node)
    requires NodeInv(n) && n.holder == Free
    ensures Enabled(n, InherentLock) && Enabled(After(n, InherentLock), InherentRelease)
    ensures After(n, InherentLock).record == n.record && After(n, InherentLock).holder == ByInherent
    ensures After(After(n, InherentLock), InherentRelease) == n
  {
  }

  /** Head `h` is the one node `i` saw last in the run, when it was idle. */
  function LastSeen(net: Net, actions: seq<Action>, i: nat): (h: Option<Head>) {
    if actions == [] then None
    else
      var front, a := actions[..|actions| - 1], actions[|actions| - 1];
      if a.node == i && a.move.SeeHead? && CanAct(Exec(net, front), a) then Some(a.move.seen)
      else LastSeen(net, front, i)
  }

  /** The hash with which the event task of node `i` last took the lock. */
  function LastEvent(net: Net, actions: seq<Action>, i: nat): (hash: Option<Hash>) {
    if actions == [] then None
    else
      var front, a := actions[..|actions| - 1], actions[|actions| - 1];
      if a.node == i && a.move.EventLock? && CanAct(Exec(net, front), a) then Some(a.move.blockHash)
      else LastEvent(net, front, i)
  }

  /** The record as the moves of node `i` that took place tell it: an event write sets
      the hash the event task came with, a write after an order sets hash and slot of the
      head last seen, and nothing else is ever written. */
  function Recorded(net: Net, actions: seq<Action>, i: nat): (r: Record) {
    if actions == [] then Record(None, 0)
    else
      var front, a := actions[..|actions| - 1], actions[|actions| - 1];
      var r := Recorded(net, front, i);
      if a.node != i || !CanAct(Exec(net, front), a) then r
      else if a.move.EventWrite? then Record(LastEvent(net, front, i), r.lastSlot)
      else if a.move.WriteRecord? && LastSeen(net, front, i).Some? then
        var h := LastSeen(net, front, i).value;
        Record(Some(h.hash), CurrentSlot(h.height, h.view.width))
      else r
  }

  predicate HasHead(t: HeadTask) { !t.Idle? && !t.Crashed? }

  /** The task works with the head `seen`, and the event task came with `event`. */
  predicate WorksWith(n: Node, seen: Option<Head>, event: Option<Hash>) {
    && (HasHead(n.task) ==> seen == Some(n.task.head))
    && (n.holder.ByEventTask? ==> n.pendingEvent == event)
  }

  lemma MoveKeepsWork(n: Node, m: Move, seen: Option<Head>, event: Option<Hash>)
    requires NodeInv(n) && Enabled(n, m) && WorksWith(n, seen, event)
    ensures WorksWith(After(n, m), if m.SeeHead? then Some(m.seen) else seen,
                      if m.EventLock? then Some(m.blockHash) else event)
    ensures After(n, m).record
            == if m.EventWrite? then Record(event, n.record.lastSlot)
               else if m.WriteRecord? && seen.Some? then
                 Record(Some(seen.value.hash), CurrentSlot(seen.value.height, seen.value.view.width))
               else n.record
  {
  }

  /** After every interleaving the record of every node is the one so told, and every
      task works with the head, and the event hash, that came last. */
  lemma {:induction false} RecordIsWhatWasWritten(net: Net, actions: seq<Action>, i: nat)
    requires Initial(net) && i < |net.nodes|
    ensures |Exec(net, actions).nodes| == |net.nodes|
    ensures Exec(net, actions).nodes[i].record == Recorded(net, actions, i)
    ensures WorksWith(Exec(net, actions).nodes[i], LastSeen(net, actions, i), LastEvent(net, actions, i))
  {
    if actions != [] {
      var front, a := actions[..|actions| - 1], actions[|actions| - 1];
      RecordIsWhatWasWritten(net, front, i);
      InvHolds(net, front);
      var n := Exec(net, front).nodes[i];
      if a.node == i && CanAct(Exec(net, front), a) {
        MoveKeepsWork(n, a.move, LastSeen(net, front, i), LastEvent(net, front, i));
        assert Exec(net, actions).nodes[i] == After(n, a.move);
      } else {
        assert Exec(net, actions).nodes[i] == n;
      }
    }
  }

  // -------------------------------------------------------------- the lock

  /** Whose move it is. Only the head task moves without the lock, too. */
  function Actor(m: Move): (h: Holder) {
    match m
    case EventLock(_) => ByEventTask
    case EventWrite => ByEventTask
    case InherentLock => ByInherent
    case InherentRelease => ByInherent
    case _ => ByHeadTask
  }

  /** While one of the three holds the lock of node `i`, whatever all the others do on
      all nodes, the record stays as the holder found it, and the holder keeps the lock. */
  lemma {:induction false} LockIsExclusive(net: Net, actions: seq<Action>, i: nat)
    requires Inv(net) && i < |net.nodes| && net.nodes[i].holder != Free
    requires forall k :: 0 <= k < |actions| && actions[k].node == i ==>
               Actor(actions[k].move) != net.nodes[i].holder
    ensures |Exec(net, actions).nodes| == |net.nodes|
    ensures Exec(net, actions).nodes[i].record == net.nodes[i].record
    ensures Exec(net, actions).nodes[i].holder == net.nodes[i].holder
  {
    if actions != [] {
      var n := |actions| - 1;
      LockIsExclusive(net, actions[..n], i);
      InvHolds(net, actions[..n]);
      assert actions[n].node == i ==> Actor(actions[n].move) != net.nodes[i].holder;
    }
  }

  /** The move ends the handling of a head. */
  predicate EndsHandling(m: Move) {
    m.StaleSlot? || m.NotPlacer? || m.NoAuthorities? || m.GiveUp? || m.SubmitErr? || m.WriteRecord?
  }

  /** One head at a time: until the handling of a head ends, the head task of the node
      works with that head, whatever heads arrive and whatever the others do. */
  lemma {:induction false} HeadIsHandledToTheEnd(net: Net, actions: seq<Action>, i: nat)
    requires i < |net.nodes| && HasHead(net.nodes[i].task)
    requires forall k :: 0 <= k < |actions| && actions[k].node == i ==> !EndsHandling(actions[k].move)
    ensures |Exec(net, actions).nodes| == |net.nodes|
    ensures var t := Exec(net, actions).nodes[i].task; HasHead(t) && t.head == net.nodes[i].task.head
    ensures LastSeen(net, actions, i) == None
  {
    if actions != [] {
      var n := |actions| - 1;
      HeadIsHandledToTheEnd(net, actions[..n], i);
      assert actions[n].node == i ==> !EndsHandling(actions[n].move);
    }
  }

  /** A head task that holds the lock to check comes to one verdict, and one only:
      stale, no authorities, somebody else's turn, or its own turn. */
  lemma ChecksDecide(n: Node)
    requires n.task.Checking?
    ensures var h, r := n.task.head, n.record;
            var stale := h.height < (r.lastSlot + 1) * SlotLength(h.view.width);
            var list := h.view.authorities;
            && (Enabled(n, StaleSlot) <==> stale)
            && (Enabled(n, NoAuthorities) <==> !stale && list == [])
            && (Enabled(n, NotPlacer) <==>
                  !stale && list != [] && list[(h.height / SlotLength(h.view.width)) % |list|] !in n.keystore)
            && (Enabled(n, StartSubmit) <==>
                  !stale && list != [] && list[(h.height / SlotLength(h.view.width)) % |list|] in n.keystore)
            && (Enabled(n, GiveUp) <==> !stale)
  {
    NewerSlotIffHeight(n.record.lastSlot, n.task.head.height, n.task.head.view.width);
  }
}
