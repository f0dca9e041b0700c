/** The network protocol and the pallet together: which order of the network stands
    behind a reward, and how often one order can be rewarded.

    The relay chain stands between the two. `Genuine` is what is assumed of it and of
    the inherents that report it: an inherent that settles is about this para; the
    accounts that stand for session owners order for it only through the protocol, and
    the events name the account that signed; and an order shows up in the events of one
    relay height. Anybody else may order for this para at any time. Where the slot of
    an order matters, `InTime` adds that it is included within the lifetime it asks
    for, and `ReadsChain` that collators read the para chain the pallet runs on. */
module EndToEnd {
  import opened BlockRuns
  import opened OnDemandPallet
  import opened RewardRuns
  import opened SetSizes
  import opened SlotArithmetic
  import opened Wrappers
  import P = OrderProtocol
  import S = OrderService

  /** The relay chain as far as the two sides meet through it: the orders submitted,
      the para they are for, the account each collator signs with, and the height at
      which the `k`-th order is included. */
  datatype Relay = Relay(orders: seq<P.Order>, paraId: ParaId, signer: nat -> Account, at: nat -> u32)

  /** Order `k` shows up in the events of `height`, as an order by `placer`. */
  predicate Included(relay: Relay, k: nat, height: u32, placer: Account) {
    k < |relay.orders| && relay.at(k) == height && relay.signer(relay.orders[k].node) == placer
  }

  /** The account is one of a session owner. */
  ghost predicate StandsForOwner(cfg: Config, ctx: Context, who: Account) {
    exists key :: key in ctx.keyOwner && cfg.validatorIdOf(who) == Some(ctx.keyOwner[key])
  }

  /** The inherent is about this para, and every order for it by a session owner's
      account was submitted through the protocol. */
  ghost predicate Genuine(cfg: Config, relay: Relay, d: InherentData, ctx: Context) {
    && d.paraId == relay.paraId
    && (d.proof.Proof? && d.proof.events.Some? ==>
          forall e :: e in d.proof.events.value && e.OnDemandOrderPlaced? && e.paraId == relay.paraId
                      && StandsForOwner(cfg, ctx, e.orderedBy) ==>
            exists k: nat :: Included(relay, k, d.relayHeight, e.orderedBy))
  }

  /** Orders are included within the lifetime they ask for. */
  ghost predicate InTime(relay: Relay) {
    forall k :: 0 <= k < |relay.orders| ==>
      InRequestedLifetime(relay.orders[k].head.height, relay.orders[k].head.view.width, relay.at(k))
  }

  // ------------------------------------------------------- the network's side

  /** One order per slot, each by a collator that holds the placer's key. */
  ghost predicate Orderly(nodes: seq<P.Node>, orders: seq<P.Order>) {
    && P.AtMostOnePerSlot(orders)
    && forall k :: 0 <= k < |orders| ==> PlacedByHolder(nodes, orders[k])
  }

  predicate PlacedByHolder(nodes: seq<P.Node>, o: P.Order) {
    o.node < |nodes| && P.PlacerOf(o.head).Found? && P.PlacerOf(o.head).key in nodes[o.node].keystore
  }

  lemma NetworkPlacesByHolder(net: P.Net, actions: seq<P.Action>, k: nat)
    requires P.Initial(net) && k < |P.Exec(net, actions).orders|
    ensures PlacedByHolder(net.nodes, P.Exec(net, actions).orders[k])
  {
    P.InvHolds(net, actions);
    var after := P.Exec(net, actions);
    assert P.Backed(after, after.orders[k]);
  }

  /** Every run over heads at which no two nodes clash leaves such orders. */
  lemma NetworkIsOrderly(net: P.Net, actions: seq<P.Action>, heads: iset<P.Head>)
    requires P.Initial(net) && P.NoClash(net.nodes, heads) && P.SeesOnly(actions, heads)
    ensures Orderly(net.nodes, P.Exec(net, actions).orders)
  {
    P.NoClashIsSafe(net, actions, heads);
    forall k | 0 <= k < |P.Exec(net, actions).orders|
      ensures PlacedByHolder(net.nodes, P.Exec(net, actions).orders[k])
    {
      NetworkPlacesByHolder(net, actions, k);
    }
  }

  /** The heads seen in a run. */
  ghost function Seen(actions: seq<P.Action>): (heads: iset<P.Head>) {
    iset k | 0 <= k < |actions| && actions[k].move.SeeHead? :: actions[k].move.seen
  }

  /** The network stays orderly through rotations, joins and leaves: it is enough that
      no key is in two keystores and that the heads seen of one slot name one placer. */
  lemma OrderlyThroughRotations(net: P.Net, actions: seq<P.Action>)
    requires P.Initial(net) && P.DisjointKeystores(net.nodes) && P.OnePlacerPerSlot(Seen(actions))
    ensures Orderly(net.nodes, P.Exec(net, actions).orders)
  {
    P.AgreementHasNoClash(net.nodes, Seen(actions));
    NetworkIsOrderly(net, actions, Seen(actions));
  }

  /** With one view, keeping every key in one keystore is enough. */
  lemma OneViewHasNoClash(nodes: seq<P.Node>, v: P.View)
    requires P.DisjointKeystores(nodes)
    ensures P.NoClash(nodes, P.UnderViews({v}))
  {
    P.AgreementHasNoClash(nodes, P.UnderViews({v}));
  }

  // --------------------------------------------------------- one reward, one order

  /** The view the pallet works with. */
  function PalletView(st: State): (v: P.View) { P.View(st.authorities, st.slotWidth) }

  /** Order `k` stands behind the settlement: included at its height, and signed by an
      account of the owner. */
  ghost predicate Backs(cfg: Config, relay: Relay, s: Settlement, k: nat) {
    && k < |relay.orders|
    && relay.at(k) == s.height
    && cfg.validatorIdOf(relay.signer(relay.orders[k].node)) == Some(s.owner)
  }

  /** ... and was placed for that very slot, by the collator that holds the scheduled
      key. */
  ghost predicate Answers(cfg: Config, nodes: seq<P.Node>, relay: Relay, s: Settlement, k: nat) {
    && Backs(cfg, relay, s, k)
    && P.Slot(relay.orders[k].head) == s.slot
    && P.PlacerOf(relay.orders[k].head) == Found(s.key)
    && relay.orders[k].node < |nodes| && s.key in nodes[relay.orders[k].node].keystore
  }

  /** Whoever else orders for the para: a settlement has an order of the network. */
  lemma RewardHasItsOrder(cfg: Config, st: State, step: Step, relay: Relay) returns (k: nat)
    requires StepSettles(cfg, st, step) && Genuine(cfg, relay, step.data.value, step.ctx)
    ensures Backs(cfg, relay, SettlementOf(cfg, st, step), k)
  {
    var d, owner := step.data.value, SettlementOf(cfg, st, step).owner;
    var price, placer :|
      OnDemandOrderPlaced(d.paraId, price, placer) in d.proof.events.value && cfg.validatorIdOf(placer) == Some(owner);
    var e := OnDemandOrderPlaced(d.paraId, price, placer);
    assert e in d.proof.events.value;
    assert StandsForOwner(cfg, step.ctx, e.orderedBy);
    k :| Included(relay, k, d.relayHeight, e.orderedBy);
  }

  /** That order was placed for the settled slot exactly if slots have the width they
      had for the collator; and under the pallet's own view it was placed by the holder
      of the scheduled key. */
  lemma BackingOrderAnswers(cfg: Config, st: State, step: Step, nodes: seq<P.Node>, relay: Relay, k: nat)
    requires StepSettles(cfg, st, step) && InTime(relay)
    requires Backs(cfg, relay, SettlementOf(cfg, st, step), k) && PlacedByHolder(nodes, relay.orders[k])
    ensures var s, head := SettlementOf(cfg, st, step), relay.orders[k].head;
            && (P.Slot(head) == s.slot <==> ShiftAmount(head.view.width) == ShiftAmount(st.slotWidth))
            && (head.view == PalletView(st) ==> Answers(cfg, nodes, relay, s, k))
  {
    var h, head := step.data.value.relayHeight, relay.orders[k].head;
    LifetimeIsExactlyTheSlot(head.height, head.view.width, h);
    SameSlotExactlyWhenSameShift(h, st.slotWidth, head.view.width);
  }

  // ----------------------------------------------------------------- whole runs

  /** Along the run, whatever settles rests on a genuine inherent. */
  ghost predicate GenuineRun(cfg: Config, st: State, steps: seq<Step>, relay: Relay) {
    forall n :: 0 <= n < |steps| && StepSettles(cfg, Run(cfg, st, steps[..n]), steps[n]) ==>
      Genuine(cfg, relay, steps[n].data.value, steps[n].ctx)
  }

  /** Where a settlement of a run took place. */
  lemma {:induction false} SettlementStep(cfg: Config, st: State, steps: seq<Step>, i: nat) returns (n: nat)
    requires i < |Settlements(cfg, st, steps)|
    ensures n < |steps| && StepSettles(cfg, Run(cfg, st, steps[..n]), steps[n])
    ensures Settlements(cfg, st, steps)[i] == SettlementOf(cfg, Run(cfg, st, steps[..n]), steps[n])
    decreases |steps|
  {
    var last := |steps| - 1;
    var front := steps[..last];
    if i < |Settlements(cfg, st, front)| {
      n := SettlementStep(cfg, st, front, i);
      assert front[..n] == steps[..n] && front[n] == steps[n];
    } else {
      n := last;
    }
  }

  /** Every settlement of every run has its order: for the settled slot exactly if it was
      placed under the width it is settled under, and by the scheduled key's holder if it
      was placed under the pallet's view of that moment. */
  lemma SettlementAnswered(cfg: Config, st: State, steps: seq<Step>, nodes: seq<P.Node>, relay: Relay, i: nat)
    returns (n: nat, k: nat)
    requires GenuineRun(cfg, st, steps, relay) && InTime(relay)
    requires forall o :: 0 <= o < |relay.orders| ==> PlacedByHolder(nodes, relay.orders[o])
    requires i < |Settlements(cfg, st, steps)|
    ensures n < |steps| && StepSettles(cfg, Run(cfg, st, steps[..n]), steps[n])
    ensures var s := Settlements(cfg, st, steps)[i];
            && s == SettlementOf(cfg, Run(cfg, st, steps[..n]), steps[n])
            && Backs(cfg, relay, s, k)
            && (P.Slot(relay.orders[k].head) == s.slot <==>
                ShiftAmount(relay.orders[k].head.view.width) == ShiftAmount(s.width))
            && (relay.orders[k].head.view == PalletView(Run(cfg, st, steps[..n])) ==> Answers(cfg, nodes, relay, s, k))
  {
    n := SettlementStep(cfg, st, steps, i);
    k := RewardHasItsOrder(cfg, Run(cfg, st, steps[..n]), steps[n], relay);
    BackingOrderAnswers(cfg, Run(cfg, st, steps[..n]), steps[n], nodes, relay, k);
  }

  ghost predicate HasOrder(cfg: Config, relay: Relay, s: Settlement) {
    exists k: nat :: Backs(cfg, relay, s, k)
  }

  ghost predicate AllBacked(cfg: Config, relay: Relay, ss: seq<Settlement>) {
    forall i :: 0 <= i < |ss| ==> HasOrder(cfg, relay, ss[i])
  }

  /** Every settlement of every run has an order behind it. */
  lemma SettlementsAreBacked(cfg: Config, st: State, steps: seq<Step>, relay: Relay)
    requires GenuineRun(cfg, st, steps, relay)
    ensures AllBacked(cfg, relay, Settlements(cfg, st, steps))
  {
    var ss := Settlements(cfg, st, steps);
    forall i | 0 <= i < |ss|
      ensures HasOrder(cfg, relay, ss[i])
    {
      var n := SettlementStep(cfg, st, steps, i);
      var k := RewardHasItsOrder(cfg, Run(cfg, st, steps[..n]), steps[n], relay);
    }
  }

  /** As long as slots do not get narrower, no order stands behind two settlements. */
  lemma OneSettlementPerOrder(cfg: Config, st: State, steps: seq<Step>, relay: Relay, i: nat, j: nat, k: nat)
    requires NeverNarrower(cfg, st, steps) && i < j < |Settlements(cfg, st, steps)|
    requires Backs(cfg, relay, Settlements(cfg, st, steps)[i], k)
    ensures !Backs(cfg, relay, Settlements(cfg, st, steps)[j], k)
  {
    HeightsRiseUnlessNarrowed(cfg, st, steps);
  }

  // ------------------------------------------------------------------- counting

  function SettledHeights(ss: seq<Settlement>): (heights: set<u32>) { set i | 0 <= i < |ss| :: ss[i].height }

  function IncludedHeights(at: nat -> u32, n: nat): (heights: set<u32>) { set k: nat | k < n :: at(k) }

  lemma {:induction false} SettledHeightsCount(ss: seq<Settlement>)
    requires HeightsRise(ss)
    ensures |SettledHeights(ss)| == |ss|
  {
    if ss != [] {
      var n := |ss| - 1;
      SettledHeightsCount(ss[..n]);
      assert SettledHeights(ss) == SettledHeights(ss[..n]) + {ss[n].height};
    }
  }

  lemma {:induction false} IncludedHeightsCount(at: nat -> u32, n: nat)
    ensures |IncludedHeights(at, n)| <= n
  {
    if n > 0 {
      IncludedHeightsCount(at, n - 1);
      assert IncludedHeights(at, n) == IncludedHeights(at, n - 1) + {at(n - 1)};
    }
  }

  /** Settlements at rising heights need an order each. */
  lemma RisingNeedOrders(cfg: Config, relay: Relay, ss: seq<Settlement>)
    requires AllBacked(cfg, relay, ss) && HeightsRise(ss)
    ensures |ss| <= |relay.orders|
  {
    forall h | h in SettledHeights(ss)
      ensures h in IncludedHeights(relay.at, |relay.orders|)
    {
      var i :| 0 <= i < |ss| && ss[i].height == h;
      assert HasOrder(cfg, relay, ss[i]);
      var k: nat :| Backs(cfg, relay, ss[i], k);
    }
    SettledHeightsCount(ss);
    IncludedHeightsCount(relay.at, |relay.orders|);
    SubsetSize(SettledHeights(ss), IncludedHeights(relay.at, |relay.orders|));
  }

  lemma BackedSplits(cfg: Config, relay: Relay, a: seq<Settlement>, b: seq<Settlement>)
    requires AllBacked(cfg, relay, a + b)
    ensures AllBacked(cfg, relay, a) && AllBacked(cfg, relay, b)
  {
    forall i | 0 <= i < |a|
      ensures HasOrder(cfg, relay, a[i])
    {
      assert (a + b)[i] == a[i];
    }
    forall i | 0 <= i < |b|
      ensures HasOrder(cfg, relay, b[i])
    {
      assert (a + b)[|a| + i] == b[i];
    }
  }

  /** Between two narrowings no order is settled twice. */
  lemma {:induction false} OncePerNarrowing(cfg: Config, st: State, steps: seq<Step>, relay: Relay)
    requires AllBacked(cfg, relay, Settlements(cfg, st, steps))
    ensures |Settlements(cfg, st, steps)| <= (1 + Narrowings(cfg, st, steps)) * |relay.orders|
    decreases |steps|
  {
    var ss := Settlements(cfg, st, steps);
    if NeverNarrower(cfg, st, steps) {
      HeightsRiseUnlessNarrowed(cfg, st, steps);
      RisingNeedOrders(cfg, relay, ss);
    } else {
      var n := SplitAtLastNarrowing(cfg, st, steps);
      var early := Settlements(cfg, st, steps[..n]);
      var now, rest := Run(cfg, st, steps[..n + 1]), steps[n + 1..];
      var late := Settlements(cfg, now, rest);
      BackedSplits(cfg, relay, early, late);
      OncePerNarrowing(cfg, st, steps[..n], relay);
      HeightsRiseUnlessNarrowed(cfg, now, rest);
      RisingNeedOrders(cfg, relay, late);
      MulDistributes(1 + Narrowings(cfg, st, steps[..n]), 1, |relay.orders|);
    }
  }

  /** On every run the pallet rewards at most as often as the network ordered, and once
      more that often for each time slots were made narrower. */
  lemma NoMoreRewardsThanOrders(cfg: Config, st: State, steps: seq<Step>, relay: Relay)
    requires GenuineRun(cfg, st, steps, relay)
    ensures Rewards(Run(cfg, st, steps).events) - Rewards(st.events) <= |Settlements(cfg, st, steps)|
            <= (1 + Narrowings(cfg, st, steps)) * |relay.orders|
  {
    SettlementsAreBacked(cfg, st, steps, relay);
    RewardsAreBounded(cfg, st, steps);
    OncePerNarrowing(cfg, st, steps, relay);
  }

  /** ... never more often, if slots never get narrower. */
  lemma NoMoreUnlessNarrowed(cfg: Config, st: State, steps: seq<Step>, relay: Relay)
    requires GenuineRun(cfg, st, steps, relay) && NeverNarrower(cfg, st, steps)
    ensures Rewards(Run(cfg, st, steps).events) - Rewards(st.events) <= |Settlements(cfg, st, steps)|
            <= |relay.orders|
  {
    SettlementsAreBacked(cfg, st, steps, relay);
    RewardsAreBounded(cfg, st, steps);
    HeightsRiseUnlessNarrowed(cfg, st, steps);
    RisingNeedOrders(cfg, relay, Settlements(cfg, st, steps));
  }

  // --------------------------------------------------------------- whole chains

  /** The width that the first `k` blocks left. */
  ghost function HeadWidth(cfg: Config, genesis: State, chain: seq<Block>, k: nat): (w: u32)
    requires k <= |chain|
  {
    ChainState(cfg, genesis, chain[..k]).slotWidth
  }

  /** What a collator reads at para head `k`: Aura's list and the width. */
  ghost function HeadView(cfg: Config, genesis: State, chain: seq<Block>, k: nat): (v: P.View)
    requires 0 < k <= |chain|
  {
    P.View(chain[k - 1].aura, HeadWidth(cfg, genesis, chain, k))
  }

  /** The head carries what the runtime answers at the para head it names. Nothing is
      said of Aura's list at genesis. */
  ghost predicate ReadsBlock(cfg: Config, genesis: State, chain: seq<Block>, h: P.Head) {
    && h.para <= |chain|
    && h.view.width == HeadWidth(cfg, genesis, chain, h.para)
    && (h.para > 0 ==> h.view == HeadView(cfg, genesis, chain, h.para))
  }

  /** Two para heads with the same authorities and width. */
  ghost predicate SameView(cfg: Config, genesis: State, chain: seq<Block>, a: nat, b: nat)
    requires a <= |chain| && b <= |chain|
  {
    0 < a && 0 < b && HeadView(cfg, genesis, chain, a) == HeadView(cfg, genesis, chain, b)
  }

  ghost predicate ReadsChain(cfg: Config, genesis: State, chain: seq<Block>, actions: seq<P.Action>) {
    forall h :: h in Seen(actions) ==> ReadsBlock(cfg, genesis, chain, h)
  }

  ghost predicate GenuineChain(cfg: Config, genesis: State, chain: seq<Block>, relay: Relay) {
    forall k, i :: 0 <= k < |chain| && 0 <= i < |chain[k].inherents| && InherentSettles(cfg, genesis, chain, k, i) ==>
      Genuine(cfg, relay, chain[k].inherents[i].data.value, chain[k].inherents[i].ctx)
  }

  /** A chain from genesis, a run of the network that reads it, and the relay chain
      between them. */
  ghost predicate World(cfg: Config, genesis: State, chain: seq<Block>, net: P.Net, actions: seq<P.Action>,
                        relay: Relay) {
    && genesis.authorities == [] && WellFormedChain(chain)
    && GenuineChain(cfg, genesis, chain, relay) && InTime(relay)
    && P.Initial(net) && P.ValidRun(net, actions) && ReadsChain(cfg, genesis, chain, actions)
    && relay.orders == P.Exec(net, actions).orders
  }

  /** The settlement of the `i`-th inherent of block `k`. */
  ghost function ChainSettlement(cfg: Config, genesis: State, chain: seq<Block>, k: nat, i: nat): (s: Settlement)
    requires k < |chain| && i < |chain[k].inherents| && InherentSettles(cfg, genesis, chain, k, i)
  {
    SettlementOf(cfg, StateAt(cfg, genesis, chain, k, i),
                 CreateOrder(Unsigned, chain[k].inherents[i].data, chain[k].inherents[i].ctx))
  }

  lemma OrdersReadChain(cfg: Config, genesis: State, chain: seq<Block>, net: P.Net, actions: seq<P.Action>, k: nat)
    requires P.Initial(net) && ReadsChain(cfg, genesis, chain, actions) && k < |P.Exec(net, actions).orders|
    ensures ReadsBlock(cfg, genesis, chain, P.Exec(net, actions).orders[k].head)
  {
    P.RunSees(net, actions, Seen(actions));
  }

  lemma PalletSeesTheHead(cfg: Config, genesis: State, chain: seq<Block>, k: nat, i: nat)
    requires genesis.authorities == [] && 0 < k < |chain| && i < |chain[k].inherents|
    ensures PalletView(StateAt(cfg, genesis, chain, k, i)) == HeadView(cfg, genesis, chain, k)
  {
    InherentSeesPreviousBlock(cfg, genesis, chain, k, i);
  }

  /** Every settlement of a chain has an order of the network. It was placed for the
      settled slot exactly if slots are as wide at the para head its collator read as at
      the head the settling block builds on. If the authorities are the same at both, it
      was placed by the holder of the scheduled key, and if besides the heads seen of a
      slot name one placer, it is the only order of its slot. */
  lemma ChainRewardHasItsOrder(cfg: Config, genesis: State, chain: seq<Block>, k: nat, i: nat,
                               net: P.Net, actions: seq<P.Action>, relay: Relay) returns (o: nat)
    requires World(cfg, genesis, chain, net, actions, relay)
    requires k < |chain| && i < |chain[k].inherents| && InherentSettles(cfg, genesis, chain, k, i)
    ensures k > 0 && Backs(cfg, relay, ChainSettlement(cfg, genesis, chain, k, i), o)
    ensures relay.orders[o].head.para <= |chain|
    ensures var s, head := ChainSettlement(cfg, genesis, chain, k, i), relay.orders[o].head;
            var read, now := HeadWidth(cfg, genesis, chain, head.para), HeadWidth(cfg, genesis, chain, k);
            && (P.Slot(head) == s.slot <==> ShiftAmount(read) == ShiftAmount(now))
            && (SameView(cfg, genesis, chain, head.para, k) ==>
                  && Answers(cfg, net.nodes, relay, s, o)
                  && (P.DisjointKeystores(net.nodes) && P.OnePlacerPerSlot(Seen(actions)) ==>
                        forall l :: 0 <= l < |relay.orders| && P.Slot(relay.orders[l].head) == s.slot ==> l == o))
  {
    RewardGoesToScheduledOwner(cfg, genesis, chain, k, i);
    PalletSeesTheHead(cfg, genesis, chain, k, i);
    var st := StateAt(cfg, genesis, chain, k, i);
    var step := CreateOrder(Unsigned, chain[k].inherents[i].data, chain[k].inherents[i].ctx);
    o := RewardHasItsOrder(cfg, st, step, relay);
    NetworkPlacesByHolder(net, actions, o);
    OrdersReadChain(cfg, genesis, chain, net, actions, o);
    BackingOrderAnswers(cfg, st, step, net.nodes, relay, o);
    if P.DisjointKeystores(net.nodes) && P.OnePlacerPerSlot(Seen(actions)) {
      OrderlyThroughRotations(net, actions);
      OnlyOrderOfItsSlot(relay.orders, o);
    }
  }

  lemma OnlyOrderOfItsSlot(orders: seq<P.Order>, o: nat)
    requires P.AtMostOnePerSlot(orders) && o < |orders|
    ensures forall l :: 0 <= l < |orders| && P.Slot(orders[l].head) == P.Slot(orders[o].head) ==> l == o
  {
    forall l | 0 <= l < |orders| && P.Slot(orders[l].head) == P.Slot(orders[o].head)
      ensures l == o
    {
      assert l < o || o < l || l == o;
    }
  }

  // -------------------------------------------- what the node asks of the pallet

  /** What the handler reads of the pallet when it asks at the head that left `st`. */
  predicate ReadsState(r: S.Readings, st: State) {
    && r.bulkMode == Some(st.bulkMode)
    && r.width == Some(st.slotWidth)
    && r.authorities == Some(st.authorities)
  }

  /** An order the handler places is one the pallet is ready to reward: bulk mode is off,
      and at every height the order may be included at, the pallet schedules a key of
      this collator. What is left to ask are the fees, a later slot than the previous
      one, and the proof. */
  lemma PlacedOrderIsRewardable(keystore: set<Key>, record: P.Record, height: u32, r: S.Readings,
                                cfg: Config, st: State, d: InherentData, ctx: Context)
    requires ReadsState(r, st) && S.Places(keystore, record, height, r)
    requires InRequestedLifetime(height, st.slotWidth, d.relayHeight)
    ensures st.bulkMode == false && st.authorities != [] && Scheduled(st, d.relayHeight) in keystore
    ensures Apply(cfg, st, CreateOrder(Unsigned, Some(d), ctx)) != st <==>
              && ExactFees(cfg.fees, ctx.usage) >= st.threshold
              && height / SlotLength(st.slotWidth) > st.previousSlot
              && Scheduled(st, d.relayHeight) in ctx.keyOwner
              && ShownOrderBy(cfg, d, ctx.keyOwner[Scheduled(st, d.relayHeight)])
  {
    LifetimeIsExactlyTheSlot(height, st.slotWidth, d.relayHeight);
    OrderChangesStateExactly(cfg, st, Unsigned, Some(d), ctx);
    NewerSlotIffHeight(st.previousSlot, d.relayHeight, st.slotWidth);
  }

  /** At a para head whose pallet is in bulk mode no collator orders, or touches its
      record. */
  lemma BulkModeStopsOrders(cfg: Config, genesis: State, chain: seq<Block>, net: P.Net, i: nat, height: u32,
                            hash: P.Hash, r: S.Readings)
    requires r.paraHead.Some? && r.paraHead.value <= |chain|
    requires ReadsState(r, ChainState(cfg, genesis, chain[..r.paraHead.value]))
    requires ChainState(cfg, genesis, chain[..r.paraHead.value]).bulkMode
    requires i < |net.nodes|
    requires net.nodes[i] == P.Node(net.nodes[i].keystore, net.nodes[i].record, P.Free, P.Idle, None)
    ensures var n := net.nodes[i];
            var after := P.Exec(net, S.ActionsOf(i, S.Course(n.keystore, n.record, height, hash, r)));
            after.orders == net.orders && |after.nodes| == |net.nodes| && after.nodes[i].record == n.record
  {
    var n := net.nodes[i];
    S.PlacesExactly(n.keystore, n.record, height, hash, r);
    S.HandlerInNetwork(net, i, height, hash, r);
  }

  lemma ChainIsGenuineRun(cfg: Config, genesis: State, chain: seq<Block>, relay: Relay)
    requires WellFormedChain(chain) && GenuineChain(cfg, genesis, chain, relay)
    ensures GenuineRun(cfg, genesis, ChainSteps(chain), relay)
  {
    var steps := ChainSteps(chain);
    forall n | 0 <= n < |steps| && StepSettles(cfg, Run(cfg, genesis, steps[..n]), steps[n])
      ensures Genuine(cfg, relay, steps[n].data.value, steps[n].ctx)
    {
      var k, i := EverySettlementIsAnInherent(cfg, genesis, chain, n);
      InherentAtPosition(cfg, genesis, chain, k, i);
    }
  }

  /** The chain holds no more new rewards than the network placed orders. */
  ghost predicate OrdersPayOnce(cfg: Config, genesis: State, chain: seq<Block>, relay: Relay) {
    Rewards(ChainState(cfg, genesis, chain).events) - Rewards(genesis.events) <= |relay.orders|
  }

  /** So it is on every chain, through every change of authorities, if the widths its
      admins set never get narrower. */
  lemma ChainNoMoreRewardsThanOrders(cfg: Config, genesis: State, chain: seq<Block>, relay: Relay)
    requires WellFormedChain(chain) && GenuineChain(cfg, genesis, chain, relay)
    requires NotNarrowing([genesis.slotWidth] + WidthsSet(ChainSteps(chain)))
    ensures OrdersPayOnce(cfg, genesis, chain, relay)
  {
    var steps := ChainSteps(chain);
    assert ChainState(cfg, genesis, chain) == Run(cfg, genesis, steps) by {
      ChainIsARun(cfg, genesis, chain);
    }
    assert NeverNarrower(cfg, genesis, steps) by {
      NeverNarrowerExactly(cfg, genesis, steps);
    }
    ChainIsGenuineRun(cfg, genesis, chain, relay);
    NoMoreUnlessNarrowed(cfg, genesis, steps, relay);
  }
}
