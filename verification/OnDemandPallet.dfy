/** The on-demand pallet: its storage, its calls and the reward it pays.

    pallets/on-demand/src/lib.rs, with the template runtime's choices for the
    configurable parts (template/runtime/src/configs/mod.rs). */
module OnDemandPallet {
  import opened FeeCriteria
  import opened SlotArithmetic
  import opened Wrappers

  type Account = nat
  type ValidatorId = nat
  type ParaId = nat

  // ------------------------------------------------------- relay-chain events

  datatype RelayEvent =
    | OnDemandOrderPlaced(paraId: ParaId, spotPrice: Balance, orderedBy: Account)
    | OtherEvent

  /** A relay storage proof: `Malformed` ones cannot be opened at all, and from the
      others the events entry may or may not be readable. */
  datatype RelayProof = Malformed | Proof(events: Option<seq<RelayEvent>>)

  /** `orders_placed`: price and placer of every order for the expected para; an
      unreadable entry counts as no events. */
  function OrdersPlaced(proof: RelayProof, expected: ParaId): (orders: seq<(Balance, Account)>)
    requires proof.Proof?
    ensures forall price: Balance, placer: Account :: (price, placer) in orders <==>
              proof.events.Some? && OnDemandOrderPlaced(expected, price, placer) in proof.events.value
    ensures proof.events.Some? ==> |orders| <= |proof.events.value|
  {
    if proof.events.None? then [] else SelectOrders(proof.events.value, expected)
  }

  function SelectOrders(events: seq<RelayEvent>, expected: ParaId): (orders: seq<(Balance, Account)>)
    ensures forall price: Balance, placer: Account ::
              (price, placer) in orders <==> OnDemandOrderPlaced(expected, price, placer) in events
    ensures |orders| <= |events|
  {
    if events == [] then []
    else
      var rest := SelectOrders(events[1..], expected);
      match events[0]
      case OnDemandOrderPlaced(paraId, price, placer) => if paraId == expected then [(price, placer)] + rest else rest
      case OtherEvent => rest
  }

  lemma {:induction false} SelectOrdersAppend(events: seq<RelayEvent>, e: RelayEvent, expected: ParaId)
    ensures SelectOrders(events + [e], expected) == SelectOrders(events, expected)
              + (if e.OnDemandOrderPlaced? && e.paraId == expected then [(e.spotPrice, e.orderedBy)] else [])
    decreases |events|
  {
    if events == [] {
      assert events + [e] == [e];
      assert SelectOrders([e][1..], expected) == [];
    } else {
      SelectOrdersAppend(events[1..], e, expected);
      assert (events + [e])[1..] == events[1..] + [e];
    }
  }

  /** Orders keep the order of the events, and each event counts once: one more event
      adds its order at the end if it is one for the expected para, else nothing. */
  lemma OrdersPlacedInOrder(events: seq<RelayEvent>, e: RelayEvent, expected: ParaId)
    ensures OrdersPlaced(Proof(Some(events + [e])), expected) == OrdersPlaced(Proof(Some(events)), expected)
              + (if e.OnDemandOrderPlaced? && e.paraId == expected then [(e.spotPrice, e.orderedBy)] else [])
    ensures OrdersPlaced(Proof(Some([])), expected) == OrdersPlaced(Proof(None), expected) == []
  {
    SelectOrdersAppend(events, e, expected);
  }

  // ------------------------------------------------------------- the currency

  datatype Ledger = Ledger(balances: map<Account, nat>, issuance: nat)

  function BalanceOf(l: Ledger, who: Account): nat {
    if who in l.balances then l.balances[who] else 0
  }

  /** `mint_into`: all or nothing. It fails when the issuance or the account would
      overflow, or when the account would stay below the existential deposit. */
  function Mint(l: Ledger, who: Account, amount: Balance, existentialDeposit: Balance): (r: Option<Ledger>)
    ensures r.Some? ==> && r.value.issuance == l.issuance + amount
                        && BalanceOf(r.value, who) == BalanceOf(l, who) + amount
                        && forall a :: a != who ==> BalanceOf(r.value, a) == BalanceOf(l, a)
    ensures r.None? <==> || l.issuance + amount > BALANCE_MAX
                         || !(existentialDeposit <= BalanceOf(l, who) + amount <= BALANCE_MAX)
  {
    var after := BalanceOf(l, who) + amount;
    if l.issuance + amount > BALANCE_MAX || after > BALANCE_MAX || after < existentialDeposit then None
    else Some(Ledger(l.balances[who := after], l.issuance + amount))
  }

  // ------------------------------------------------------ configuration, state

  datatype Config = Config(
    validatorIdOf: Account -> Option<ValidatorId>,
    toAccountId: ValidatorId -> Account,
    rewardAmount: Balance,
    existentialDeposit: Balance,
    fees: FeeSchedule)

  /** `FixedReward::reward_size`. */
  function RewardSize(cfg: Config): (b: Balance)
    ensures b == cfg.rewardAmount
  {
    SaturatingAdd(0, cfg.rewardAmount)
  }

  datatype Event =
    | SlotWidthSet(width: u32)
    | ThresholdParameterSet(parameter: Balance)
    | OrderPlacerRewarded(orderPlacer: Account, reward: Balance)
    | BulkModeSet(bulkMode: bool)

  datatype State = State(
    authorities: seq<Key>,
    slotWidth: u32,
    threshold: Balance,
    bulkMode: bool,
    previousSlot: nat,
    ledger: Ledger,
    events: seq<Event>)

  /** Only the threshold and the mode are configured at genesis; every other item
      of the pallet starts at its default. */
  function Genesis(threshold: Balance, bulkMode: bool, ledger: Ledger): (st: State) {
    State([], 0, threshold, bulkMode, 0, ledger, [])
  }

  datatype Origin = Unsigned | Root | Admin | Signed(who: Account)

  predicate IsAdmin(o: Origin) { o.Root? || o.Admin? }

  datatype InherentData = InherentData(proof: RelayProof, relayHeight: u32, paraId: ParaId)

  /** What `create_order` reads from other pallets: session key owners, and the
      usage figures of the block. */
  datatype Context = Context(keyOwner: map<Key, ValidatorId>, usage: BlockUsage)

  /** `Panicked` stands for an `expect` that fires: the block cannot be executed. */
  datatype DispatchResult = Done | BadOrigin | FailedToGetOrderPlacerAccount | Panicked

  // ------------------------------------------------- what an order must satisfy

  function SlotAt(st: State, height: u32): (slot: nat) { CurrentSlot(height, st.slotWidth) }

  /** The authority whose turn the slot of `height` is. */
  function Scheduled(st: State, height: u32): (key: Key)
    requires st.authorities != []
  {
    st.authorities[SlotAt(st, height) % |st.authorities|]
  }

  /** A reward is open: the mode, the authorities, the criterion and the slot allow it. */
  predicate Due(cfg: Config, st: State, d: InherentData, ctx: Context) {
    && !st.bulkMode
    && st.authorities != []
    && RuntimeCriterion(cfg.fees, ctx.usage, st.threshold)
    && SlotAt(st, d.relayHeight) > st.previousSlot
  }

  /** The proven events hold an order, for the para id the inherent names, by an
      account that stands for `owner`. */
  ghost predicate ProvenOrderBy(cfg: Config, d: InherentData, owner: ValidatorId) {
    && d.proof.Proof? && d.proof.events.Some?
    && exists price: Balance, placer: Account ::
         && OnDemandOrderPlaced(d.paraId, price, placer) in d.proof.events.value
         && cfg.validatorIdOf(placer) == Some(owner)
  }

  /** The one condition under which `create_order` changes anything. */
  ghost predicate Settles(cfg: Config, st: State, origin: Origin, data: Option<InherentData>, ctx: Context) {
    && origin == Unsigned
    && data.Some?
    && Due(cfg, st, data.value, ctx)
    && Scheduled(st, data.value.relayHeight) in ctx.keyOwner
    && ProvenOrderBy(cfg, data.value, ctx.keyOwner[Scheduled(st, data.value.relayHeight)])
  }

  /** The state after a settlement: the slot is used up whether or not the currency
      would mint, and the event is there exactly if it did. */
  function Paid(cfg: Config, st: State, owner: ValidatorId): (after: State)
    ensures after.(ledger := st.ledger, events := st.events) == st
    ensures after.events == st.events ==> after == st
    ensures after.events != st.events ==>
              && after.events == st.events + [OrderPlacerRewarded(cfg.toAccountId(owner), RewardSize(cfg))]
              && Mint(st.ledger, cfg.toAccountId(owner), RewardSize(cfg), cfg.existentialDeposit) == Some(after.ledger)
  {
    var who := cfg.toAccountId(owner);
    match Mint(st.ledger, who, RewardSize(cfg), cfg.existentialDeposit)
    case None => st
    case Some(ledger) => st.(ledger := ledger, events := st.events + [OrderPlacerRewarded(who, RewardSize(cfg))])
  }

  /** The reward is paid exactly if neither the issuance nor the account overflows and
      the account ends up with the existential deposit. */
  lemma PaidExactly(cfg: Config, st: State, owner: ValidatorId)
    ensures Paid(cfg, st, owner) != st <==>
              && st.ledger.issuance + cfg.rewardAmount <= BALANCE_MAX
              && cfg.existentialDeposit <= BalanceOf(st.ledger, cfg.toAccountId(owner)) + cfg.rewardAmount
              && BalanceOf(st.ledger, cfg.toAccountId(owner)) + cfg.rewardAmount <= BALANCE_MAX
  {
    var after := Paid(cfg, st, owner);
    assert after != st ==> |after.events| == |st.events| + 1;
  }

  // -------------------------------------------------------------- steps as values

  datatype Step =
    | CreateOrder(origin: Origin, data: Option<InherentData>, ctx: Context)
    | SetSlotWidth(origin: Origin, width: u32)
    | SetThresholdParameter(origin: Origin, parameter: Balance)
    | SetBulkMode(origin: Origin, bulkMode: bool)
    | OnFinalize(auraAuthorities: seq<Key>)
    | OtherPallets(ledger: Ledger)  // transfers, fees and burns elsewhere in the runtime

  ghost function Apply(cfg: Config, st: State, step: Step): (after: State)
  {
    match step
    case CreateOrder(origin, data, ctx) =>
      if Settles(cfg, st, origin, data, ctx) then
        var h := data.value.relayHeight;
        Paid(cfg, st, ctx.keyOwner[Scheduled(st, h)]).(previousSlot := SlotAt(st, h))
      else st
    case SetSlotWidth(origin, width) =>
      if IsAdmin(origin) then st.(slotWidth := width, events := st.events + [SlotWidthSet(width)]) else st
    case SetThresholdParameter(origin, p) =>
      if IsAdmin(origin) then st.(threshold := p, events := st.events + [ThresholdParameterSet(p)]) else st
    case SetBulkMode(origin, b) =>
      if IsAdmin(origin) then st.(bulkMode := b, events := st.events + [BulkModeSet(b)]) else st
    case OnFinalize(aura) => st.(authorities := aura)
    case OtherPallets(ledger) => st.(ledger := ledger)
  }

  // --------------------------------------------- when an order changes the state

  /** The fees of a block, without saturation. */
  function ExactFees(s: FeeSchedule, u: BlockUsage): (n: nat) {
    s.weightToFee(s.baseWeight)
    + (u.multiplier * s.weightToFee(u.weight)) / 1_000_000_000_000_000_000
    + s.lengthToFee(u.extrinsicsLength)
  }

  /** The cascade of early returns asks for exactly this: bulk mode is off, there are
      authorities, the exact fees reach the threshold, and the height is at or beyond the
      first height of the slot after `PreviousSlot`. */
  lemma DueExactly(cfg: Config, st: State, d: InherentData, ctx: Context)
    ensures Due(cfg, st, d, ctx) <==>
              && st.bulkMode == false
              && st.authorities != []
              && ExactFees(cfg.fees, ctx.usage) >= st.threshold
              && d.relayHeight >= (st.previousSlot + 1) * SlotLength(st.slotWidth)
  {
    CriterionIsExact(cfg.fees, ctx.usage, st.threshold);
    NewerSlotIffHeight(st.previousSlot, d.relayHeight, st.slotWidth);
  }

  /** `create_order` changes the state if and only if, besides, it is an inherent, the
      authority whose turn the height is has a session owner, and the proven events hold
      an order for the para by an account of that owner. It then uses up the slot of the
      height, and pays that owner or nobody. */
  lemma OrderChangesStateExactly(cfg: Config, st: State, origin: Origin, data: Option<InherentData>, ctx: Context)
    ensures var after := Apply(cfg, st, CreateOrder(origin, data, ctx));
            && (after != st <==>
                  && origin == Unsigned && data.Some?
                  && st.bulkMode == false
                  && st.authorities != []
                  && ExactFees(cfg.fees, ctx.usage) >= st.threshold
                  && data.value.relayHeight >= (st.previousSlot + 1) * SlotLength(st.slotWidth)
                  && var key := st.authorities[(data.value.relayHeight / SlotLength(st.slotWidth)) % |st.authorities|];
                     key in ctx.keyOwner && ShownOrderBy(cfg, data.value, ctx.keyOwner[key]))
            && (after != st ==>
                  var slot := data.value.relayHeight / SlotLength(st.slotWidth);
                  after == Paid(cfg, st, ctx.keyOwner[st.authorities[slot % |st.authorities|]]).(previousSlot := slot))
  {
    if data.Some? {
      DueExactly(cfg, st, data.value, ctx);
      if st.authorities != [] && Scheduled(st, data.value.relayHeight) in ctx.keyOwner {
        ShownIsProven(cfg, data.value, ctx.keyOwner[Scheduled(st, data.value.relayHeight)]);
      }
    }
  }

  /** Some event of the proof is an order for the para by an account of the owner. */
  ghost predicate ShownOrderBy(cfg: Config, d: InherentData, owner: ValidatorId) {
    d.proof.Proof? && d.proof.events.Some?
    && exists i :: 0 <= i < |d.proof.events.value| && IsOrderBy(cfg, d.proof.events.value[i], d.paraId, owner)
  }

  predicate IsOrderBy(cfg: Config, e: RelayEvent, paraId: ParaId, owner: ValidatorId) {
    e.OnDemandOrderPlaced? && e.paraId == paraId && cfg.validatorIdOf(e.orderedBy) == Some(owner)
  }

  lemma ShownIsProven(cfg: Config, d: InherentData, owner: ValidatorId)
    ensures ShownOrderBy(cfg, d, owner) <==> ProvenOrderBy(cfg, d, owner)
  {
    if ShownOrderBy(cfg, d, owner) {
      var i :| 0 <= i < |d.proof.events.value| && IsOrderBy(cfg, d.proof.events.value[i], d.paraId, owner);
      var e := d.proof.events.value[i];
      assert OnDemandOrderPlaced(d.paraId, e.spotPrice, e.orderedBy) in d.proof.events.value;
    }
    if ProvenOrderBy(cfg, d, owner) {
      var price, placer :|
        && OnDemandOrderPlaced(d.paraId, price, placer) in d.proof.events.value
        && cfg.validatorIdOf(placer) == Some(owner);
      var events := d.proof.events.value;
      var i :| 0 <= i < |events| && events[i] == OnDemandOrderPlaced(d.paraId, price, placer);
      assert IsOrderBy(cfg, events[i], d.paraId, owner);
    }
  }

  // -------------------------------------------------------------- the pallet itself

  class Pallet {
    const cfg: Config
    var authorities: seq<Key>
    var slotWidth: u32
    var thresholdParameter: Balance
    var bulkMode: bool
    var previousSlot: nat
    var ledger: Ledger
    var events: seq<Event>

    ghost function View(): (st: State)
      reads this
    {
      State(authorities, slotWidth, thresholdParameter, bulkMode, previousSlot, ledger, events)
    }

    constructor (cfg: Config, threshold: Balance, bulkMode: bool, ledger: Ledger)
      ensures this.cfg == cfg && View() == Genesis(threshold, bulkMode, ledger)
      ensures authorities == [] && slotWidth == 0 && thresholdParameter == threshold && this.bulkMode == bulkMode
      ensures previousSlot == 0 && this.ledger == ledger && events == []
    {
      this.cfg := cfg;
      authorities, slotWidth, thresholdParameter := [], 0, threshold;
      this.bulkMode := bulkMode;
      previousSlot, events := 0, [];
      this.ledger := ledger;
    }

    method CreateOrder(origin: Origin, data: Option<InherentData>, ctx: Context) returns (r: DispatchResult)
      modifies this
      ensures View() == Apply(cfg, old(View()), Step.CreateOrder(origin, data, ctx))
      ensures r == BadOrigin <==> origin != Unsigned
      ensures r == Panicked <==>
                && origin == Unsigned && data.Some? && old(Due(cfg, View(), data.value, ctx))
                && data.value.proof.Malformed?
      ensures r == FailedToGetOrderPlacerAccount <==>
                && origin == Unsigned && data.Some? && old(Due(cfg, View(), data.value, ctx)) && data.value.proof.Proof?
                && old(Scheduled(View(), data.value.relayHeight)) !in ctx.keyOwner
    {
      if origin != Unsigned { return BadOrigin; }
      if data.None? { return Done; }
      var d := data.value;
      if bulkMode { return Done; }
      if |authorities| == 0 { return Done; }
      if !RuntimeCriterion(cfg.fees, ctx.usage, thresholdParameter) { return Done; }
      var slot := CurrentSlot(d.relayHeight, slotWidth);
      if slot <= previousSlot { return Done; }
      if d.proof.Malformed? { return Panicked; }
      var orders := OrdersPlaced(d.proof, d.paraId);
      var orderPlacer := OrderPlacerAt(d.relayHeight);
      if orderPlacer.None? { return Done; }
      if orderPlacer.value !in ctx.keyOwner { return FailedToGetOrderPlacerAccount; }
      var owner := ctx.keyOwner[orderPlacer.value];
      if !exists i | 0 <= i < |orders| :: cfg.validatorIdOf(orders[i].1) == Some(owner) {
        return Done;
      }
      assert ProvenOrderBy(cfg, d, owner) by {
        var i :| 0 <= i < |orders| && cfg.validatorIdOf(orders[i].1) == Some(owner);
        assert (orders[i].0, orders[i].1) in orders;
      }
      Reward(owner);
      previousSlot := slot;
      return Done;
    }

    /** Never called with an empty list, or the remainder would panic. */
    method OrderPlacerAt(height: u32) returns (key: Option<Key>)
      requires authorities != []
      ensures key == Some(Scheduled(View(), height))
    {
      var slot := CurrentSlot(height, slotWidth);
      var index := slot % |authorities|;
      if index < |authorities| {
        return Some(authorities[index]);
      }
      return None;
    }

    /** Mint first; no event if the currency refuses. */
    method Reward(owner: ValidatorId)
      modifies this`ledger, this`events
      ensures View() == Paid(cfg, old(View()), owner)
    {
      var rewardee, size := cfg.toAccountId(owner), RewardSize(cfg);
      var minted := Mint(ledger, rewardee, size, cfg.existentialDeposit);
      if minted.None? {
        return;
      }
      ledger := minted.value;
      events := events + [OrderPlacerRewarded(rewardee, size)];
    }

    method SetSlotWidth(origin: Origin, width: u32) returns (r: DispatchResult)
      modifies this`slotWidth, this`events
      ensures View() == Apply(cfg, old(View()), Step.SetSlotWidth(origin, width))
      ensures r == if IsAdmin(origin) then Done else BadOrigin
    {
      if !IsAdmin(origin) { return BadOrigin; }
      slotWidth := width;
      events := events + [SlotWidthSet(width)];
      return Done;
    }

    method SetThresholdParameter(origin: Origin, parameter: Balance) returns (r: DispatchResult)
      modifies this`thresholdParameter, this`events
      ensures View() == Apply(cfg, old(View()), Step.SetThresholdParameter(origin, parameter))
      ensures r == if IsAdmin(origin) then Done else BadOrigin
    {
      if !IsAdmin(origin) { return BadOrigin; }
      thresholdParameter := parameter;
      events := events + [ThresholdParameterSet(parameter)];
      return Done;
    }

    method SetBulkMode(origin: Origin, bulk: bool) returns (r: DispatchResult)
      modifies this`bulkMode, this`events
      ensures View() == Apply(cfg, old(View()), Step.SetBulkMode(origin, bulk))
      ensures r == if IsAdmin(origin) then Done else BadOrigin
    {
      if !IsAdmin(origin) { return BadOrigin; }
      bulkMode := bulk;
      events := events + [BulkModeSet(bulk)];
      return Done;
    }

    method OnFinalize(auraAuthorities: seq<Key>)
      modifies this`authorities
      ensures View() == Apply(cfg, old(View()), Step.OnFinalize(auraAuthorities))
    {
      authorities := auraAuthorities;
    }
  }
}
