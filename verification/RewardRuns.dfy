/** What holds of the pallet over whole runs of calls: rewards are unique per slot,
    money is conserved, and slot-width changes do what they do. */
module RewardRuns {
  import opened FeeCriteria
  import opened OnDemandPallet
  import opened SlotArithmetic
  import opened Wrappers

  ghost function Run(cfg: Config, st: State, steps: seq<Step>): (after: State) {
    if steps == [] then st
    else Apply(cfg, Run(cfg, st, steps[..|steps| - 1]), steps[|steps| - 1])
  }

  /** A slot used up by `create_order`. `paid` says that the currency minted. */
  datatype Settlement = Settlement(slot: nat, height: u32, width: u32, key: Key, owner: ValidatorId, paid: bool)

  ghost predicate StepSettles(cfg: Config, st: State, step: Step) {
    step.CreateOrder? && Settles(cfg, st, step.origin, step.data, step.ctx)
  }

  ghost function SettlementOf(cfg: Config, st: State, step: Step): (s: Settlement)
    requires StepSettles(cfg, st, step)
  {
    var h := step.data.value.relayHeight;
    var key := Scheduled(st, h);
    var owner := step.ctx.keyOwner[key];
    Settlement(SlotAt(st, h), h, st.slotWidth, key, owner, Paid(cfg, st, owner) != st)
  }

  /** The settlements along a run, in order. */
  ghost function Settlements(cfg: Config, st: State, steps: seq<Step>): (ss: seq<Settlement>) {
    if steps == [] then []
    else
      var before, step := steps[..|steps| - 1], steps[|steps| - 1];
      var now := Run(cfg, st, before);
      Settlements(cfg, st, before) + SettledBy(cfg, now, step)
  }

  ghost function SettledBy(cfg: Config, st: State, step: Step): (ss: seq<Settlement>) {
    if StepSettles(cfg, st, step) then [SettlementOf(cfg, st, step)] else []
  }

  // ------------------------------------------------------------- uniqueness

  predicate SlotsRise(ss: seq<Settlement>) {
    forall i, j :: 0 <= i < j < |ss| ==> ss[i].slot < ss[j].slot
  }

  function LastSlot(ss: seq<Settlement>, start: nat): nat {
    if ss == [] then start else ss[|ss| - 1].slot
  }

  /** Rising slots above `low`, the last of which (or `low` itself) is `high`. */
  predicate RisesFromTo(ss: seq<Settlement>, low: nat, high: nat) {
    && low <= high
    && SlotsRise(ss)
    && LastSlot(ss, low) == high
    && forall i :: 0 <= i < |ss| ==> low < ss[i].slot <= high
  }

  lemma RiseByOne(ss: seq<Settlement>, s: Settlement, low: nat, high: nat)
    requires RisesFromTo(ss, low, high) && high < s.slot
    ensures RisesFromTo(ss + [s], low, s.slot)
  {
  }

  lemma StepMovesPreviousSlot(cfg: Config, st: State, step: Step)
    ensures StepSettles(cfg, st, step) ==>
              st.previousSlot < SettlementOf(cfg, st, step).slot == Apply(cfg, st, step).previousSlot
    ensures !StepSettles(cfg, st, step) ==> Apply(cfg, st, step).previousSlot == st.previousSlot
  {
  }

  /** On every run `PreviousSlot` never decreases, settled slots strictly rise, and
      `PreviousSlot` is always the slot of the last settlement. */
  lemma {:induction false} RewardsAreUnique(cfg: Config, st: State, steps: seq<Step>)
    ensures RisesFromTo(Settlements(cfg, st, steps), st.previousSlot, Run(cfg, st, steps).previousSlot)
  {
    if steps != [] {
      var before, step := steps[..|steps| - 1], steps[|steps| - 1];
      RewardsAreUnique(cfg, st, before);
      var now, ss := Run(cfg, st, before), Settlements(cfg, st, before);
      StepMovesPreviousSlot(cfg, now, step);
      if StepSettles(cfg, now, step) {
        RiseByOne(ss, SettlementOf(cfg, now, step), st.previousSlot, now.previousSlot);
      } else {
        assert ss + [] == ss;
      }
    }
  }

  lemma {:induction false} RunSplits(cfg: Config, st: State, a: seq<Step>, b: seq<Step>)
    ensures Run(cfg, st, a + b) == Run(cfg, Run(cfg, st, a), b)
    decreases |b|
  {
    if b == [] {
      assert a + b == a;
    } else {
      RunSplits(cfg, st, a, b[..|b| - 1]);
      assert (a + b)[..|a + b| - 1] == a + b[..|b| - 1];
    }
  }

  /** What every step of a run contributes, in order. */
  ghost function Collected(cfg: Config, st: State, steps: seq<Step>, part: (State, Step) -> seq<Settlement>):
    (ss: seq<Settlement>)
  {
    if steps == [] then []
    else
      var before, step := steps[..|steps| - 1], steps[|steps| - 1];
      Collected(cfg, st, before, part) + part(Run(cfg, st, before), step)
  }

  lemma {:induction false} CollectedSplits(cfg: Config, st: State, a: seq<Step>, b: seq<Step>,
                                           part: (State, Step) -> seq<Settlement>)
    ensures Collected(cfg, st, a + b, part)
            == Collected(cfg, st, a, part) + Collected(cfg, Run(cfg, st, a), b, part)
    decreases |b|
  {
    if b == [] {
      assert a + b == a;
    } else {
      CollectedSplits(cfg, st, a, b[..|b| - 1], part);
      RunSplits(cfg, st, a, b[..|b| - 1]);
      assert (a + b)[..|a + b| - 1] == a + b[..|b| - 1];
    }
  }

  lemma {:induction false} SettlementsAreCollected(cfg: Config, st: State, steps: seq<Step>,
                                                   part: (State, Step) -> seq<Settlement>)
    requires forall now, step :: part(now, step) == SettledBy(cfg, now, step)
    ensures Settlements(cfg, st, steps) == Collected(cfg, st, steps, part)
  {
    if steps != [] {
      SettlementsAreCollected(cfg, st, steps[..|steps| - 1], part);
    }
  }

  lemma SettlementsSplit(cfg: Config, st: State, a: seq<Step>, b: seq<Step>)
    ensures Settlements(cfg, st, a + b) == Settlements(cfg, st, a) + Settlements(cfg, Run(cfg, st, a), b)
  {
    var part := (now: State, step: Step) => SettledBy(cfg, now, step);
    CollectedSplits(cfg, st, a, b, part);
    SettlementsAreCollected(cfg, st, a + b, part);
    SettlementsAreCollected(cfg, st, a, part);
    SettlementsAreCollected(cfg, Run(cfg, st, a), b, part);
  }

  lemma PreviousSlotNeverFalls(cfg: Config, st: State, steps: seq<Step>, m: nat, n: nat)
    requires m <= n <= |steps|
    ensures Run(cfg, st, steps[..m]).previousSlot <= Run(cfg, st, steps[..n]).previousSlot
  {
    assert steps[..n] == steps[..m] + steps[m..n];
    RunSplits(cfg, st, steps[..m], steps[m..n]);
    RewardsAreUnique(cfg, Run(cfg, st, steps[..m]), steps[m..n]);
  }

  lemma RunOneMore(cfg: Config, st: State, steps: seq<Step>, m: nat)
    requires m < |steps|
    ensures Run(cfg, st, steps[..m + 1]) == Apply(cfg, Run(cfg, st, steps[..m]), steps[m])
  {
    assert steps[..m + 1][..m] == steps[..m];
  }

  /** Of two steps that settle, the later one settles a later slot. */
  lemma LaterStepLaterSlot(cfg: Config, st: State, steps: seq<Step>, m: nat, n: nat)
    requires m < n < |steps|
    requires StepSettles(cfg, Run(cfg, st, steps[..m]), steps[m])
    requires StepSettles(cfg, Run(cfg, st, steps[..n]), steps[n])
    ensures SettlementOf(cfg, Run(cfg, st, steps[..m]), steps[m]).slot
            < SettlementOf(cfg, Run(cfg, st, steps[..n]), steps[n]).slot
  {
    RunOneMore(cfg, st, steps, m);
    StepMovesPreviousSlot(cfg, Run(cfg, st, steps[..m]), steps[m]);
    PreviousSlotNeverFalls(cfg, st, steps, m + 1, n);
    StepMovesPreviousSlot(cfg, Run(cfg, st, steps[..n]), steps[n]);
  }

  /** Distinct numbers in an interval are no more than the interval is long. */
  lemma {:induction false} RisingFitsInterval(ss: seq<Settlement>, low: nat, high: nat)
    requires RisesFromTo(ss, low, high)
    ensures |ss| <= high - low
    decreases |ss|
  {
    if ss != [] {
      var n := |ss| - 1;
      var front := ss[..n];
      assert n > 0 ==> ss[n - 1].slot < ss[n].slot;
      RisingFitsInterval(front, low, LastSlot(front, low));
    }
  }

  // ----------------------------------------------------------- conservation

  predicate RewardTo(e: Event, who: Account) { e.OrderPlacerRewarded? && e.orderPlacer == who }

  /** How many reward events the log holds for `who`. */
  function RewardsTo(events: seq<Event>, who: Account): (n: nat) {
    if events == [] then 0
    else RewardsTo(events[..|events| - 1], who) + (if RewardTo(events[|events| - 1], who) then 1 else 0)
  }

  /** How many reward events the log holds. */
  function Rewards(events: seq<Event>): (n: nat) {
    if events == [] then 0
    else Rewards(events[..|events| - 1]) + (if events[|events| - 1].OrderPlacerRewarded? then 1 else 0)
  }

  lemma RewardsAfter(events: seq<Event>, e: Event, who: Account)
    ensures Rewards(events + [e]) == Rewards(events) + (if e.OrderPlacerRewarded? then 1 else 0)
    ensures RewardsTo(events + [e], who) == RewardsTo(events, who) + (if RewardTo(e, who) then 1 else 0)
  {
    assert (events + [e])[..|events|] == events;
  }

  function PaidCount(ss: seq<Settlement>): (n: nat)
    ensures n <= |ss|
  {
    if ss == [] then 0 else PaidCount(ss[..|ss| - 1]) + (if ss[|ss| - 1].paid then 1 else 0)
  }

  /** A change per step, added up along the run. */
  ghost function Sum(cfg: Config, st: State, steps: seq<Step>, change: (State, Step) -> int): (total: int) {
    if steps == [] then 0
    else
      var before, step := steps[..|steps| - 1], steps[|steps| - 1];
      Sum(cfg, st, before, change) + change(Run(cfg, st, before), step)
  }

  function OutsideStep(who: Account): (change: (State, Step) -> int) {
    (st: State, step: Step) =>
      if step.OtherPallets? then BalanceOf(step.ledger, who) - BalanceOf(st.ledger, who) else 0
  }

  function OutsideIssuanceStep(): (change: (State, Step) -> int) {
    (st: State, step: Step) => if step.OtherPallets? then step.ledger.issuance - st.ledger.issuance else 0
  }

  /** What the rest of the runtime did to an account along the run. */
  ghost function Outside(cfg: Config, st: State, steps: seq<Step>, who: Account): (delta: int) {
    Sum(cfg, st, steps, OutsideStep(who))
  }

  ghost function OutsideIssuance(cfg: Config, st: State, steps: seq<Step>): (delta: int) {
    Sum(cfg, st, steps, OutsideIssuanceStep())
  }

  /** A quantity that every step changes by so much is changed by the sum on every run. */
  lemma {:induction false} RunAddsUp(cfg: Config, st: State, steps: seq<Step>, quantity: State -> int,
                                     change: (State, Step) -> int)
    requires forall now, step :: quantity(Apply(cfg, now, step)) == quantity(now) + change(now, step)
    ensures quantity(Run(cfg, st, steps)) == quantity(st) + Sum(cfg, st, steps, change)
  {
    if steps != [] {
      RunAddsUp(cfg, st, steps[..|steps| - 1], quantity, change);
    }
  }

  /** Per step: money and reward events move together, and only through the pallet. */
  lemma StepConserves(cfg: Config, st: State, step: Step, who: Account)
    ensures var after := Apply(cfg, st, step);
            var settled := StepSettles(cfg, st, step) && SettlementOf(cfg, st, step).paid;
            && Rewards(after.events) == Rewards(st.events) + (if settled then 1 else 0)
            && RewardsTo(after.events, who) == RewardsTo(st.events, who)
                 + (if settled && cfg.toAccountId(SettlementOf(cfg, st, step).owner) == who then 1 else 0)
            && (!step.OtherPallets? ==>
                  && BalanceOf(after.ledger, who) == BalanceOf(st.ledger, who)
                       + (if settled && cfg.toAccountId(SettlementOf(cfg, st, step).owner) == who
                          then RewardSize(cfg) else 0)
                  && after.ledger.issuance == st.ledger.issuance + (if settled then RewardSize(cfg) else 0))
  {
    var after := Apply(cfg, st, step);
    if |after.events| == |st.events| + 1 {
      RewardsAfter(st.events, after.events[|st.events|], who);
    }
  }

  lemma OneMore(size: nat, n: nat)
    ensures size * (n + 1) == size * n + size
  {
  }

  /** What an account holds beyond its rewards. */
  function Beyond(cfg: Config, st: State, who: Account): (amount: int) {
    BalanceOf(st.ledger, who) - RewardSize(cfg) * RewardsTo(st.events, who)
  }

  /** The issuance beyond all rewards. */
  function IssuanceBeyond(cfg: Config, st: State): (amount: int) {
    st.ledger.issuance - RewardSize(cfg) * Rewards(st.events)
  }

  /** Both change only from outside. */
  lemma StepMoves(cfg: Config, st: State, step: Step, who: Account)
    ensures Beyond(cfg, Apply(cfg, st, step), who) == Beyond(cfg, st, who) + OutsideStep(who)(st, step)
    ensures IssuanceBeyond(cfg, Apply(cfg, st, step)) == IssuanceBeyond(cfg, st) + OutsideIssuanceStep()(st, step)
  {
    StepConserves(cfg, st, step, who);
    OneMore(RewardSize(cfg), RewardsTo(st.events, who));
    OneMore(RewardSize(cfg), Rewards(st.events));
  }

  lemma RunMoves(cfg: Config, st: State, steps: seq<Step>, who: Account)
    ensures Beyond(cfg, Run(cfg, st, steps), who) == Beyond(cfg, st, who) + Outside(cfg, st, steps, who)
    ensures IssuanceBeyond(cfg, Run(cfg, st, steps)) == IssuanceBeyond(cfg, st) + OutsideIssuance(cfg, st, steps)
  {
    forall now, step
      ensures Beyond(cfg, Apply(cfg, now, step), who) == Beyond(cfg, now, who) + OutsideStep(who)(now, step)
      ensures IssuanceBeyond(cfg, Apply(cfg, now, step)) == IssuanceBeyond(cfg, now) + OutsideIssuanceStep()(now, step)
    {
      StepMoves(cfg, now, step, who);
    }
    RunAddsUp(cfg, st, steps, (s: State) => Beyond(cfg, s, who), OutsideStep(who));
    RunAddsUp(cfg, st, steps, (s: State) => IssuanceBeyond(cfg, s), OutsideIssuanceStep());
  }

  lemma {:induction false} RewardsNeverFall(cfg: Config, st: State, steps: seq<Step>, who: Account)
    ensures RewardsTo(Run(cfg, st, steps).events, who) >= RewardsTo(st.events, who)
    ensures Rewards(Run(cfg, st, steps).events) >= Rewards(st.events)
  {
    if steps != [] {
      RewardsNeverFall(cfg, st, steps[..|steps| - 1], who);
      StepConserves(cfg, Run(cfg, st, steps[..|steps| - 1]), steps[|steps| - 1], who);
    }
  }

  lemma TakeRewards(size: int, before: int, m: int, after: int, n: int, outside: int)
    requires after - size * n == before - size * m + outside
    ensures after == before + outside + size * (n - m)
  {
    assert size * (n - m) == size * n - size * m;
  }

  lemma FromBeyond(cfg: Config, st: State, after: State, who: Account, outside: int)
    requires Beyond(cfg, after, who) == Beyond(cfg, st, who) + outside
    ensures BalanceOf(after.ledger, who) == BalanceOf(st.ledger, who) + outside
              + RewardSize(cfg) * (RewardsTo(after.events, who) - RewardsTo(st.events, who))
  {
    TakeRewards(RewardSize(cfg), BalanceOf(st.ledger, who), RewardsTo(st.events, who),
                BalanceOf(after.ledger, who), RewardsTo(after.events, who), outside);
  }

  lemma FromIssuanceBeyond(cfg: Config, st: State, after: State, outside: int)
    requires IssuanceBeyond(cfg, after) == IssuanceBeyond(cfg, st) + outside
    ensures after.ledger.issuance == st.ledger.issuance + outside
              + RewardSize(cfg) * (Rewards(after.events) - Rewards(st.events))
  {
    TakeRewards(RewardSize(cfg), st.ledger.issuance, Rewards(st.events),
                after.ledger.issuance, Rewards(after.events), outside);
  }

  /** Every account holds what it held, what others moved, and one reward per reward
      event naming it. */
  lemma MoneyIsConserved(cfg: Config, st: State, steps: seq<Step>, who: Account)
    ensures var after := Run(cfg, st, steps);
            && RewardsTo(after.events, who) >= RewardsTo(st.events, who)
            && BalanceOf(after.ledger, who) == BalanceOf(st.ledger, who) + Outside(cfg, st, steps, who)
                 + RewardSize(cfg) * (RewardsTo(after.events, who) - RewardsTo(st.events, who))
  {
    RunMoves(cfg, st, steps, who);
    RewardsNeverFall(cfg, st, steps, who);
    FromBeyond(cfg, st, Run(cfg, st, steps), who, Outside(cfg, st, steps, who));
  }

  /** The issuance moves the same way, counting all reward events. */
  lemma IssuanceIsConserved(cfg: Config, st: State, steps: seq<Step>)
    ensures var after := Run(cfg, st, steps);
            && Rewards(after.events) >= Rewards(st.events)
            && after.ledger.issuance == st.ledger.issuance + OutsideIssuance(cfg, st, steps)
                 + RewardSize(cfg) * (Rewards(after.events) - Rewards(st.events))
  {
    RunMoves(cfg, st, steps, 0);
    RewardsNeverFall(cfg, st, steps, 0);
    FromIssuanceBeyond(cfg, st, Run(cfg, st, steps), OutsideIssuance(cfg, st, steps));
  }

  /** Reward events are exactly the paid settlements, and there are at most as many
      as slots `PreviousSlot` moved past. */
  lemma RewardsAreBounded(cfg: Config, st: State, steps: seq<Step>)
    ensures var after := Run(cfg, st, steps);
            && Rewards(after.events) == Rewards(st.events) + PaidCount(Settlements(cfg, st, steps))
            && Rewards(after.events) - Rewards(st.events) <= |Settlements(cfg, st, steps)|
                 <= after.previousSlot - st.previousSlot
  {
    EventsArePaidSettlements(cfg, st, steps);
    RewardsAreUnique(cfg, st, steps);
    RisingFitsInterval(Settlements(cfg, st, steps), st.previousSlot, Run(cfg, st, steps).previousSlot);
  }

  lemma {:induction false} EventsArePaidSettlements(cfg: Config, st: State, steps: seq<Step>)
    ensures Rewards(Run(cfg, st, steps).events) == Rewards(st.events) + PaidCount(Settlements(cfg, st, steps))
  {
    if steps != [] {
      var before, step := steps[..|steps| - 1], steps[|steps| - 1];
      EventsArePaidSettlements(cfg, st, before);
      StepConserves(cfg, Run(cfg, st, before), step, 0);
      var ss := Settlements(cfg, st, before);
      if StepSettles(cfg, Run(cfg, st, before), step) {
        var s := SettlementOf(cfg, Run(cfg, st, before), step);
        assert (ss + [s])[..|ss|] == ss;
      } else {
        assert ss + [] == ss;
      }
    }
  }

  // -------------------------------------------------------- the configuration

  /** What admins and the finalize hook configure. */
  datatype Settings = Settings(width: u32, threshold: Balance, bulkMode: bool, authorities: seq<Key>)

  function SettingsOf(st: State): (s: Settings) {
    Settings(st.slotWidth, st.threshold, st.bulkMode, st.authorities)
  }

  /** The last values set, by root or the admin origin or the hook; everybody else's
      calls, and orders, set nothing. */
  function LastSet(start: Settings, steps: seq<Step>): (s: Settings) {
    if steps == [] then start
    else
      var s := LastSet(start, steps[..|steps| - 1]);
      match steps[|steps| - 1]
      case SetSlotWidth(origin, width) => if origin == Root || origin == Admin then s.(width := width) else s
      case SetThresholdParameter(origin, p) => if origin == Root || origin == Admin then s.(threshold := p) else s
      case SetBulkMode(origin, b) => if origin == Root || origin == Admin then s.(bulkMode := b) else s
      case OnFinalize(aura) => s.(authorities := aura)
      case _ => s
  }

  /** How many calls of a run changed a setting and reported it. */
  function SettingCalls(steps: seq<Step>): (n: nat) {
    if steps == [] then 0
    else
      var step := steps[|steps| - 1];
      SettingCalls(steps[..|steps| - 1])
      + (if (step.SetSlotWidth? || step.SetThresholdParameter? || step.SetBulkMode?)
            && (step.origin == Root || step.origin == Admin) then 1 else 0)
  }

  /** The settings as somebody who only reads the event log knows them. */
  function Replayed(start: Settings, events: seq<Event>): (s: Settings) {
    if events == [] then start
    else
      Told(Replayed(start, events[..|events| - 1]), events[|events| - 1])
  }

  function Told(s: Settings, e: Event): (s': Settings) {
    match e
    case SlotWidthSet(width) => s.(width := width)
    case ThresholdParameterSet(p) => s.(threshold := p)
    case BulkModeSet(b) => s.(bulkMode := b)
    case OrderPlacerRewarded(_, _) => s
  }

  /** After every run the settings are those last set. */
  lemma {:induction false} SettingsAreLastSet(cfg: Config, st: State, steps: seq<Step>)
    ensures SettingsOf(Run(cfg, st, steps)) == LastSet(SettingsOf(st), steps)
  {
    if steps != [] {
      SettingsAreLastSet(cfg, st, steps[..|steps| - 1]);
    }
  }

  /** The log told from `start` on tells the settings of `st`, all but Aura's list, which
      no event reports. */
  predicate Tells(start: State, st: State) {
    && start.events <= st.events
    && SettingsOf(st) == Replayed(SettingsOf(start), st.events[|start.events|..]).(authorities := st.authorities)
  }

  /** The log only grows, and it tells the settings. */
  lemma {:induction false} LogTellsSettings(cfg: Config, st: State, steps: seq<Step>)
    ensures Tells(st, Run(cfg, st, steps))
  {
    if steps != [] {
      var now := Run(cfg, st, steps[..|steps| - 1]);
      LogTellsSettings(cfg, st, steps[..|steps| - 1]);
      StepIsLogged(cfg, st, now, steps[|steps| - 1]);
    }
  }

  /** It has one event for each call that changed a setting, one for each reward, and no
      others. */
  lemma {:induction false} LogCounts(cfg: Config, st: State, steps: seq<Step>)
    ensures |Run(cfg, st, steps).events|
            == |st.events| + SettingCalls(steps) + PaidCount(Settlements(cfg, st, steps))
  {
    if steps != [] {
      var before, step := steps[..|steps| - 1], steps[|steps| - 1];
      LogCounts(cfg, st, before);
      StepIsTold(cfg, Run(cfg, st, before), step);
      SettingCallsOfOne(step);
      PaidOneMore(cfg, st, steps);
    }
  }

  lemma PaidOneMore(cfg: Config, st: State, steps: seq<Step>)
    requires steps != []
    ensures var before, step := steps[..|steps| - 1], steps[|steps| - 1];
            var now := Run(cfg, st, before);
            PaidCount(Settlements(cfg, st, steps)) == PaidCount(Settlements(cfg, st, before))
              + (if Pays(cfg, now, step) then 1 else 0)
  {
    var before, step := steps[..|steps| - 1], steps[|steps| - 1];
    var now, ss := Run(cfg, st, before), Settlements(cfg, st, before);
    if StepSettles(cfg, now, step) {
      assert (ss + [SettlementOf(cfg, now, step)])[..|ss|] == ss;
    } else {
      assert ss + [] == ss;
    }
  }

  ghost predicate Pays(cfg: Config, st: State, step: Step) {
    StepSettles(cfg, st, step) && SettlementOf(cfg, st, step).paid
  }

  /** The event a step logs, if it logs one. */
  ghost function LoggedBy(cfg: Config, st: State, step: Step): (e: Event) {
    match step
    case SetSlotWidth(_, width) => SlotWidthSet(width)
    case SetThresholdParameter(_, p) => ThresholdParameterSet(p)
    case SetBulkMode(_, b) => BulkModeSet(b)
    case CreateOrder(_, _, _) =>
      OrderPlacerRewarded(if StepSettles(cfg, st, step) then cfg.toAccountId(SettlementOf(cfg, st, step).owner) else 0,
                          cfg.rewardAmount)
    case _ => OrderPlacerRewarded(0, cfg.rewardAmount)
  }

  /** One step: no event and no news but Aura's, or one event that tells the news. */
  lemma StepIsTold(cfg: Config, st: State, step: Step)
    ensures var after, e := Apply(cfg, st, step), LoggedBy(cfg, st, step);
            && (SettingCalls([step]) == 0 && !Pays(cfg, st, step) ==>
                  && after.events == st.events
                  && SettingsOf(after) == SettingsOf(st).(authorities := after.authorities))
            && (SettingCalls([step]) == 1 || Pays(cfg, st, step) ==>
                  && after.events == st.events + [e] && after.authorities == st.authorities
                  && SettingsOf(after) == Told(SettingsOf(st), e))
  {
    SettingCallsOfOne(step);
    if StepSettles(cfg, st, step) {
      var owner := SettlementOf(cfg, st, step).owner;
      assert Apply(cfg, st, step).events == Paid(cfg, st, owner).events;
    }
  }

  lemma ReplayedOneMore(start: Settings, events: seq<Event>, e: Event, n: nat)
    requires n <= |events|
    ensures Replayed(start, (events + [e])[n..]) == Told(Replayed(start, events[n..]), e)
  {
    var more := (events + [e])[n..];
    assert more[..|more| - 1] == events[n..] && more[|more| - 1] == e;
  }

  lemma SettingCallsOfOne(step: Step)
    ensures SettingCalls([step])
            == if (step.SetSlotWidth? || step.SetThresholdParameter? || step.SetBulkMode?) && IsAdmin(step.origin)
               then 1 else 0
  {
    assert [step][..0] == [];
  }

  lemma StepIsLogged(cfg: Config, start: State, st: State, step: Step)
    requires Tells(start, st)
    ensures Tells(start, Apply(cfg, st, step))
  {
    var e := LoggedBy(cfg, st, step);
    StepIsTold(cfg, st, step);
    SettingCallsOfOne(step);
    if SettingCalls([step]) == 1 || Pays(cfg, st, step) {
      ReplayedOneMore(SettingsOf(start), st.events, e, |start.events|);
      ToldIgnoresAura(Replayed(SettingsOf(start), st.events[|start.events|..]), e, st.authorities);
    }
  }

  lemma ToldIgnoresAura(s: Settings, e: Event, aura: seq<Key>)
    ensures Told(s.(authorities := aura), e) == Told(s, e).(authorities := aura)
  {
  }

  /** No admin switches bulk mode off. */
  predicate StaysInBulkMode(steps: seq<Step>) {
    forall i :: 0 <= i < |steps| && steps[i].SetBulkMode? && (steps[i].origin == Root || steps[i].origin == Admin) ==>
      steps[i].bulkMode
  }

  /** Once an admin switched bulk mode on, nothing is settled, used up or paid until one
      switches it off again. */
  lemma {:induction false} BulkModeStopsRewards(cfg: Config, st: State, admin: Origin, steps: seq<Step>)
    requires (admin == Root || admin == Admin) && StaysInBulkMode(steps)
    ensures var on := Apply(cfg, st, SetBulkMode(admin, true));
            && on.bulkMode && Run(cfg, on, steps).bulkMode
            && Settlements(cfg, on, steps) == []
            && Run(cfg, on, steps).previousSlot == st.previousSlot
            && Rewards(Run(cfg, on, steps).events) == Rewards(st.events)
  {
    var on := Apply(cfg, st, SetBulkMode(admin, true));
    if steps == [] {
      RewardsAfter(st.events, BulkModeSet(true), 0);
    } else {
      var before, step := steps[..|steps| - 1], steps[|steps| - 1];
      BulkModeStopsRewards(cfg, st, admin, before);
      assert step == steps[|steps| - 1];
      var now := Run(cfg, on, before);
      StepConserves(cfg, now, step, 0);
      if step.CreateOrder? {
        OrderChangesStateExactly(cfg, now, step.origin, step.data, step.ctx);
      }
    }
  }

  // -------------------------------------------------------------- slot widths

  /** The step lowers the shift: slots get narrower. */
  ghost predicate Narrows(cfg: Config, st: State, step: Step) {
    ShiftAmount(Apply(cfg, st, step).slotWidth) < ShiftAmount(st.slotWidth)
  }

  /** How often slots get narrower along the run. */
  ghost function Narrowings(cfg: Config, st: State, steps: seq<Step>): (n: nat) {
    if steps == [] then 0
    else
      var before, step := steps[..|steps| - 1], steps[|steps| - 1];
      Narrowings(cfg, st, before) + (if Narrows(cfg, Run(cfg, st, before), step) then 1 else 0)
  }

  ghost predicate NeverNarrower(cfg: Config, st: State, steps: seq<Step>) { Narrowings(cfg, st, steps) == 0 }

  lemma {:induction false} NarrowingsSplit(cfg: Config, st: State, a: seq<Step>, b: seq<Step>)
    ensures Narrowings(cfg, st, a + b) == Narrowings(cfg, st, a) + Narrowings(cfg, Run(cfg, st, a), b)
    decreases |b|
  {
    if b == [] {
      assert a + b == a;
    } else {
      NarrowingsSplit(cfg, st, a, b[..|b| - 1]);
      RunSplits(cfg, st, a, b[..|b| - 1]);
      assert (a + b)[..|a + b| - 1] == a + b[..|b| - 1];
    }
  }

  lemma {:induction false} LastNarrowing(cfg: Config, st: State, steps: seq<Step>) returns (n: nat)
    requires !NeverNarrower(cfg, st, steps)
    ensures n < |steps| && Narrows(cfg, Run(cfg, st, steps[..n]), steps[n])
    ensures Narrowings(cfg, st, steps) == Narrowings(cfg, st, steps[..n + 1])
    decreases |steps|
  {
    n := |steps| - 1;
    var front := steps[..n];
    assert steps[..n + 1] == steps;
    if !Narrows(cfg, Run(cfg, st, front), steps[n]) {
      assert Narrowings(cfg, st, steps) == Narrowings(cfg, st, front);
      n := LastNarrowing(cfg, st, front);
      assert front[..n + 1] == steps[..n + 1];
      assert front[..n] == steps[..n];
    }
  }

  /** A run with a narrowing is a run up to its last one, that step, which settles
      nothing, and a run that never narrows. */
  lemma SplitAtLastNarrowing(cfg: Config, st: State, steps: seq<Step>) returns (n: nat)
    requires !NeverNarrower(cfg, st, steps)
    ensures n < |steps| && NeverNarrower(cfg, Run(cfg, st, steps[..n + 1]), steps[n + 1..])
    ensures Narrowings(cfg, st, steps) == Narrowings(cfg, st, steps[..n]) + 1
    ensures Settlements(cfg, st, steps)
            == Settlements(cfg, st, steps[..n]) + Settlements(cfg, Run(cfg, st, steps[..n + 1]), steps[n + 1..])
  {
    n := LastNarrowing(cfg, st, steps);
    var a, b := steps[..n + 1], steps[n + 1..];
    assert steps == a + b;
    NarrowingsSplit(cfg, st, a, b);
    SettlementsSplit(cfg, st, a, b);
    assert a[..n] == steps[..n] && a[n] == steps[n];
    assert Settlements(cfg, st, a) == Settlements(cfg, st, a[..n]);
  }

  /** The widths an admin sets along a run, in order. */
  function WidthsSet(steps: seq<Step>): (ws: seq<u32>) {
    if steps == [] then []
    else
      var before, step := WidthsSet(steps[..|steps| - 1]), steps[|steps| - 1];
      if step.SetSlotWidth? && IsAdmin(step.origin) then before + [step.width] else before
  }

  /** A list of widths, none of them narrower than the one before. */
  predicate NotNarrowing(ws: seq<u32>) {
    forall i :: 0 < i < |ws| ==> ShiftAmount(ws[i - 1]) <= ShiftAmount(ws[i])
  }

  lemma OneWidthMore(ws: seq<u32>, w: u32)
    requires ws != []
    ensures NotNarrowing(ws + [w]) <==> NotNarrowing(ws) && ShiftAmount(ws[|ws| - 1]) <= ShiftAmount(w)
  {
    var all := ws + [w];
    assert all[|ws|] == w && all[|ws| - 1] == ws[|ws| - 1];
    if NotNarrowing(all) {
      forall i | 0 < i < |ws|
        ensures ShiftAmount(ws[i - 1]) <= ShiftAmount(ws[i])
      {
        assert ShiftAmount(all[i - 1]) <= ShiftAmount(all[i]);
      }
      assert ShiftAmount(all[|ws| - 1]) <= ShiftAmount(all[|ws|]);
    }
  }

  /** Whether a run ever narrows can be read off the widths its admins set. */
  lemma {:induction false} NeverNarrowerExactly(cfg: Config, st: State, steps: seq<Step>)
    ensures var ws := [st.slotWidth] + WidthsSet(steps);
            && Run(cfg, st, steps).slotWidth == ws[|ws| - 1]
            && (NeverNarrower(cfg, st, steps) <==> NotNarrowing(ws))
  {
    if steps != [] {
      var before, step := steps[..|steps| - 1], steps[|steps| - 1];
      NeverNarrowerExactly(cfg, st, before);
      var was, ws := [st.slotWidth] + WidthsSet(before), [st.slotWidth] + WidthsSet(steps);
      if step.SetSlotWidth? && IsAdmin(step.origin) {
        assert ws == was + [step.width];
        OneWidthMore(was, step.width);
      } else {
        assert ws == was;
      }
    }
  }

  predicate HeightsRise(ss: seq<Settlement>) {
    forall i, j :: 0 <= i < j < |ss| ==> ss[i].height < ss[j].height
  }

  lemma {:induction false} SettledWidths(cfg: Config, st: State, steps: seq<Step>)
    requires NeverNarrower(cfg, st, steps)
    ensures forall i :: 0 <= i < |Settlements(cfg, st, steps)| ==>
              var s := Settlements(cfg, st, steps)[i];
              && s.slot == CurrentSlot(s.height, s.width)
              && ShiftAmount(s.width) <= ShiftAmount(Run(cfg, st, steps).slotWidth)
  {
    if steps != [] {
      SettledWidths(cfg, st, steps[..|steps| - 1]);
    }
  }

  /** If slots never get narrower, the heights of settlements strictly rise too. */
  lemma {:induction false} HeightsRiseUnlessNarrowed(cfg: Config, st: State, steps: seq<Step>)
    requires NeverNarrower(cfg, st, steps)
    ensures HeightsRise(Settlements(cfg, st, steps))
  {
    if steps != [] {
      var before := steps[..|steps| - 1];
      HeightsRiseUnlessNarrowed(cfg, st, before);
      RewardsAreUnique(cfg, st, steps);
      SettledWidths(cfg, st, before);
      var ss, n := Settlements(cfg, st, steps), |Settlements(cfg, st, before)|;
      if |ss| == n + 1 {
        forall i | 0 <= i < n
          ensures ss[i].height < ss[n].height
        {
          assert ss[i] == Settlements(cfg, st, before)[i];
          RisingSlotsRisingHeights(ss[i].height, ss[i].width, ss[n].height, ss[n].width);
        }
      }
    }
  }

  /** No step settles below the height at which the slot after `PreviousSlot` begins
      under the current width. */
  lemma NoRewardBeforeNextSlotBegins(cfg: Config, st: State, step: Step)
    requires StepSettles(cfg, st, step)
    ensures step.data.value.relayHeight >= (st.previousSlot + 1) * SlotLength(st.slotWidth)
  {
    NewerSlotIffHeight(st.previousSlot, step.data.value.relayHeight, st.slotWidth);
  }

  predicate KeepsWidth(steps: seq<Step>) {
    forall i :: 0 <= i < |steps| && steps[i].SetSlotWidth? ==> !IsAdmin(steps[i].origin)
  }

  lemma {:induction false} WidthIsKept(cfg: Config, st: State, steps: seq<Step>)
    requires KeepsWidth(steps)
    ensures Run(cfg, st, steps).slotWidth == st.slotWidth
    ensures forall i :: 0 <= i < |Settlements(cfg, st, steps)| ==>
              var s := Settlements(cfg, st, steps)[i]; s.slot == CurrentSlot(s.height, st.slotWidth)
  {
    if steps != [] {
      WidthIsKept(cfg, st, steps[..|steps| - 1]);
    }
  }

  /** Until the width changes again, the first settlement waits for that height ... */
  lemma FirstRewardWaits(cfg: Config, st: State, steps: seq<Step>, i: nat)
    requires KeepsWidth(steps) && i < |Settlements(cfg, st, steps)|
    ensures Settlements(cfg, st, steps)[i].height >= (st.previousSlot + 1) * SlotLength(st.slotWidth)
  {
    WidthIsKept(cfg, st, steps);
    RewardsAreUnique(cfg, st, steps);
    NewerSlotIffHeight(st.previousSlot, Settlements(cfg, st, steps)[i].height, st.slotWidth);
  }

  /** ... and if that height is beyond every `u32`, there is none at all. */
  lemma NoRewardBeyondLastHeight(cfg: Config, st: State, steps: seq<Step>)
    requires KeepsWidth(steps)
    requires (st.previousSlot + 1) * SlotLength(st.slotWidth) >= U32_SIZE
    ensures Settlements(cfg, st, steps) == []
    ensures Run(cfg, st, steps).previousSlot == st.previousSlot
  {
    RewardsAreUnique(cfg, st, steps);
    if Settlements(cfg, st, steps) != [] {
      FirstRewardWaits(cfg, st, steps, 0);
    }
  }

  /** The bound is exact: with the identity conversion of the template runtime, and
      otherwise nothing in the way, a reward is still reachable under the current
      width if and only if the next slot begins at a representable height. */
  lemma RewardReachableExactly(cfg: Config, st: State, ctx: Context)
    requires !st.bulkMode && st.authorities != [] && RuntimeCriterion(cfg.fees, ctx.usage, st.threshold)
    requires forall k :: k in st.authorities ==> k in ctx.keyOwner
    requires forall v: ValidatorId :: cfg.validatorIdOf(v) == Some(v)
    ensures (exists steps :: KeepsWidth(steps) && Settlements(cfg, st, steps) != [])
            <==> (st.previousSlot + 1) * SlotLength(st.slotWidth) < U32_SIZE
  {
    var next := (st.previousSlot + 1) * SlotLength(st.slotWidth);
    if next < U32_SIZE {
      NewerSlotIffHeight(st.previousSlot, next, st.slotWidth);
      var owner := ctx.keyOwner[Scheduled(st, next)];
      var event := OnDemandOrderPlaced(0, 0, owner);
      var data := InherentData(Proof(Some([event])), next, 0);
      assert event in data.proof.events.value;
      assert ProvenOrderBy(cfg, data, owner);
      var step := CreateOrder(Unsigned, Some(data), ctx);
      assert Settles(cfg, st, Unsigned, Some(data), ctx);
      assert [step][..0] == [] && Run(cfg, st, []) == st;
      assert KeepsWidth([step]) && |Settlements(cfg, st, [step])| == 1;
    } else {
      forall steps | KeepsWidth(steps)
        ensures Settlements(cfg, st, steps) == []
      {
        NoRewardBeyondLastHeight(cfg, st, steps);
      }
    }
  }

  // ---------------------------------------------------- a narrowing, concretely

  /** Runs exist in which a narrowing lets a lower height be rewarded: for every pair
      of widths that narrows, some state and run settle height `2^w1` and then a
      height no greater. */
  lemma NarrowingRewardsBackwards(cfg: Config, st: State, ctx: Context, w1: u32, w2: u32, key: Key, placer: Account)
    requires ShiftAmount(w2) < ShiftAmount(w1)
    requires st.authorities == [key] && !st.bulkMode && st.previousSlot == 0 && st.slotWidth == w1
    requires RuntimeCriterion(cfg.fees, ctx.usage, st.threshold)
    requires key in ctx.keyOwner && cfg.validatorIdOf(placer) == Some(ctx.keyOwner[key])
    ensures exists steps :: |Settlements(cfg, st, steps)| == 2 && !HeightsRise(Settlements(cfg, st, steps))
  {
    var d1, d2 := SlotLength(w1), SlotLength(w2);
    Pow2Monotone(ShiftAmount(w2), ShiftAmount(w1));
    SlotLengthBounded(w1);
    DivUnique(d1, d1, 1);
    DivUnique(2 * d2, d2, 2);
    var event := OnDemandOrderPlaced(0, 0, placer);
    var proof := Proof(Some([event]));
    var data1, data2 := InherentData(proof, d1, 0), InherentData(proof, 2 * d2, 0);
    var owner := ctx.keyOwner[key];
    assert event in [event];
    assert ProvenOrderBy(cfg, data1, owner) && ProvenOrderBy(cfg, data2, owner);
    var a, c := CreateOrder(Unsigned, Some(data1), ctx), CreateOrder(Unsigned, Some(data2), ctx);
    var b := SetSlotWidth(Root, w2);
    assert Settles(cfg, st, Unsigned, Some(data1), ctx);
    var st1 := Apply(cfg, st, a);
    var st2 := Apply(cfg, st1, b);
    assert st2.previousSlot == 1 && st2.slotWidth == w2;
    assert Settles(cfg, st2, Unsigned, Some(data2), ctx);
    ThreeSteps(cfg, st, a, b, c);
    var ss := Settlements(cfg, st, [a, b, c]);
    assert ss == [SettlementOf(cfg, st, a), SettlementOf(cfg, st2, c)];
    assert ss[0].height == d1 && ss[1].height == 2 * d2;
  }

  lemma ThreeSteps(cfg: Config, st: State, a: Step, b: Step, c: Step)
    requires StepSettles(cfg, st, a) && b.SetSlotWidth?
    requires StepSettles(cfg, Apply(cfg, Apply(cfg, st, a), b), c)
    ensures Settlements(cfg, st, [a, b, c])
            == [SettlementOf(cfg, st, a), SettlementOf(cfg, Apply(cfg, Apply(cfg, st, a), b), c)]
    ensures Run(cfg, st, [a, b, c]) == Apply(cfg, Apply(cfg, Apply(cfg, st, a), b), c)
  {
    assert [a, b, c][..2] == [a, b] && [a, b][..1] == [a] && [a][..0] == [];
    assert Run(cfg, st, []) == st;
    assert Run(cfg, st, [a]) == Apply(cfg, st, a);
    assert Run(cfg, st, [a, b]) == Apply(cfg, Apply(cfg, st, a), b);
    assert Settlements(cfg, st, []) == [];
    assert Settlements(cfg, st, [a]) == [SettlementOf(cfg, st, a)];
    assert Settlements(cfg, st, [a, b]) == [SettlementOf(cfg, st, a)];
  }

  /** The currency will mint `times` rewards to the account. */
  predicate Mints(cfg: Config, ledger: Ledger, who: Account, times: nat) {
    && cfg.existentialDeposit <= cfg.rewardAmount
    && ledger.issuance + times * cfg.rewardAmount <= BALANCE_MAX
    && BalanceOf(ledger, who) + times * cfg.rewardAmount <= BALANCE_MAX
  }

  /** One authority, whose order the inherent proves at the first height of slot 1. */
  ghost predicate FirstSlotProven(cfg: Config, st: State, d: InherentData, ctx: Context, key: Key) {
    && st.authorities == [key] && key in ctx.keyOwner && !st.bulkMode
    && RuntimeCriterion(cfg.fees, ctx.usage, st.threshold)
    && d.relayHeight == SlotLength(st.slotWidth) && ProvenOrderBy(cfg, d, ctx.keyOwner[key])
  }

  /** The inherent is paid, uses up slot 1, and leaves the rest as it was. */
  lemma FirstSlotIsPaid(cfg: Config, st: State, d: InherentData, ctx: Context, key: Key)
    requires FirstSlotProven(cfg, st, d, ctx, key) && st.previousSlot == 0
    requires Mints(cfg, st.ledger, cfg.toAccountId(ctx.keyOwner[key]), 2)
    ensures var step := CreateOrder(Unsigned, Some(d), ctx); var after := Apply(cfg, st, step);
            && StepSettles(cfg, st, step) && Rewards(after.events) == Rewards(st.events) + 1
            && after == st.(previousSlot := 1, ledger := after.ledger, events := after.events)
            && Mints(cfg, after.ledger, cfg.toAccountId(ctx.keyOwner[key]), 1)
  {
    DivUnique(d.relayHeight, SlotLength(st.slotWidth), 1);
    StepConserves(cfg, st, CreateOrder(Unsigned, Some(d), ctx), cfg.toAccountId(ctx.keyOwner[key]));
  }

  /** Under a narrower width the very same inherent is paid again. */
  lemma FirstSlotIsPaidAgain(cfg: Config, st: State, d: InherentData, ctx: Context, key: Key, narrower: u32)
    requires FirstSlotProven(cfg, st, d, ctx, key) && st.previousSlot == 1
    requires ShiftAmount(narrower) < ShiftAmount(st.slotWidth)
    requires Mints(cfg, st.ledger, cfg.toAccountId(ctx.keyOwner[key]), 1)
    ensures var step := CreateOrder(Unsigned, Some(d), ctx); var now := st.(slotWidth := narrower);
            StepSettles(cfg, now, step) && Rewards(Apply(cfg, now, step).events) == Rewards(st.events) + 1
  {
    var now := st.(slotWidth := narrower);
    Pow2Monotone(ShiftAmount(narrower), ShiftAmount(st.slotWidth));
    NewerSlotIffHeight(1, d.relayHeight, narrower);
    StepConserves(cfg, now, CreateOrder(Unsigned, Some(d), ctx), 0);
  }

  /** For every pair of widths that narrows: one inherent, proving one order, is paid
      before the change and once more after it. */
  lemma NarrowingPaysTwice(cfg: Config, st: State, d: InherentData, ctx: Context, key: Key, narrower: u32)
    requires FirstSlotProven(cfg, st, d, ctx, key) && st.previousSlot == 0
    requires ShiftAmount(narrower) < ShiftAmount(st.slotWidth)
    requires Mints(cfg, st.ledger, cfg.toAccountId(ctx.keyOwner[key]), 2)
    ensures var c := CreateOrder(Unsigned, Some(d), ctx);
            var steps := [c, SetSlotWidth(Root, narrower), c];
            && |Settlements(cfg, st, steps)| == 2
            && Rewards(Run(cfg, st, steps).events) == Rewards(st.events) + 2
  {
    var c, b := CreateOrder(Unsigned, Some(d), ctx), SetSlotWidth(Root, narrower);
    FirstSlotIsPaid(cfg, st, d, ctx, key);
    var paid := Apply(cfg, st, c);
    StepConserves(cfg, paid, b, 0);
    var log := Apply(cfg, paid, b).events;
    FirstSlotIsPaidAgain(cfg, paid.(events := log), d, ctx, key, narrower);
    assert Apply(cfg, paid, b) == paid.(events := log).(slotWidth := narrower);
    ThreeSteps(cfg, st, c, b, c);
  }
}
