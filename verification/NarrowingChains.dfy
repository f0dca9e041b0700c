/** The exact condition under which the chain never rewards more often than the network
    ordered. `PreviousSlot` is the pallet's only guard, and a relay height has a later
    slot under a narrower width: the same proof of the same order is then accepted once
    more. */
module NarrowingChains {
  import opened BlockRuns
  import opened EndToEnd
  import opened FeeCriteria
  import opened OnDemandPallet
  import opened RewardRuns
  import opened SlotArithmetic
  import opened Wrappers
  import P = OrderProtocol

  /** A world whose chain starts with slot width `w` and whose admins then set `ws`. */
  ghost predicate WorldWithWidths(cfg: Config, genesis: State, chain: seq<Block>, net: P.Net, actions: seq<P.Action>,
                                  relay: Relay, w: u32, ws: seq<u32>) {
    World(cfg, genesis, chain, net, actions, relay) && genesis.slotWidth == w && WidthsSet(ChainSteps(chain)) == ws
  }

  /** In every such world, rewards are covered by orders. */
  ghost predicate AlwaysPaysOnce(w: u32, ws: seq<u32>) {
    forall cfg, genesis, chain, net, actions, relay ::
      WorldWithWidths(cfg, genesis, chain, net, actions, relay, w, ws) ==> OrdersPayOnce(cfg, genesis, chain, relay)
  }

  /** Rewards are covered by orders, in every world with these widths, if and only if
      no width is narrower than the one before. */
  lemma OrdersPayOnceExactly(w: u32, ws: seq<u32>)
    ensures AlwaysPaysOnce(w, ws) <==> NotNarrowing([w] + ws)
  {
    if NotNarrowing([w] + ws) {
      NotNarrowingPaysOnce(w, ws);
    } else {
      var i := SomeNarrowing(w, ws);
      NarrowingBreaks(w, ws, i);
    }
  }

  lemma SomeNarrowing(w: u32, ws: seq<u32>) returns (i: nat)
    requires !NotNarrowing([w] + ws)
    ensures i < |ws| && ShiftAmount(ws[i]) < ShiftAmount(([w] + ws)[i])
  {
    var all := [w] + ws;
    var t :| 0 < t < |all| && ShiftAmount(all[t - 1]) > ShiftAmount(all[t]);
    i := t - 1;
  }

  lemma NarrowingBreaks(w: u32, ws: seq<u32>, i: nat)
    requires i < |ws| && ShiftAmount(ws[i]) < ShiftAmount(([w] + ws)[i])
    ensures !AlwaysPaysOnce(w, ws)
  {
    var chain, actions, relay := PaidTwice(w, ws, i);
    assert WorldWithWidths(Cfg(), Start(w), chain, Net(), actions, relay, w, ws);
  }

  lemma NotNarrowingPaysOnce(w: u32, ws: seq<u32>)
    requires NotNarrowing([w] + ws)
    ensures AlwaysPaysOnce(w, ws)
  {
    forall cfg, genesis, chain, net, actions, relay | WorldWithWidths(cfg, genesis, chain, net, actions, relay, w, ws)
      ensures OrdersPayOnce(cfg, genesis, chain, relay)
    {
      ChainNoMoreRewardsThanOrders(cfg, genesis, chain, relay);
    }
  }

  // ---------------------------------------------------------- blocks and widths

  /** Root sets one width after the other. */
  function Sets(ws: seq<u32>): (steps: seq<Step>)
    ensures |steps| == |ws| && forall i :: 0 <= i < |ws| ==> steps[i] == SetSlotWidth(Root, ws[i])
  {
    seq(|ws|, i requires 0 <= i < |ws| => SetSlotWidth(Root, ws[i]))
  }

  function LastWidth(w: u32, ws: seq<u32>): u32 { if ws == [] then w else ws[|ws| - 1] }

  /** Only the width, and the log of its changes, are different. */
  ghost predicate OnlyWidth(st: State, after: State, w: u32) {
    after == st.(slotWidth := w, events := after.events) && Rewards(after.events) == Rewards(st.events)
  }

  lemma {:induction false} SetsRun(cfg: Config, st: State, ws: seq<u32>)
    ensures OnlyWidth(st, Run(cfg, st, Sets(ws)), LastWidth(st.slotWidth, ws))
    decreases |ws|
  {
    if ws != [] {
      var n := |ws| - 1;
      SetsRun(cfg, st, ws[..n]);
      assert Sets(ws)[..n] == Sets(ws[..n]);
      StepConserves(cfg, Run(cfg, st, Sets(ws[..n])), SetSlotWidth(Root, ws[n]), 0);
    }
  }

  lemma {:induction false} SetsWidths(ws: seq<u32>)
    ensures WidthsSet(Sets(ws)) == ws
    decreases |ws|
  {
    if ws != [] {
      var n := |ws| - 1;
      SetsWidths(ws[..n]);
      assert Sets(ws)[..n] == Sets(ws[..n]);
    }
  }

  lemma {:induction false} WidthsSetSplits(a: seq<Step>, b: seq<Step>)
    ensures WidthsSet(a + b) == WidthsSet(a) + WidthsSet(b)
    decreases |b|
  {
    if b == [] {
      assert a + b == a;
    } else {
      WidthsSetSplits(a, b[..|b| - 1]);
      assert (a + b)[..|a + b| - 1] == a + b[..|b| - 1];
    }
  }

  /** A block: its inherents, its calls, the snapshot. */
  lemma RunBlock(cfg: Config, st: State, b: Block)
    ensures Run(cfg, st, BlockSteps(b))
            == Run(cfg, Run(cfg, st, InherentSteps(b.inherents)), b.calls).(authorities := b.aura)
  {
    var front := InherentSteps(b.inherents) + b.calls;
    assert BlockSteps(b)[..|front|] == front;
    RunSplits(cfg, st, InherentSteps(b.inherents), b.calls);
  }

  lemma {:induction false} InherentsSetNoWidth(inherents: seq<Inherent>)
    ensures WidthsSet(InherentSteps(inherents)) == []
    decreases |inherents|
  {
    if inherents != [] {
      var n := |inherents| - 1;
      InherentsSetNoWidth(inherents[..n]);
      assert InherentSteps(inherents)[..n] == InherentSteps(inherents[..n]);
    }
  }

  lemma BlockWidths(b: Block)
    ensures WidthsSet(BlockSteps(b)) == WidthsSet(b.calls)
  {
    InherentsSetNoWidth(b.inherents);
    WidthsSetSplits(InherentSteps(b.inherents), b.calls);
    WidthsSetSplits(InherentSteps(b.inherents) + b.calls, [OnFinalize(b.aura)]);
    assert [OnFinalize(b.aura)][..0] == [];
  }

  /** Per block, the widths its calls set. */
  function CallWidths(chain: seq<Block>): (ws: seq<seq<u32>>)
    ensures |ws| == |chain| && forall b :: 0 <= b < |chain| ==> ws[b] == WidthsSet(chain[b].calls)
  {
    seq(|chain|, b requires 0 <= b < |chain| => WidthsSet(chain[b].calls))
  }

  function Flat(lists: seq<seq<u32>>): (ws: seq<u32>) {
    if lists == [] then [] else Flat(lists[..|lists| - 1]) + lists[|lists| - 1]
  }

  lemma {:induction false} ChainWidthsAreCallWidths(chain: seq<Block>)
    ensures WidthsSet(ChainSteps(chain)) == Flat(CallWidths(chain))
  {
    if chain != [] {
      var n := |chain| - 1;
      ChainWidthsAreCallWidths(chain[..n]);
      WidthsSetSplits(ChainSteps(chain[..n]), BlockSteps(chain[n]));
      BlockWidths(chain[n]);
      assert CallWidths(chain)[..n] == CallWidths(chain[..n]);
    }
  }

  lemma FlatOfThree(a: seq<u32>, b: seq<u32>, c: seq<u32>)
    ensures Flat([a, b, c]) == a + b + c
  {
    assert [a, b, c][..2] == [a, b] && [a, b][..1] == [a] && [a][..0] == [];
    assert Flat([a]) == [] + a == a;
    assert Flat([a, b]) == a + b;
  }

  // -------------------------------------------------------------- the witness

  /** One authority with key 0, owner 0 and account 0, and no fee threshold. */
  function Cfg(): Config {
    Config(a => Some(a), v => v, 1, 1, FeeSchedule(x => 0, n => 0, Weight(0, 0)))
  }

  function Ctx(): Context { Context(map[0 := 0], BlockUsage(Weight(0, 0), 0, 0)) }

  /** Genesis, but for the width it starts with. */
  function Start(w: u32): State { Genesis(0, false, Ledger(map[], 0)).(slotWidth := w) }

  function Data(height: u32): InherentData { InherentData(Proof(Some([OnDemandOrderPlaced(0, 0, 0)])), height, 0) }

  /** Block 0 ends with the wider width; block 1 carries the inherent and the narrower
      width; block 2 carries the same inherent again. */
  function Chain(ws: seq<u32>, i: nat, height: u32): (chain: seq<Block>)
    requires i < |ws|
  {
    var inherent := Inherent(Some(Data(height)), Ctx());
    [Block([], Sets(ws[..i]), [0]), Block([inherent], Sets([ws[i]]), [0]), Block([inherent], Sets(ws[i + 1..]), [0])]
  }

  lemma CallWidthsOfChain(ws: seq<u32>, i: nat, height: u32)
    requires i < |ws|
    ensures CallWidths(Chain(ws, i, height)) == [ws[..i], [ws[i]], ws[i + 1..]]
  {
    SetsWidths(ws[..i]);
    SetsWidths([ws[i]]);
    SetsWidths(ws[i + 1..]);
  }

  lemma ChainWidths(ws: seq<u32>, i: nat, height: u32)
    requires i < |ws|
    ensures WidthsSet(ChainSteps(Chain(ws, i, height))) == ws
  {
    CallWidthsOfChain(ws, i, height);
    FlatOfThree(ws[..i], [ws[i]], ws[i + 1..]);
    assert ws == ws[..i] + [ws[i]] + ws[i + 1..];
    ChainWidthsAreCallWidths(Chain(ws, i, height));
  }

  /** The states the chain goes through. */
  lemma ChainStates(cfg: Config, genesis: State, c: seq<Block>)
    requires |c| == 3
    ensures ChainState(cfg, genesis, c[..1]) == Run(cfg, genesis, BlockSteps(c[0]))
    ensures ChainState(cfg, genesis, c[..2]) == Run(cfg, ChainState(cfg, genesis, c[..1]), BlockSteps(c[1]))
    ensures ChainState(cfg, genesis, c) == Run(cfg, ChainState(cfg, genesis, c[..2]), BlockSteps(c[2]))
  {
    assert c[..1][..0] == [] && c[..2][..1] == c[..1];
  }

  lemma RunOfOne(cfg: Config, st: State, inherent: Inherent)
    ensures Run(cfg, st, InherentSteps([inherent]))
            == Apply(cfg, st, CreateOrder(Unsigned, inherent.data, inherent.ctx))
  {
    assert InherentSteps([inherent]) == [CreateOrder(Unsigned, inherent.data, inherent.ctx)];
    assert [CreateOrder(Unsigned, inherent.data, inherent.ctx)][..0] == [];
  }

  /** After block 0 the inherent is due. */
  lemma AfterBlock0(w: u32, ws: seq<u32>, i: nat, height: u32)
    requires i < |ws| && height == SlotLength(([w] + ws)[i])
    ensures var st := ChainState(Cfg(), Start(w), Chain(ws, i, height)[..1]);
            && FirstSlotProven(Cfg(), st, Data(height), Ctx(), 0) && st.previousSlot == 0
            && st.slotWidth == ([w] + ws)[i] && st.ledger == Ledger(map[], 0) && Rewards(st.events) == 0
  {
    var c := Chain(ws, i, height);
    ChainStates(Cfg(), Start(w), c);
    RunBlock(Cfg(), Start(w), c[0]);
    SetsRun(Cfg(), Start(w), ws[..i]);
    assert OnDemandOrderPlaced(0, 0, 0) in Data(height).proof.events.value;
  }

  /** Blocks 1 and 2 both pay. */
  lemma BothBlocksPay(w: u32, ws: seq<u32>, i: nat, height: u32)
    requires i < |ws| && height == SlotLength(([w] + ws)[i]) && ShiftAmount(ws[i]) < ShiftAmount(([w] + ws)[i])
    ensures Rewards(ChainState(Cfg(), Start(w), Chain(ws, i, height)).events) == 2
  {
    var cfg, c, inherent := Cfg(), Chain(ws, i, height), Inherent(Some(Data(height)), Ctx());
    ChainStates(cfg, Start(w), c);
    AfterBlock0(w, ws, i, height);
    var st := ChainState(cfg, Start(w), c[..1]);
    RunBlock(cfg, st, c[1]);
    RunOfOne(cfg, st, inherent);
    FirstSlotIsPaid(cfg, st, Data(height), Ctx(), 0);
    var paid := Run(cfg, st, InherentSteps([inherent]));
    SetsRun(cfg, paid, [ws[i]]);
    var next := ChainState(cfg, Start(w), c[..2]);
    assert next == paid.(events := next.events).(slotWidth := ws[i]);
    FirstSlotIsPaidAgain(cfg, paid.(events := next.events), Data(height), Ctx(), 0, ws[i]);
    RunBlock(cfg, next, c[2]);
    RunOfOne(cfg, next, inherent);
    SetsRun(cfg, Run(cfg, next, InherentSteps([inherent])), ws[i + 1..]);
  }

  /** The one collator, which holds the key and orders once, at para head 1. */
  function Net(): P.Net { P.Net([P.Node({0}, P.FRESH_RECORD, P.Free, P.Idle, None)], []) }

  function Head(width: u32, height: u32): P.Head { P.Head(height, 0, 1, P.View([0], width)) }

  function OneOrder(width: u32, height: u32): Relay {
    Relay([P.Order(0, Head(width, height))], 0, n => 0, k => height)
  }

  lemma NetworkOrdersOnce(width: u32, height: u32)
    requires height == SlotLength(width)
    ensures var actions := P.Placement(0, Head(width, height));
            && P.Initial(Net()) && P.ValidRun(Net(), actions)
            && P.Exec(Net(), actions).orders == OneOrder(width, height).orders
            && Seen(actions) == iset{Head(width, height)}
    ensures InTime(OneOrder(width, height))
  {
    DivUnique(height, SlotLength(width), 1);
    P.PlacementRuns(Net(), 0, Head(width, height));
    LifetimeIsExactlyTheSlot(height, width, height);
    var actions := P.Placement(0, Head(width, height));
    assert actions[0].move.seen in Seen(actions);
  }

  lemma WitnessIsGenuine(width: u32, height: u32, cfg: Config, genesis: State, ws: seq<u32>, i: nat)
    requires i < |ws|
    ensures GenuineChain(cfg, genesis, Chain(ws, i, height), OneOrder(width, height))
  {
    assert Included(OneOrder(width, height), 0, height, 0);
    assert Genuine(cfg, OneOrder(width, height), Data(height), Ctx());
  }

  lemma WitnessIsAWorld(w: u32, ws: seq<u32>, i: nat, width: u32, height: u32)
    requires i < |ws| && width == ([w] + ws)[i] && height == SlotLength(width)
    ensures World(Cfg(), Start(w), Chain(ws, i, height), Net(), P.Placement(0, Head(width, height)),
                  OneOrder(width, height))
  {
    NetworkOrdersOnce(width, height);
    AfterBlock0(w, ws, i, height);
    WitnessIsGenuine(width, height, Cfg(), Start(w), ws, i);
  }

  /** For every narrowing in the widths there is a world with one order and two
      rewards. */
  lemma PaidTwice(w: u32, ws: seq<u32>, i: nat) returns (chain: seq<Block>, actions: seq<P.Action>, relay: Relay)
    requires i < |ws| && ShiftAmount(ws[i]) < ShiftAmount(([w] + ws)[i])
    ensures WorldWithWidths(Cfg(), Start(w), chain, Net(), actions, relay, w, ws)
    ensures |relay.orders| == 1 && Rewards(ChainState(Cfg(), Start(w), chain).events) == 2
    ensures !OrdersPayOnce(Cfg(), Start(w), chain, relay)
  {
    var width := ([w] + ws)[i];
    SlotLengthBounded(width);
    var height := SlotLength(width);
    chain, relay, actions := Chain(ws, i, height), OneOrder(width, height), P.Placement(0, Head(width, height));
    WitnessIsAWorld(w, ws, i, width, height);
    ChainWidths(ws, i, height);
    BothBlocksPay(w, ws, i, height);
  }
}
