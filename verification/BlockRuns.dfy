/** Chains of blocks: inherents first, then other calls, then the finalize hook that
    snapshots Aura's authorities; and the node's choice of order placer compared with
    the pallet's in the following block. */
module BlockRuns {
  import opened OnDemandPallet
  import opened RewardRuns
  import opened SlotArithmetic
  import opened Wrappers

  /** One `create_order` inherent with what it reads when it is executed. */
  datatype Inherent = Inherent(data: Option<InherentData>, ctx: Context)

  /** `calls` are the remaining extrinsics; `aura` is what Aura's storage holds when
      the block is finalized. */
  datatype Block = Block(inherents: seq<Inherent>, calls: seq<Step>, aura: seq<Key>)

  function InherentSteps(inherents: seq<Inherent>): (steps: seq<Step>)
    ensures |steps| == |inherents|
    ensures forall i :: 0 <= i < |steps| ==> steps[i] == CreateOrder(Unsigned, inherents[i].data, inherents[i].ctx)
  {
    seq(|inherents|, i requires 0 <= i < |inherents| => CreateOrder(Unsigned, inherents[i].data, inherents[i].ctx))
  }

  function BlockSteps(b: Block): (steps: seq<Step>) {
    InherentSteps(b.inherents) + b.calls + [OnFinalize(b.aura)]
  }

  /** An unsigned `create_order` is only ever an inherent, and the hook runs only at
      the end; anybody may still send the call with another origin. */
  predicate WellFormed(b: Block) {
    forall i :: 0 <= i < |b.calls| ==>
      !b.calls[i].OnFinalize? && (b.calls[i].CreateOrder? ==> b.calls[i].origin != Unsigned)
  }

  predicate WellFormedChain(chain: seq<Block>) {
    forall k :: 0 <= k < |chain| ==> WellFormed(chain[k])
  }

  ghost function ChainState(cfg: Config, genesis: State, chain: seq<Block>): (st: State) {
    if chain == [] then genesis
    else Run(cfg, ChainState(cfg, genesis, chain[..|chain| - 1]), BlockSteps(chain[|chain| - 1]))
  }

  /** The state the `i`-th inherent of block `k` starts from. */
  ghost function StateAt(cfg: Config, genesis: State, chain: seq<Block>, k: nat, i: nat): (st: State)
    requires k < |chain| && i < |chain[k].inherents|
  {
    Run(cfg, ChainState(cfg, genesis, chain[..k]), InherentSteps(chain[k].inherents)[..i])
  }

  // ----------------------------------------------------------- the snapshot

  lemma {:induction false} InherentsKeepConfiguration(cfg: Config, st: State, inherents: seq<Inherent>, i: nat)
    requires i <= |inherents|
    ensures var now := Run(cfg, st, InherentSteps(inherents)[..i]);
            now.authorities == st.authorities && now.slotWidth == st.slotWidth
    decreases i
  {
    if i > 0 {
      InherentsKeepConfiguration(cfg, st, inherents, i - 1);
      assert InherentSteps(inherents)[..i][..i - 1] == InherentSteps(inherents)[..i - 1];
    }
  }

  /** After a block the pallet holds Aura's list as it was at the block's end. */
  lemma SnapshotAfterBlock(cfg: Config, st: State, b: Block)
    ensures Run(cfg, st, BlockSteps(b)).authorities == b.aura
  {
    var front := InherentSteps(b.inherents) + b.calls;
    assert BlockSteps(b)[..|front|] == front;
  }

  /** Aura's list at the end of the last block; nothing at genesis. */
  function PreviousAura(chain: seq<Block>, k: nat): (keys: seq<Key>)
    requires k <= |chain|
  {
    if k == 0 then [] else chain[k - 1].aura
  }

  /** Every inherent of block `k` works with Aura's list at the end of block `k - 1`
      and with the width block `k - 1` left. */
  lemma InherentSeesPreviousBlock(cfg: Config, genesis: State, chain: seq<Block>, k: nat, i: nat)
    requires genesis.authorities == []
    requires k < |chain| && i < |chain[k].inherents|
    ensures StateAt(cfg, genesis, chain, k, i).authorities == PreviousAura(chain, k)
    ensures StateAt(cfg, genesis, chain, k, i).slotWidth == ChainState(cfg, genesis, chain[..k]).slotWidth
  {
    InherentsKeepConfiguration(cfg, ChainState(cfg, genesis, chain[..k]), chain[k].inherents, i);
    if k > 0 {
      assert chain[..k][..k - 1] == chain[..k - 1];
      SnapshotAfterBlock(cfg, ChainState(cfg, genesis, chain[..k - 1]), chain[k - 1]);
    }
  }

  // ------------------------------------------------------- who gets rewarded

  ghost predicate InherentSettles(cfg: Config, genesis: State, chain: seq<Block>, k: nat, i: nat)
    requires k < |chain| && i < |chain[k].inherents|
  {
    Settles(cfg, StateAt(cfg, genesis, chain, k, i), Unsigned, chain[k].inherents[i].data, chain[k].inherents[i].ctx)
  }

  /** In every chain from genesis, a settlement in block `k` belongs to the session
      owner of `authorities[slot % n]` with Aura's list at the end of block `k - 1`,
      and the proven events hold that owner's order. Block 0 never settles. */
  lemma RewardGoesToScheduledOwner(cfg: Config, genesis: State, chain: seq<Block>, k: nat, i: nat)
    requires genesis.authorities == []
    requires k < |chain| && i < |chain[k].inherents|
    requires InherentSettles(cfg, genesis, chain, k, i)
    ensures k > 0 && PreviousAura(chain, k) != []
    ensures var d, ctx := chain[k].inherents[i].data.value, chain[k].inherents[i].ctx;
            var st, aura := StateAt(cfg, genesis, chain, k, i), PreviousAura(chain, k);
            var slot := CurrentSlot(d.relayHeight, ChainState(cfg, genesis, chain[..k]).slotWidth);
            var key := aura[slot % |aura|];
            && key in ctx.keyOwner
            && ProvenOrderBy(cfg, d, ctx.keyOwner[key])
            && SettlementOf(cfg, st, CreateOrder(Unsigned, Some(d), ctx)).key == key
            && SettlementOf(cfg, st, CreateOrder(Unsigned, Some(d), ctx)).owner == ctx.keyOwner[key]
            && Apply(cfg, st, CreateOrder(Unsigned, Some(d), ctx))
               == Paid(cfg, st, ctx.keyOwner[key]).(previousSlot := slot)
  {
    InherentSeesPreviousBlock(cfg, genesis, chain, k, i);
  }

  // ------------------------------------------------- chains are runs of steps

  function ChainSteps(chain: seq<Block>): (steps: seq<Step>) {
    if chain == [] then [] else ChainSteps(chain[..|chain| - 1]) + BlockSteps(chain[|chain| - 1])
  }

  /** A chain is one run of the pallet: what is proved of runs holds of chains. */
  lemma {:induction false} ChainIsARun(cfg: Config, genesis: State, chain: seq<Block>)
    ensures ChainState(cfg, genesis, chain) == Run(cfg, genesis, ChainSteps(chain))
  {
    if chain != [] {
      var before := chain[..|chain| - 1];
      ChainIsARun(cfg, genesis, before);
      RunSplits(cfg, genesis, ChainSteps(before), BlockSteps(chain[|chain| - 1]));
    }
  }

  lemma {:induction false} BlockStepsInChain(chain: seq<Block>, k: nat)
    requires k < |chain|
    ensures ChainSteps(chain[..k]) + BlockSteps(chain[k]) <= ChainSteps(chain)
    decreases |chain|
  {
    var last := |chain| - 1;
    if k < last {
      BlockStepsInChain(chain[..last], k);
      assert chain[..last][..k] == chain[..k];
    }
  }

  /** Where the `i`-th inherent of block `k` stands among all the steps. */
  function Position(chain: seq<Block>, k: nat, i: nat): (n: nat)
    requires k < |chain| && i < |chain[k].inherents|
  {
    |ChainSteps(chain[..k])| + i
  }

  lemma InherentAtPosition(cfg: Config, genesis: State, chain: seq<Block>, k: nat, i: nat)
    requires k < |chain| && i < |chain[k].inherents|
    ensures var steps, n := ChainSteps(chain), Position(chain, k, i);
            && n < |steps|
            && steps[n] == CreateOrder(Unsigned, chain[k].inherents[i].data, chain[k].inherents[i].ctx)
            && Run(cfg, genesis, steps[..n]) == StateAt(cfg, genesis, chain, k, i)
  {
    var steps, n, front := ChainSteps(chain), Position(chain, k, i), ChainSteps(chain[..k]);
    BlockStepsInChain(chain, k);
    var upTo := front + BlockSteps(chain[k]);
    assert steps[n] == upTo[n] == InherentSteps(chain[k].inherents)[i];
    assert steps[..n] == upTo[..n] == front + InherentSteps(chain[k].inherents)[..i];
    RunSplits(cfg, genesis, front, InherentSteps(chain[k].inherents)[..i]);
    ChainIsARun(cfg, genesis, chain[..k]);
  }

  /** Every step of a well-formed chain that settles is an inherent of some block, so
      the statements about inherents miss no reward. */
  lemma {:induction false} EverySettlementIsAnInherent(cfg: Config, genesis: State, chain: seq<Block>, n: nat)
    returns (k: nat, i: nat)
    requires WellFormedChain(chain) && n < |ChainSteps(chain)|
    requires StepSettles(cfg, Run(cfg, genesis, ChainSteps(chain)[..n]), ChainSteps(chain)[n])
    ensures k < |chain| && i < |chain[k].inherents| && Position(chain, k, i) == n
    ensures InherentSettles(cfg, genesis, chain, k, i)
  {
    k, i := UnsignedOrderIsAnInherent(chain, n);
    InherentAtPosition(cfg, genesis, chain, k, i);
  }

  lemma {:induction false} UnsignedOrderIsAnInherent(chain: seq<Block>, n: nat) returns (k: nat, i: nat)
    requires WellFormedChain(chain) && n < |ChainSteps(chain)|
    requires ChainSteps(chain)[n].CreateOrder? && ChainSteps(chain)[n].origin == Unsigned
    ensures k < |chain| && i < |chain[k].inherents| && Position(chain, k, i) == n
    decreases |chain|
  {
    var last := |chain| - 1;
    var front := ChainSteps(chain[..last]);
    if n < |front| {
      k, i := UnsignedOrderIsAnInherent(chain[..last], n);
      assert chain[..last][..k] == chain[..k];
    } else {
      k, i := last, n - |front|;
      assert ChainSteps(chain)[n] == BlockSteps(chain[last])[i];
      assert WellFormed(chain[last]);
    }
  }

  /** No slot is settled twice in a chain, across blocks or within one, whatever the
      calls in between: later settlements have later slots. */
  lemma SlotSettledOnceInChain(cfg: Config, genesis: State, chain: seq<Block>, k: nat, i: nat, l: nat, j: nat)
    requires k < |chain| && i < |chain[k].inherents| && l < |chain| && j < |chain[l].inherents|
    requires Position(chain, k, i) < Position(chain, l, j)
    requires InherentSettles(cfg, genesis, chain, k, i) && InherentSettles(cfg, genesis, chain, l, j)
    ensures SlotAt(StateAt(cfg, genesis, chain, k, i), chain[k].inherents[i].data.value.relayHeight)
            < SlotAt(StateAt(cfg, genesis, chain, l, j), chain[l].inherents[j].data.value.relayHeight)
  {
    InherentAtPosition(cfg, genesis, chain, k, i);
    InherentAtPosition(cfg, genesis, chain, l, j);
    LaterStepLaterSlot(cfg, genesis, ChainSteps(chain), Position(chain, k, i), Position(chain, l, j));
  }

  // ---------------------------------------------------- node and pallet agree

  /** What a node reads at the head of block `k - 1`: Aura's list and the width. */
  ghost function NodeChoice(cfg: Config, genesis: State, chain: seq<Block>, k: nat, height: u32): (p: Placer<Key>)
    requires 0 < k <= |chain|
  {
    OrderPlacer(chain[k - 1].aura, height, ChainState(cfg, genesis, chain[..k]).slotWidth)
  }

  /** The key the node picks from the head of block `k - 1` at height `h1` is the key
      the pallet picks in block `k`, for every inherent height of the same slot. */
  lemma NodeAndPalletAgree(cfg: Config, genesis: State, chain: seq<Block>, k: nat, i: nat, h1: u32, h2: u32)
    requires genesis.authorities == []
    requires 0 < k < |chain| && i < |chain[k].inherents|
    requires var w := ChainState(cfg, genesis, chain[..k]).slotWidth; CurrentSlot(h1, w) == CurrentSlot(h2, w)
    ensures var st := StateAt(cfg, genesis, chain, k, i);
            && (NodeChoice(cfg, genesis, chain, k, h1).Found? <==> st.authorities != [])
            && (st.authorities != [] ==> NodeChoice(cfg, genesis, chain, k, h1) == Found(Scheduled(st, h2)))
  {
    InherentSeesPreviousBlock(cfg, genesis, chain, k, i);
  }
}
