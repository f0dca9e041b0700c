/** The two one-block-per-slot guards of the collator.

    client/consensus/on-demand-aura/src/lib.rs: an atomic `fetch_max` shared by all
    clones of the consensus object.
    client/consensus/on-demand-aura/src/collators/basic.rs: two loop variables. */
module AtomicGuard {

  import opened Wrappers

  /** `s` is above zero and above everything offered before. */
  predicate StrictMaximum(offered: seq<nat>, s: nat) {
    s > 0 && forall j :: 0 <= j < |offered| ==> offered[j] < s
  }

  /** `m` is the largest offer so far; zero if there was none above it. */
  ghost predicate IsMaximum(offered: seq<nat>, m: nat) {
    && (forall j :: 0 <= j < |offered| ==> offered[j] <= m)
    && (m == 0 || m in offered)
  }

  /** The shared cell. Every method is one indivisible step, so the order in which
      calls reach it is the linearised order, whichever clone they come from. */
  class AtomicU64 {
    var value: nat
    ghost var offered: seq<nat>

    ghost predicate Valid()
      reads this
    {
      IsMaximum(offered, value)
    }

    constructor ()
      ensures Valid() && offered == [] && value == 0
    {
      value, offered := 0, [];
    }

    method FetchMax(x: nat) returns (previous: nat)
      requires Valid()
      modifies this
      ensures Valid()
      ensures previous == old(value) && offered == old(offered) + [x]
    {
      previous := value;
      if x > value {
        value := x;
      }
      offered := offered + [x];
    }
  }

  class AuraConsensus {
    const lastSlotProcessed: AtomicU64

    ghost predicate Valid()
      reads this, lastSlotProcessed
    {
      lastSlotProcessed.Valid()
    }

    constructor ()
      ensures Valid() && fresh(lastSlotProcessed) && lastSlotProcessed.offered == []
    {
      lastSlotProcessed := new AtomicU64();
    }

    constructor Sharing(cell: AtomicU64)
      ensures lastSlotProcessed == cell
    {
      lastSlotProcessed := cell;
    }

    /** A clone is a new object over the same cell. */
    method Clone() returns (c: AuraConsensus)
      requires Valid()
      ensures fresh(c) && c.lastSlotProcessed == lastSlotProcessed && c.Valid()
    {
      c := new AuraConsensus.Sharing(lastSlotProcessed);
    }

    /** `slot` is the slot the inherent data providers name, if they could be made;
        `built` is what the worker returns when it is asked for that slot. */
    method ProduceCandidate(slot: Option<nat>, built: Option<nat>) returns (candidate: Option<nat>)
      requires Valid()
      modifies lastSlotProcessed
      ensures Valid()
      ensures slot.None? ==> candidate.None? && lastSlotProcessed.offered == old(lastSlotProcessed.offered)
      ensures slot.Some? ==>
                && lastSlotProcessed.offered == old(lastSlotProcessed.offered) + [slot.value]
                && candidate == (if StrictMaximum(old(lastSlotProcessed.offered), slot.value) then built else None)
    {
      if slot.None? {
        return None;
      }
      var previous := lastSlotProcessed.FetchMax(slot.value);
      if previous >= slot.value {
        return None;
      }
      return built;
    }
  }

  // --------------------------------------------------------------- whole runs

  /** The cell after the offers, as `fetch_max` computes it step by step. */
  function Cell(offered: seq<nat>): (value: nat) {
    if offered == [] then 0
    else
      var before, x := Cell(offered[..|offered| - 1]), offered[|offered| - 1];
      if x > before then x else before
  }

  /** The guard's test on the `i`-th call of a linearised run. */
  predicate Passes(offered: seq<nat>, i: nat)
    requires i < |offered|
  {
    Cell(offered[..i]) < offered[i]
  }

  lemma {:induction false} CellIsMaximum(offered: seq<nat>)
    ensures IsMaximum(offered, Cell(offered))
  {
    if offered != [] {
      CellIsMaximum(offered[..|offered| - 1]);
    }
  }

  /** The calls that pass are exactly the strict left-to-right maxima above zero. */
  lemma PassesExactlyTheMaxima(offered: seq<nat>, i: nat)
    requires i < |offered|
    ensures Passes(offered, i) <==> StrictMaximum(offered[..i], offered[i])
  {
    CellIsMaximum(offered[..i]);
  }

  /** No slot passes twice, and passing slots rise, whatever the interleaving. */
  lemma NoSlotPassesTwice(offered: seq<nat>, i: nat, j: nat)
    requires i < j < |offered| && Passes(offered, i) && Passes(offered, j)
    ensures offered[i] < offered[j]
  {
    PassesExactlyTheMaxima(offered, j);
    assert offered[..j][i] == offered[i];
  }

  /** The final cell does not depend on the interleaving: two orders of the same
      calls leave the same value, and that value passed once unless it is zero. */
  lemma FinalCellIgnoresOrder(a: seq<nat>, b: seq<nat>)
    requires multiset(a) == multiset(b)
    ensures Cell(a) == Cell(b)
    ensures Cell(a) > 0 ==> exists i :: 0 <= i < |a| && a[i] == Cell(a) && Passes(a, i)
  {
    CellIsMaximum(a);
    CellIsMaximum(b);
    assert forall x :: x in a <==> x in multiset(a);
    assert forall x :: x in b <==> x in multiset(b);
    if Cell(a) > 0 {
      MaximumPassed(a);
    }
  }

  lemma {:induction false} MaximumPassed(offered: seq<nat>)
    requires Cell(offered) > 0
    ensures exists i :: 0 <= i < |offered| && offered[i] == Cell(offered) && Passes(offered, i)
  {
    var n := |offered| - 1;
    var before := offered[..n];
    if Cell(offered) == Cell(before) {
      MaximumPassed(before);
      var i :| 0 <= i < |before| && before[i] == Cell(before) && Passes(before, i);
      assert offered[..i] == before[..i];
      assert Passes(offered, i);
    } else {
      assert Passes(offered, n);
    }
  }
}

module BasicCollator {
  import opened Wrappers

  type Hash = nat

  /** The relay-chain block a request builds on. */
  datatype RelayParent = RelayParent(hash: Hash, number: nat)

  /** How a request ends once the slot is claimed and the guard is passed. */
  datatype Ending = Failed | NoProposal | Collated

  /** A request either drops out before the guard, or claims `slot` at its parent. */
  datatype Request = Dropped | Claimed(slot: nat, parent: RelayParent, ending: Ending)

  /** A claim that went all the way to the update of the two loop variables, with
      or without a block in answer to the request. */
  datatype Claim = Claim(slot: nat, parent: RelayParent, built: bool)

  predicate Skips(lastSlot: nat, lastNumber: nat, slot: nat, number: nat) {
    lastSlot >= slot && lastNumber < number
  }

  function LastSlot(claims: seq<Claim>): nat {
    if claims == [] then 0 else claims[|claims| - 1].slot
  }

  function LastNumber(claims: seq<Claim>): nat {
    if claims == [] then 0 else claims[|claims| - 1].parent.number
  }

  /** The request is processed when `claims` were processed before it. */
  predicate Processes(claims: seq<Claim>, r: Request) {
    r.Claimed? && !Skips(LastSlot(claims), LastNumber(claims), r.slot, r.parent.number) && !r.ending.Failed?
  }

  function ClaimOf(r: Request): Claim
    requires r.Claimed?
  {
    Claim(r.slot, r.parent, r.ending.Collated?)
  }

  /** The claims processed out of `requests`. */
  function Processed(requests: seq<Request>): (claims: seq<Claim>) {
    if requests == [] then []
    else
      var before, r := Processed(requests[..|requests| - 1]), requests[|requests| - 1];
      if Processes(before, r) then before + [ClaimOf(r)] else before
  }

  /** The request loop. */
  method Run(requests: seq<Request>) returns (processed: seq<Claim>)
    ensures processed == Processed(requests)
  {
    var lastProcessedSlot, lastRelayChainBlock := 0, 0;
    processed := [];
    var k := 0;
    while k < |requests|
      invariant 0 <= k <= |requests|
      invariant processed == Processed(requests[..k])
      invariant lastProcessedSlot == LastSlot(processed) && lastRelayChainBlock == LastNumber(processed)
    {
      var r := requests[k];
      k := k + 1;
      assert requests[..k][..k - 1] == requests[..k - 1];
      if r.Dropped? { continue; }
      if lastProcessedSlot >= r.slot && lastRelayChainBlock < r.parent.number { continue; }
      if r.ending.Failed? { continue; }
      processed := processed + [Claim(r.slot, r.parent, r.ending.Collated?)];
      lastProcessedSlot, lastRelayChainBlock := r.slot, r.parent.number;
    }
    assert requests[..k] == requests;
  }

  /** What one more request does: it is processed if it was claimed, did not fail, and
      its slot is above that of the last claim, answered with a block or without, or its
      number is not above that claim's. Then it is the last claim; else nothing changes. */
  lemma ProcessedOneMore(requests: seq<Request>, r: Request)
    ensures var p := Processed(requests);
            var slot, number := if p == [] then 0 else p[|p| - 1].slot, if p == [] then 0 else p[|p| - 1].parent.number;
            Processed(requests + [r])
            == if r.Claimed? && r.ending != Failed && (r.slot > slot || r.parent.number <= number)
               then p + [Claim(r.slot, r.parent, r.ending == Collated)]
               else p
    ensures Processed([]) == []
  {
    assert (requests + [r])[..|requests|] == requests;
  }

  /** The request would claim a slot no higher than `slot` at a number above `number`. */
  predicate HeldBack(r: Request, slot: nat, number: nat) {
    r.Claimed? ==> r.slot <= slot && r.parent.number > number
  }

  /** The last claim holds back every later one of a slot no higher at a higher number,
      until another is processed; a claim that led to no block does so as well. */
  lemma {:induction false} LastClaimHoldsBack(requests: seq<Request>, later: seq<Request>)
    requires var p := Processed(requests);
             p != [] && forall k :: 0 <= k < |later| ==>
               HeldBack(later[k], p[|p| - 1].slot, p[|p| - 1].parent.number)
    ensures Processed(requests + later) == Processed(requests)
    decreases |later|
  {
    if later == [] {
      assert requests + later == requests;
    } else {
      var n := |later| - 1;
      LastClaimHoldsBack(requests, later[..n]);
      assert HeldBack(later[n], Processed(requests)[|Processed(requests)| - 1].slot,
                      Processed(requests)[|Processed(requests)| - 1].parent.number);
      ProcessedOneMore(requests + later[..n], later[n]);
      assert requests + later == requests + later[..n] + [later[n]];
    }
  }

  predicate NumbersRise(claims: seq<Claim>, from: nat, to: nat)
    requires from <= to <= |claims|
  {
    forall i :: from < i < to ==> claims[i - 1].parent.number < claims[i].parent.number
  }

  /** The `i`-th claim has a higher slot than its neighbour if it has a higher number. */
  predicate RisesAt(claims: seq<Claim>, i: nat)
    requires 0 < i < |claims|
  {
    claims[i - 1].parent.number < claims[i].parent.number ==> claims[i - 1].slot < claims[i].slot
  }

  lemma {:induction false} NeighboursRise(requests: seq<Request>, i: nat)
    requires 0 < i < |Processed(requests)|
    ensures RisesAt(Processed(requests), i)
    decreases |requests|
  {
    var before := Processed(requests[..|requests| - 1]);
    if i < |before| {
      NeighboursRise(requests[..|requests| - 1], i);
    } else {
      assert Processed(requests)[i - 1] == before[|before| - 1];
    }
  }

  /** Along any stretch of processed requests whose relay-parent numbers rise, the
      slots rise: each slot is collated at most once in it. Requests that were
      dropped, skipped or failed in between do not matter. */
  lemma {:induction false} SlotsRiseWithNumbers(requests: seq<Request>, from: nat, to: nat, i: nat, j: nat)
    requires from <= to <= |Processed(requests)| && NumbersRise(Processed(requests), from, to)
    requires from <= i < j < to
    ensures Processed(requests)[i].slot < Processed(requests)[j].slot
    decreases j
  {
    NeighboursRise(requests, j);
    if i < j - 1 {
      SlotsRiseWithNumbers(requests, from, to, i, j - 1);
    }
  }

  // ---------------------------- when "one block per slot per relay fork" holds

  /** The parents a list of requests arrives with. */
  ghost predicate ArrivesAt(requests: seq<Request>, arrivals: seq<RelayParent>) {
    && |requests| == |arrivals|
    && forall i :: 0 <= i < |requests| && requests[i].Claimed? ==> requests[i].parent == arrivals[i]
  }

  /** The slot of a claim is computed from the header of its relay parent. */
  ghost predicate SlotsFromParents(requests: seq<Request>, slotOf: RelayParent -> nat) {
    forall i :: 0 <= i < |requests| && requests[i].Claimed? ==> requests[i].slot == slotOf(requests[i].parent)
  }

  /** No two blocks were built for one slot on parents of one fork. */
  ghost predicate OncePerFork(claims: seq<Claim>, sameFork: (RelayParent, RelayParent) -> bool) {
    forall a, b | 0 <= a < b < |claims| && sameFork(claims[a].parent, claims[b].parent) ::
      claims[a].built && claims[b].built ==> claims[a].slot != claims[b].slot
  }

  /** From arrival `i` to arrival `j` every number is above the one before. */
  predicate RisesBetween(arrivals: seq<RelayParent>, i: nat, j: nat)
    requires j < |arrivals|
  {
    forall t :: i < t <= j ==> arrivals[t - 1].number < arrivals[t].number
  }

  /** Between two arrivals of one fork nothing arrives out of order. */
  ghost predicate OrderedWithinForks(arrivals: seq<RelayParent>, sameFork: (RelayParent, RelayParent) -> bool) {
    forall i, j :: 0 <= i < j < |arrivals| && sameFork(arrivals[i], arrivals[j]) ==> RisesBetween(arrivals, i, j)
  }

  /** Whatever slots the parents have and however requests end, no slot gets two blocks
      on one fork. */
  ghost predicate AlwaysOncePerFork(arrivals: seq<RelayParent>, sameFork: (RelayParent, RelayParent) -> bool) {
    forall requests: seq<Request>, slotOf: RelayParent -> nat ::
      ArrivesAt(requests, arrivals) && SlotsFromParents(requests, slotOf) ==> OncePerFork(Processed(requests), sameFork)
  }

  /** The guard keeps every slot to one block per fork if and only if between any two
      arrivals of one fork the relay-parent numbers strictly rise. This holds for every
      notion of fork that puts a block on one fork with itself. The rise is enough even
      if the slot duration, and with it the slot of a parent, changes on the way. */
  lemma OncePerForkExactly(arrivals: seq<RelayParent>, sameFork: (RelayParent, RelayParent) -> bool)
    requires forall p :: sameFork(p, p)
    ensures AlwaysOncePerFork(arrivals, sameFork) <==> OrderedWithinForks(arrivals, sameFork)
    ensures OrderedWithinForks(arrivals, sameFork) ==>
              forall requests: seq<Request> ::
                ArrivesAt(requests, arrivals) ==> OncePerFork(Processed(requests), sameFork)
  {
    if OrderedWithinForks(arrivals, sameFork) {
      forall requests: seq<Request> | ArrivesAt(requests, arrivals)
        ensures OncePerFork(Processed(requests), sameFork)
      {
        OrderedIsOncePerFork(requests, arrivals, sameFork);
      }
    } else {
      var i, j :| 0 <= i < j < |arrivals| && sameFork(arrivals[i], arrivals[j]) && !RisesBetween(arrivals, i, j);
      var requests, slotOf := DisorderBreaksFork(arrivals, sameFork, i, j);
    }
  }

  lemma DisorderBreaksFork(arrivals: seq<RelayParent>, sameFork: (RelayParent, RelayParent) -> bool, i: nat, j: nat)
    returns (requests: seq<Request>, slotOf: RelayParent -> nat)
    requires forall p :: sameFork(p, p)
    requires i < j < |arrivals| && sameFork(arrivals[i], arrivals[j]) && !RisesBetween(arrivals, i, j)
    ensures ArrivesAt(requests, arrivals) && SlotsFromParents(requests, slotOf)
    ensures !OncePerFork(Processed(requests), sameFork)
  {
    var k :| i < k <= j && arrivals[k - 1].number >= arrivals[k].number;
    var a, b := DetourEnds(arrivals, sameFork, i, k, j);
    requests := Detour(arrivals, a, k, b);
    var from, to, top := arrivals[a], arrivals[b], arrivals[k - 1];
    slotOf := p => if p == from || p == to then 2 else if p == top then 3 else 1;
    DetourBuildsTwice(arrivals, a, k, b);
    SameSlotOnFork(Processed(requests), sameFork);
  }

  /** The arrivals of the detour that must have different slots have different parents. */
  predicate PartsApart(arrivals: seq<RelayParent>, a: nat, k: nat, b: nat)
    requires a < k <= b < |arrivals|
  {
    && (a < k - 1 ==> arrivals[k - 1] != arrivals[a] && arrivals[k - 1] != arrivals[b])
    && (k < b ==> arrivals[k] != arrivals[a] && arrivals[k] != arrivals[b] && arrivals[k] != arrivals[k - 1])
  }

  /** Around a drop at `k` between two arrivals of one fork there are two such arrivals
      for a detour, even where parents arrive more than once. */
  lemma DetourEnds(arrivals: seq<RelayParent>, sameFork: (RelayParent, RelayParent) -> bool, i: nat, k: nat, j: nat)
    returns (a: nat, b: nat)
    requires forall p :: sameFork(p, p)
    requires i < k <= j < |arrivals| && sameFork(arrivals[i], arrivals[j])
    ensures a < k <= b < |arrivals| && sameFork(arrivals[a], arrivals[b]) && PartsApart(arrivals, a, k, b)
  {
    if arrivals[k - 1] == arrivals[k] {
      a, b := k - 1, k;
    } else if arrivals[k - 1] == arrivals[j] {
      a, b := k - 1, j;
    } else if arrivals[k] == arrivals[i] {
      a, b := i, k;
    } else {
      a := if arrivals[k - 1] == arrivals[i] then k - 1 else i;
      b := if arrivals[k] == arrivals[j] then k else j;
    }
  }

  lemma SameSlotOnFork(p: seq<Claim>, sameFork: (RelayParent, RelayParent) -> bool)
    requires |p| >= 2 && p[0].built && p[|p| - 1].built && p[0].slot == p[|p| - 1].slot
    requires sameFork(p[0].parent, p[|p| - 1].parent)
    ensures !OncePerFork(p, sameFork)
  {
  }

  /** Where the processed claims come from. */
  function Origins(requests: seq<Request>): (indices: seq<nat>) {
    if requests == [] then []
    else
      var n := |requests| - 1;
      Origins(requests[..n]) + (if Processes(Processed(requests[..n]), requests[n]) then [n] else [])
  }

  lemma {:induction false} OriginsMatch(requests: seq<Request>)
    ensures |Origins(requests)| == |Processed(requests)|
    ensures forall a :: 0 <= a < |Origins(requests)| ==>
              var n := Origins(requests)[a];
              n < |requests| && requests[n].Claimed? && Processed(requests)[a] == ClaimOf(requests[n])
    ensures forall a, b :: 0 <= a < b < |Origins(requests)| ==> Origins(requests)[a] < Origins(requests)[b]
  {
    if requests != [] {
      OriginsMatch(requests[..|requests| - 1]);
    }
  }

  lemma {:induction false} RisesAcross(arrivals: seq<RelayParent>, i: nat, j: nat, s: nat, t: nat)
    requires j < |arrivals| && RisesBetween(arrivals, i, j) && i <= s < t <= j
    ensures arrivals[s].number < arrivals[t].number
    decreases t
  {
    if s < t - 1 {
      RisesAcross(arrivals, i, j, s, t - 1);
    }
  }

  lemma OrderedIsOncePerFork(requests: seq<Request>, arrivals: seq<RelayParent>,
                             sameFork: (RelayParent, RelayParent) -> bool)
    requires ArrivesAt(requests, arrivals) && OrderedWithinForks(arrivals, sameFork)
    ensures OncePerFork(Processed(requests), sameFork)
  {
    OriginsMatch(requests);
    var p, o := Processed(requests), Origins(requests);
    forall a, b | 0 <= a < b < |p| && sameFork(p[a].parent, p[b].parent)
      ensures p[a].slot != p[b].slot
    {
      assert RisesBetween(arrivals, o[a], o[b]);
      forall t | a < t < b + 1
        ensures p[t - 1].parent.number < p[t].parent.number
      {
        assert o[a] <= o[t - 1] < o[t] <= o[b];
        RisesAcross(arrivals, o[a], o[b], o[t - 1], o[t]);
      }
      SlotsRiseWithNumbers(requests, a, b + 1, a, b);
    }
  }

  /** Claims slot 2 at arrivals `i` and `j`. In between, slot 3 at `k - 1` and slot 1
      at `k`, where the number does not rise, carry the guard back below slot 2. */
  function Detour(arrivals: seq<RelayParent>, i: nat, k: nat, j: nat): (requests: seq<Request>)
    requires i < k <= j < |arrivals|
    ensures |requests| == |arrivals|
  {
    seq(|arrivals|, t requires 0 <= t < |arrivals| =>
      if t == i || t == j then Claimed(2, arrivals[t], Collated)
      else if t == k - 1 then Claimed(3, arrivals[t], Collated)
      else if t == k then Claimed(1, arrivals[t], Collated)
      else Dropped)
  }

  lemma {:induction false} DroppedChangeNothing(requests: seq<Request>, a: nat, b: nat)
    requires a <= b <= |requests| && forall t :: a <= t < b ==> requests[t].Dropped?
    ensures Processed(requests[..b]) == Processed(requests[..a])
    decreases b
  {
    if a < b {
      DroppedChangeNothing(requests, a, b - 1);
      assert requests[..b][..b - 1] == requests[..b - 1];
    }
  }

  lemma ProcessedNext(requests: seq<Request>, t: nat)
    requires t < |requests| && Processes(Processed(requests[..t]), requests[t])
    ensures Processed(requests[..t + 1]) == Processed(requests[..t]) + [ClaimOf(requests[t])]
  {
    assert requests[..t + 1][..t] == requests[..t];
  }

  /** Up to the arrival before `k` the detour has one claim of slot 2, followed by one
      of slot 3 unless `k - 1` is `i` itself. */
  lemma DetourRises(arrivals: seq<RelayParent>, i: nat, k: nat, j: nat)
    requires i < k <= j < |arrivals|
    ensures var p := Processed(Detour(arrivals, i, k, j)[..k]);
            && p == [Claim(2, arrivals[i], true)] + (if i < k - 1 then [Claim(3, arrivals[k - 1], true)] else [])
            && LastNumber(p) == arrivals[k - 1].number
  {
    var r := Detour(arrivals, i, k, j);
    DroppedChangeNothing(r, 0, i);
    ProcessedNext(r, i);
    if i < k - 1 {
      DroppedChangeNothing(r, i + 1, k - 1);
      ProcessedNext(r, k - 1);
    }
  }

  /** First claim and last claim of a list that has both. */
  predicate Ends(p: seq<Claim>, first: Claim, last: Claim) {
    |p| >= 2 && p[0] == first && p[|p| - 1] == last
  }

  /** At `k` the guard lets the detour back below slot 2, or `k` is `j` itself. */
  lemma DetourFalls(arrivals: seq<RelayParent>, i: nat, k: nat, j: nat)
    requires i < k <= j < |arrivals| && arrivals[k - 1].number >= arrivals[k].number
    ensures Ends(Processed(Detour(arrivals, i, k, j)[..k + 1]), Claim(2, arrivals[i], true),
                 Claim(if k == j then 2 else 1, arrivals[k], true))
  {
    DetourRises(arrivals, i, k, j);
    ProcessedNext(Detour(arrivals, i, k, j), k);
  }

  lemma DetourReturns(arrivals: seq<RelayParent>, i: nat, k: nat, j: nat)
    requires i < k < j < |arrivals| && arrivals[k - 1].number >= arrivals[k].number
    ensures Ends(Processed(Detour(arrivals, i, k, j)[..j + 1]), Claim(2, arrivals[i], true),
                 Claim(2, arrivals[j], true))
  {
    var r := Detour(arrivals, i, k, j);
    DetourFalls(arrivals, i, k, j);
    DroppedChangeNothing(r, k + 1, j);
    ProcessedNext(r, j);
  }

  /** The detour builds slot 2 at arrival `i` and again at arrival `j`. */
  lemma DetourBuildsTwice(arrivals: seq<RelayParent>, i: nat, k: nat, j: nat)
    requires i < k <= j < |arrivals| && arrivals[k - 1].number >= arrivals[k].number
    ensures ArrivesAt(Detour(arrivals, i, k, j), arrivals)
    ensures Ends(Processed(Detour(arrivals, i, k, j)), Claim(2, arrivals[i], true), Claim(2, arrivals[j], true))
  {
    var r := Detour(arrivals, i, k, j);
    if k < j {
      DetourReturns(arrivals, i, k, j);
    } else {
      DetourFalls(arrivals, i, k, j);
    }
    DroppedChangeNothing(r, j + 1, |r|);
    assert r[..|r|] == r;
  }

  // -------------------------------------------------- two readings of the iff

  /** No two blocks were built for the same slot, on whatever forks. */
  predicate OncePerSlot(claims: seq<Claim>) {
    forall a, b :: 0 <= a < b < |claims| && claims[a].built && claims[b].built ==> claims[a].slot != claims[b].slot
  }

  predicate Rising(arrivals: seq<RelayParent>) {
    forall i :: 0 < i < |arrivals| ==> arrivals[i - 1].number < arrivals[i].number
  }

  ghost predicate AlwaysOncePerSlot(arrivals: seq<RelayParent>) {
    forall requests: seq<Request>, slotOf: RelayParent -> nat ::
      ArrivesAt(requests, arrivals) && SlotsFromParents(requests, slotOf) ==> OncePerSlot(Processed(requests))
  }

  /** One block per slot over all forks together: if and only if the relay-parent
      numbers strictly rise from request to request. */
  lemma OncePerSlotExactlyWhenRising(arrivals: seq<RelayParent>)
    ensures AlwaysOncePerSlot(arrivals) <==> Rising(arrivals)
  {
    var anyFork := (a: RelayParent, b: RelayParent) => true;
    OncePerForkExactly(arrivals, anyFork);
    AllOneFork(anyFork);
    RisingIsOrdered(arrivals, anyFork);
  }

  lemma AllOneFork(anyFork: (RelayParent, RelayParent) -> bool)
    requires forall p, q :: anyFork(p, q)
    ensures forall claims: seq<Claim> :: OncePerFork(claims, anyFork) <==> OncePerSlot(claims)
  {
  }

  lemma RisingIsOrdered(arrivals: seq<RelayParent>, anyFork: (RelayParent, RelayParent) -> bool)
    requires forall p, q :: anyFork(p, q)
    ensures OrderedWithinForks(arrivals, anyFork) <==> Rising(arrivals)
  {
    if !Rising(arrivals) {
      var i :| 0 < i < |arrivals| && arrivals[i - 1].number >= arrivals[i].number;
      assert anyFork(arrivals[i - 1], arrivals[i]) && !RisesBetween(arrivals, i - 1, i);
    }
  }

  /** The ancestor `steps` blocks before `h`, where the tree maps blocks to parents. */
  function Ancestor(tree: map<Hash, Hash>, h: Hash, steps: nat): (a: Option<Hash>)
    decreases steps
  {
    if steps == 0 then Some(h)
    else if h in tree then Ancestor(tree, tree[h], steps - 1)
    else None
  }

  /** One of the two blocks is the other or an ancestor of it. */
  predicate OnOneFork(tree: map<Hash, Hash>, a: RelayParent, b: RelayParent) {
    if a.number <= b.number then Ancestor(tree, b.hash, b.number - a.number) == Some(a.hash)
    else Ancestor(tree, a.hash, a.number - b.number) == Some(b.hash)
  }

  /** The comment at basic.rs:201-203 promises one block per slot per relay fork. Here
      slot 5 is built on block 10 and again on its child, block 11, because a claim
      on another block 10 came in between. */
  lemma SameSlotTwiceOnOneFork()
    ensures var tree := map[1 := 0, 2 := 0, 3 := 1];
            var first, other, child := RelayParent(1, 10), RelayParent(2, 10), RelayParent(3, 11);
            var requests := [Claimed(5, first, Collated), Claimed(4, other, Collated), Claimed(5, child, Collated)];
            && OnOneFork(tree, first, child) && !OnOneFork(tree, first, other)
            && Processed(requests) == [Claim(5, first, true), Claim(4, other, true), Claim(5, child, true)]
            && SlotsFromParents(requests, p => if p == other then 4 else 5)
            && !OncePerFork(Processed(requests), (a, b) => OnOneFork(tree, a, b))
  {
    var tree := map[1 := 0, 2 := 0, 3 := 1];
    var first, other, child := RelayParent(1, 10), RelayParent(2, 10), RelayParent(3, 11);
    var r := [Claimed(5, first, Collated), Claimed(4, other, Collated), Claimed(5, child, Collated)];
    assert Ancestor(tree, 3, 1) == Ancestor(tree, 1, 0) == Some(1);
    ProcessedNext(r, 0);
    ProcessedNext(r, 1);
    ProcessedNext(r, 2);
    assert r[..3] == r;
    var p := Processed(r);
    assert p[0].slot == p[2].slot;
  }
}
