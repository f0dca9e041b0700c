/** The import verifier's use of the equivocation defender.

    client/consensus/on-demand-aura/src/equivocation_import_queue.rs, `verify` */
module ImportVerifier {
  import opened EquivocationDefender
  import opened Wrappers

  datatype ForkChoice = Custom(best: bool) | LongestChain

  /** The part of `BlockImportParams` that `verify` reads or writes. */
  datatype BlockParams = BlockParams(
    header: nat,
    skipExecutionChecks: bool,
    withState: bool,
    hasBody: bool,
    postDigests: seq<nat>,
    forkChoice: Option<ForkChoice>,
    postHash: Option<nat>)

  /** What `check_header_slot_and_seal` found. */
  datatype SealCheck =
    | Sealed(preHeader: nat, slot: Slot, seal: nat)
    | FromFutureSlot
    | InvalidSeal

  /** Everything `verify` learns from the client while it runs. */
  datatype Readings = Readings(
    postHash: nat,
    authoritiesRead: bool,
    slotDurationRead: bool,
    sealCheck: SealCheck,
    inherentsHold: bool)

  datatype Verdict = Accepted(params: BlockParams) | Rejected

  /** The block skips verification: nothing is checked and nothing is counted. */
  predicate Bypasses(p: BlockParams) { p.skipExecutionChecks || p.withState }

  /** The slot this block is counted against, if it gets that far. */
  function CountedSlot(p: BlockParams, r: Readings): (s: Option<Slot>) {
    if !Bypasses(p) && r.authoritiesRead && r.slotDurationRead && r.sealCheck.Sealed?
    then Some(r.sealCheck.slot)
    else None
  }

  function CallsAdded(p: BlockParams, r: Readings): (calls: seq<Slot>) {
    match CountedSlot(p, r) case Some(s) => [s] case None => []
  }

  class Verifier {
    const defender: NaiveEquivocationDefender

    ghost predicate Valid()
      reads this, defender
    {
      defender.Valid()
    }

    constructor ()
      ensures Valid() && fresh(defender) && defender.calls == []
    {
      defender := new NaiveEquivocationDefender();
    }

    method Verify(params: BlockParams, r: Readings) returns (v: Verdict)
      requires Valid()
      modifies defender
      ensures Valid()
      ensures defender.calls == old(defender.calls)
                + (if !params.skipExecutionChecks && !params.withState
                      && r.authoritiesRead && r.slotDurationRead && r.sealCheck.Sealed?
                   then [r.sealCheck.slot] else [])
      ensures v.Accepted? <==>
                || params.skipExecutionChecks || params.withState
                || (&& r.authoritiesRead && r.slotDurationRead && r.sealCheck.Sealed?
                    && Live(old(defender.calls), r.sealCheck.slot, LRU_WINDOW) < EQUIVOCATION_LIMIT
                    && (params.hasBody ==> r.inherentsHold))
      ensures v.Accepted? && (params.skipExecutionChecks || params.withState) ==>
                v.params == params.(forkChoice := Some(Custom(params.withState)))
      ensures v.Accepted? && !params.skipExecutionChecks && !params.withState ==>
                v.params == params.(header := r.sealCheck.preHeader,
                                    postDigests := params.postDigests + [r.sealCheck.seal],
                                    forkChoice := Some(LongestChain),
                                    postHash := Some(r.postHash))
    {
      var out := params;
      if params.skipExecutionChecks || params.withState {
        out := out.(forkChoice := Some(Custom(params.withState)));
        return Accepted(out);
      }
      if !r.authoritiesRead { return Rejected; }
      if !r.slotDurationRead { return Rejected; }
      match r.sealCheck {
        case Sealed(preHeader, slot, seal) =>
          out := out.(header := preHeader);
          out := out.(postDigests := out.postDigests + [seal]);
          out := out.(forkChoice := Some(LongestChain));
          out := out.(postHash := Some(r.postHash));
          var beyond := defender.InsertAndCheck(slot);
          if beyond { return Rejected; }
        case FromFutureSlot => return Rejected;
        case InvalidSeal => return Rejected;
      }
      if out.hasBody && !r.inherentsHold { return Rejected; }
      return Accepted(out);
    }
  }

  // --------------------------------------------------------------- whole runs

  /** One block offered to the verifier. */
  datatype Offer = Offer(params: BlockParams, readings: Readings)

  /** The slots counted along a run of offers. */
  function Counted(run: seq<Offer>): (calls: seq<Slot>) {
    if run == [] then []
    else Counted(run[..|run| - 1]) + CallsAdded(run[|run| - 1].params, run[|run| - 1].readings)
  }

  /** The sealed block of slot `s` gets through, given what was counted before. */
  predicate GetsThrough(calls: seq<Slot>, o: Offer, s: Slot) {
    && CountedSlot(o.params, o.readings) == Some(s)
    && Live(calls, s, LRU_WINDOW) < EQUIVOCATION_LIMIT
    && (o.params.hasBody ==> o.readings.inherentsHold)
  }

  /** How many sealed blocks of slot `s` the verifier lets through along a run. */
  function LetThrough(run: seq<Offer>, s: Slot): (n: nat) {
    if run == [] then 0
    else
      var before, last := run[..|run| - 1], run[|run| - 1];
      LetThrough(before, s) + (if GetsThrough(Counted(before), last, s) then 1 else 0)
  }

  /** How many of the verdicts accept a sealed block of slot `s`. */
  function AcceptedOf(run: seq<Offer>, verdicts: seq<Verdict>, s: Slot): (n: nat)
    requires |verdicts| == |run|
  {
    if run == [] then 0
    else
      var k := |run| - 1;
      AcceptedOf(run[..k], verdicts[..k], s)
      + (if CountedSlot(run[k].params, run[k].readings) == Some(s) && verdicts[k].Accepted? then 1 else 0)
  }

  /** The queue's use of a new verifier, block after block: what it accepts of a slot
      is what `LetThrough` counts, hence at most the limit on close runs. */
  method VerifyAll(run: seq<Offer>, s: Slot) returns (verdicts: seq<Verdict>)
    ensures |verdicts| == |run|
    ensures AcceptedOf(run, verdicts, s) == LetThrough(run, s)
    ensures Close(Counted(run), LRU_WINDOW) ==> AcceptedOf(run, verdicts, s) <= EQUIVOCATION_LIMIT
  {
    var verifier := new Verifier();
    verdicts := [];
    for k := 0 to |run|
      invariant verifier.Valid() && fresh(verifier) && fresh(verifier.defender)
      invariant |verdicts| == k
      invariant verifier.defender.calls == Counted(run[..k])
      invariant AcceptedOf(run[..k], verdicts, s) == LetThrough(run[..k], s)
    {
      var v := verifier.Verify(run[k].params, run[k].readings);
      assert run[..k + 1][..k] == run[..k] && (verdicts + [v])[..k] == verdicts;
      verdicts := verdicts + [v];
    }
    assert run[..|run|] == run;
    if Close(Counted(run), LRU_WINDOW) {
      AtMostLimitPerSlot(run, s);
    }
  }

  lemma {:induction false} LetThroughAtMostAccepted(run: seq<Offer>, s: Slot)
    ensures LetThrough(run, s) <= EquivocationDefender.Accepted(Counted(run), s, LRU_WINDOW, EQUIVOCATION_LIMIT)
  {
    if run != [] {
      var before, last := run[..|run| - 1], run[|run| - 1];
      LetThroughAtMostAccepted(before, s);
      LruAnswersExactly(Counted(before), s, LRU_WINDOW, EQUIVOCATION_LIMIT);
      match CountedSlot(last.params, last.readings) {
        case Some(x) => assert Counted(run)[..|Counted(run)| - 1] == Counted(before);
        case None => assert Counted(run) == Counted(before);
      }
    }
  }

  /** No slot gets more than `EQUIVOCATION_LIMIT` blocks past the verifier on any
      run in which no slot is crowded out of the window between two of its blocks. */
  lemma AtMostLimitPerSlot(run: seq<Offer>, s: Slot)
    requires Close(Counted(run), LRU_WINDOW)
    ensures LetThrough(run, s) <= EQUIVOCATION_LIMIT
  {
    LetThroughAtMostAccepted(run, s);
    AcceptsExactlyTheFirst(Counted(run), s, LRU_WINDOW, EQUIVOCATION_LIMIT);
  }
}
