/** The search for on-demand cores on the relay chain.

    services/order/src/chain.rs, `on_demand_cores_available` */
module CoreSearch {

  import opened Wrappers

  datatype Assignment = Idle | Pool | Task(id: nat)

  /** What reading and decoding one core descriptor gave. */
  datatype CoreRead =
    | Unreadable
    | NoDescriptor
    | NoCurrentWork
    | Working(assignments: seq<Assignment>)

  predicate HasPool(c: CoreRead) {
    c.Working? && Pool in c.assignments
  }

  /** Reading or decoding stops being possible at core `k`, before any busy core. */
  predicate FailsAt(cores: seq<CoreRead>, k: nat) {
    k < |cores| && cores[k].Unreadable? && forall j :: 0 <= j < k ==> !cores[j].Working? && !cores[j].Unreadable?
  }

  /** Core `k` is the lowest-indexed core with current work, and is reached. */
  predicate FirstBusy(cores: seq<CoreRead>, k: nat) {
    k < |cores| && cores[k].Working? && forall j :: 0 <= j < k ==> !cores[j].Working? && !cores[j].Unreadable?
  }

  /** `cores` is the active configuration's list, if it could be read and decoded. */
  method OnDemandCoresAvailable(cores: Option<seq<CoreRead>>) returns (available: Option<bool>)
    ensures available.None? <==> cores.None? || exists k: nat :: FailsAt(cores.value, k)
    ensures available == Some(true) <==>
              cores.Some? && exists k: nat :: FirstBusy(cores.value, k) && HasPool(cores.value[k])
  {
    if cores.None? {
      return None;
    }
    var list := cores.value;
    for core := 0 to |list|
      invariant forall j :: 0 <= j < core ==> !list[j].Working? && !list[j].Unreadable?
    {
      match list[core] {
        case Unreadable =>
          assert FailsAt(list, core);
          return None;
        case NoDescriptor =>
        case NoCurrentWork =>
        case Working(assignments) =>
          assert FirstBusy(list, core);
          return Some(Pool in assignments);
      }
    }
    return Some(false);
  }

  /** The search cannot go on at some core. */
  ghost predicate Fails(cores: seq<CoreRead>) {
    exists k: nat :: FailsAt(cores, k)
  }

  /** The search walks the list core by core: it passes over cores without current work,
      fails at one it cannot read, and at the first with work answers whether that one
      has a pool assignment anywhere in it. */
  lemma SearchStepByStep(c: CoreRead, rest: seq<CoreRead>)
    ensures !Answer([]) && !Fails([])
    ensures c.NoDescriptor? || c.NoCurrentWork? ==>
              (Answer([c] + rest) <==> Answer(rest)) && (Fails([c] + rest) <==> Fails(rest))
    ensures c.Unreadable? ==> !Answer([c] + rest) && Fails([c] + rest)
    ensures c.Working? ==> (Answer([c] + rest) <==> Pool in c.assignments) && !Fails([c] + rest)
  {
    var all := [c] + rest;
    assert all[0] == c;
    if c.NoDescriptor? || c.NoCurrentWork? {
      forall k: nat
        ensures FirstBusy(all, k + 1) <==> FirstBusy(rest, k)
        ensures FailsAt(all, k + 1) <==> FailsAt(rest, k)
      {
        OneLater(c, rest, k);
      }
      if Answer(all) {
        var k: nat :| FirstBusy(all, k) && HasPool(all[k]);
        assert FirstBusy(rest, k - 1) && HasPool(rest[k - 1]);
      }
      if Answer(rest) {
        var k: nat :| FirstBusy(rest, k) && HasPool(rest[k]);
        assert FirstBusy(all, k + 1) && HasPool(all[k + 1]);
      }
      if Fails(all) {
        var k: nat :| FailsAt(all, k);
        assert FailsAt(rest, k - 1);
      }
      if Fails(rest) {
        var k: nat :| FailsAt(rest, k);
        assert FailsAt(all, k + 1);
      }
    } else if c.Unreadable? {
      assert FailsAt(all, 0);
    } else {
      assert FirstBusy(all, 0);
      forall k: nat | FirstBusy(all, k) ensures k == 0 {
        FirstBusyIsUnique(all, 0, k);
      }
    }
  }

  lemma OneLater(c: CoreRead, rest: seq<CoreRead>, k: nat)
    requires c.NoDescriptor? || c.NoCurrentWork?
    ensures FirstBusy([c] + rest, k + 1) <==> FirstBusy(rest, k)
    ensures FailsAt([c] + rest, k + 1) <==> FailsAt(rest, k)
  {
    var all := [c] + rest;
    assert forall j :: 0 <= j < |rest| ==> all[j + 1] == rest[j];
    if FirstBusy(all, k + 1) || FailsAt(all, k + 1) {
      forall j | 0 <= j < k ensures !rest[j].Working? && !rest[j].Unreadable? {
        assert all[j + 1] == rest[j];
      }
    }
  }

  /** There is only one first busy core, so the answer is about that core alone. */
  lemma FirstBusyIsUnique(cores: seq<CoreRead>, j: nat, k: nat)
    requires FirstBusy(cores, j) && FirstBusy(cores, k)
    ensures j == k
  {
    assert cores[j].Working? && cores[k].Working?;
  }

  /** What the search answers when it does not fail. */
  ghost predicate Answer(cores: seq<CoreRead>) {
    exists k: nat :: FirstBusy(cores, k) && HasPool(cores[k])
  }

  /** The question the function's own comment asks. */
  ghost predicate SomeCoreIsPool(cores: seq<CoreRead>) {
    exists k :: 0 <= k < |cores| && HasPool(cores[k])
  }

  /** Up to a busy core the search stops somewhere: at a core it cannot read, or at a
      first busy one. */
  lemma {:induction false} StopsUpTo(cores: seq<CoreRead>, k: nat) returns (stop: nat)
    requires k < |cores| && (cores[k].Working? || cores[k].Unreadable?)
    ensures stop <= k && (FirstBusy(cores, stop) || FailsAt(cores, stop))
    decreases k
  {
    if FirstBusy(cores, k) || FailsAt(cores, k) {
      stop := k;
    } else {
      var j :| 0 <= j < k && (cores[j].Working? || cores[j].Unreadable?);
      stop := StopsUpTo(cores, j);
    }
  }

  /** Whenever the search answers at all, it answers its question exactly when the
      first busy core is a pool core or no core is; a true answer always has a pool
      core as witness. */
  lemma AnswersExactlyWhenFirstBusyDecides(cores: seq<CoreRead>)
    requires !exists k: nat :: FailsAt(cores, k)
    ensures Answer(cores) ==> SomeCoreIsPool(cores)
    ensures (Answer(cores) <==> SomeCoreIsPool(cores)) <==>
            (forall k: nat :: FirstBusy(cores, k) && !HasPool(cores[k]) ==> !SomeCoreIsPool(cores))
  {
    if Answer(cores) {
      var w: nat :| FirstBusy(cores, w) && HasPool(cores[w]);
      assert HasPool(cores[w]);
      forall j: nat | FirstBusy(cores, j) ensures HasPool(cores[j]) {
        FirstBusyIsUnique(cores, j, w);
      }
    } else if SomeCoreIsPool(cores) {
      var k :| 0 <= k < |cores| && HasPool(cores[k]);
      var first := StopsUpTo(cores, k);
      assert FirstBusy(cores, first) && !HasPool(cores[first]);
    }
  }

  /** A pool core behind a busy one is missed. */
  lemma PoolBehindTaskIsMissed()
    ensures var cores := [Working([Task(7)]), Working([Pool])]; SomeCoreIsPool(cores) && !Answer(cores)
  {
    var cores := [Working([Task(7)]), Working([Pool])];
    assert HasPool(cores[1]);
    assert FirstBusy(cores, 0);
    forall k: nat | FirstBusy(cores, k) ensures !HasPool(cores[k]) {
      FirstBusyIsUnique(cores, 0, k);
    }
  }
}
