/** One collator's two tasks as straight code over its record, shown to be courses of
    the protocol's steps. Everything read from elsewhere is a parameter.

    services/order/src/lib.rs */
module OrderService {
  import opened OrderProtocol
  import opened SlotArithmetic
  import opened Wrappers

  // ------------------------------------------------------ one node's own course

  predicate ValidMoves(n: Node, moves: seq<Move>) {
    moves == []
    || (ValidMoves(n, moves[..|moves| - 1]) && Enabled(AfterMoves(n, moves[..|moves| - 1]), moves[|moves| - 1]))
  }

  function AfterMoves(n: Node, moves: seq<Move>): (n': Node) {
    if moves == [] then n
    else
      var before, m := AfterMoves(n, moves[..|moves| - 1]), moves[|moves| - 1];
      if Enabled(before, m) then After(before, m) else before
  }

  function ActionsOf(i: nat, moves: seq<Move>): (actions: seq<Action>)
    ensures |actions| == |moves|
    ensures forall k :: 0 <= k < |moves| ==> actions[k] == Action(i, moves[k])
  {
    seq(|moves|, k requires 0 <= k < |moves| => Action(i, moves[k]))
  }

  /** The orders a course submits, one for each `SubmitOk`. */
  function OrdersOf(i: nat, n: Node, moves: seq<Move>): (orders: seq<Order>)
    requires ValidMoves(n, moves)
  {
    if moves == [] then []
    else
      var front, m := moves[..|moves| - 1], moves[|moves| - 1];
      OrdersOf(i, n, front) + (if m.SubmitOk? then [Order(i, AfterMoves(n, front).task.head)] else [])
  }

  /** A course of one node is a run of the network in which the others stand still, and
      it adds to the network's orders exactly those it submits. */
  lemma {:induction false} CourseIsARun(net: Net, i: nat, moves: seq<Move>)
    requires i < |net.nodes| && ValidMoves(net.nodes[i], moves)
    ensures ValidRun(net, ActionsOf(i, moves))
    ensures Exec(net, ActionsOf(i, moves))
            == Net(net.nodes[i := AfterMoves(net.nodes[i], moves)], net.orders + OrdersOf(i, net.nodes[i], moves))
  {
    if moves != [] {
      var n := |moves| - 1;
      CourseIsARun(net, i, moves[..n]);
      assert ActionsOf(i, moves)[..n] == ActionsOf(i, moves[..n]);
    }
  }

  lemma OneMoveMore(n: Node, moves: seq<Move>, m: Move)
    requires ValidMoves(n, moves) && Enabled(AfterMoves(n, moves), m)
    ensures ValidMoves(n, moves + [m]) && AfterMoves(n, moves + [m]) == After(AfterMoves(n, moves), m)
    ensures forall i :: OrdersOf(i, n, moves + [m])
              == OrdersOf(i, n, moves) + (if m.SubmitOk? then [Order(i, AfterMoves(n, moves).task.head)] else [])
  {
    assert (moves + [m])[..|moves|] == moves;
  }

  // ---------------------------------------------------------- relay-head task

  /** What the handler reads on its way, `None` where the read fails. */
  datatype Readings = Readings(
    isParathread: Option<bool>,
    paraHead: Option<nat>,      // the number of the decoded para head
    bulkMode: Option<bool>,
    coresAvailable: Option<bool>,
    width: Option<u32>,
    authorities: Option<seq<Key>>,
    criterionReached: bool,
    spotPriceRead: bool,
    submitOk: bool)

  datatype Outcome = Skipped | Error | Panicked | Placed

  /** All gates before the record is looked at are passed. The code goes on when the
      core search answers false, whatever its log message says. */
  predicate PastGates(r: Readings) {
    && r.isParathread == Some(true)
    && r.paraHead.Some?
    && r.bulkMode == Some(false)
    && r.coresAvailable == Some(false)
    && r.width.Some?
  }

  function HeadSeen(height: u32, hash: Hash, r: Readings): (h: Head)
    requires r.paraHead.Some? && r.width.Some?
  {
    Head(height, hash, r.paraHead.value, View(if r.authorities.Some? then r.authorities.value else [], r.width.value))
  }

  /** The one condition under which the handler places an order. */
  predicate Places(keystore: set<Key>, record: Record, height: u32, r: Readings) {
    && PastGates(r)
    && CurrentSlot(height, r.width.value) > record.lastSlot
    && r.authorities.Some?
    && OrderPlacer(r.authorities.value, height, r.width.value).Found?
    && OrderPlacer(r.authorities.value, height, r.width.value).key in keystore
    && r.criterionReached && r.spotPriceRead && r.submitOk
  }

  /** The remainder by an empty authority list panics. */
  predicate Panics(record: Record, height: u32, r: Readings) {
    PastGates(r) && CurrentSlot(height, r.width.value) > record.lastSlot && r.authorities == Some([])
  }

  /** A read or the submission fails after the slot was found to be new. */
  predicate FailsLate(keystore: set<Key>, record: Record, height: u32, r: Readings)
    requires r.width.Some?
  {
    && CurrentSlot(height, r.width.value) > record.lastSlot
    && (r.authorities.None?
        || (&& OrderPlacer(r.authorities.value, height, r.width.value).Found?
            && OrderPlacer(r.authorities.value, height, r.width.value).key in keystore
            && r.criterionReached && !(r.spotPriceRead && r.submitOk)))
  }

  /** The record after the handler: written in full, or not at all. */
  function Handled(keystore: set<Key>, record: Record, height: u32, hash: Hash, r: Readings): (after: Record) {
    if Places(keystore, record, height, r) then Record(Some(hash), CurrentSlot(height, r.width.value)) else record
  }

  /** An order is placed if and only if the para is a parathread out of bulk mode, the
      core search answers false, everything can be read, the criterion is met and the
      submission succeeds, the height is at or beyond the first of the slot after the
      last one ordered, and the authority whose turn it is is in the keystore. The record
      then holds the head's hash and the slot of its height. */
  lemma PlacesExactly(keystore: set<Key>, record: Record, height: u32, hash: Hash, r: Readings)
    ensures Places(keystore, record, height, r) <==>
              && r.isParathread == Some(true) && r.paraHead != None
              && r.bulkMode == Some(false) && r.coresAvailable == Some(false)
              && r.width != None && r.authorities != None && r.authorities != Some([])
              && r.criterionReached == r.spotPriceRead == r.submitOk == true
              && height >= (record.lastSlot + 1) * SlotLength(r.width.value)
              && r.authorities.value[(height / SlotLength(r.width.value)) % |r.authorities.value|] in keystore
    ensures Panics(record, height, r) <==>
              && r.isParathread == Some(true) && r.paraHead != None
              && r.bulkMode == Some(false) && r.coresAvailable == Some(false)
              && r.width != None && r.authorities == Some([])
              && height >= (record.lastSlot + 1) * SlotLength(r.width.value)
    ensures Handled(keystore, record, height, hash, r)
            == if Places(keystore, record, height, r)
               then Record(Some(hash), height / SlotLength(r.width.value)) else record
  {
    if r.width.Some? {
      NewerSlotIffHeight(record.lastSlot, height, r.width.value);
    }
  }

  /** What reading one event of a relay block gave. */
  datatype EventRead = Undecodable | OrderPlaced(paraId: nat) | Unrelated

  /** An event for this para is reached before decoding fails. */
  predicate OrderSeen(events: seq<EventRead>, paraId: nat) {
    exists k :: 0 <= k < |events| && events[k] == OrderPlaced(paraId)
                && forall j :: 0 <= j < k ==> !events[j].Undecodable?
  }

  class Collator {
    const keystore: set<Key>
    var record: Record

    constructor (keystore: set<Key>)
      ensures this.keystore == keystore && record == Record(None, 0)
    {
      this.keystore := keystore;
      record := FRESH_RECORD;
    }

    /** The order placement logic for one best head. */
    method HandleRelaychainStream(height: u32, hash: Hash, r: Readings) returns (outcome: Outcome)
      modifies this
      ensures outcome == Placed <==> Places(keystore, old(record), height, r)
      ensures outcome == Panicked <==> Panics(old(record), height, r)
      ensures outcome == Error <==>
                || r.isParathread.None?
                || (&& r.isParathread.value
                    && (|| r.paraHead.None? || r.bulkMode.None?
                        || (!r.bulkMode.value && (|| r.coresAvailable.None?
                                                  || (!r.coresAvailable.value && r.width.None?)))))
                || (PastGates(r) && FailsLate(keystore, old(record), height, r))
      ensures record == Handled(keystore, old(record), height, hash, r)
    {
      if r.isParathread.None? { return Error; }
      if !r.isParathread.value { return Skipped; }
      if r.paraHead.None? { return Error; }
      if r.bulkMode.None? { return Error; }
      if r.bulkMode.value { return Skipped; }
      if r.coresAvailable.None? { return Error; }
      if r.coresAvailable.value { return Skipped; }
      if r.width.None? { return Error; }
      var slot := CurrentSlot(height, r.width.value);
      if slot <= record.lastSlot { return Skipped; }
      if r.authorities.None? { return Error; }
      var placer := OrderPlacer(r.authorities.value, height, r.width.value);
      if placer.RemainderByZero? { return Panicked; }
      if placer.key !in keystore { return Skipped; }
      if !r.criterionReached { return Skipped; }
      if !r.spotPriceRead { return Error; }
      if !r.submitOk { return Error; }
      record := record.(relayBlockHash := Some(hash));
      record := record.(lastSlot := CurrentSlot(height, r.width.value));
      return Placed;
    }

    /** The event task's pass over the events of one best relay block. */
    method OndemandEventTask(events: seq<EventRead>, blockHash: Hash, paraId: nat) returns (failed: bool)
      modifies this
      ensures record.lastSlot == old(record.lastSlot)
      ensures record.relayBlockHash == if OrderSeen(events, paraId) then Some(blockHash) else old(record.relayBlockHash)
      ensures failed <==> Undecodable in events
    {
      for k := 0 to |events|
        invariant record.lastSlot == old(record.lastSlot)
        invariant forall j :: 0 <= j < k ==> !events[j].Undecodable?
        invariant record.relayBlockHash
                  == if OrderPlaced(paraId) in events[..k] then Some(blockHash) else old(record.relayBlockHash)
      {
        if events[k].Undecodable? {
          return true;
        }
        if events[k].OrderPlaced? && events[k].paraId == paraId {
          record := record.(relayBlockHash := Some(blockHash));
        }
      }
      return false;
    }
  }

  // ------------------------------------- the handler is a course of the protocol

  /** The protocol steps the handler goes through, given what it reads. */
  function Course(keystore: set<Key>, record: Record, height: u32, hash: Hash, r: Readings): (moves: seq<Move>) {
    if !PastGates(r) then []
    else
      [SeeHead(HeadSeen(height, hash, r)), TakeLock]
      + (if CurrentSlot(height, r.width.value) <= record.lastSlot then [StaleSlot]
         else if r.authorities.None? then [GiveUp]
         else match OrderPlacer(r.authorities.value, height, r.width.value)
           case RemainderByZero => [NoAuthorities]
           case Found(key) =>
             if key !in keystore then [NotPlacer]
             else if !r.criterionReached || !r.spotPriceRead then [GiveUp]
             else if !r.submitOk then [StartSubmit, SubmitErr]
             else [StartSubmit, SubmitOk, WriteRecord])
  }

  lemma LockTaken(n: Node, h: Head)
    requires n.task.Idle? && n.holder.Free?
    ensures ValidMoves(n, [SeeHead(h), TakeLock])
    ensures AfterMoves(n, [SeeHead(h), TakeLock]) == n.(task := Checking(h), holder := ByHeadTask)
    ensures forall i :: OrdersOf(i, n, [SeeHead(h), TakeLock]) == []
  {
    OneMoveMore(n, [], SeeHead(h));
    assert [] + [SeeHead(h)] == [SeeHead(h)];
    OneMoveMore(n, [SeeHead(h)], TakeLock);
    assert [SeeHead(h)] + [TakeLock] == [SeeHead(h), TakeLock];
  }

  lemma ThenSubmit(n: Node, moves: seq<Move>, ok: bool)
    requires ValidMoves(n, moves)
    requires var m := AfterMoves(n, moves); m.task.Checking? && MayPlace(m, m.task.head)
    ensures var m := AfterMoves(n, moves);
            var all := moves + (if ok then [StartSubmit, SubmitOk, WriteRecord] else [StartSubmit, SubmitErr]);
            && ValidMoves(n, all)
            && AfterMoves(n, all) == m.(task := Idle, holder := Free,
                 record := if ok then Record(Some(m.task.head.hash), Slot(m.task.head)) else m.record)
            && forall i :: OrdersOf(i, n, all) == OrdersOf(i, n, moves) + (if ok then [Order(i, m.task.head)] else [])
  {
    OneMoveMore(n, moves, StartSubmit);
    var one := moves + [StartSubmit];
    if ok {
      OneMoveMore(n, one, SubmitOk);
      OneMoveMore(n, one + [SubmitOk], WriteRecord);
      assert moves + [StartSubmit, SubmitOk, WriteRecord] == one + [SubmitOk] + [WriteRecord];
    } else {
      OneMoveMore(n, one, SubmitErr);
      assert moves + [StartSubmit, SubmitErr] == one + [SubmitErr];
    }
  }

  /** What the handler does to the record in one go is what its steps do one by one
      when nobody else runs; it submits exactly when it reports the order placed. */
  lemma HandlerIsACourse(keystore: set<Key>, record: Record, height: u32, hash: Hash, r: Readings)
    ensures var n, moves := Node(keystore, record, Free, Idle, None), Course(keystore, record, height, hash, r);
            && ValidMoves(n, moves)
            && AfterMoves(n, moves)
               == Node(keystore, Handled(keystore, record, height, hash, r), Free,
                       if Panics(record, height, r) then Crashed else Idle, None)
            && (SubmitOk in moves <==> Places(keystore, record, height, r))
            && forall i :: OrdersOf(i, n, moves)
                 == if Places(keystore, record, height, r) then [Order(i, HeadSeen(height, hash, r))] else []
  {
    if PastGates(r) {
      var n, h := Node(keystore, record, Free, Idle, None), HeadSeen(height, hash, r);
      var locked := [SeeHead(h), TakeLock];
      LockTaken(n, h);
      var tail := Course(keystore, record, height, hash, r)[2..];
      assert Course(keystore, record, height, hash, r) == locked + tail;
      if |tail| == 1 {
        OneMoveMore(n, locked, tail[0]);
        assert tail == [tail[0]];
      } else {
        ThenSubmit(n, locked, r.submitOk);
        forall i
          ensures OrdersOf(i, n, locked + tail) == if r.submitOk then [Order(i, h)] else []
        {
          assert OrdersOf(i, n, locked) == [];
        }
      }
    }
  }

  /** In the network: the handler, run undisturbed, leaves the record it computes and
      adds one order for the head it saw if it places one, and nothing otherwise. */
  lemma HandlerInNetwork(net: Net, i: nat, height: u32, hash: Hash, r: Readings)
    requires i < |net.nodes| && net.nodes[i] == Node(net.nodes[i].keystore, net.nodes[i].record, Free, Idle, None)
    ensures var n := net.nodes[i];
            var after := Exec(net, ActionsOf(i, Course(n.keystore, n.record, height, hash, r)));
            && |after.nodes| == |net.nodes|
            && after.nodes[i].record == Handled(n.keystore, n.record, height, hash, r)
            && (forall j :: 0 <= j < |net.nodes| && j != i ==> after.nodes[j] == net.nodes[j])
            && after.orders == net.orders
                 + (if Places(n.keystore, n.record, height, r)
                    then [Order(i, Head(height, hash, r.paraHead.value, View(r.authorities.value, r.width.value)))]
                    else [])
  {
    var n := net.nodes[i];
    HandlerIsACourse(n.keystore, n.record, height, hash, r);
    CourseIsARun(net, i, Course(n.keystore, n.record, height, hash, r));
  }

  // ---------------------------------------- the event task is a course as well

  /** The steps of the event task: for each order for the para, up to the first event
      that cannot be decoded, it takes the lock and writes the hash. */
  function EventCourse(events: seq<EventRead>, blockHash: Hash, paraId: nat): (moves: seq<Move>) {
    if events == [] || events[0] == Undecodable then []
    else
      (if events[0] == OrderPlaced(paraId) then [EventLock(blockHash), EventWrite] else [])
      + EventCourse(events[1..], blockHash, paraId)
  }

  lemma {:induction false} CoursesCompose(n: Node, a: seq<Move>, b: seq<Move>)
    requires ValidMoves(n, a) && ValidMoves(AfterMoves(n, a), b)
    ensures ValidMoves(n, a + b) && AfterMoves(n, a + b) == AfterMoves(AfterMoves(n, a), b)
    ensures forall i :: OrdersOf(i, n, a + b) == OrdersOf(i, n, a) + OrdersOf(i, AfterMoves(n, a), b)
    decreases |b|
  {
    if b == [] {
      assert a + b == a;
    } else {
      var front := b[..|b| - 1];
      CoursesCompose(n, a, front);
      OneMoveMore(n, a + front, b[|b| - 1]);
      assert a + b == a + front + [b[|b| - 1]];
    }
  }

  lemma OneEventPass(n: Node, blockHash: Hash)
    requires NodeInv(n) && n.holder == Free
    ensures var moves := [EventLock(blockHash), EventWrite];
            && ValidMoves(n, moves)
            && AfterMoves(n, moves) == n.(record := Record(Some(blockHash), n.record.lastSlot))
            && forall i :: OrdersOf(i, n, moves) == []
  {
    EventPassWritesHash(n, blockHash);
    OneMoveMore(n, [], EventLock(blockHash));
    assert [] + [EventLock(blockHash)] == [EventLock(blockHash)];
    OneMoveMore(n, [EventLock(blockHash)], EventWrite);
    assert [EventLock(blockHash)] + [EventWrite] == [EventLock(blockHash), EventWrite];
  }

  /** What the event task does in one go its steps do one by one: they record the hash,
      exactly if an order for the para is reached before an event that cannot be
      decoded, and change nothing else. */
  lemma {:induction false} EventTaskIsACourse(n: Node, events: seq<EventRead>, blockHash: Hash, paraId: nat)
    requires NodeInv(n) && n.holder == Free
    ensures var moves := EventCourse(events, blockHash, paraId);
            && ValidMoves(n, moves)
            && AfterMoves(n, moves)
               == n.(record := Record(if OrderSeen(events, paraId) then Some(blockHash) else n.record.relayBlockHash,
                                      n.record.lastSlot))
            && forall i :: OrdersOf(i, n, moves) == []
    decreases |events|
  {
    OrderSeenStepByStep(events, paraId);
    if events != [] && events[0] != Undecodable {
      var rest := EventCourse(events[1..], blockHash, paraId);
      if events[0] == OrderPlaced(paraId) {
        OneEventPass(n, blockHash);
        var after := n.(record := Record(Some(blockHash), n.record.lastSlot));
        EventTaskIsACourse(after, events[1..], blockHash, paraId);
        CoursesCompose(n, [EventLock(blockHash), EventWrite], rest);
      } else {
        EventTaskIsACourse(n, events[1..], blockHash, paraId);
        assert [] + rest == rest;
      }
    }
  }

  /** The events are looked at one by one, and the first that cannot be decoded ends it. */
  lemma OrderSeenStepByStep(events: seq<EventRead>, paraId: nat)
    ensures OrderSeen(events, paraId) <==>
              && events != [] && events[0] != Undecodable
              && (events[0] == OrderPlaced(paraId) || OrderSeen(events[1..], paraId))
  {
    if events != [] {
      var rest := events[1..];
      if OrderSeen(rest, paraId) && events[0] != Undecodable {
        var k :| 0 <= k < |rest| && rest[k] == OrderPlaced(paraId) && forall j :: 0 <= j < k ==> !rest[j].Undecodable?;
        assert events[k + 1] == OrderPlaced(paraId);
        forall j | 0 <= j < k + 1 ensures !events[j].Undecodable? {
          assert j > 0 ==> events[j] == rest[j - 1];
        }
      }
      if OrderSeen(events, paraId) && events[0] != OrderPlaced(paraId) {
        var k :| 0 <= k < |events| && events[k] == OrderPlaced(paraId)
                 && forall j :: 0 <= j < k ==> !events[j].Undecodable?;
        assert rest[k - 1] == OrderPlaced(paraId);
        forall j | 0 <= j < k - 1 ensures !rest[j].Undecodable? {
          assert rest[j] == events[j + 1];
        }
      }
    }
  }

  /** In the network: the event task, run undisturbed, leaves the hash and no order. */
  lemma EventTaskInNetwork(net: Net, i: nat, events: seq<EventRead>, blockHash: Hash, paraId: nat)
    requires i < |net.nodes| && NodeInv(net.nodes[i]) && net.nodes[i].holder == Free
    ensures var n := net.nodes[i];
            var hash := if OrderSeen(events, paraId) then Some(blockHash) else n.record.relayBlockHash;
            Exec(net, ActionsOf(i, EventCourse(events, blockHash, paraId)))
            == Net(net.nodes[i := n.(record := Record(hash, n.record.lastSlot))], net.orders)
  {
    EventTaskIsACourse(net.nodes[i], events, blockHash, paraId);
    CourseIsARun(net, i, EventCourse(events, blockHash, paraId));
  }

  // ------------------------------------------------------------- no deadlock

  /** Whoever holds the lock can give it back by a move of its own, whatever state the
      node is in, without any other task of the node moving. */
  lemma LockCanBeReleased(n: Node) returns (moves: seq<Move>)
    requires NodeInv(n)
    ensures ValidMoves(n, moves) && |moves| <= 1 && AfterMoves(n, moves).holder == Free
    ensures forall k :: 0 <= k < |moves| ==> Actor(moves[k]) == n.holder
  {
    var m := match n.holder
      case Free => StaleSlot
      case ByEventTask => EventWrite
      case ByInherent => InherentRelease
      case ByHeadTask =>
        if n.task.Submitting? then SubmitErr
        else if n.task.Submitted? then WriteRecord
        else if Slot(n.task.head) <= n.record.lastSlot then StaleSlot
        else GiveUp;
    if n.holder == Free {
      moves := [];
    } else {
      moves := [] + [m];
      OneMoveMore(n, [], m);
    }
  }
}
