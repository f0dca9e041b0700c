/** The naive equivocation defender: a bounded LRU map of per-slot counters,
    compared with the unbounded counter it stands for.

    client/consensus/on-demand-aura/src/equivocation_import_queue.rs */
module EquivocationDefender {
  import opened SetSizes

  type Slot = nat

  const LRU_WINDOW: nat := 256
  const EQUIVOCATION_LIMIT: nat := 16

  // ------------------------------------------ what a call history determines

  /** The other slots called since `s` was last called; all of them if it never was. */
  function Since(calls: seq<Slot>, s: Slot): (others: set<Slot>)
    ensures s !in others
  {
    if calls == [] then {}
    else
      var last := calls[|calls| - 1];
      if last == s then {} else Since(calls[..|calls| - 1], s) + {last}
  }

  /** `s` was called, and fewer than `window` other slots have been called since. */
  predicate Remembered(calls: seq<Slot>, s: Slot, window: nat) {
    s in calls && |Since(calls, s)| < window
  }

  /** Length of the unbroken chain of calls for `s` up to its latest call: a call
      that comes when `s` is no longer remembered starts a new chain. */
  function Chain(calls: seq<Slot>, s: Slot, window: nat): (n: nat)
    decreases calls, 0
  {
    if calls == [] then 0
    else
      var before := calls[..|calls| - 1];
      if calls[|calls| - 1] != s then Chain(before, s, window)
      else 1 + Live(before, s, window)
  }

  /** The chain a call for `s` would extend now. */
  function Live(calls: seq<Slot>, s: Slot, window: nat): (n: nat)
    decreases calls, 1
  {
    if Remembered(calls, s, window) then Chain(calls, s, window) else 0
  }

  /** The unbounded counter: every call for `s` ever made. */
  function Occurrences(calls: seq<Slot>, s: Slot): (n: nat)
  {
    if calls == [] then 0
    else Occurrences(calls[..|calls| - 1], s) + (if calls[|calls| - 1] == s then 1 else 0)
  }

  /** The answers of the unbounded counter: reject once `limit` calls were seen. */
  predicate UnboundedRejects(calls: seq<Slot>, s: Slot, limit: nat) {
    Occurrences(calls, s) >= limit
  }

  // -------------------------------------------------------------- the LRU map

  datatype Entry = Entry(slot: Slot, count: nat)

  /** Entries, most recently used first. */
  type Cache = seq<Entry>

  predicate Holds(cache: Cache, s: Slot) {
    exists i :: 0 <= i < |cache| && cache[i].slot == s
  }

  /** Position of `s`, or the length of the cache when it is not there. */
  function Find(cache: Cache, s: Slot): (i: nat)
    ensures i <= |cache|
    ensures i < |cache| ==> cache[i].slot == s
    ensures forall j :: 0 <= j < i ==> cache[j].slot != s
  {
    if cache == [] then 0
    else if cache[0].slot == s then 0
    else 1 + Find(cache[1..], s)
  }

  /** `get_or_insert(slot, || 0)` under a by-length limiter: a hit moves to the
      front, a miss enters in front and pushes out the oldest entry if full. */
  function GetOrInsert(cache: Cache, s: Slot, window: nat): (after: Cache)
    requires window >= 1
    ensures |after| >= 1 && after[0].slot == s
  {
    var i := Find(cache, s);
    if i < |cache| then [cache[i]] + cache[..i] + cache[i + 1..]
    else [Entry(s, 0)] + (if |cache| >= window then cache[..window - 1] else cache)
  }

  /** One `insert_and_check` as a value: the new cache and the answer. */
  function Touch(cache: Cache, s: Slot, window: nat, limit: nat): (r: (Cache, bool))
    requires window >= 1
  {
    var fetched := GetOrInsert(cache, s, window);
    if fetched[0].count == limit then (fetched, true)
    else (fetched[0 := Entry(s, fetched[0].count + 1)], false)
  }

  function CacheAfter(calls: seq<Slot>, window: nat, limit: nat): (cache: Cache)
    requires window >= 1
  {
    if calls == [] then []
    else Touch(CacheAfter(calls[..|calls| - 1], window, limit), calls[|calls| - 1], window, limit).0
  }

  /** The answer the defender gives for `s` after the run `calls`. */
  predicate LruRejects(calls: seq<Slot>, s: Slot, window: nat, limit: nat)
    requires window >= 1
  {
    Touch(CacheAfter(calls, window, limit), s, window, limit).1
  }

  // ---------------------------------------------------------- the refinement

  function Min(a: nat, b: nat): nat { if a <= b then a else b }

  /** The slots held in front of position `i`. */
  function Front(cache: Cache, i: nat): (slots: set<Slot>)
    requires i <= |cache|
  {
    set j | 0 <= j < i :: cache[j].slot
  }

  predicate Distinct(cache: Cache) {
    forall i, j :: 0 <= i < j < |cache| ==> cache[i].slot != cache[j].slot
  }

  /** The order of the cache is the recency order of the history. */
  ghost predicate OrderedByRecency(cache: Cache, calls: seq<Slot>) {
    forall i :: 0 <= i < |cache| ==> cache[i].slot in calls && Since(calls, cache[i].slot) == Front(cache, i)
  }

  /** Nothing that should still be remembered was dropped. */
  ghost predicate Complete(cache: Cache, calls: seq<Slot>, window: nat) {
    forall s :: Remembered(calls, s, window) ==> Holds(cache, s)
  }

  ghost predicate CountsChains(cache: Cache, calls: seq<Slot>, window: nat, limit: nat) {
    forall i :: 0 <= i < |cache| ==> cache[i].count == Min(limit, Chain(calls, cache[i].slot, window))
  }

  ghost predicate Represents(cache: Cache, calls: seq<Slot>, window: nat, limit: nat) {
    && |cache| <= window
    && Distinct(cache)
    && OrderedByRecency(cache, calls)
    && Complete(cache, calls, window)
    && CountsChains(cache, calls, window, limit)
  }

  lemma FrontGrows(cache: Cache, i: nat)
    requires 0 < i <= |cache|
    ensures Front(cache, i) == Front(cache, i - 1) + {cache[i - 1].slot}
  {
    var front, shorter := Front(cache, i), Front(cache, i - 1);
    forall t | t in front ensures t in shorter + {cache[i - 1].slot} {
      var j :| 0 <= j < i && cache[j].slot == t;
      assert j < i - 1 ==> t in shorter;
    }
  }

  lemma {:induction false} FrontSize(cache: Cache, i: nat)
    requires i <= |cache| && Distinct(cache)
    ensures |Front(cache, i)| == i
    decreases i
  {
    if i > 0 {
      FrontSize(cache, i - 1);
      FrontGrows(cache, i);
      assert cache[i - 1].slot !in Front(cache, i - 1);
    }
  }

  /** A cache that represents the history holds exactly the remembered slots. */
  lemma HeldIffRemembered(cache: Cache, calls: seq<Slot>, s: Slot, window: nat, limit: nat)
    requires Represents(cache, calls, window, limit)
    ensures Find(cache, s) < |cache| <==> Remembered(calls, s, window)
  {
    var i := Find(cache, s);
    if i < |cache| {
      FrontSize(cache, i);
    } else {
      assert !Holds(cache, s);
    }
  }

  lemma SinceAfterCall(calls: seq<Slot>, x: Slot, s: Slot)
    ensures Since(calls + [x], s) == if x == s then {} else Since(calls, s) + {x}
  {
    assert (calls + [x])[..|calls|] == calls;
  }

  lemma ChainAfterCall(calls: seq<Slot>, x: Slot, s: Slot, window: nat)
    ensures Chain(calls + [x], s, window)
            == if x != s then Chain(calls, s, window) else 1 + Live(calls, s, window)
  {
    assert (calls + [x])[..|calls|] == calls;
  }

  /** On a hit, moving the entry to the front keeps the recency order. */
  lemma HitKeepsOrder(cache: Cache, calls: seq<Slot>, x: Slot, window: nat)
    requires window >= 1
    requires Distinct(cache) && OrderedByRecency(cache, calls) && Find(cache, x) < |cache|
    ensures var after := GetOrInsert(cache, x, window);
            Distinct(after) && OrderedByRecency(after, calls + [x]) && |after| == |cache|
  {
    var p, after := Find(cache, x), GetOrInsert(cache, x, window);
    forall i | 0 <= i < |after|
      ensures after[i].slot in calls + [x]
      ensures Since(calls + [x], after[i].slot) == Front(after, i)
    {
      SinceAfterCall(calls, x, after[i].slot);
      if 0 < i <= p {
        assert after[i] == cache[i - 1];
        FrontAfterHit(cache, after, p, i);
      } else if p < i {
        assert after[i] == cache[i];
        FrontAfterHit(cache, after, p, i);
        assert x in Front(cache, i);
      }
    }
  }

  lemma FrontAfterHit(cache: Cache, after: Cache, p: nat, i: nat)
    requires p < |cache| && 0 < i < |cache|
    requires after == [cache[p]] + cache[..p] + cache[p + 1..]
    ensures Front(after, i) == Front(cache, if i <= p then i - 1 else i) + {cache[p].slot}
  {
    var k := if i <= p then i - 1 else i;
    forall t | t in Front(after, i)
      ensures t in Front(cache, k) + {cache[p].slot}
    {
      var j :| 0 <= j < i && after[j].slot == t;
      var origin := if j == 0 then p else if j <= p then j - 1 else j;
      assert after[j] == cache[origin];
      assert j == 0 || origin < k;
    }
    forall t | t in Front(cache, k) + {cache[p].slot}
      ensures t in Front(after, i)
    {
      if t == cache[p].slot {
        assert after[0].slot == t;
      } else {
        var j :| 0 <= j < k && cache[j].slot == t;
        var image := if j < p then j + 1 else j;
        assert after[image] == cache[j];
        assert image < i;
      }
    }
  }

  /** On a miss, entering in front and dropping the oldest keeps the order. */
  lemma MissKeepsOrder(cache: Cache, calls: seq<Slot>, x: Slot, window: nat)
    requires window >= 1 && |cache| <= window
    requires Distinct(cache) && OrderedByRecency(cache, calls) && Find(cache, x) == |cache|
    ensures var after := GetOrInsert(cache, x, window);
            Distinct(after) && OrderedByRecency(after, calls + [x]) && |after| <= window
  {
    var after := GetOrInsert(cache, x, window);
    forall i | 0 <= i < |after|
      ensures after[i].slot in calls + [x]
      ensures Since(calls + [x], after[i].slot) == Front(after, i)
    {
      SinceAfterCall(calls, x, after[i].slot);
      if 0 < i {
        assert after[i] == cache[i - 1];
        FrontAfterMiss(cache, after, i);
      }
    }
  }

  lemma FrontAfterMiss(cache: Cache, after: Cache, i: nat)
    requires 0 < i < |after| <= |cache| + 1
    requires forall j :: 0 < j < |after| ==> after[j] == cache[j - 1]
    ensures Front(after, i) == Front(cache, i - 1) + {after[0].slot}
  {
    forall t | t in Front(cache, i - 1) + {after[0].slot}
      ensures t in Front(after, i)
    {
      if t != after[0].slot {
        var j :| 0 <= j < i - 1 && cache[j].slot == t;
        assert after[j + 1].slot == t;
      }
    }
  }

  /** Where an entry other than the touched one goes. */
  lemma OtherEntryMoves(cache: Cache, x: Slot, i: nat, window: nat)
    requires window >= 1 && i < |cache| <= window && cache[i].slot != x
    requires Find(cache, x) == |cache| ==> i + 1 < window
    ensures Holds(GetOrInsert(cache, x, window), cache[i].slot)
  {
    var p, after := Find(cache, x), GetOrInsert(cache, x, window);
    var image := if p <= i && p < |cache| then i else i + 1;
    assert after[image] == cache[i];
  }

  /** A slot that is remembered after the call for `x` survives it in the cache. */
  lemma TouchKeepsRemembered(cache: Cache, calls: seq<Slot>, x: Slot, s: Slot, window: nat, limit: nat)
    requires window >= 1
    requires Represents(cache, calls, window, limit)
    requires Remembered(calls + [x], s, window)
    ensures Holds(GetOrInsert(cache, x, window), s)
  {
    if s == x {
      assert GetOrInsert(cache, x, window)[0].slot == s;
    } else {
      SinceAfterCall(calls, x, s);
      SubsetSize(Since(calls, s), Since(calls + [x], s));
      HeldIffRemembered(cache, calls, s, window, limit);
      var i := Find(cache, s);
      if Find(cache, x) == |cache| {
        FrontSize(cache, i);
        assert Since(calls, s) == Front(cache, i);
        assert x !in Front(cache, i);
      }
      OtherEntryMoves(cache, x, i, window);
    }
  }

  lemma TouchKeepsOrder(cache: Cache, calls: seq<Slot>, x: Slot, window: nat, limit: nat)
    requires window >= 1 && |cache| <= window
    requires Distinct(cache) && OrderedByRecency(cache, calls)
    ensures var after := Touch(cache, x, window, limit).0;
            |after| <= window && Distinct(after) && OrderedByRecency(after, calls + [x])
  {
    if Find(cache, x) < |cache| {
      HitKeepsOrder(cache, calls, x, window);
    } else {
      MissKeepsOrder(cache, calls, x, window);
    }
    SameSlotsSameOrder(GetOrInsert(cache, x, window), Touch(cache, x, window, limit).0, calls + [x]);
  }

  lemma TouchKeepsComplete(cache: Cache, calls: seq<Slot>, x: Slot, window: nat, limit: nat)
    requires window >= 1
    requires Represents(cache, calls, window, limit)
    ensures Complete(Touch(cache, x, window, limit).0, calls + [x], window)
  {
    var fetched, after := GetOrInsert(cache, x, window), Touch(cache, x, window, limit).0;
    forall s | Remembered(calls + [x], s, window)
      ensures Holds(after, s)
    {
      TouchKeepsRemembered(cache, calls, x, s, window, limit);
      var i :| 0 <= i < |fetched| && fetched[i].slot == s;
      assert after[i].slot == s;
    }
  }

  lemma OthersOnHit(cache: Cache, p: nat, i: nat)
    requires Distinct(cache) && p < |cache| && 0 < i < |cache|
    ensures var e := ([cache[p]] + cache[..p] + cache[p + 1..])[i];
            e in cache && e.slot != cache[p].slot
  {
    var origin := if i <= p then i - 1 else i;
    assert ([cache[p]] + cache[..p] + cache[p + 1..])[i] == cache[origin];
  }

  lemma OthersKeepCount(cache: Cache, x: Slot, i: nat, window: nat, limit: nat)
    requires window >= 1 && Distinct(cache)
    requires 0 < i < |Touch(cache, x, window, limit).0|
    ensures var e := Touch(cache, x, window, limit).0[i]; e in cache && e.slot != x
  {
    var p := Find(cache, x);
    if p < |cache| {
      OthersOnHit(cache, p, i);
    } else {
      assert GetOrInsert(cache, x, window)[i] == cache[i - 1];
    }
  }

  lemma TouchKeepsCounts(cache: Cache, calls: seq<Slot>, x: Slot, window: nat, limit: nat)
    requires window >= 1
    requires Distinct(cache) && CountsChains(cache, calls, window, limit)
    requires Find(cache, x) < |cache| <==> Remembered(calls, x, window)
    ensures CountsChains(Touch(cache, x, window, limit).0, calls + [x], window, limit)
    ensures Touch(cache, x, window, limit).1 <==> Live(calls, x, window) >= limit
  {
    var after := Touch(cache, x, window, limit).0;
    assert GetOrInsert(cache, x, window)[0].count == Min(limit, Live(calls, x, window));
    forall i | 0 <= i < |after|
      ensures after[i].count == Min(limit, Chain(calls + [x], after[i].slot, window))
    {
      ChainAfterCall(calls, x, after[i].slot, window);
      if 0 < i {
        OthersKeepCount(cache, x, i, window, limit);
      }
    }
  }

  /** One call takes a cache that represents the history to one that represents the
      longer history, and its answer is the reference answer. */
  lemma TouchRefines(cache: Cache, calls: seq<Slot>, x: Slot, window: nat, limit: nat)
    requires window >= 1
    requires Represents(cache, calls, window, limit)
    ensures Represents(Touch(cache, x, window, limit).0, calls + [x], window, limit)
    ensures Touch(cache, x, window, limit).1 <==> Live(calls, x, window) >= limit
  {
    HeldIffRemembered(cache, calls, x, window, limit);
    TouchKeepsOrder(cache, calls, x, window, limit);
    TouchKeepsComplete(cache, calls, x, window, limit);
    TouchKeepsCounts(cache, calls, x, window, limit);
  }

  lemma SameSlotsSameOrder(cache: Cache, after: Cache, calls: seq<Slot>)
    requires |after| == |cache| && forall i :: 0 <= i < |cache| ==> after[i].slot == cache[i].slot
    requires Distinct(cache) && OrderedByRecency(cache, calls)
    ensures Distinct(after) && OrderedByRecency(after, calls)
  {
    forall i | 0 <= i < |after|
      ensures Front(after, i) == Front(cache, i)
    {
    }
  }

  lemma CacheAfterCall(calls: seq<Slot>, x: Slot, window: nat, limit: nat)
    requires window >= 1
    ensures CacheAfter(calls + [x], window, limit) == Touch(CacheAfter(calls, window, limit), x, window, limit).0
  {
    assert (calls + [x])[..|calls|] == calls;
  }

  lemma RepresentsNextCall(calls: seq<Slot>, x: Slot, longer: seq<Slot>, window: nat, limit: nat)
    requires window >= 1
    requires Represents(CacheAfter(calls, window, limit), calls, window, limit)
    requires longer == calls + [x]
    ensures Represents(CacheAfter(longer, window, limit), longer, window, limit)
  {
    TouchRefines(CacheAfter(calls, window, limit), calls, x, window, limit);
    CacheAfterCall(calls, x, window, limit);
  }

  /** Every run leaves a cache that represents it. */
  lemma {:induction false} CacheRepresents(calls: seq<Slot>, window: nat, limit: nat)
    requires window >= 1
    ensures Represents(CacheAfter(calls, window, limit), calls, window, limit)
  {
    if calls != [] {
      CacheRepresents(calls[..|calls| - 1], window, limit);
      RepresentsNextCall(calls[..|calls| - 1], calls[|calls| - 1], calls, window, limit);
    }
  }

  // ---------------------------------------------------------- whole-run laws

  /** Exact behaviour on every run: a call is rejected exactly when the unbroken
      chain of calls it extends already has `limit` members. */
  lemma LruAnswersExactly(calls: seq<Slot>, s: Slot, window: nat, limit: nat)
    requires window >= 1
    ensures LruRejects(calls, s, window, limit) <==> Live(calls, s, window) >= limit
  {
    CacheRepresents(calls, window, limit);
    TouchRefines(CacheAfter(calls, window, limit), calls, s, window, limit);
  }

  lemma {:induction false} ChainAtMostOccurrences(calls: seq<Slot>, s: Slot, window: nat)
    ensures Chain(calls, s, window) <= Occurrences(calls, s)
  {
    if calls != [] {
      ChainAtMostOccurrences(calls[..|calls| - 1], s, window);
    }
  }

  /** The bounded cache never rejects what the unbounded counter would accept. */
  lemma NeverStricterThanUnbounded(calls: seq<Slot>, s: Slot, window: nat, limit: nat)
    requires window >= 1 && limit >= 1
    ensures LruRejects(calls, s, window, limit) ==> UnboundedRejects(calls, s, limit)
  {
    LruAnswersExactly(calls, s, window, limit);
    ChainAtMostOccurrences(calls, s, window);
  }

  /** Between successive calls for the same slot there are at most `window - 1`
      other distinct slots. */
  predicate Close(calls: seq<Slot>, window: nat) {
    forall i :: 0 <= i < |calls| && calls[i] in calls[..i] ==> |Since(calls[..i], calls[i])| < window
  }

  lemma ClosePrefix(calls: seq<Slot>, n: nat, window: nat)
    requires Close(calls, window) && n <= |calls|
    ensures Close(calls[..n], window)
  {
    var before := calls[..n];
    forall i | 0 <= i < |before| && before[i] in before[..i]
      ensures |Since(before[..i], before[i])| < window
    {
      assert before[..i] == calls[..i];
    }
  }

  lemma {:induction false} CloseChainIsEverything(calls: seq<Slot>, s: Slot, window: nat)
    requires Close(calls, window)
    ensures Chain(calls, s, window) == Occurrences(calls, s)
    ensures s !in calls ==> Occurrences(calls, s) == 0
  {
    if calls != [] {
      var before, n := calls[..|calls| - 1], |calls| - 1;
      ClosePrefix(calls, n, window);
      CloseChainIsEverything(before, s, window);
      assert calls[..n] == before && calls == before + [calls[n]];
    }
  }

  /** On runs where a slot is never crowded out between two of its calls the
      bounded cache and the unbounded counter give the same answer everywhere. */
  lemma AgreesOnCloseRuns(calls: seq<Slot>, i: nat, window: nat, limit: nat)
    requires window >= 1 && limit >= 1 && Close(calls, window) && i < |calls|
    ensures LruRejects(calls[..i], calls[i], window, limit) <==> UnboundedRejects(calls[..i], calls[i], limit)
  {
    var before := calls[..i];
    ClosePrefix(calls, i, window);
    CloseChainIsEverything(before, calls[i], window);
    LruAnswersExactly(before, calls[i], window, limit);
  }

  /** Once `window` other slots intervened the next call is accepted, however
      often the slot was seen: here the two counters part. */
  lemma CrowdedOutIsForgiven(calls: seq<Slot>, others: seq<Slot>, s: Slot, window: nat, limit: nat)
    requires 1 <= window <= |others| && limit >= 1
    requires s !in others && forall i, j :: 0 <= i < j < |others| ==> others[i] != others[j]
    requires UnboundedRejects(calls, s, limit)
    ensures UnboundedRejects(calls + others, s, limit)
    ensures !LruRejects(calls + others, s, window, limit)
  {
    SinceContains(calls, others, s);
    DistinctCount(others);
    SubsetSize(SlotsOf(others), Since(calls + others, s));
    LruAnswersExactly(calls + others, s, window, limit);
    OccurrencesGrow(calls, others, s);
  }

  function SlotsOf(calls: seq<Slot>): (slots: set<Slot>) {
    set k | 0 <= k < |calls| :: calls[k]
  }

  ghost predicate AgreeThroughout(calls: seq<Slot>, window: nat, limit: nat)
    requires window >= 1
  {
    forall i :: 0 <= i < |calls| ==>
      (LruRejects(calls[..i], calls[i], window, limit) <==> UnboundedRejects(calls[..i], calls[i], limit))
  }

  /** The exact reach of the bounded cache: it agrees with the unbounded counter on
      every run over `d` distinct slots if and only if `d` fits in the window. */
  lemma AgreesExactlyUpToWindow(d: nat, window: nat, limit: nat)
    requires window >= 1 && limit >= 1
    ensures (forall calls: seq<Slot> :: |SlotsOf(calls)| <= d ==> AgreeThroughout(calls, window, limit))
            <==> d <= window
  {
    if d <= window {
      forall calls: seq<Slot> | |SlotsOf(calls)| <= d
        ensures AgreeThroughout(calls, window, limit)
      {
        FewSlotsAreClose(calls, window);
        forall i | 0 <= i < |calls|
          ensures LruRejects(calls[..i], calls[i], window, limit) <==> UnboundedRejects(calls[..i], calls[i], limit)
        {
          AgreesOnCloseRuns(calls, i, window, limit);
        }
      }
    } else {
      var calls, n := CrowdedRun(window, limit), limit + window;
      CrowdedRunSplits(window, limit);
      RepeatedOccurrences(limit);
      CrowdedOutIsForgiven(seq(limit, _ => 0), seq(window, k => k + 1), 0, window, limit);
      assert !(LruRejects(calls[..n], calls[n], window, limit) <==> UnboundedRejects(calls[..n], calls[n], limit));
      CrowdedRunSlots(window, limit);
    }
  }

  /** `limit` calls for slot 0, one call each for `window` other slots, then slot 0 again. */
  function CrowdedRun(window: nat, limit: nat): (calls: seq<Slot>) {
    seq(limit, _ => 0) + seq(window, k => k + 1) + [0]
  }

  lemma CrowdedRunSplits(window: nat, limit: nat)
    ensures var calls := CrowdedRun(window, limit);
            |calls| == limit + window + 1 && calls[limit + window] == 0
            && calls[..limit + window] == seq(limit, _ => 0) + seq(window, k => k + 1)
  {
  }

  lemma CrowdedRunSlots(window: nat, limit: nat)
    ensures |SlotsOf(CrowdedRun(window, limit))| <= window + 1
  {
    var ladder := seq(window + 1, k => k);
    forall t | t in SlotsOf(CrowdedRun(window, limit))
      ensures t in SlotsOf(ladder)
    {
      assert ladder[t] == t;
    }
    DistinctCount(ladder);
    SubsetSize(SlotsOf(CrowdedRun(window, limit)), SlotsOf(ladder));
  }

  lemma {:induction false} RepeatedOccurrences(n: nat)
    ensures Occurrences(seq(n, _ => 0), 0) == n
  {
    if n > 0 {
      RepeatedOccurrences(n - 1);
      assert seq(n, _ => 0)[..n - 1] == seq(n - 1, _ => 0);
    }
  }

  lemma {:induction false} SinceIsCalled(calls: seq<Slot>, s: Slot)
    ensures forall t :: t in Since(calls, s) ==> t in calls
  {
    if calls != [] {
      SinceIsCalled(calls[..|calls| - 1], s);
    }
  }

  lemma FewSlotsAreClose(calls: seq<Slot>, window: nat)
    requires |SlotsOf(calls)| <= window
    ensures Close(calls, window)
  {
    forall i | 0 <= i < |calls| && calls[i] in calls[..i]
      ensures |Since(calls[..i], calls[i])| < window
    {
      SinceIsCalled(calls[..i], calls[i]);
      SubsetSize(Since(calls[..i], calls[i]) + {calls[i]}, SlotsOf(calls));
    }
  }

  lemma {:induction false} SinceContains(calls: seq<Slot>, others: seq<Slot>, s: Slot)
    requires s !in others
    ensures forall k :: 0 <= k < |others| ==> others[k] in Since(calls + others, s)
    decreases |others|
  {
    if others != [] {
      var front, last := others[..|others| - 1], others[|others| - 1];
      SinceContains(calls, front, s);
      SinceAfterCall(calls + front, last, s);
      assert calls + others == (calls + front) + [last];
      forall k | 0 <= k < |others|
        ensures others[k] in Since(calls + others, s)
      {
        assert k < |front| ==> others[k] == front[k];
      }
    }
  }

  lemma {:induction false} DistinctCount(others: seq<Slot>)
    requires forall i, j :: 0 <= i < j < |others| ==> others[i] != others[j]
    ensures |SlotsOf(others)| == |others|
    decreases |others|
  {
    if others != [] {
      var front, last := others[..|others| - 1], others[|others| - 1];
      DistinctCount(front);
      var a, b := SlotsOf(others), SlotsOf(front);
      forall t | t in a ensures t in b + {last} {
        var k :| 0 <= k < |others| && others[k] == t;
        assert k < |front| ==> front[k] == t;
      }
      forall t | t in b ensures t in a {
        var k :| 0 <= k < |front| && front[k] == t;
        assert others[k] == t;
      }
      assert a == b + {last};
    }
  }

  lemma {:induction false} OccurrencesGrow(calls: seq<Slot>, others: seq<Slot>, s: Slot)
    ensures Occurrences(calls + others, s) >= Occurrences(calls, s)
    decreases |others|
  {
    if others == [] {
      assert calls + others == calls;
    } else {
      OccurrencesGrow(calls, others[..|others| - 1], s);
      assert (calls + others)[..|calls + others| - 1] == calls + others[..|others| - 1];
    }
  }

  /** How many of the calls for `s` in the run were accepted. */
  function Accepted(calls: seq<Slot>, s: Slot, window: nat, limit: nat): (n: nat)
    requires window >= 1
  {
    if calls == [] then 0
    else
      var before := calls[..|calls| - 1];
      Accepted(before, s, window, limit)
      + (if calls[|calls| - 1] == s && !LruRejects(before, s, window, limit) then 1 else 0)
  }

  /** On a close run exactly the first `limit` calls of every slot are accepted. */
  lemma {:induction false} AcceptsExactlyTheFirst(calls: seq<Slot>, s: Slot, window: nat, limit: nat)
    requires window >= 1 && limit >= 1 && Close(calls, window)
    ensures Accepted(calls, s, window, limit) == Min(limit, Occurrences(calls, s))
  {
    if calls != [] {
      var before, n := calls[..|calls| - 1], |calls| - 1;
      assert calls[..n] == before;
      ClosePrefix(calls, n, window);
      AcceptsExactlyTheFirst(before, s, window, limit);
      AgreesOnCloseRuns(calls, n, window, limit);
    }
  }

  // ------------------------------------------------------- the mutable object

  class NaiveEquivocationDefender {
    var cache: Cache
    ghost var calls: seq<Slot>

    ghost predicate Valid()
      reads this
    {
      Represents(cache, calls, LRU_WINDOW, EQUIVOCATION_LIMIT)
    }

    constructor ()
      ensures Valid() && calls == []
    {
      cache, calls := [], [];
    }

    /** True if equivocation is beyond the limit. */
    method InsertAndCheck(slot: Slot) returns (beyond: bool)
      requires Valid()
      modifies this
      ensures Valid()
      ensures calls == old(calls) + [slot]
      ensures beyond <==> Live(old(calls), slot, 256) >= 16
    {
      TouchRefines(cache, calls, slot, LRU_WINDOW, EQUIVOCATION_LIMIT);
      calls := calls + [slot];
      cache := GetOrInsert(cache, slot, LRU_WINDOW);
      if cache[0].count == EQUIVOCATION_LIMIT {
        return true;
      }
      cache := cache[0 := Entry(slot, cache[0].count + 1)];
      return false;
    }
  }
}
