/** Slots, slot windows and the round-robin choice of the order placer.

    A slot is a run of `2^width` consecutive relay-chain heights. The node
    (services/order) and the pallet (pallets/on-demand) compute it with the same
    `u32` right shift, so the arithmetic lives here once. */
module SlotArithmetic {

  type u32 = n: int | 0 <= n < 0x1_0000_0000

  /** The public key of an Aura authority. */
  type Key = nat

  const U32_SIZE: nat := 0x1_0000_0000

  function Pow2(e: nat): (r: nat)
    ensures r >= 1
  {
    if e == 0 then 1 else 2 * Pow2(e - 1)
  }

  /** The number of places a 32-bit shift really moves by: the hardware, and Rust
      without overflow checks, keep only the low five bits of the amount. */
  function ShiftAmount(width: u32): (e: nat)
    ensures e < 32
    ensures width < 32 ==> e == width
  {
    width % 32
  }

  /** How many relay heights one slot spans. */
  function SlotLength(width: u32): (len: nat)
    ensures len >= 1
  {
    Pow2(ShiftAmount(width))
  }

  /** `relay_height >> slot_width` on `u32`. */
  function CurrentSlot(height: u32, width: u32): (slot: u32)
  {
    DivShrinks(height, SlotLength(width));
    height / SlotLength(width)
  }

  /** `slot << slot_width` on `u32`: bits pushed past the top are lost. */
  function FirstBlockInSlot(slot: u32, width: u32): (height: u32)
  {
    (slot * SlotLength(width)) % U32_SIZE
  }

  /** The heights `[anchor, anchor + length)` in which an order asks to be valid,
      as `submit_order` computes them from the height it saw. */
  predicate InRequestedLifetime(seen: u32, width: u32, height: u32) {
    var anchor := FirstBlockInSlot(CurrentSlot(seen, width), width);
    anchor <= height < anchor + SlotLength(width)
  }

  /** Outcome of indexing an authority list by `slot % len`. The remainder of a
      division by zero panics in Rust, so an empty list is its own outcome. */
  datatype Placer<+K> = Found(key: K) | RemainderByZero

  function OrderPlacer<K>(authorities: seq<K>, height: u32, width: u32): (p: Placer<K>)
    ensures p.Found? ==> p.key in authorities
  {
    if authorities == [] then RemainderByZero
    else Found(authorities[CurrentSlot(height, width) % |authorities|])
  }

  // ------------------------------------------------------------- arithmetic

  lemma DivShrinks(a: nat, d: nat)
    requires d >= 1
    ensures 0 <= a / d <= a
  {
    DivBounds(a, d);
    MulMonotone(a / d, 1, d);
  }

  lemma MulMonotone(q: nat, d: nat, e: nat)
    requires d <= e
    ensures q * d <= q * e
  {
    assert q * e == q * d + q * (e - d);
  }

  lemma MulDistributes(a: int, b: int, d: int)
    ensures (a + b) * d == a * d + b * d
  {
  }

  lemma MulCancel(q: int, r: int, d: nat)
    requires q * d < r * d
    ensures q < r
  {
    if q >= r {
      MulMonotone(q - r, 0, d);
    }
  }

  lemma DivBounds(a: nat, d: nat)
    requires d >= 1
    ensures 0 <= (a / d) * d <= a < (a / d) * d + d
  {
    assert a == (a / d) * d + a % d;
  }

  /** The quotient is the only number whose multiple brackets the dividend. */
  lemma DivUnique(a: nat, d: nat, q: int)
    requires d >= 1
    ensures q * d <= a < q * d + d <==> q == a / d
  {
    DivBounds(a, d);
    if q < a / d {
      assert (q + 1) * d <= (a / d) * d;
    } else if q > a / d {
      assert (a / d + 1) * d <= q * d;
    }
  }

  lemma DivMonotone(a: nat, b: nat, d: nat)
    requires d >= 1 && a <= b
    ensures a / d <= b / d
  {
    DivBounds(a, d);
    DivBounds(b, d);
    assert (b / d + 1) * d == (b / d) * d + d;
    MulCancel(a / d, b / d + 1, d);
  }

  lemma DivAntitone(a: nat, d: nat, e: nat)
    requires 1 <= d <= e
    ensures a / e <= a / d
  {
    DivBounds(a, d);
    DivBounds(a, e);
    MulMonotone(a / e, d, e);
    assert (a / d + 1) * d == (a / d) * d + d;
    MulCancel(a / e, a / d + 1, d);
  }

  lemma {:induction false} Pow2Monotone(d: nat, e: nat)
    requires d <= e
    ensures Pow2(d) <= Pow2(e)
    ensures d < e ==> 2 * Pow2(d) <= Pow2(e)
    decreases e
  {
    if d < e {
      Pow2Monotone(d, e - 1);
    }
  }

  lemma Pow2Of31()
    ensures Pow2(31) == 0x8000_0000
  {
    assert Pow2(8) == 256;
    assert Pow2(16) == 65536;
    assert Pow2(24) == 0x100_0000;
  }

  lemma SlotLengthBounded(width: u32)
    ensures SlotLength(width) <= 0x8000_0000
  {
    Pow2Monotone(ShiftAmount(width), 31);
    Pow2Of31();
  }

  // ----------------------------------------------------------- shifts, bit by bit

  lemma HalfOf(a: nat, d: nat)
    requires d >= 1
    ensures a / (2 * d) == (a / d) / 2
  {
    var q := a / d;
    DivBounds(a, d);
    DivBounds(q, 2);
    var half := q / 2;
    MulMonotone(d, 2 * half, q);
    MulMonotone(d, q, 2 * half + 1);
    DivUnique(a, 2 * d, half);
  }

  lemma DoubleModulus(a: nat, n: nat)
    requires n >= 1
    ensures (2 * a) % n == (2 * (a % n)) % n
  {
    var r := a % n;
    DivBounds(a, n);
    assert a == (a / n) * n + r;
    ManyModulus(2 * r, 2 * (a / n), n);
  }

  lemma {:induction false} ManyModulus(a: nat, k: nat, n: nat)
    requires n >= 1
    ensures (a + k * n) % n == a % n
    decreases k
  {
    if k > 0 {
      ManyModulus(a, k - 1, n);
      AddModulus(a + (k - 1) * n, n);
      MulDistributes(k - 1, 1, n);
    }
  }

  /** Slots are `u32` shifts: by zero nothing moves, each further place drops the lowest
      bit on the right and the highest on the left, and amounts count modulo 32. */
  lemma ShiftsBitByBit(n: u32, width: u32)
    ensures CurrentSlot(n, 0) == n && FirstBlockInSlot(n, 0) == n
    ensures width < 31 ==>
              && CurrentSlot(n, width + 1) == CurrentSlot(n, width) / 2
              && FirstBlockInSlot(n, width + 1) == (2 * FirstBlockInSlot(n, width)) % 0x1_0000_0000
    ensures CurrentSlot(n, width) == CurrentSlot(n, width % 32)
    ensures FirstBlockInSlot(n, width) == FirstBlockInSlot(n, width % 32)
  {
    assert SlotLength(0) == 1;
    SmallModulus(n, U32_SIZE);
    if width < 31 {
      var d := SlotLength(width);
      assert SlotLength(width + 1) == 2 * d;
      HalfOf(n, d);
      DoubleModulus(n * d, U32_SIZE);
      assert n * (2 * d) == 2 * (n * d);
    }
  }

  // ------------------------------------------------- slots and their windows

  /** An order's requested lifetime is exactly the slot it was placed for. */
  lemma LifetimeIsExactlyTheSlot(seen: u32, width: u32, height: u32)
    ensures InRequestedLifetime(seen, width, height) <==>
            CurrentSlot(height, width) == CurrentSlot(seen, width)
  {
    var d, s := SlotLength(width), CurrentSlot(seen, width);
    DivBounds(seen, d);
    assert FirstBlockInSlot(s, width) == s * d;
    DivUnique(height, d, s);
  }

  /** The windows cut the heights into disjoint blocks that cover everything. */
  lemma LifetimesPartitionHeights(a: u32, b: u32, width: u32)
    ensures InRequestedLifetime(a, width, a)
    ensures (forall h: u32 :: InRequestedLifetime(a, width, h) <==> InRequestedLifetime(b, width, h))
            || (forall h: u32 :: !(InRequestedLifetime(a, width, h) && InRequestedLifetime(b, width, h)))
  {
    LifetimeIsExactlyTheSlot(a, width, a);
    forall h: u32
      ensures InRequestedLifetime(a, width, h) <==> CurrentSlot(h, width) == CurrentSlot(a, width)
      ensures InRequestedLifetime(b, width, h) <==> CurrentSlot(h, width) == CurrentSlot(b, width)
    {
      LifetimeIsExactlyTheSlot(a, width, h);
      LifetimeIsExactlyTheSlot(b, width, h);
    }
  }

  /** An order included within its requested lifetime lands in the slot whose
      scheduled placer is the one that signed for it. */
  lemma IncludedOrderHasItsPlacer<K>(authorities: seq<K>, seen: u32, width: u32, included: u32)
    requires InRequestedLifetime(seen, width, included)
    ensures CurrentSlot(included, width) == CurrentSlot(seen, width)
    ensures OrderPlacer(authorities, included, width) == OrderPlacer(authorities, seen, width)
  {
    LifetimeIsExactlyTheSlot(seen, width, included);
  }

  /** Whose turn a height is: every height has a placer as soon as there is an
      authority, and among distinct keys the `i`-th is it exactly in the `i`-th slot of
      each round, the slots that `Turns` and `ScheduledHeights` count below. */
  lemma PlacerExactlyInTurn<K>(authorities: seq<K>, height: u32, width: u32, i: nat)
    requires i < |authorities|
    requires forall a, b :: 0 <= a < b < |authorities| ==> authorities[a] != authorities[b]
    ensures OrderPlacer(authorities, height, width) == Found(authorities[i]) <==>
            (height / SlotLength(width)) % |authorities| == i
  {
    var turn := CurrentSlot(height, width) % |authorities|;
    assert turn != i ==> authorities[turn] != authorities[i];
  }

  /** A slot is newer than `previous` exactly from a known height on. */
  lemma NewerSlotIffHeight(previous: nat, height: u32, width: u32)
    ensures CurrentSlot(height, width) > previous <==> height >= (previous + 1) * SlotLength(width)
  {
    var d, s := SlotLength(width), CurrentSlot(height, width);
    DivBounds(height, d);
    if s > previous {
      MulMonotone(d, previous + 1, s);
    } else {
      MulMonotone(d, s + 1, previous + 1);
    }
    MulDistributes(s, 1, d);
  }

  /** Beyond slot 0 a height has one and the same slot under two widths exactly if they
      shift by the same amount. */
  lemma SameSlotExactlyWhenSameShift(height: u32, v: u32, w: u32)
    requires CurrentSlot(height, v) > 0
    ensures CurrentSlot(height, v) == CurrentSlot(height, w) <==> ShiftAmount(v) == ShiftAmount(w)
  {
    if ShiftAmount(v) < ShiftAmount(w) {
      if CurrentSlot(height, w) > 0 {
        WiderSlotIsLower(height, v, w);
      }
    } else if ShiftAmount(w) < ShiftAmount(v) {
      WiderSlotIsLower(height, w, v);
    }
  }

  lemma TwiceAsLong(q: nat, d: nat, e: nat)
    requires q > 0 && 2 * d <= e
    ensures (q + 1) * d <= q * e
  {
    MulMonotone(q, 2 * d, e);
    MulMonotone(d, 1, q);
    assert q * (2 * d) == q * d + d * q;
    MulDistributes(q, 1, d);
  }

  lemma WiderSlotIsLower(height: u32, narrow: u32, wide: u32)
    requires ShiftAmount(narrow) < ShiftAmount(wide) && CurrentSlot(height, wide) > 0
    ensures CurrentSlot(height, narrow) > CurrentSlot(height, wide)
  {
    var q, d, e := CurrentSlot(height, wide), SlotLength(narrow), SlotLength(wide);
    Pow2Monotone(ShiftAmount(narrow) + 1, ShiftAmount(wide));
    DivBounds(height, e);
    TwiceAsLong(q, d, e);
    NewerSlotIffHeight(q, height, narrow);
  }

  /** Rising slot numbers mean rising heights, provided slots did not get narrower. */
  lemma RisingSlotsRisingHeights(h1: u32, w1: u32, h2: u32, w2: u32)
    requires ShiftAmount(w1) <= ShiftAmount(w2)
    requires CurrentSlot(h1, w1) < CurrentSlot(h2, w2)
    ensures h1 < h2
  {
    Pow2Monotone(ShiftAmount(w1), ShiftAmount(w2));
    DivAntitone(h1, SlotLength(w1), SlotLength(w2));
    if h2 <= h1 {
      DivMonotone(h2, h1, SlotLength(w2));
    }
  }

  /** ... and that proviso is exact: for every narrowing there are two heights
      whose slots rise although the heights do not. */
  lemma RisingHeightsExactlyWhenNotNarrower(w1: u32, w2: u32)
    ensures (forall h1: u32, h2: u32 :: CurrentSlot(h1, w1) < CurrentSlot(h2, w2) ==> h1 < h2)
            <==> ShiftAmount(w1) <= ShiftAmount(w2)
  {
    if ShiftAmount(w1) <= ShiftAmount(w2) {
      forall h1: u32, h2: u32 | CurrentSlot(h1, w1) < CurrentSlot(h2, w2)
        ensures h1 < h2
      {
        RisingSlotsRisingHeights(h1, w1, h2, w2);
      }
    } else {
      var d1, d2 := SlotLength(w1), SlotLength(w2);
      Pow2Monotone(ShiftAmount(w2), ShiftAmount(w1));
      SlotLengthBounded(w1);
      var h1: u32, h2: u32 := d1, 2 * d2;
      DivUnique(h1, d1, 1);
      DivUnique(h2, d2, 2);
      assert CurrentSlot(h1, w1) == 1 && CurrentSlot(h2, w2) == 2 && h2 <= h1;
    }
  }

  // ------------------------------------------------------------ round robin

  /** How many of the `k` slots from `start` on belong to authority `i` of `n`. */
  function Turns(start: nat, k: nat, n: nat, i: nat): (t: nat)
    requires i < n
  {
    if k == 0 then 0
    else Turns(start, k - 1, n, i) + (if (start + k - 1) % n == i then 1 else 0)
  }

  lemma {:induction false} TurnsSplit(start: nat, j: nat, k: nat, n: nat, i: nat)
    requires i < n
    ensures Turns(start, j + k, n, i) == Turns(start, j, n, i) + Turns(start + j, k, n, i)
    decreases k
  {
    if k > 0 {
      TurnsSplit(start, j, k - 1, n, i);
      assert start + (j + k) - 1 == (start + j) + k - 1;
    }
  }

  lemma {:induction false} TurnsFromZero(k: nat, n: nat, i: nat)
    requires i < n && k <= n
    ensures Turns(0, k, n, i) == if i < k then 1 else 0
    decreases k
  {
    if k > 0 {
      TurnsFromZero(k - 1, n, i);
      SmallModulus(k - 1, n);
    }
  }

  lemma SmallModulus(a: nat, n: nat)
    requires a < n
    ensures a % n == a
  {
  }

  lemma AddModulus(a: nat, n: nat)
    requires n >= 1
    ensures (a + n) % n == a % n
  {
    DivBounds(a, n);
    DivBounds(a + n, n);
    DivUnique(a + n, n, a / n + 1);
  }

  /** Any `n` consecutive slots give every authority exactly one turn. */
  lemma {:induction false} OneTurnPerRound(start: nat, n: nat, i: nat)
    requires i < n
    ensures Turns(start, n, n, i) == 1
    decreases start
  {
    if start == 0 {
      TurnsFromZero(n, n, i);
    } else {
      OneTurnPerRound(start - 1, n, i);
      TurnsSplit(start - 1, 1, n, n, i);
      TurnsSplit(start - 1, n, 1, n, i);
      AddModulus(start - 1, n);
      assert Turns(start - 1, 1, n, i) == Turns(start - 1 + n, 1, n, i);
    }
  }

  /** Fairness: over any `k` consecutive slots each authority is scheduled
      floor(k/n) or ceil(k/n) times. */
  lemma {:induction false} RoundRobinIsFair(start: nat, k: nat, n: nat, i: nat)
    requires i < n
    ensures k / n <= Turns(start, k, n, i) <= (k + n - 1) / n
    decreases k
  {
    OneTurnPerRound(start, n, i);
    if k < n {
      TurnsSplit(start, k, n - k, n, i);
      if k == 0 {
        DivUnique(n - 1, n, 0);
      } else {
        DivUnique(k + n - 1, n, 1);
      }
      DivUnique(k, n, 0);
    } else {
      RoundRobinIsFair(start + n, k - n, n, i);
      TurnsSplit(start, n, k - n, n, i);
      DivPlusOne(k - n, n);
      DivPlusOne(k - 1, n);
    }
  }

  lemma DivPlusOne(a: nat, n: nat)
    requires n >= 1
    ensures (a + n) / n == a / n + 1
  {
    DivBounds(a, n);
    DivUnique(a + n, n, a / n + 1);
  }

  /** How many of the `len` heights from `from` on are scheduled for authority `i`. */
  function ScheduledHeights(from: nat, len: nat, slotLength: nat, n: nat, i: nat): (t: nat)
    requires i < n && slotLength >= 1
  {
    if len == 0 then 0
    else ScheduledHeights(from, len - 1, slotLength, n, i)
         + (if ((from + len - 1) / slotLength) % n == i then 1 else 0)
  }

  /** Within one slot either every height or no height is the authority's. */
  lemma {:induction false} HeightsWithinSlot(slot: nat, len: nat, slotLength: nat, n: nat, i: nat)
    requires i < n && 1 <= slotLength && len <= slotLength
    ensures ScheduledHeights(slot * slotLength, len, slotLength, n, i) == if slot % n == i then len else 0
    decreases len
  {
    if len > 0 {
      HeightsWithinSlot(slot, len - 1, slotLength, n, i);
      DivUnique(slot * slotLength + len - 1, slotLength, slot);
    }
  }

  lemma {:induction false} HeightsSplit(from: nat, j: nat, k: nat, slotLength: nat, n: nat, i: nat)
    requires i < n && slotLength >= 1
    ensures ScheduledHeights(from, j + k, slotLength, n, i)
            == ScheduledHeights(from, j, slotLength, n, i) + ScheduledHeights(from + j, k, slotLength, n, i)
    decreases k
  {
    if k > 0 {
      HeightsSplit(from, j, k - 1, slotLength, n, i);
      assert from + (j + k) - 1 == (from + j) + k - 1;
    }
  }

  lemma HeightsOfNextSlot(from: nat, len: nat, slot: nat, slotLength: nat, n: nat, i: nat)
    requires i < n && slotLength >= 1
    requires from + len == slot * slotLength
    ensures ScheduledHeights(from, len + slotLength, slotLength, n, i)
            == ScheduledHeights(from, len, slotLength, n, i) + (if slot % n == i then slotLength else 0)
  {
    HeightsSplit(from, len, slotLength, slotLength, n, i);
    HeightsWithinSlot(slot, slotLength, slotLength, n, i);
  }

  lemma {:induction false} HeightsPerTurn(start: nat, k: nat, slotLength: nat, n: nat, i: nat)
    requires i < n && slotLength >= 1
    ensures ScheduledHeights(start * slotLength, k * slotLength, slotLength, n, i)
            == Turns(start, k, n, i) * slotLength
    decreases k
  {
    if k > 0 {
      HeightsPerTurn(start, k - 1, slotLength, n, i);
      var from, len, t := start * slotLength, (k - 1) * slotLength, Turns(start, k - 1, n, i);
      assert from + len == (start + k - 1) * slotLength by { MulDistributes(start, k - 1, slotLength); }
      assert k * slotLength == len + slotLength by { MulDistributes(k - 1, 1, slotLength); }
      assert (t + 1) * slotLength == t * slotLength + slotLength by { MulDistributes(t, 1, slotLength); }
      HeightsOfNextSlot(from, len, start + k - 1, slotLength, n, i);
      assert ScheduledHeights(from, k * slotLength, slotLength, n, i)
             == t * slotLength + (if (start + k - 1) % n == i then slotLength else 0);
    }
  }

  /** Over any `n` whole consecutive slots every authority is scheduled for
      exactly one slot's worth of relay heights. */
  lemma EqualShareOfHeights(start: nat, width: u32, n: nat, i: nat)
    requires i < n
    ensures ScheduledHeights(start * SlotLength(width), n * SlotLength(width), SlotLength(width), n, i)
            == SlotLength(width)
  {
    HeightsPerTurn(start, n, SlotLength(width), n, i);
    OneTurnPerRound(start, n, i);
  }
}
