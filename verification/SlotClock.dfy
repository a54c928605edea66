/** Slots, deadlines and the slots a submission tick attempts (src/types/beacon.rs,
    src/services/constraint_submission.rs).
    Times are whole seconds. Release builds wrap on overflow. */
module SlotClock {
  import opened Machine

  const SLOT_SECONDS: u64 := 12
  const DEADLINE: u64 := 8
  const LOOKAHEAD: u64 := 3
  const TICK_SECONDS: u64 := 2

  function CurrentSlotEstimate(genesis: u64, now: u64): u64 {
    if now < genesis then 0 else (now - genesis) / SLOT_SECONDS
  }

  function ConstraintDeadline(genesis: u64, slot: u64): u64 {
    (genesis + slot * SLOT_SECONDS + DEADLINE) % TWO_64
  }

  /** Eight seconds into the slot, modulo 2^64. */
  lemma DeadlineExactly(genesis: u64, slot: u64)
    ensures exists k: nat :: genesis + 12 * slot + 8 == k * TWO_64 + ConstraintDeadline(genesis, slot)
  {
    var n := genesis + 12 * slot + 8;
    assert n == (n / TWO_64) * TWO_64 + n % TWO_64;
  }

  predicate IsWithinWindow(genesis: u64, slot: u64, now: u64) {
    now <= ConstraintDeadline(genesis, slot)
  }

  /** The slots a tick goes through: `clock(0)` is read for the current slot, `clock(1 + i)` for the
      deadline of the i-th slot; `upTo` is how many have been looked at. */
  function AttemptedUpTo(genesis: u64, clock: nat -> u64, upTo: nat): (slots: seq<u64>)
    requires upTo <= 4
  {
    if upTo == 0 then []
    else
      var slot := CurrentSlotEstimate(genesis, clock(0)) + upTo - 1;
      AttemptedUpTo(genesis, clock, upTo - 1) + (if IsWithinWindow(genesis, slot, clock(upTo)) then [slot] else [])
  }

  /** No product or sum of a tick that starts at this time exceeds 64 bits. */
  predicate NoOverflow(genesis: u64, now: u64) {
    genesis + (CurrentSlotEstimate(genesis, now) + LOOKAHEAD) * SLOT_SECONDS + DEADLINE < TWO_64
  }

  lemma {:induction false} InAttempted(genesis: u64, clock: nat -> u64, upTo: nat, slot: u64)
    requires upTo <= 4
    ensures var current := CurrentSlotEstimate(genesis, clock(0));
      slot in AttemptedUpTo(genesis, clock, upTo)
      <==> current <= slot < current + upTo && IsWithinWindow(genesis, slot, clock(slot - current + 1))
  {
    if upTo > 0 {
      InAttempted(genesis, clock, upTo - 1, slot);
    }
  }

  /** A tick whose clock is read at `begun` for the current slot and at `checked` for this slot's
      deadline attempts the slot exactly in these two cases. Before genesis it attempts slots 0 to 3. */
  lemma AttemptedExactly(genesis: u64, clock: nat -> u64, slot: u64)
    requires NoOverflow(genesis, clock(0))
    requires forall i, j :: 0 <= i <= j <= 4 ==> clock(i) <= clock(j)
    ensures var current := CurrentSlotEstimate(genesis, clock(0));
      slot in AttemptedUpTo(genesis, clock, 4)
      <==> && current <= slot <= current + 3
           && clock(slot - current + 1) <= genesis + 12 * slot + 8
           && (clock(0) >= genesis ==> genesis + 12 * slot - 36 <= clock(0))
           && (clock(0) < genesis ==> slot <= 3)
  {
    var current := CurrentSlotEstimate(genesis, clock(0));
    InAttempted(genesis, clock, 4, slot);
    if current <= slot <= current + 3 {
      NoWrap(genesis, clock(0), slot);
    }
  }

  lemma NoWrap(genesis: u64, now: u64, slot: u64)
    requires NoOverflow(genesis, now) && slot <= CurrentSlotEstimate(genesis, now) + 3
    ensures ConstraintDeadline(genesis, slot) == genesis + 12 * slot + 8
  {
  }

  /** With one clock value at or after genesis: from three slots ahead until the deadline. */
  lemma WindowIsExact(genesis: u64, now: u64, slot: u64)
    requires now >= genesis && NoOverflow(genesis, now)
    ensures slot in AttemptedUpTo(genesis, (i: nat) => now, 4)
       <==> genesis + 12 * slot - 36 <= now <= genesis + 12 * slot + 8
  {
    AttemptedExactly(genesis, (i: nat) => now, slot);
  }

  /** So every slot from the third on is attempted by 22 or 23 consecutive two-second ticks, and by
      no tick before or after those. */
  lemma TicksOfSlot(genesis: u64, slot: u64, first: u64, i: int, now: u64)
    requires slot >= 3
    requires genesis + 12 * slot - 36 <= first <= genesis + 12 * slot - 35
    requires now == first + TICK_SECONDS * i && genesis <= now && NoOverflow(genesis, now)
    ensures slot in AttemptedUpTo(genesis, (j: nat) => now, 4)
       <==> 0 <= i < (if first == genesis + 12 * slot - 36 then 23 else 22)
  {
    WindowIsExact(genesis, now, slot);
  }

  /** Before genesis every tick attempts the first four slots. */
  lemma BeforeGenesis(genesis: u64, slot: u64, now: u64)
    requires now < genesis && NoOverflow(genesis, now)
    ensures slot in AttemptedUpTo(genesis, (j: nat) => now, 4) <==> slot <= 3
  {
    AttemptedExactly(genesis, (j: nat) => now, slot);
  }

  /** Slots attempted by a tick come in order and each once. */
  lemma {:induction false} AttemptedAscends(genesis: u64, clock: nat -> u64, upTo: nat)
    requires upTo <= 4
    ensures forall i, j :: 0 <= i < j < |AttemptedUpTo(genesis, clock, upTo)| ==>
              AttemptedUpTo(genesis, clock, upTo)[i] < AttemptedUpTo(genesis, clock, upTo)[j]
    ensures forall slot :: slot in AttemptedUpTo(genesis, clock, upTo) ==>
              slot < CurrentSlotEstimate(genesis, clock(0)) + upTo
  {
    if upTo > 0 {
      AttemptedAscends(genesis, clock, upTo - 1);
      var earlier := AttemptedUpTo(genesis, clock, upTo - 1);
      assert forall i :: 0 <= i < |earlier| ==> earlier[i] in earlier;
    }
  }
}
