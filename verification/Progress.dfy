/** Progress: which saved commitments a tick can still deliver. */
module Progress {
  import opened Machine
  import opened Types
  import opened Commitments
  import opened Submission
  import D = Delegations
  import P = Pipeline
  import opened Gateway
  import SlotClock
  import Guarantees

  /** A step of this tick and of nothing else; it starts only on the slots it attempts. */
  predicate IsOwn(a: Action, t: nat, slots: seq<u64>) {
    (a.Starting? && a.tick == t && a.slot in slots) || (a.Ticking? && P.IsOf(a.p, t) && !a.p.Begin?)
  }

  ghost predicate AllOwn(actions: seq<Action>, t: nat, slots: seq<u64>) {
    forall i :: 0 <= i < |actions| ==> IsOwn(actions[i], t, slots)
  }

  ghost predicate Idle(s: State, t: nat) {
    t in s.pipeline.ticks ==> s.pipeline.ticks[t].queue == [] && s.pipeline.ticks[t].phase.Picking?
  }

  /** The row stands for an active delegation of the entry's slot whose committer is spelled like its slasher. */
  predicate SpelledAlike(row: D.DelegationRow, e: Entry) {
    row.isActive && Some(row.slotNumber) == e.slotNumber && row.committer == e.signed.commitment.slasher
  }

  ghost predicate HasAlike(s: State, e: Entry) {
    exists k :: 0 <= k < |s.delegations| && SpelledAlike(s.delegations[k], e)
  }

  /** The slot of the entry is among these. */
  ghost predicate InSlots(slots: seq<u64>, e: Entry) {
    exists slot :: slot in slots && TryI64(slot) == e.slotNumber
  }

  /** A tick that attempts these slots can take steps of its own after which the row is processed and
      delivered. */
  ghost predicate CanDeliver(cfg: Config, s: State, t: nat, i: nat, slots: seq<u64>) {
    exists later :: AllOwn(later, t, slots) && DeliveredAfter(Run(cfg, s, later), i)
  }

  ghost predicate DeliveredAfter(s: State, i: nat) {
    i < |s.pipeline.rows| && s.pipeline.rows[i].processed && P.Delivered(s.pipeline.relay, s.pipeline.rows[i].entry)
  }

  // ---- Without a delegation spelled alike, or in other slots ----

  ghost predicate QueueIsActive(table: D.Table, tick: P.Tick) {
    forall q :: 0 <= q < |tick.queue| ==> IsActive(table, tick.queue[q]) && tick.queue[q].slot == tick.slot
  }

  ghost predicate IsActive(table: D.Table, m: DelegationMessage) {
    exists k :: 0 <= k < |table| && table[k].isActive && D.Load(table[k]).message == m
  }

  /** The tick serves active delegations only, and none that could take the entry. */
  ghost predicate CannotServe(table: D.Table, tick: P.Tick, e: Entry) {
    && QueueIsActive(table, tick)
    && (tick.queue != [] && TryI64(tick.slot) == e.slotNumber ==> NoneAlike(table, e))
  }

  /** Nor does it carry the entry, which is not processed. */
  ghost predicate Misses(table: D.Table, ps: P.State, t: nat, i: nat, e: Entry) {
    && i < |ps.rows| && ps.rows[i].entry == e && !ps.rows[i].processed
    && (t in ps.ticks ==>
          && CannotServe(table, ps.ticks[t], e)
          && (!ps.ticks[t].phase.Picking? ==> e !in ps.ticks[t].phase.batch.entries))
  }

  ghost predicate NoneAlike(table: D.Table, e: Entry) {
    forall k :: 0 <= k < |table| ==> !SpelledAlike(table[k], e)
  }

  lemma SelectMisses(
      table: D.Table, ps: P.State, builders: KeyList, t: nat, selected: seq<Entry>, i: nat, e: Entry)
    requires Misses(table, ps, t, i, e)
    ensures Misses(table, P.Step(ps, builders, P.Select(t, selected)), t, i, e)
  {
    if P.CanSelect(ps, t, selected) {
      var tick := ps.ticks[t];
      var m := tick.queue[0];
      var k :| 0 <= k < |table| && table[k].isActive && D.Load(table[k]).message == m;
      assert TryI64(tick.slot) == e.slotNumber ==> !SpelledAlike(table[k], e);
      InConvertible(selected, m.committer, e);
      SelectionMembers(ps.rows, tick.slot, selected, e);
    }
  }

  lemma MarkMisses(table: D.Table, ps: P.State, builders: KeyList, t: nat, i: nat, e: Entry)
    requires P.Inv(ps) && Misses(table, ps, t, i, e)
    ensures Misses(table, P.Step(ps, builders, P.MarkDone(t)), t, i, e)
  {
    if t in ps.ticks && ps.ticks[t].phase.Marking? && HashOf(e) in HashesOf(ps.ticks[t].phase.batch.entries) {
      P.MarkedIsBatched(ps.rows, ps.ticks[t].phase.batch, i);
    }
  }

  lemma TickMisses(table: D.Table, ps: P.State, builders: KeyList, p: P.Action, t: nat, i: nat, e: Entry)
    requires P.Inv(ps) && Misses(table, ps, t, i, e)
    requires P.IsOf(p, t) && (p.Begin? ==> CannotServe(table, P.Tick(p.slot, p.queue, P.Picking), e))
    ensures Misses(table, P.Step(ps, builders, p), t, i, e)
  {
    match p
    case Select(_, selected) => SelectMisses(table, ps, builders, t, selected, i, e);
    case MarkDone(_) => MarkMisses(table, ps, builders, t, i, e);
    case _ =>
  }

  lemma StartIsActive(cfg: Config, table: D.Table, slot: u64, answer: seq<SignedDelegation>)
    requires D.IsAnswer(table, slot, answer)
    ensures QueueIsActive(table, P.Tick(slot, Queue(cfg, answer), P.Picking))
  {
    var ours := D.Filter(D.IsOurs(cfg.ourKey), answer);
    forall q | 0 <= q < |ours|
      ensures IsActive(table, ours[q].message) && ours[q].message.slot == slot
    {
      D.InFilter(D.IsOurs(cfg.ourKey), answer, ours[q]);
      var k := D.AnswerHasRow(table, slot, answer, ours[q]);
    }
  }

  lemma OwnStep(cfg: Config, s: State, a: Action, t: nat, slots: seq<u64>)
    requires IsOwn(a, t, slots)
    ensures Step(cfg, s, a).delegations == s.delegations
    ensures Step(cfg, s, a).pipeline
         == if a.Starting? && !D.IsAnswer(s.delegations, a.slot, a.answer) then s.pipeline
            else if a.Starting? then P.Step(s.pipeline, cfg.builders, P.Begin(t, a.slot, Queue(cfg, a.answer)))
            else P.Step(s.pipeline, cfg.builders, a.p)
  {
  }

  lemma StepMisses(cfg: Config, s: State, a: Action, t: nat, slots: seq<u64>, i: nat, e: Entry)
    requires P.Inv(s.pipeline) && IsOwn(a, t, slots)
    requires Misses(s.delegations, s.pipeline, t, i, e) && (InSlots(slots, e) ==> NoneAlike(s.delegations, e))
    ensures Misses(s.delegations, Step(cfg, s, a).pipeline, t, i, e)
  {
    OwnStep(cfg, s, a, t, slots);
    if a.Starting? && D.IsAnswer(s.delegations, a.slot, a.answer) {
      StartIsActive(cfg, s.delegations, a.slot, a.answer);
      TickMisses(s.delegations, s.pipeline, cfg.builders, P.Begin(t, a.slot, Queue(cfg, a.answer)), t, i, e);
    } else if a.Ticking? {
      TickMisses(s.delegations, s.pipeline, cfg.builders, a.p, t, i, e);
    }
  }

  lemma {:induction false} RunMisses(
      cfg: Config, s: State, later: seq<Action>, t: nat, slots: seq<u64>, i: nat, e: Entry)
    requires s in Lawful(cfg) && AllOwn(later, t, slots)
    requires Misses(s.delegations, s.pipeline, t, i, e) && (InSlots(slots, e) ==> NoneAlike(s.delegations, e))
    ensures Misses(s.delegations, Run(cfg, s, later).pipeline, t, i, e)
    decreases |later|
  {
    if later != [] {
      var s' := Step(cfg, s, later[0]);
      assert IsOwn(later[0], t, slots);
      OwnStep(cfg, s, later[0], t, slots);
      StepMisses(cfg, s, later[0], t, slots, i, e);
      StepInv(cfg, s, later[0]);
      RunMisses(cfg, s', later[1..], t, slots, i, e);
    }
  }

  // ---- With one ----

  /** The steps by which the tick delivers: it starts, gives up the delegations before the one it wants,
      and serves that one. */
  function Repeat(a: Action, n: nat): (r: seq<Action>)
    ensures |r| == n && forall i :: 0 <= i < n ==> r[i] == a
  {
    if n == 0 then [] else [a] + Repeat(a, n - 1)
  }

  lemma {:induction false} GiveUpRun(cfg: Config, s: State, t: nat, n: nat)
    requires t in s.pipeline.ticks && s.pipeline.ticks[t].phase.Picking? && n <= |s.pipeline.ticks[t].queue|
    ensures var tick := s.pipeline.ticks[t];
      Run(cfg, s, Repeat(Ticking(P.GiveUp(t)), n))
      == s.(pipeline := s.pipeline.(ticks := s.pipeline.ticks[t := P.Tick(tick.slot, tick.queue[n..], P.Picking)]))
    decreases n
  {
    var tick := s.pipeline.ticks[t];
    if n == 0 {
      assert tick == P.Tick(tick.slot, tick.queue[0..], P.Picking);
      assert s.pipeline.ticks[t := tick] == s.pipeline.ticks;
    } else {
      var a := Ticking(P.GiveUp(t));
      var s1 := s.(pipeline := s.pipeline.(ticks := s.pipeline.ticks[t := P.Advance(tick)]));
      assert Repeat(a, n)[1..] == Repeat(a, n - 1);
      GiveUpOne(cfg, s, t);
      GiveUpRun(cfg, s1, t, n - 1);
      assert tick.queue[1..][n - 1..] == tick.queue[n..];
      assert s1.pipeline.ticks[t := P.Tick(tick.slot, tick.queue[n..], P.Picking)]
          == s.pipeline.ticks[t := P.Tick(tick.slot, tick.queue[n..], P.Picking)];
    }
  }

  lemma GiveUpOne(cfg: Config, s: State, t: nat)
    requires t in s.pipeline.ticks
    ensures Step(cfg, s, Ticking(P.GiveUp(t)))
         == s.(pipeline := s.pipeline.(ticks := s.pipeline.ticks[t := P.Advance(s.pipeline.ticks[t])]))
  {
  }

  function Lift(ps: seq<P.Action>): (actions: seq<Action>)
    ensures |actions| == |ps| && forall i :: 0 <= i < |ps| ==> actions[i] == Ticking(ps[i])
  {
    if ps == [] then [] else [Ticking(ps[0])] + Lift(ps[1..])
  }

  lemma {:induction false} LiftRun(cfg: Config, s: State, ps: seq<P.Action>)
    requires forall i :: 0 <= i < |ps| ==> !ps[i].Inserting? && !ps[i].Begin?
    ensures Run(cfg, s, Lift(ps)) == s.(pipeline := P.Run(s.pipeline, cfg.builders, ps))
    decreases |ps|
  {
    if ps != [] {
      assert Lift(ps)[1..] == Lift(ps[1..]);
      LiftRun(cfg, PipelineStep(cfg, s, ps[0]), ps[1..]);
    }
  }

  /** The queue of a tick started now contains the delegation. */
  lemma IsQueued(cfg: Config, s: State, k: nat, slot: u64, answer: seq<SignedDelegation>) returns (q: nat)
    requires D.TableOk(cfg.bls, cfg.ourKey, s.delegations) && D.IsAnswer(s.delegations, slot, answer)
    requires k < |s.delegations| && s.delegations[k].isActive && s.delegations[k].slotNumber == AsI64(slot)
    ensures q < |Queue(cfg, answer)| && Queue(cfg, answer)[q].committer == s.delegations[k].committer
  {
    var row := s.delegations[k];
    var d := D.Load(row);
    assert D.RowOk(cfg.bls, cfg.ourKey, row);
    assert D.Offers(row, AsI64(slot), d);
    D.InActive(s.delegations, AsI64(slot), d);
    assert d in multiset(D.ActiveFor(s.delegations, AsI64(slot)));
    assert d in answer;
    D.InFilter(D.IsOurs(cfg.ourKey), answer, d);
    var ours := D.Filter(D.IsOurs(cfg.ourKey), answer);
    q :| 0 <= q < |ours| && ours[q] == d;
  }

  /** A tick whose first delegation is spelled like the waiting commitment's slasher delivers it. */
  lemma DeliversFirst(ps: P.State, builders: KeyList, t: nat, i: nat) returns (steps: seq<P.Action>)
    requires i < |ps.rows| <= 0x7FFF_FFFF_FFFF_FFFF && !ps.rows[i].processed
    requires t in ps.ticks && ps.ticks[t].phase.Picking? && ps.ticks[t].queue != []
    requires TryI64(ps.ticks[t].slot).Some? && ps.rows[i].entry.slotNumber == TryI64(ps.ticks[t].slot)
    requires IsConvertible(ps.rows[i].entry, ps.ticks[t].queue[0].committer)
    ensures forall j :: 0 <= j < |steps| ==> P.IsOf(steps[j], t) && !steps[j].Begin?
    ensures i < |P.Run(ps, builders, steps).rows| && P.Run(ps, builders, steps).rows[i].processed
  {
    var selected := WaitingSelected(ps, t, i);
    P.DeliverRun(ps, builders, t, selected);
    ConvertedHash(selected, ps.ticks[t].queue[0].committer, ps.rows[i].entry);
    steps := [P.Select(t, selected)] + ([P.Acknowledge(t)] + [P.MarkDone(t)]);
  }

  lemma WaitingSelected(ps: P.State, t: nat, i: nat) returns (selected: seq<Entry>)
    requires i < |ps.rows| <= 0x7FFF_FFFF_FFFF_FFFF && !ps.rows[i].processed
    requires t in ps.ticks && ps.ticks[t].phase.Picking? && ps.ticks[t].queue != []
    requires TryI64(ps.ticks[t].slot).Some? && ps.rows[i].entry.slotNumber == TryI64(ps.ticks[t].slot)
    requires IsConvertible(ps.rows[i].entry, ps.ticks[t].queue[0].committer)
    ensures P.CanSelect(ps, t, selected)
    ensures ps.rows[i].entry in Convertible(selected, ps.ticks[t].queue[0].committer)
  {
    var e, slot: i64 := ps.rows[i].entry, ps.ticks[t].slot;
    selected := SortedExists(PendingEntries(ps.rows, slot));
    SelectionLength(ps.rows, slot, selected);
    SelectionMembers(ps.rows, slot, selected, e);
    InConvertible(selected, ps.ticks[t].queue[0].committer, e);
  }

  lemma ConvertedHash(selected: seq<Entry>, committer: string, e: Entry)
    requires e in Convertible(selected, committer)
    ensures HashOf(e) in HashesOf(Convertible(selected, committer))
  {
    var converted := Convertible(selected, committer);
    var j :| 0 <= j < |converted| && converted[j] == e;
    assert HashesOf(converted)[j] == HashOf(e);
  }

  lemma ServeFirst(cfg: Config, s: State, t: nat, i: nat, slots: seq<u64>) returns (later: seq<Action>)
    requires i < |s.pipeline.rows| <= 0x7FFF_FFFF_FFFF_FFFF && !s.pipeline.rows[i].processed
    requires t in s.pipeline.ticks && s.pipeline.ticks[t].phase.Picking? && s.pipeline.ticks[t].queue != []
    requires TryI64(s.pipeline.ticks[t].slot).Some?
    requires s.pipeline.rows[i].entry.slotNumber == TryI64(s.pipeline.ticks[t].slot)
    requires IsConvertible(s.pipeline.rows[i].entry, s.pipeline.ticks[t].queue[0].committer)
    ensures AllOwn(later, t, slots)
    ensures var s' := Run(cfg, s, later); i < |s'.pipeline.rows| && s'.pipeline.rows[i].processed
  {
    var steps := DeliversFirst(s.pipeline, cfg.builders, t, i);
    LiftRun(cfg, s, steps);
    later := Lift(steps);
  }

  /** The tick starts on the slot and gives up the first delegations. */
  lemma StartRun(
      cfg: Config, s: State, t: nat, slot: u64, answer: seq<SignedDelegation>, q: nat, slots: seq<u64>)
    returns (first: seq<Action>)
    requires slot in slots && Idle(s, t) && D.IsAnswer(s.delegations, slot, answer) && q <= |Queue(cfg, answer)|
    ensures AllOwn(first, t, slots)
    ensures Run(cfg, s, first)
         == s.(pipeline := s.pipeline.(ticks :=
                 s.pipeline.ticks[t := P.Tick(slot, Queue(cfg, answer)[q..], P.Picking)]))
  {
    var start, skip := Starting(t, slot, answer), Repeat(Ticking(P.GiveUp(t)), q);
    var s1 := s.(pipeline := s.pipeline.(ticks := s.pipeline.ticks[t := P.Tick(slot, Queue(cfg, answer), P.Picking)]));
    StartStep(cfg, s, t, slot, answer);
    GiveUpRun(cfg, s1, t, q);
    RunOne(cfg, s, start);
    RunAppend(cfg, s, [start], skip);
    assert s1.pipeline.ticks[t := P.Tick(slot, Queue(cfg, answer)[q..], P.Picking)]
        == s.pipeline.ticks[t := P.Tick(slot, Queue(cfg, answer)[q..], P.Picking)];
    first := [start] + skip;
  }

  lemma RowFacts(cfg: Config, s: State, i: nat) returns (slot: u64)
    requires s in Lawful(cfg) && i < |s.pipeline.rows|
    ensures D.TableOk(cfg.bls, cfg.ourKey, s.delegations)
    ensures TryI64(slot).Some? && s.pipeline.rows[i].entry.slotNumber == TryI64(slot)
    ensures s.pipeline.rows[i].entry.signed.commitment.commitmentType == 1
  {
    slot := Guarantees.RowSlot(cfg, s, i);
    SlotFits(cfg, s, s.pipeline.rows[i].entry.signed.commitment.slasher, slot);
    GenuineSlot(cfg, s.pipeline.rows[i].entry.signed, slot);
  }

  lemma Serves(cfg: Config, s: State, t: nat, i: nat, k: nat, slots: seq<u64>) returns (later: seq<Action>)
    requires s in Lawful(cfg) && Idle(s, t)
    requires i < |s.pipeline.rows| <= 0x7FFF_FFFF_FFFF_FFFF && !s.pipeline.rows[i].processed
    requires k < |s.delegations| && SpelledAlike(s.delegations[k], s.pipeline.rows[i].entry)
    requires InSlots(slots, s.pipeline.rows[i].entry)
    ensures AllOwn(later, t, slots)
    ensures var s' := Run(cfg, s, later); i < |s'.pipeline.rows| && s'.pipeline.rows[i].processed
  {
    var slot := RowFacts(cfg, s, i);
    var answer := D.ActiveFor(s.delegations, AsI64(slot));
    var q := IsQueued(cfg, s, k, slot, answer);
    var first := StartRun(cfg, s, t, slot, answer, q, slots);
    var last := ServeFirst(cfg, Run(cfg, s, first), t, i, slots);
    RunAppend(cfg, s, first, last);
    later := first + last;
  }

  lemma StartStep(cfg: Config, s: State, t: nat, slot: u64, answer: seq<SignedDelegation>)
    requires Idle(s, t) && D.IsAnswer(s.delegations, slot, answer)
    ensures Step(cfg, s, Starting(t, slot, answer))
         == s.(pipeline := s.pipeline.(ticks := s.pipeline.ticks[t := P.Tick(slot, Queue(cfg, answer), P.Picking)]))
  {
  }

  // ---- The theorem ----

  lemma NotDelivered(cfg: Config, s: State, t: nat, i: nat, slots: seq<u64>)
    requires s in Lawful(cfg) && Idle(s, t) && i < |s.pipeline.rows| && !s.pipeline.rows[i].processed
    requires !HasAlike(s, s.pipeline.rows[i].entry) || !InSlots(slots, s.pipeline.rows[i].entry)
    ensures !CanDeliver(cfg, s, t, i, slots)
  {
    var e := s.pipeline.rows[i].entry;
    forall later | AllOwn(later, t, slots)
      ensures !DeliveredAfter(Run(cfg, s, later), i)
    {
      RunMisses(cfg, s, later, t, slots, i, e);
    }
  }

  lemma DeliverableIn(cfg: Config, actions: seq<Action>, t: nat, i: nat, slots: seq<u64>)
    requires var s := Run(cfg, INITIAL, actions);
      Idle(s, t) && i < |s.pipeline.rows| <= 0x7FFF_FFFF_FFFF_FFFF && !s.pipeline.rows[i].processed
    ensures var s := Run(cfg, INITIAL, actions);
      var e := s.pipeline.rows[i].entry;
      CanDeliver(cfg, s, t, i, slots) <==> HasAlike(s, e) && InSlots(slots, e)
  {
    Guarantees.RunIsLawful(cfg, actions);
    var s := Run(cfg, INITIAL, actions);
    var e := s.pipeline.rows[i].entry;
    if HasAlike(s, e) && InSlots(slots, e) {
      var k :| 0 <= k < |s.delegations| && SpelledAlike(s.delegations[k], e);
      var later := Serves(cfg, s, t, i, k, slots);
      RunAppend(cfg, INITIAL, actions, later);
      Guarantees.ProcessedWasDelivered(cfg, actions + later, i);
      assert DeliveredAfter(Run(cfg, s, later), i);
    } else {
      NotDelivered(cfg, s, t, i, slots);
    }
  }

  /** The clock is read in order within the tick and no sum of the tick overflows. */
  predicate IsClock(cfg: Config, clock: nat -> u64) {
    SlotClock.NoOverflow(cfg.genesisTime, clock(0)) && forall i, j :: 0 <= i <= j <= 4 ==> clock(i) <= clock(j)
  }

  /** The entry's slot is at most three ahead and at most eight seconds old, by the tick's own clock. */
  predicate IsDue(cfg: Config, clock: nat -> u64, e: Entry) {
    && e.slotNumber.Some?
    && var slot, current := e.slotNumber.value, SlotClock.CurrentSlotEstimate(cfg.genesisTime, clock(0));
      current <= slot <= current + 3 && clock(slot - current + 1) <= cfg.genesisTime + 12 * slot + 8
  }

  /** In every reachable state and for every idle tick: the tick can deliver and mark a waiting commitment
      by steps of its own exactly when an active delegation for the commitment's slot has its committer
      spelled like the slasher, and the slot is in the tick's window. */
  lemma DeliverableExactly(cfg: Config, actions: seq<Action>, t: nat, i: nat, clock: nat -> u64)
    requires var s := Run(cfg, INITIAL, actions);
      Idle(s, t) && i < |s.pipeline.rows| <= 0x7FFF_FFFF_FFFF_FFFF && !s.pipeline.rows[i].processed
    requires IsClock(cfg, clock)
    ensures var s := Run(cfg, INITIAL, actions);
      var e := s.pipeline.rows[i].entry;
      CanDeliver(cfg, s, t, i, SlotClock.AttemptedUpTo(cfg.genesisTime, clock, 4))
      <==> HasAlike(s, e) && IsDue(cfg, clock, e)
  {
    var slots := SlotClock.AttemptedUpTo(cfg.genesisTime, clock, 4);
    DeliverableIn(cfg, actions, t, i, slots);
    var s := Run(cfg, INITIAL, actions);
    Guarantees.RunIsLawful(cfg, actions);
    var slot := RowFacts(cfg, s, i);
    SlotClock.AttemptedExactly(cfg.genesisTime, clock, slot);
    assert InSlots(slots, s.pipeline.rows[i].entry) <==> slot in slots;
  }

  // ---- After the window ----

  /** No tick works on the entry's slot or carries the entry, which is not processed. */
  ghost predicate Abandoned(ps: P.State, i: nat, e: Entry) {
    && i < |ps.rows| && ps.rows[i].entry == e && !ps.rows[i].processed
    && forall t :: t in ps.ticks ==>
         && (ps.ticks[t].queue != [] ==> TryI64(ps.ticks[t].slot) != e.slotNumber)
         && (!ps.ticks[t].phase.Picking? ==> e !in ps.ticks[t].phase.batch.entries)
  }

  lemma StepAbandons(ps: P.State, builders: KeyList, p: P.Action, i: nat, e: Entry)
    requires P.Inv(ps) && Abandoned(ps, i, e)
    requires p.Begin? ==> TryI64(p.slot) != e.slotNumber
    ensures Abandoned(P.Step(ps, builders, p), i, e)
    ensures P.Accepted(P.Step(ps, builders, p).relay, e) ==> P.Accepted(ps.relay, e)
  {
    match p
    case Select(t, selected) =>
      if P.CanSelect(ps, t, selected) {
        InConvertible(selected, ps.ticks[t].queue[0].committer, e);
        SelectionMembers(ps.rows, ps.ticks[t].slot, selected, e);
      }
    case MarkDone(t) =>
      if t in ps.ticks && ps.ticks[t].phase.Marking? && HashOf(e) in HashesOf(ps.ticks[t].phase.batch.entries) {
        P.MarkedIsBatched(ps.rows, ps.ticks[t].phase.batch, i);
      }
    case _ =>
  }

  /** Every tick of the run starts on slots that a clock not before `now` lets it attempt. */
  ghost predicate StartsFrom(cfg: Config, actions: seq<Action>, now: u64) {
    forall i :: 0 <= i < |actions| && actions[i].Starting? ==> StartsAfter(cfg, actions[i].slot, now)
  }

  ghost predicate StartsAfter(cfg: Config, slot: u64, now: u64) {
    exists clock: nat -> u64 ::
      IsClock(cfg, clock) && now <= clock(0) && slot in SlotClock.AttemptedUpTo(cfg.genesisTime, clock, 4)
  }

  lemma StartsElsewhere(cfg: Config, slot: u64, now: u64, late: u64)
    requires StartsAfter(cfg, slot, now) && now > cfg.genesisTime + 12 * late + 8
    ensures slot != late
  {
    var clock: nat -> u64 :|
      IsClock(cfg, clock) && now <= clock(0) && slot in SlotClock.AttemptedUpTo(cfg.genesisTime, clock, 4);
    SlotClock.AttemptedExactly(cfg.genesisTime, clock, slot);
  }

  lemma {:induction false} RunAbandons(
      cfg: Config, s: State, later: seq<Action>, now: u64, i: nat, e: Entry, slot: u64)
    requires P.Inv(s.pipeline) && Abandoned(s.pipeline, i, e) && StartsFrom(cfg, later, now)
    requires e.slotNumber == Some(slot as int) && now > cfg.genesisTime + 12 * slot + 8
    ensures Abandoned(Run(cfg, s, later).pipeline, i, e)
    ensures P.Accepted(Run(cfg, s, later).pipeline.relay, e) ==> P.Accepted(s.pipeline.relay, e)
    decreases |later|
  {
    if later != [] {
      StepPipeline(cfg, s, later[0]);
      if p :| PipelineAction(cfg, s, later[0]) == Some(p) {
        if later[0].Starting? {
          StartsElsewhere(cfg, later[0].slot, now, slot);
        }
        StepAbandons(s.pipeline, cfg.builders, p, i, e);
        P.StepInv(s.pipeline, cfg.builders, p);
      }
      RunAbandons(cfg, Step(cfg, s, later[0]), later[1..], now, i, e, slot);
    }
  }

  /** A commitment for which no tick is at work after the eighth second of its slot is never submitted nor
      marked, whatever requests, polls and ticks follow. */
  lemma LateIsNeverSubmitted(cfg: Config, actions: seq<Action>, later: seq<Action>, now: u64, i: nat, slot: u64)
    requires var s := Run(cfg, INITIAL, actions);
      && i < |s.pipeline.rows| && Abandoned(s.pipeline, i, s.pipeline.rows[i].entry)
      && s.pipeline.rows[i].entry.slotNumber == Some(slot as int)
    requires now > cfg.genesisTime + 12 * slot + 8 && StartsFrom(cfg, later, now)
    ensures var s := Run(cfg, INITIAL, actions);
      var e, s' := s.pipeline.rows[i].entry, Run(cfg, s, later);
      && i < |s'.pipeline.rows| && s'.pipeline.rows[i].entry == e && !s'.pipeline.rows[i].processed
      && (P.Accepted(s'.pipeline.relay, e) ==> P.Accepted(s.pipeline.relay, e))
  {
    var s := Run(cfg, INITIAL, actions);
    Guarantees.RunIsLawful(cfg, actions);
    RunAbandons(cfg, s, later, now, i, s.pipeline.rows[i].entry, slot);
  }
}
