/** Turning stored commitments into constraints (src/services/constraint_submission.rs). */
module Submission {
  import opened Machine
  import opened Types
  import opened Commitments

  predicate IsConvertible(e: Entry, committer: string) {
    e.signed.commitment.slasher == committer && e.signed.commitment.commitmentType == 1
  }

  /** The type-1 commitments whose slasher is spelled exactly like the committer, in order. */
  function Convertible(es: seq<Entry>, committer: string): seq<Entry> {
    if es == [] then []
    else
      var last := es[|es| - 1];
      Convertible(es[..|es| - 1], committer) + (if IsConvertible(last, committer) then [last] else [])
  }

  function ConstraintsOf(es: seq<Entry>): (cs: seq<Constraint>)
    ensures |cs| == |es|
    ensures forall i :: 0 <= i < |es| ==> cs[i] == Constraint(1, es[i].signed.commitment.payload)
  {
    seq(|es|, i requires 0 <= i < |es| => Constraint(1, es[i].signed.commitment.payload))
  }

  function HashesOf(es: seq<Entry>): (hs: seq<string>)
    ensures |hs| == |es|
    ensures forall i :: 0 <= i < |es| ==> hs[i] == HashOf(es[i])
  {
    seq(|es|, i requires 0 <= i < |es| => HashOf(es[i]))
  }

  lemma ConvertibleAppend(es: seq<Entry>, e: Entry, committer: string)
    ensures Convertible(es + [e], committer)
         == Convertible(es, committer) + (if IsConvertible(e, committer) then [e] else [])
  {
    assert (es + [e])[..|es|] == es;
  }

  lemma {:induction false} InConvertible(es: seq<Entry>, committer: string, e: Entry)
    ensures e in Convertible(es, committer) <==> e in es && IsConvertible(e, committer)
    ensures IsConvertible(e, committer)
       <==> e.signed.commitment.slasher == committer && e.signed.commitment.commitmentType == 1
  {
    if es != [] {
      InConvertible(es[..|es| - 1], committer, e);
      assert es == es[..|es| - 1] + [es[|es| - 1]];
    }
  }

  ghost predicate Distinct(es: seq<Entry>) {
    forall i, j :: 0 <= i < j < |es| ==> es[i] != es[j]
  }

  lemma {:induction false} ConvertibleKeeps(es: seq<Entry>, committer: string)
    requires SortedByTime(es) && Distinct(es)
    ensures SortedByTime(Convertible(es, committer)) && Distinct(Convertible(es, committer))
  {
    if es != [] {
      var init, last := es[..|es| - 1], es[|es| - 1];
      var kept := Convertible(init, committer);
      ConvertibleKeeps(init, committer);
      forall i | 0 <= i < |kept|
        ensures kept[i].createdAt <= last.createdAt && kept[i] != last
      {
        InConvertible(init, committer, kept[i]);
        var j :| 0 <= j < |init| && init[j] == kept[i];
        assert es[j] == kept[i];
      }
    }
  }

  lemma PartsAppend(es: seq<Entry>, e: Entry)
    ensures ConstraintsOf(es + [e]) == ConstraintsOf(es) + [Constraint(1, e.signed.commitment.payload)]
    ensures HashesOf(es + [e]) == HashesOf(es) + [HashOf(e)]
  {
  }

  method CreateConstraints(commitments: seq<Entry>, committer: string)
    returns (constraints: seq<Constraint>, processedHashes: seq<string>)
    ensures constraints == ConstraintsOf(Convertible(commitments, committer))
    ensures processedHashes == HashesOf(Convertible(commitments, committer))
  {
    constraints, processedHashes := [], [];
    for i := 0 to |commitments|
      invariant constraints == ConstraintsOf(Convertible(commitments[..i], committer))
      invariant processedHashes == HashesOf(Convertible(commitments[..i], committer))
    {
      var commitment := commitments[i].signed.commitment;
      ConvertibleAppend(commitments[..i], commitments[i], committer);
      assert commitments[..i + 1] == commitments[..i] + [commitments[i]];
      if commitment.slasher != committer {
        continue;
      }
      if commitment.commitmentType == 1 {
        PartsAppend(Convertible(commitments[..i], committer), commitments[i]);
        constraints := constraints + [Constraint(1, commitment.payload)];
        processedHashes := processedHashes + [commitment.requestHash];
      }
    }
    assert commitments[..|commitments|] == commitments;
  }
}

/** The `commitments` table, the relay and any number of submission ticks. Every SQL statement and
    every relay request is one step; steps of different ticks and inserts interleave freely. */
module Pipeline {
  import opened Machine
  import opened Types
  import opened Commitments
  import opened Submission

  /** A submission: the message, and for the statements below whose commitments it carries, the
      rows they came from and how many rows there were when they were selected. */
  datatype Batch = Batch(committer: string, message: ConstraintsMessage, entries: seq<Entry>, seen: nat)

  datatype Phase = Picking | Submitting(batch: Batch) | Marking(batch: Batch)

  /** A tick at work on a slot: the delegations still to serve and what it does for the first. */
  datatype Tick = Tick(slot: u64, queue: seq<DelegationMessage>, phase: Phase)

  /** `relay` is the list of messages the relay accepted. */
  datatype State = State(rows: Rows, relay: seq<Batch>, ticks: map<nat, Tick>)

  datatype Action =
    | Inserting(entry: Entry)
    | Begin(tick: nat, slot: u64, queue: seq<DelegationMessage>)
    | Select(tick: nat, selected: seq<Entry>)
    | RelayKeeps(tick: nat)       // the relay accepts, the tick does not learn it and may post again
    | Acknowledge(tick: nat)      // the relay accepts with 200 or 202
    | MarkDone(tick: nat)
    | GiveUp(tick: nat)           // any failure: the next delegation is served

  const INITIAL := State([], [], map[])

  ghost predicate CanSelect(s: State, t: nat, selected: seq<Entry>) {
    && t in s.ticks && s.ticks[t].phase.Picking? && s.ticks[t].queue != []
    && TryI64(s.ticks[t].slot).Some?
    && IsSelection(s.rows, s.ticks[t].slot, selected)
    && |selected| <= 0x7FFF_FFFF_FFFF_FFFF
  }

  function MakeBatch(s: State, tick: Tick, builders: KeyList, selected: seq<Entry>): Batch
    requires tick.queue != []
    requires |Convertible(selected, tick.queue[0].committer)| <= 0x7FFF_FFFF_FFFF_FFFF
  {
    var d := tick.queue[0];
    var entries := Convertible(selected, d.committer);
    Batch(d.committer, ConstraintsMessage(d.proposer, d.delegate, tick.slot, ConstraintsOf(entries), builders),
          entries, |s.rows|)
  }

  function Advance(tick: Tick): Tick {
    Tick(tick.slot, if tick.queue == [] then [] else tick.queue[1..], Picking)
  }

  /** A disabled action changes nothing. */
  ghost function Step(s: State, builders: KeyList, a: Action): State {
    match a
    case Inserting(entry) => s.(rows := Insert(s.rows, entry))
    case Begin(t, slot, queue) =>
      if t in s.ticks && (s.ticks[t].queue != [] || !s.ticks[t].phase.Picking?) then s
      else s.(ticks := s.ticks[t := Tick(slot, queue, Picking)])
    case Select(t, selected) =>
      if !CanSelect(s, t, selected) then s
      else
        var tick := s.ticks[t];
        SelectionShrinks(s, t, selected);
        var batch := MakeBatch(s, tick, builders, selected);
        s.(ticks := s.ticks[t := if batch.entries == [] then Advance(tick) else tick.(phase := Submitting(batch))])
    case RelayKeeps(t) =>
      if t in s.ticks && s.ticks[t].phase.Submitting? then s.(relay := s.relay + [s.ticks[t].phase.batch]) else s
    case Acknowledge(t) =>
      if t in s.ticks && s.ticks[t].phase.Submitting? then
        var batch := s.ticks[t].phase.batch;
        s.(relay := s.relay + [batch], ticks := s.ticks[t := s.ticks[t].(phase := Marking(batch))])
      else s
    case MarkDone(t) =>
      if t in s.ticks && s.ticks[t].phase.Marking? then
        s.(rows := Mark(s.rows, HashesOf(s.ticks[t].phase.batch.entries)), ticks := s.ticks[t := Advance(s.ticks[t])])
      else s
    case GiveUp(t) =>
      if t in s.ticks then s.(ticks := s.ticks[t := Advance(s.ticks[t])]) else s
  }

  lemma {:induction false} ConvertibleLength(es: seq<Entry>, committer: string)
    ensures |Convertible(es, committer)| <= |es|
  {
    if es != [] {
      ConvertibleLength(es[..|es| - 1], committer);
    }
  }

  lemma SelectionShrinks(s: State, t: nat, selected: seq<Entry>)
    requires CanSelect(s, t, selected)
    ensures |Convertible(selected, s.ticks[t].queue[0].committer)| <= 0x7FFF_FFFF_FFFF_FFFF
  {
    ConvertibleLength(selected, s.ticks[t].queue[0].committer);
  }

  ghost function Run(s: State, builders: KeyList, actions: seq<Action>): State
    decreases |actions|
  {
    if actions == [] then s else Run(Step(s, builders, actions[0]), builders, actions[1..])
  }

  lemma {:induction false} RunAppend(s: State, builders: KeyList, a: seq<Action>, b: seq<Action>)
    ensures Run(s, builders, a + b) == Run(Run(s, builders, a), builders, b)
    decreases |a|
  {
    if a == [] {
      assert a + b == b;
    } else {
      assert (a + b)[1..] == a[1..] + b;
      RunAppend(Step(s, builders, a[0]), builders, a[1..], b);
    }
  }

  lemma RunOne(s: State, builders: KeyList, a: Action)
    ensures Run(s, builders, [a]) == Step(s, builders, a)
  {
    assert [a][1..] == [];
  }

  /** A step of this tick. */
  predicate IsOf(a: Action, t: nat) {
    match a
    case Inserting(_) => false
    case _ => a.tick == t
  }

  // ---- A tick that serves its first delegation ----

  /** Selecting, one accepted POST and marking, without interruption. */
  lemma DeliverRun(s: State, builders: KeyList, t: nat, selected: seq<Entry>)
    requires CanSelect(s, t, selected) && Convertible(selected, s.ticks[t].queue[0].committer) != []
    ensures |Convertible(selected, s.ticks[t].queue[0].committer)| <= 0x7FFF_FFFF_FFFF_FFFF
    ensures var b := MakeBatch(s, s.ticks[t], builders, selected);
      Run(s, builders, [Select(t, selected)] + ([Acknowledge(t)] + [MarkDone(t)]))
      == State(Mark(s.rows, HashesOf(b.entries)), s.relay + [b], s.ticks[t := Advance(s.ticks[t])])
  {
    SelectionShrinks(s, t, selected);
    var b := MakeBatch(s, s.ticks[t], builders, selected);
    var s1 := s.(ticks := s.ticks[t := s.ticks[t].(phase := Submitting(b))]);
    RunAppend(s, builders, [Select(t, selected)], [Acknowledge(t)] + [MarkDone(t)]);
    RunOne(s, builders, Select(t, selected));
    AcceptRun(s1, builders, t, b);
    assert s1.ticks[t := Advance(s1.ticks[t])] == s.ticks[t := Advance(s.ticks[t])];
  }

  lemma AcceptRun(s: State, builders: KeyList, t: nat, b: Batch)
    requires t in s.ticks && s.ticks[t].phase == Submitting(b)
    ensures Run(s, builders, [Acknowledge(t)] + [MarkDone(t)])
         == State(Mark(s.rows, HashesOf(b.entries)), s.relay + [b], s.ticks[t := Advance(s.ticks[t])])
  {
    var s1 := s.(relay := s.relay + [b], ticks := s.ticks[t := s.ticks[t].(phase := Marking(b))]);
    RunAppend(s, builders, [Acknowledge(t)], [MarkDone(t)]);
    RunOne(s, builders, Acknowledge(t));
    RunOne(s1, builders, MarkDone(t));
    assert s1.ticks[t := Advance(s1.ticks[t])] == s.ticks[t := Advance(s.ticks[t])];
  }

  // ---- What every step keeps ----

  /** Rows are never deleted or rewritten, and a processed row stays processed. */
  ghost predicate Extends(old': Rows, new': Rows) {
    && |old'| <= |new'|
    && forall i :: 0 <= i < |old'| ==> new'[i].entry == old'[i].entry && (old'[i].processed ==> new'[i].processed)
  }

  lemma StepExtends(s: State, builders: KeyList, a: Action)
    ensures Extends(s.rows, Step(s, builders, a).rows)
    ensures s.relay <= Step(s, builders, a).relay
  {
  }

  lemma {:induction false} RunExtends(s: State, builders: KeyList, actions: seq<Action>)
    ensures Extends(s.rows, Run(s, builders, actions).rows)
    ensures s.relay <= Run(s, builders, actions).relay
    decreases |actions|
  {
    if actions != [] {
      StepExtends(s, builders, actions[0]);
      RunExtends(Step(s, builders, actions[0]), builders, actions[1..]);
    }
  }

  /** The entry is for this slot, is convertible for this committer, and is in the table. */
  ghost predicate Belongs(e: Entry, slot: u64, committer: string) {
    e.slotNumber.Some? && e.slotNumber == TryI64(slot) && IsConvertible(e, committer)
  }

  ghost predicate Among(e: Entry, rows: Rows, bound: nat) {
    exists i :: 0 <= i < bound <= |rows| && rows[i].entry == e
  }

  ghost predicate BatchOk(rows: Rows, b: Batch) {
    && b.seen <= |rows|
    && b.message.constraints == ConstraintsOf(b.entries)
    && SortedByTime(b.entries) && Distinct(b.entries)
    && forall e :: e in b.entries ==> Belongs(e, b.message.slot, b.committer) && Among(e, rows, b.seen)
  }

  ghost predicate Accepted(relay: seq<Batch>, e: Entry) {
    exists k :: 0 <= k < |relay| && e in relay[k].entries
  }

  ghost predicate Inv(s: State) {
    && UniqueHashes(s.rows)
    && (forall k :: 0 <= k < |s.relay| ==> BatchOk(s.rows, s.relay[k]))
    && (forall t :: t in s.ticks && !s.ticks[t].phase.Picking? ==> BatchOk(s.rows, s.ticks[t].phase.batch))
    && (forall t :: t in s.ticks && s.ticks[t].phase.Marking? ==> s.ticks[t].phase.batch in s.relay)
    && (forall i :: 0 <= i < |s.rows| && s.rows[i].processed ==> Accepted(s.relay, s.rows[i].entry))
  }

  lemma BatchOkLater(rows: Rows, later: Rows, b: Batch)
    requires BatchOk(rows, b) && Extends(rows, later)
    ensures BatchOk(later, b)
  {
    forall e | e in b.entries
      ensures Among(e, later, b.seen)
    {
      var i :| 0 <= i < b.seen <= |rows| && rows[i].entry == e;
      assert later[i].entry == e;
    }
  }

  lemma BatchesLater(s: State, later: Rows)
    requires Inv(s) && Extends(s.rows, later)
    ensures forall k :: 0 <= k < |s.relay| ==> BatchOk(later, s.relay[k])
    ensures forall t :: t in s.ticks && !s.ticks[t].phase.Picking? ==> BatchOk(later, s.ticks[t].phase.batch)
  {
    forall k | 0 <= k < |s.relay|
      ensures BatchOk(later, s.relay[k])
    {
      BatchOkLater(s.rows, later, s.relay[k]);
    }
    forall t | t in s.ticks && !s.ticks[t].phase.Picking?
      ensures BatchOk(later, s.ticks[t].phase.batch)
    {
      BatchOkLater(s.rows, later, s.ticks[t].phase.batch);
    }
  }

  lemma InsertUnique(rows: Rows, e: Entry)
    requires UniqueHashes(rows)
    ensures UniqueHashes(Insert(rows, e))
  {
  }

  lemma NewBatchOk(s: State, builders: KeyList, t: nat, selected: seq<Entry>)
    requires UniqueHashes(s.rows) && CanSelect(s, t, selected)
    ensures |Convertible(selected, s.ticks[t].queue[0].committer)| <= 0x7FFF_FFFF_FFFF_FFFF
    ensures BatchOk(s.rows, MakeBatch(s, s.ticks[t], builders, selected))
  {
    var committer := s.ticks[t].queue[0].committer;
    var slot: i64 := s.ticks[t].slot;
    SelectionShrinks(s, t, selected);
    SelectionDistinct(s.rows, slot, selected);
    ConvertibleKeeps(selected, committer);
    forall e | e in Convertible(selected, committer)
      ensures Belongs(e, s.ticks[t].slot, committer) && Among(e, s.rows, |s.rows|)
    {
      InConvertible(selected, committer, e);
      SelectionMembers(s.rows, slot, selected, e);
    }
  }

  lemma AcceptedLater(relay: seq<Batch>, b: Batch, e: Entry)
    requires Accepted(relay, e) || e in b.entries
    ensures Accepted(relay + [b], e)
  {
    if e in b.entries {
      assert (relay + [b])[|relay|] == b;
    } else {
      var k :| 0 <= k < |relay| && e in relay[k].entries;
      assert (relay + [b])[k] == relay[k];
    }
  }

  lemma StepInserting(s: State, builders: KeyList, e: Entry)
    requires Inv(s)
    ensures Inv(Step(s, builders, Inserting(e)))
  {
    InsertUnique(s.rows, e);
    BatchesLater(s, Insert(s.rows, e));
  }

  lemma StepRelaying(s: State, builders: KeyList, a: Action)
    requires Inv(s) && (a.RelayKeeps? || a.Acknowledge?)
    ensures Inv(Step(s, builders, a))
  {
    if a.tick in s.ticks && s.ticks[a.tick].phase.Submitting? {
      var b := s.ticks[a.tick].phase.batch;
      forall i | 0 <= i < |s.rows| && s.rows[i].processed
        ensures Accepted(s.relay + [b], s.rows[i].entry)
      {
        AcceptedLater(s.relay, b, s.rows[i].entry);
      }
      assert (s.relay + [b])[|s.relay|] == b;
    }
  }

  lemma StepMarking(s: State, builders: KeyList, t: nat)
    requires Inv(s)
    ensures Inv(Step(s, builders, MarkDone(t)))
  {
    if t in s.ticks && s.ticks[t].phase.Marking? {
      var b := s.ticks[t].phase.batch;
      var marked := Mark(s.rows, HashesOf(b.entries));
      BatchesLater(s, marked);
      forall i | 0 <= i < |marked| && marked[i].processed
        ensures Accepted(s.relay, marked[i].entry)
      {
        if !s.rows[i].processed {
          MarkedIsBatched(s.rows, b, i);
          var k :| 0 <= k < |s.relay| && s.relay[k] == b;
        }
      }
    }
  }

  /** Hashes are unique, so marking a batch's hashes marks the batch's rows only. */
  lemma MarkedIsBatched(rows: Rows, b: Batch, i: nat)
    requires UniqueHashes(rows) && BatchOk(rows, b)
    requires i < |rows| && HashOf(rows[i].entry) in HashesOf(b.entries)
    ensures rows[i].entry in b.entries && i < b.seen
  {
    var j :| 0 <= j < |b.entries| && HashesOf(b.entries)[j] == HashOf(rows[i].entry);
    assert b.entries[j] in b.entries;
    var k :| 0 <= k < b.seen <= |rows| && rows[k].entry == b.entries[j];
    assert k == i;
  }

  lemma StepInv(s: State, builders: KeyList, a: Action)
    requires Inv(s)
    ensures Inv(Step(s, builders, a))
  {
    match a
    case Inserting(e) => StepInserting(s, builders, e);
    case Begin(_, _, _) =>
    case Select(t, selected) =>
      if CanSelect(s, t, selected) {
        NewBatchOk(s, builders, t, selected);
      }
    case RelayKeeps(_) => StepRelaying(s, builders, a);
    case Acknowledge(_) => StepRelaying(s, builders, a);
    case MarkDone(t) => StepMarking(s, builders, t);
    case GiveUp(_) =>
  }

  lemma {:induction false} RunInv(s: State, builders: KeyList, actions: seq<Action>)
    requires Inv(s)
    ensures Inv(Run(s, builders, actions))
    decreases |actions|
  {
    if actions != [] {
      StepInv(s, builders, actions[0]);
      RunInv(Step(s, builders, actions[0]), builders, actions[1..]);
    }
  }

  // ---- No commitment is lost or marked early ----

  /** The relay accepted a message for the entry's slot that carries its payload. */
  ghost predicate Delivered(relay: seq<Batch>, e: Entry) {
    exists k, j ::
      && 0 <= k < |relay| && 0 <= j < |relay[k].message.constraints|
      && e.slotNumber == TryI64(relay[k].message.slot)
      && relay[k].committer == e.signed.commitment.slasher
      && relay[k].message.constraints[j] == Constraint(1, e.signed.commitment.payload)
  }

  /** In every interleaving a processed row was delivered. */
  lemma ProcessedWasDelivered(builders: KeyList, actions: seq<Action>, i: nat)
    requires i < |Run(INITIAL, builders, actions).rows| && Run(INITIAL, builders, actions).rows[i].processed
    ensures Delivered(Run(INITIAL, builders, actions).relay, Run(INITIAL, builders, actions).rows[i].entry)
  {
    RunInv(INITIAL, builders, actions);
    var s := Run(INITIAL, builders, actions);
    var e := s.rows[i].entry;
    var k :| 0 <= k < |s.relay| && e in s.relay[k].entries;
    assert BatchOk(s.rows, s.relay[k]);
    var j :| 0 <= j < |s.relay[k].entries| && s.relay[k].entries[j] == e;
    assert s.relay[k].message.constraints[j] == Constraint(1, e.signed.commitment.payload);
  }

  /** In every interleaving a row that is not processed is in every later selection of its slot,
      and a tick serving a delegation puts it into its message exactly when it is of type 1 and the
      delegation's committer is spelled like its slasher. */
  lemma UnprocessedIsSelectable(
      builders: KeyList, actions: seq<Action>, t: nat, selected: seq<Entry>, i: nat)
    requires var s := Run(INITIAL, builders, actions);
      && CanSelect(s, t, selected)
      && i < |s.rows| && !s.rows[i].processed && s.rows[i].entry.slotNumber == Some(s.ticks[t].slot)
    ensures var s := Run(INITIAL, builders, actions);
      var after := Step(s, builders, Select(t, selected));
      && s.rows[i].entry in selected
      && (IsConvertible(s.rows[i].entry, s.ticks[t].queue[0].committer)
          <==> after.ticks[t].phase.Submitting? && s.rows[i].entry in after.ticks[t].phase.batch.entries)
  {
    var s := Run(INITIAL, builders, actions);
    SelectionMembers(s.rows, s.ticks[t].slot, selected, s.rows[i].entry);
    InConvertible(selected, s.ticks[t].queue[0].committer, s.rows[i].entry);
  }

  /** The tick of an action, if it has one. */
  predicate Selects(a: Action, t: nat) {
    a.Select? && a.tick == t
  }

  /** Until a tick selects again it holds the batch it selected, or none. */
  lemma {:induction false} BatchIsKept(s: State, builders: KeyList, actions: seq<Action>, t: nat, b: Batch)
    requires t in s.ticks && (s.ticks[t].phase.Picking? || s.ticks[t].phase.batch == b)
    requires forall k :: 0 <= k < |actions| ==> !Selects(actions[k], t)
    ensures var later := Run(s, builders, actions);
      t in later.ticks && (later.ticks[t].phase.Picking? || later.ticks[t].phase.batch == b)
    decreases |actions|
  {
    if actions != [] {
      assert !Selects(actions[0], t);
      BatchIsKept(Step(s, builders, actions[0]), builders, actions[1..], t, b);
    }
  }

  /** A row inserted after a tick's SELECT is never marked by that tick's UPDATE, whatever other
      ticks and inserts do in between. */
  lemma LateRowIsNotMarked(
      s: State, builders: KeyList, t: nat, selected: seq<Entry>, actions: seq<Action>, i: nat)
    requires Inv(s) && CanSelect(s, t, selected)
    requires forall k :: 0 <= k < |actions| ==> !Selects(actions[k], t)
    requires var later := Run(Step(s, builders, Select(t, selected)), builders, actions);
      |s.rows| <= i < |later.rows| && !later.rows[i].processed
    ensures var later := Run(Step(s, builders, Select(t, selected)), builders, actions);
      !Step(later, builders, MarkDone(t)).rows[i].processed
  {
    var start := Step(s, builders, Select(t, selected));
    StepInv(s, builders, Select(t, selected));
    SelectionShrinks(s, t, selected);
    var b := MakeBatch(s, s.ticks[t], builders, selected);
    BatchIsKept(start, builders, actions, t, b);
    RunInv(start, builders, actions);
    LateRowStays(Run(start, builders, actions), builders, t, b, i);
  }

  /** The update of a tick that holds this batch, or none, leaves rows beyond those it saw alone. */
  lemma LateRowStays(s: State, builders: KeyList, t: nat, b: Batch, i: nat)
    requires Inv(s) && t in s.ticks && (s.ticks[t].phase.Picking? || s.ticks[t].phase.batch == b)
    requires b.seen <= i < |s.rows| && !s.rows[i].processed
    ensures !Step(s, builders, MarkDone(t)).rows[i].processed
  {
    if s.ticks[t].phase.Marking? && HashOf(s.rows[i].entry) in HashesOf(b.entries) {
      MarkedIsBatched(s.rows, b, i);
    }
  }
}
