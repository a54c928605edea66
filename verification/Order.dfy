/** First come, first served: what the relay receives when the select-to-mark sections of ticks do
    not overlap, every acceptance reaches the tick and every mark succeeds. */
module Order {
  import opened Machine
  import opened Types
  import opened Commitments
  import opened Submission
  import opened Pipeline

  /** Steps of such runs. Submissions may fail as often as they like, and inserts come at any time. */
  ghost predicate SerialStep(s: State, a: Action) {
    match a
    case Select(_, _) => forall t :: t in s.ticks ==> s.ticks[t].phase.Picking?
    case RelayKeeps(_) => false
    case GiveUp(t) => t in s.ticks ==> !s.ticks[t].phase.Marking?
    case _ => true
  }

  ghost predicate SerialRun(s: State, builders: KeyList, actions: seq<Action>)
    decreases |actions|
  {
    actions == [] || (SerialStep(s, actions[0]) && SerialRun(Step(s, builders, actions[0]), builders, actions[1..]))
  }

  predicate IsFor(b: Batch, slot: u64, committer: string) {
    b.message.slot == slot && b.committer == committer
  }

  /** The commitments of the accepted messages for a slot and committer, in the order of acceptance. */
  function DeliveredTo(relay: seq<Batch>, slot: u64, committer: string): seq<Entry> {
    if relay == [] then []
    else
      var last := relay[|relay| - 1];
      DeliveredTo(relay[..|relay| - 1], slot, committer) + (if IsFor(last, slot, committer) then last.entries else [])
  }

  // ---- The invariant of serial runs ----

  ghost predicate Apart(a: Batch, b: Batch) {
    forall e :: e in a.entries ==> e !in b.entries
  }

  /** Every row the batch saw and could have carried is in it or was accepted before. */
  ghost predicate Complete(rows: Rows, before: seq<Batch>, b: Batch) {
    forall i :: 0 <= i < b.seen <= |rows| && Belongs(rows[i].entry, b.message.slot, b.committer)
            ==> rows[i].entry in b.entries || Accepted(before, rows[i].entry)
  }

  ghost predicate RelayOk(rows: Rows, relay: seq<Batch>) {
    && UniqueHashes(rows)
    && (forall k :: 0 <= k < |relay| ==> BatchOk(rows, relay[k]))
    && (forall k, l :: 0 <= k < l < |relay| ==> Apart(relay[k], relay[l]) && relay[k].seen <= relay[l].seen)
    && (forall k :: 0 <= k < |relay| ==> Complete(rows, relay[..k], relay[k]))
  }

  /** A batch not yet accepted: nothing in it was accepted or marked. */
  ghost predicate Fresh(s: State, b: Batch) {
    && (forall k :: 0 <= k < |s.relay| ==> Apart(s.relay[k], b) && s.relay[k].seen <= b.seen)
    && Complete(s.rows, s.relay, b)
  }

  ghost predicate SerialInv(s: State) {
    Inv(s) && RelayOk(s.rows, s.relay) && TicksOk(s)
  }

  /** One tick at most between selecting and marking; accepted rows are marked or about to be. */
  ghost predicate TicksOk(s: State) {
    && (forall t, u :: t in s.ticks && u in s.ticks && !s.ticks[t].phase.Picking? && !s.ticks[u].phase.Picking?
                   ==> t == u)
    && (forall t :: t in s.ticks && s.ticks[t].phase.Submitting? ==> Fresh(s, s.ticks[t].phase.batch))
    && (forall i :: 0 <= i < |s.rows| && Accepted(s.relay, s.rows[i].entry) && !s.rows[i].processed
                ==> BeingMarked(s, s.rows[i].entry))
  }

  ghost predicate BeingMarked(s: State, e: Entry) {
    exists t :: t in s.ticks && s.ticks[t].phase.Marking? && e in s.ticks[t].phase.batch.entries
  }

  lemma CompleteLater(rows: Rows, later: Rows, before: seq<Batch>, b: Batch)
    requires Complete(rows, before, b) && b.seen <= |rows| && Extends(rows, later)
    ensures Complete(later, before, b)
  {
    forall i | 0 <= i < b.seen <= |later| && Belongs(later[i].entry, b.message.slot, b.committer)
      ensures later[i].entry in b.entries || Accepted(before, later[i].entry)
    {
      assert later[i].entry == rows[i].entry;
    }
  }

  lemma RelayOkLater(s: State, later: Rows)
    requires Inv(s) && RelayOk(s.rows, s.relay) && Extends(s.rows, later) && UniqueHashes(later)
    ensures RelayOk(later, s.relay)
  {
    BatchesLater(s, later);
    forall k | 0 <= k < |s.relay|
      ensures Complete(later, s.relay[..k], s.relay[k])
    {
      CompleteLater(s.rows, later, s.relay[..k], s.relay[k]);
    }
  }

  lemma FreshLater(s: State, s': State, b: Batch)
    requires Fresh(s, b) && b.seen <= |s.rows| && Extends(s.rows, s'.rows) && s'.relay == s.relay
    ensures Fresh(s', b)
  {
    CompleteLater(s.rows, s'.rows, s.relay, b);
  }

  lemma SerialInserting(s: State, builders: KeyList, e: Entry)
    requires SerialInv(s)
    ensures SerialInv(Step(s, builders, Inserting(e)))
  {
    var s' := Step(s, builders, Inserting(e));
    StepInv(s, builders, Inserting(e));
    StepExtends(s, builders, Inserting(e));
    RelayOkLater(s, s'.rows);
    forall t | t in s'.ticks && s'.ticks[t].phase.Submitting?
      ensures Fresh(s', s'.ticks[t].phase.batch)
    {
      FreshLater(s, s', s.ticks[t].phase.batch);
    }
    forall i | 0 <= i < |s'.rows| && Accepted(s'.relay, s'.rows[i].entry) && !s'.rows[i].processed
      ensures BeingMarked(s', s'.rows[i].entry)
    {
      AcceptedIsOld(s, s'.rows, i);
      var t :| t in s.ticks && s.ticks[t].phase.Marking? && s.rows[i].entry in s.ticks[t].phase.batch.entries;
      assert s'.ticks[t] == s.ticks[t];
    }
  }

  /** What was accepted had been in the table before. */
  lemma AcceptedIsOld(s: State, later: Rows, i: nat)
    requires Inv(s) && Extends(s.rows, later) && UniqueHashes(later)
    requires i < |later| && Accepted(s.relay, later[i].entry)
    ensures i < |s.rows|
  {
    var k :| 0 <= k < |s.relay| && later[i].entry in s.relay[k].entries;
    assert BatchOk(s.rows, s.relay[k]);
    var j :| 0 <= j < s.relay[k].seen <= |s.rows| && s.rows[j].entry == later[i].entry;
    assert later[j].entry == later[i].entry;
    assert i == j;
  }

  lemma SerialSelecting(s: State, builders: KeyList, t: nat, selected: seq<Entry>)
    requires SerialInv(s) && SerialStep(s, Select(t, selected))
    ensures SerialInv(Step(s, builders, Select(t, selected)))
  {
    StepInv(s, builders, Select(t, selected));
    var s' := Step(s, builders, Select(t, selected));
    forall i | 0 <= i < |s.rows| && Accepted(s.relay, s.rows[i].entry)
      ensures s.rows[i].processed
    {
    }
    if CanSelect(s, t, selected) {
      NewBatchOk(s, builders, t, selected);
      NewBatchFresh(s, builders, t, selected);
      var b := MakeBatch(s, s.ticks[t], builders, selected);
      assert s'.relay == s.relay && s'.rows == s.rows;
      assert s'.ticks[t].phase.Submitting? ==> s'.ticks[t].phase.batch == b && Fresh(s', b);
    }
  }

  lemma NewBatchFresh(s: State, builders: KeyList, t: nat, selected: seq<Entry>)
    requires SerialInv(s) && CanSelect(s, t, selected)
    requires forall i :: 0 <= i < |s.rows| && Accepted(s.relay, s.rows[i].entry) ==> s.rows[i].processed
    ensures |Convertible(selected, s.ticks[t].queue[0].committer)| <= 0x7FFF_FFFF_FFFF_FFFF
    ensures Fresh(s, MakeBatch(s, s.ticks[t], builders, selected))
  {
    SelectionShrinks(s, t, selected);
    var b := MakeBatch(s, s.ticks[t], builders, selected);
    var slot: i64 := s.ticks[t].slot;
    forall k, e | 0 <= k < |s.relay| && e in s.relay[k].entries
      ensures e !in b.entries
    {
      InConvertible(selected, b.committer, e);
      SelectionMembers(s.rows, slot, selected, e);
      assert Accepted(s.relay, e);
    }
    forall i | 0 <= i < b.seen <= |s.rows| && Belongs(s.rows[i].entry, b.message.slot, b.committer)
      ensures s.rows[i].entry in b.entries || Accepted(s.relay, s.rows[i].entry)
    {
      if !s.rows[i].processed {
        assert Pending(s.rows[i], slot);
        SelectionMembers(s.rows, slot, selected, s.rows[i].entry);
        InConvertible(selected, b.committer, s.rows[i].entry);
      }
    }
  }

  lemma SerialAcknowledging(s: State, builders: KeyList, t: nat)
    requires SerialInv(s)
    ensures SerialInv(Step(s, builders, Acknowledge(t)))
  {
    StepInv(s, builders, Acknowledge(t));
    if t in s.ticks && s.ticks[t].phase.Submitting? {
      RelayOkExtended(s, s.ticks[t].phase.batch);
      AcknowledgedTicksOk(s, t);
    }
  }

  lemma AcknowledgedTicksOk(s: State, t: nat)
    requires TicksOk(s) && t in s.ticks && s.ticks[t].phase.Submitting?
    ensures var b := s.ticks[t].phase.batch;
      TicksOk(s.(relay := s.relay + [b], ticks := s.ticks[t := s.ticks[t].(phase := Marking(b))]))
  {
    var b := s.ticks[t].phase.batch;
    var s' := s.(relay := s.relay + [b], ticks := s.ticks[t := s.ticks[t].(phase := Marking(b))]);
    assert s'.ticks[t].phase == Marking(b);
    forall i | 0 <= i < |s'.rows| && Accepted(s'.relay, s'.rows[i].entry) && !s'.rows[i].processed
      ensures BeingMarked(s', s'.rows[i].entry)
    {
      AcknowledgedIsNew(s, t, i);
    }
  }

  /** While a tick submits no other one marks, so what is accepted but not marked is in its batch. */
  lemma AcknowledgedIsNew(s: State, t: nat, i: nat)
    requires TicksOk(s) && t in s.ticks && s.ticks[t].phase.Submitting?
    requires i < |s.rows| && !s.rows[i].processed
    requires Accepted(s.relay + [s.ticks[t].phase.batch], s.rows[i].entry)
    ensures s.rows[i].entry in s.ticks[t].phase.batch.entries
  {
    assert forall u :: u in s.ticks ==> !s.ticks[u].phase.Marking?;
    if s.rows[i].entry !in s.ticks[t].phase.batch.entries {
      AcceptedBefore(s.relay, s.ticks[t].phase.batch, s.rows[i].entry);
      assert false;
    }
  }

  lemma AcceptedBefore(relay: seq<Batch>, b: Batch, e: Entry)
    requires Accepted(relay + [b], e) && e !in b.entries
    ensures Accepted(relay, e)
  {
    var k :| 0 <= k < |relay + [b]| && e in (relay + [b])[k].entries;
    assert k < |relay| && relay[k] == (relay + [b])[k];
  }

  lemma RelayOkExtended(s: State, b: Batch)
    requires RelayOk(s.rows, s.relay) && BatchOk(s.rows, b) && Fresh(s, b)
    ensures RelayOk(s.rows, s.relay + [b])
  {
    var relay := s.relay + [b];
    forall k | 0 <= k < |relay|
      ensures Complete(s.rows, relay[..k], relay[k])
    {
      assert relay[..k] == s.relay[..k];
      assert s.relay[..|s.relay|] == s.relay;
    }
  }

  lemma SerialMarking(s: State, builders: KeyList, t: nat)
    requires SerialInv(s)
    ensures SerialInv(Step(s, builders, MarkDone(t)))
  {
    StepInv(s, builders, MarkDone(t));
    if t in s.ticks && s.ticks[t].phase.Marking? {
      StepExtends(s, builders, MarkDone(t));
      RelayOkLater(s, Step(s, builders, MarkDone(t)).rows);
      MarkedTicksOk(s, builders, t);
    }
  }

  lemma MarkedTicksOk(s: State, builders: KeyList, t: nat)
    requires TicksOk(s) && t in s.ticks && s.ticks[t].phase.Marking?
    ensures TicksOk(Step(s, builders, MarkDone(t)))
  {
    var s' := Step(s, builders, MarkDone(t));
    forall i | 0 <= i < |s'.rows| && Accepted(s'.relay, s'.rows[i].entry)
      ensures s'.rows[i].processed
    {
      MarkedWhenAccepted(s, t, i);
    }
  }

  lemma MarkedWhenAccepted(s: State, t: nat, i: nat)
    requires TicksOk(s) && t in s.ticks && s.ticks[t].phase.Marking?
    requires i < |s.rows| && Accepted(s.relay, s.rows[i].entry)
    ensures s.rows[i].processed || HashOf(s.rows[i].entry) in HashesOf(s.ticks[t].phase.batch.entries)
  {
    if !s.rows[i].processed {
      var u :| u in s.ticks && s.ticks[u].phase.Marking? && s.rows[i].entry in s.ticks[u].phase.batch.entries;
      assert u == t;
      var b := s.ticks[t].phase.batch;
      var j :| 0 <= j < |b.entries| && b.entries[j] == s.rows[i].entry;
      assert HashesOf(b.entries)[j] == HashOf(s.rows[i].entry);
    }
  }

  /** A tick that was not marking goes back to picking. */
  lemma SerialTickPicks(s: State, s': State, t: nat, tick: Tick)
    requires Inv(s) && TicksOk(s)
    requires t in s.ticks ==> !s.ticks[t].phase.Marking?
    requires tick.phase.Picking? && s' == s.(ticks := s.ticks[t := tick])
    ensures TicksOk(s')
  {
    forall i | 0 <= i < |s'.rows| && Accepted(s'.relay, s'.rows[i].entry) && !s'.rows[i].processed
      ensures BeingMarked(s', s'.rows[i].entry)
    {
      var u :| u in s.ticks && s.ticks[u].phase.Marking? && s.rows[i].entry in s.ticks[u].phase.batch.entries;
      assert s'.ticks[u] == s.ticks[u];
    }
    forall u | u in s'.ticks && s'.ticks[u].phase.Submitting?
      ensures Fresh(s', s'.ticks[u].phase.batch)
    {
      FreshLater(s, s', s.ticks[u].phase.batch);
    }
  }

  lemma SerialGivingUp(s: State, builders: KeyList, t: nat)
    requires SerialInv(s) && SerialStep(s, GiveUp(t))
    ensures SerialInv(Step(s, builders, GiveUp(t)))
  {
    StepInv(s, builders, GiveUp(t));
    if t in s.ticks {
      SerialTickPicks(s, Step(s, builders, GiveUp(t)), t, Advance(s.ticks[t]));
    }
  }

  lemma SerialBeginning(s: State, builders: KeyList, a: Action)
    requires SerialInv(s) && a.Begin?
    ensures SerialInv(Step(s, builders, a))
  {
    StepInv(s, builders, a);
    if Step(s, builders, a) != s {
      SerialTickPicks(s, Step(s, builders, a), a.tick, Tick(a.slot, a.queue, Picking));
    }
  }

  lemma {:induction false} SerialRunInv(s: State, builders: KeyList, actions: seq<Action>)
    requires SerialInv(s) && SerialRun(s, builders, actions)
    ensures SerialInv(Run(s, builders, actions))
    decreases |actions|
  {
    if actions != [] {
      match actions[0] {
        case Inserting(e) => SerialInserting(s, builders, e);
        case Begin(_, _, _) => SerialBeginning(s, builders, actions[0]);
        case Select(t, selected) => SerialSelecting(s, builders, t, selected);
        case RelayKeeps(_) =>
        case Acknowledge(t) => SerialAcknowledging(s, builders, t);
        case MarkDone(t) => SerialMarking(s, builders, t);
        case GiveUp(t) => SerialGivingUp(s, builders, t);
      }
      SerialRunInv(Step(s, builders, actions[0]), builders, actions[1..]);
    }
  }

  // ---- Exactly once ----

  lemma {:induction false} InDelivered(relay: seq<Batch>, slot: u64, committer: string, e: Entry)
    ensures e in DeliveredTo(relay, slot, committer)
       <==> exists k :: 0 <= k < |relay| && IsFor(relay[k], slot, committer) && e in relay[k].entries
  {
    if relay != [] {
      var init := relay[..|relay| - 1];
      InDelivered(init, slot, committer, e);
      if k :| 0 <= k < |relay| && IsFor(relay[k], slot, committer) && e in relay[k].entries {
        assert k < |init| ==> init[k] == relay[k];
      }
      if k :| 0 <= k < |init| && IsFor(init[k], slot, committer) && e in init[k].entries {
        assert init[k] == relay[k];
      }
    }
  }

  lemma RelayOkPrefix(rows: Rows, relay: seq<Batch>)
    requires RelayOk(rows, relay) && relay != []
    ensures RelayOk(rows, relay[..|relay| - 1])
  {
    var init := relay[..|relay| - 1];
    forall k | 0 <= k < |init|
      ensures Complete(rows, init[..k], init[k])
    {
      assert init[..k] == relay[..k];
    }
  }

  lemma {:induction false} DeliveredDistinct(rows: Rows, relay: seq<Batch>, slot: u64, committer: string)
    requires RelayOk(rows, relay)
    ensures Distinct(DeliveredTo(relay, slot, committer))
  {
    if relay != [] {
      var init, last := relay[..|relay| - 1], relay[|relay| - 1];
      RelayOkPrefix(rows, relay);
      DeliveredDistinct(rows, init, slot, committer);
      var d := DeliveredTo(init, slot, committer);
      forall i | 0 <= i < |d|
        ensures d[i] !in last.entries
      {
        InDelivered(init, slot, committer, d[i]);
        var k :| 0 <= k < |init| && IsFor(init[k], slot, committer) && d[i] in init[k].entries;
        assert Apart(relay[k], last);
      }
      assert BatchOk(rows, last);
    }
  }

  /** In every serial run each delivered commitment is delivered once, is a saved type-1 commitment
      of that slot and slasher spelling, and while no tick is marking the processed rows are
      exactly the delivered ones. */
  lemma ExactlyOnce(builders: KeyList, actions: seq<Action>, slot: u64, committer: string)
    requires SerialRun(INITIAL, builders, actions)
    ensures var s := Run(INITIAL, builders, actions);
      var d := DeliveredTo(s.relay, slot, committer);
      && Distinct(d)
      && (forall e :: e in d ==> Belongs(e, slot, committer) && Among(e, s.rows, |s.rows|))
      && (forall i :: 0 <= i < |s.rows| && Belongs(s.rows[i].entry, slot, committer) && s.rows[i].processed
                  ==> s.rows[i].entry in d)
      && ((forall t :: t in s.ticks ==> !s.ticks[t].phase.Marking?) ==>
            forall i :: 0 <= i < |s.rows| && s.rows[i].entry in d ==> s.rows[i].processed)
  {
    SerialRunInv(INITIAL, builders, actions);
    var s := Run(INITIAL, builders, actions);
    var d := DeliveredTo(s.relay, slot, committer);
    DeliveredDistinct(s.rows, s.relay, slot, committer);
    forall e | e in d
      ensures Belongs(e, slot, committer) && Among(e, s.rows, |s.rows|) && Accepted(s.relay, e)
    {
      InDelivered(s.relay, slot, committer, e);
      DeliveredBelongs(s, slot, committer, e);
    }
    forall i | 0 <= i < |s.rows| && Belongs(s.rows[i].entry, slot, committer) && s.rows[i].processed
      ensures s.rows[i].entry in d
    {
      AcceptedIsDelivered(s, slot, committer, s.rows[i].entry);
    }
  }

  lemma DeliveredBelongs(s: State, slot: u64, committer: string, e: Entry)
    requires Inv(s)
    requires exists k :: 0 <= k < |s.relay| && IsFor(s.relay[k], slot, committer) && e in s.relay[k].entries
    ensures Belongs(e, slot, committer) && Among(e, s.rows, |s.rows|) && Accepted(s.relay, e)
  {
    var k :| 0 <= k < |s.relay| && IsFor(s.relay[k], slot, committer) && e in s.relay[k].entries;
    assert BatchOk(s.rows, s.relay[k]);
    var i :| 0 <= i < s.relay[k].seen <= |s.rows| && s.rows[i].entry == e;
  }

  /** A message that carries an entry is for the entry's slot and slasher. */
  lemma AcceptedIsDelivered(s: State, slot: u64, committer: string, e: Entry)
    requires Inv(s) && Accepted(s.relay, e) && Belongs(e, slot, committer)
    ensures e in DeliveredTo(s.relay, slot, committer)
  {
    var k :| 0 <= k < |s.relay| && e in s.relay[k].entries;
    assert BatchOk(s.rows, s.relay[k]);
    assert Belongs(e, s.relay[k].message.slot, s.relay[k].committer);
    InDelivered(s.relay, slot, committer, e);
  }

  // ---- Order ----

  /** What was delivered is in creation order, and nothing older is still waiting. */
  ghost predicate FirstComeFirstServed(rows: Rows, relay: seq<Batch>, slot: u64, committer: string) {
    var d := DeliveredTo(relay, slot, committer);
    && SortedByTime(d)
    && forall i :: 0 <= i < |rows| && Belongs(rows[i].entry, slot, committer) && rows[i].entry !in d
               ==> forall e :: e in d ==> e.createdAt <= rows[i].entry.createdAt
  }

  /** No row took effect after a delivered selection with a creation time before a row of it. */
  ghost predicate NoLateRow(rows: Rows, relay: seq<Batch>, slot: u64, committer: string) {
    forall k, i ::
      0 <= k < |relay| && IsFor(relay[k], slot, committer)
      && relay[k].seen <= i < |rows| && Belongs(rows[i].entry, slot, committer)
      ==> forall e :: e in relay[k].entries ==> e.createdAt <= rows[i].entry.createdAt
  }

  /** A row a batch saw and could have carried is in it or in an earlier one. */
  lemma SeenIsAccepted(rows: Rows, relay: seq<Batch>, k: nat, i: nat) returns (j: nat)
    requires RelayOk(rows, relay) && k < |relay|
    requires i < relay[k].seen && Belongs(rows[i].entry, relay[k].message.slot, relay[k].committer)
    ensures j <= k && rows[i].entry in relay[j].entries
  {
    assert Complete(rows, relay[..k], relay[k]);
    if rows[i].entry in relay[k].entries {
      j := k;
    } else {
      j :| 0 <= j < |relay[..k]| && rows[i].entry in relay[..k][j].entries;
    }
  }

  /** A row a batch saw is not in a later batch. */
  lemma SeenIsNotLater(rows: Rows, relay: seq<Batch>, k: nat, l: nat, i: nat)
    requires RelayOk(rows, relay) && k < l < |relay|
    requires i < |rows| && rows[i].entry in relay[l].entries
    requires Belongs(rows[i].entry, relay[k].message.slot, relay[k].committer)
    ensures i >= relay[k].seen
  {
    assert forall j :: 0 <= j < l ==> Apart(relay[j], relay[l]);
    if i < relay[k].seen {
      var j := SeenIsAccepted(rows, relay, k, i);
      assert false;
    }
  }

  lemma IndexOf(rows: Rows, b: Batch, e: Entry) returns (i: nat)
    requires BatchOk(rows, b) && e in b.entries
    ensures i < b.seen <= |rows| && rows[i].entry == e && Belongs(e, b.message.slot, b.committer)
  {
    i :| 0 <= i < b.seen <= |rows| && rows[i].entry == e;
  }

  lemma NoLateRowPrefix(rows: Rows, relay: seq<Batch>, slot: u64, committer: string)
    requires relay != [] && NoLateRow(rows, relay, slot, committer)
    ensures NoLateRow(rows, relay[..|relay| - 1], slot, committer)
  {
    var init := relay[..|relay| - 1];
    forall k, i |
      0 <= k < |init| && IsFor(init[k], slot, committer)
      && init[k].seen <= i < |rows| && Belongs(rows[i].entry, slot, committer)
      ensures forall e :: e in init[k].entries ==> e.createdAt <= rows[i].entry.createdAt
    {
      assert init[k] == relay[k];
    }
  }

  lemma {:induction false} DeliveredSorted(rows: Rows, relay: seq<Batch>, slot: u64, committer: string)
    requires RelayOk(rows, relay) && NoLateRow(rows, relay, slot, committer)
    ensures SortedByTime(DeliveredTo(relay, slot, committer))
  {
    if relay != [] {
      var init, last := relay[..|relay| - 1], relay[|relay| - 1];
      RelayOkPrefix(rows, relay);
      NoLateRowPrefix(rows, relay, slot, committer);
      DeliveredSorted(rows, init, slot, committer);
      var d := DeliveredTo(init, slot, committer);
      assert BatchOk(rows, last);
      if IsFor(last, slot, committer) {
        forall p, q | 0 <= p < |d| && 0 <= q < |last.entries|
          ensures d[p].createdAt <= last.entries[q].createdAt
        {
          InDelivered(init, slot, committer, d[p]);
          var k :| 0 <= k < |init| && IsFor(init[k], slot, committer) && d[p] in init[k].entries;
          assert last.entries[q] in last.entries && init[k] == relay[k];
          var i := IndexOf(rows, last, last.entries[q]);
          SeenIsNotLater(rows, relay, k, |relay| - 1, i);
        }
      }
    }
  }

  /** In a sorted delivery the entries of an earlier message come first. */
  lemma {:induction false} EarlierMessageFirst(
      relay: seq<Batch>, slot: u64, committer: string, k: nat, l: nat, e: Entry, f: Entry)
    requires SortedByTime(DeliveredTo(relay, slot, committer))
    requires k < l < |relay| && IsFor(relay[k], slot, committer) && IsFor(relay[l], slot, committer)
    requires e in relay[k].entries && f in relay[l].entries
    ensures e.createdAt <= f.createdAt
  {
    var init, last := relay[..|relay| - 1], relay[|relay| - 1];
    var d := DeliveredTo(init, slot, committer);
    var all := DeliveredTo(relay, slot, committer);
    assert d == all[..|d|];
    if l == |relay| - 1 {
      assert init[k] == relay[k];
      InDelivered(init, slot, committer, e);
      var p :| 0 <= p < |d| && d[p] == e;
      var q :| 0 <= q < |last.entries| && last.entries[q] == f;
      assert all[p] == e && all[|d| + q] == f;
    } else {
      assert init[k] == relay[k] && init[l] == relay[l];
      EarlierMessageFirst(init, slot, committer, k, l, e, f);
    }
  }

  lemma ServedInOrder(rows: Rows, relay: seq<Batch>, slot: u64, committer: string)
    requires RelayOk(rows, relay) && NoLateRow(rows, relay, slot, committer)
    ensures FirstComeFirstServed(rows, relay, slot, committer)
  {
    var d := DeliveredTo(relay, slot, committer);
    DeliveredSorted(rows, relay, slot, committer);
    forall i, e | 0 <= i < |rows| && Belongs(rows[i].entry, slot, committer) && rows[i].entry !in d && e in d
      ensures e.createdAt <= rows[i].entry.createdAt
    {
      InDelivered(relay, slot, committer, e);
      var k :| 0 <= k < |relay| && IsFor(relay[k], slot, committer) && e in relay[k].entries;
      if i < relay[k].seen {
        WaitingIsUnseen(rows, relay, slot, committer, k, i);
        assert false;
      }
    }
  }

  /** What a message for the slot and committer saw has been delivered. */
  lemma WaitingIsUnseen(rows: Rows, relay: seq<Batch>, slot: u64, committer: string, k: nat, i: nat)
    requires RelayOk(rows, relay) && k < |relay| && IsFor(relay[k], slot, committer)
    requires i < relay[k].seen && Belongs(rows[i].entry, slot, committer)
    ensures rows[i].entry in DeliveredTo(relay, slot, committer)
  {
    InDelivered(relay, slot, committer, rows[i].entry);
    var j := SeenIsAccepted(rows, relay, k, i);
    assert BatchOk(rows, relay[j]);
    assert Belongs(rows[i].entry, relay[j].message.slot, relay[j].committer);
    assert IsFor(relay[j], slot, committer);
  }

  lemma ServedMeansNoLateRow(rows: Rows, relay: seq<Batch>, slot: u64, committer: string)
    requires RelayOk(rows, relay) && FirstComeFirstServed(rows, relay, slot, committer)
    ensures NoLateRow(rows, relay, slot, committer)
  {
    var d := DeliveredTo(relay, slot, committer);
    forall k, i, e |
      0 <= k < |relay| && IsFor(relay[k], slot, committer)
      && relay[k].seen <= i < |rows| && Belongs(rows[i].entry, slot, committer) && e in relay[k].entries
      ensures e.createdAt <= rows[i].entry.createdAt
    {
      InDelivered(relay, slot, committer, e);
      InDelivered(relay, slot, committer, rows[i].entry);
      if rows[i].entry in d {
        var l :| 0 <= l < |relay| && IsFor(relay[l], slot, committer) && rows[i].entry in relay[l].entries;
        var j := IndexOf(rows, relay[l], rows[i].entry);
        assert i == j;
        assert k < l;
        EarlierMessageFirst(relay, slot, committer, k, l, e, rows[i].entry);
      }
    }
  }

  /** A serial run serves first come, first served, exactly when no row is late. */
  lemma OrderExactlyWithoutLateRows(builders: KeyList, actions: seq<Action>, slot: u64, committer: string)
    requires SerialRun(INITIAL, builders, actions)
    ensures var s := Run(INITIAL, builders, actions);
      FirstComeFirstServed(s.rows, s.relay, slot, committer) <==> NoLateRow(s.rows, s.relay, slot, committer)
  {
    SerialRunInv(INITIAL, builders, actions);
    var s := Run(INITIAL, builders, actions);
    if NoLateRow(s.rows, s.relay, slot, committer) {
      ServedInOrder(s.rows, s.relay, slot, committer);
    }
    if FirstComeFirstServed(s.rows, s.relay, slot, committer) {
      ServedMeansNoLateRow(s.rows, s.relay, slot, committer);
    }
  }

  // ---- Clocks that agree with the order of the inserts ----

  /** Among the rows of a slot and committer creation times agree with the order in which the inserts
      took effect. */
  ghost predicate ClockMonotone(rows: Rows, slot: u64, committer: string) {
    forall i, j ::
      0 <= i < j < |rows| && Belongs(rows[i].entry, slot, committer) && Belongs(rows[j].entry, slot, committer)
      ==> rows[i].entry.createdAt <= rows[j].entry.createdAt
  }

  /** Besides, no two of them are equal. */
  ghost predicate ClockOrdered(rows: Rows, slot: u64, committer: string) {
    forall i, j ::
      0 <= i < j < |rows| && Belongs(rows[i].entry, slot, committer) && Belongs(rows[j].entry, slot, committer)
      ==> rows[i].entry.createdAt < rows[j].entry.createdAt
  }

  /** The saved type-1 commitments of a slot and slasher spelling, in the order of their inserts. */
  function SavedFor(rows: Rows, slot: u64, committer: string): seq<Entry> {
    if rows == [] then []
    else
      var e := rows[|rows| - 1].entry;
      SavedFor(rows[..|rows| - 1], slot, committer)
      + (if e.slotNumber.Some? && e.slotNumber == TryI64(slot) && IsConvertible(e, committer) then [e] else [])
  }

  lemma {:induction false} InSaved(rows: Rows, slot: u64, committer: string, e: Entry)
    ensures e in SavedFor(rows, slot, committer)
       <==> Belongs(e, slot, committer) && Among(e, rows, |rows|)
  {
    if rows != [] {
      var init := rows[..|rows| - 1];
      InSaved(init, slot, committer, e);
      if i :| 0 <= i < |rows| && rows[i].entry == e {
        assert i < |init| ==> init[i] == rows[i];
      }
      if i :| 0 <= i < |init| && init[i].entry == e {
        assert init[i] == rows[i];
      }
    }
  }

  ghost predicate StrictlySorted(es: seq<Entry>) {
    forall i, j :: 0 <= i < j < |es| ==> es[i].createdAt < es[j].createdAt
  }

  lemma {:induction false} SavedSorted(rows: Rows, slot: u64, committer: string)
    requires ClockOrdered(rows, slot, committer)
    ensures StrictlySorted(SavedFor(rows, slot, committer))
  {
    if rows != [] {
      var init := rows[..|rows| - 1];
      SavedSorted(init, slot, committer);
      var es := SavedFor(init, slot, committer);
      forall i | 0 <= i < |es| && Belongs(rows[|rows| - 1].entry, slot, committer)
        ensures es[i].createdAt < rows[|rows| - 1].entry.createdAt
      {
        InSaved(init, slot, committer, es[i]);
        var j :| 0 <= j < |init| && init[j].entry == es[i];
        assert rows[j] == init[j];
      }
    }
  }

  /** A strictly sorted part of a strictly sorted sequence that leaves out nothing older is a prefix. */
  lemma {:induction false} DownwardClosedIsPrefix(part: seq<Entry>, whole: seq<Entry>)
    requires StrictlySorted(part) && StrictlySorted(whole)
    requires forall e :: e in part ==> e in whole
    requires forall e, f :: e in part && f in whole && f.createdAt <= e.createdAt ==> f in part
    ensures part <= whole
  {
    if part != [] {
      var init, last := part[..|part| - 1], part[|part| - 1];
      forall e, f | e in init && f in whole && f.createdAt <= e.createdAt
        ensures f in init
      {
        assert e in part;
      }
      DownwardClosedIsPrefix(init, whole);
      assert last in part;
      forall f | f in whole && f.createdAt < last.createdAt
        ensures f in init
      {
      }
      LastIsNext(init, last, whole);
    }
  }

  lemma LastIsNext(init: seq<Entry>, last: Entry, whole: seq<Entry>)
    requires StrictlySorted(whole) && init <= whole && last in whole
    requires forall e :: e in init ==> e.createdAt < last.createdAt
    requires forall f :: f in whole && f.createdAt < last.createdAt ==> f in init
    ensures |init| < |whole| && whole[|init|] == last
  {
    var n := |init|;
    var m :| 0 <= m < |whole| && whole[m] == last;
    assert forall j :: 0 <= j < n ==> init[j] in init;
    OlderIsInside(init, last, whole, n);
  }

  lemma OlderIsInside(init: seq<Entry>, last: Entry, whole: seq<Entry>, k: nat)
    requires StrictlySorted(whole) && init <= whole
    requires forall f :: f in whole && f.createdAt < last.createdAt ==> f in init
    ensures k < |whole| && whole[k].createdAt < last.createdAt ==> k < |init|
  {
    if k < |whole| && whole[k].createdAt < last.createdAt {
      assert whole[k] in whole;
      var j :| 0 <= j < |init| && init[j] == whole[k];
      assert whole[j] == init[j];
    }
  }

  /** With a clock that agrees with the order of the inserts every serial run serves first come,
      first served; rows of equal time come in the order the database chose. */
  lemma MonotoneClockServesInOrder(builders: KeyList, actions: seq<Action>, slot: u64, committer: string)
    requires SerialRun(INITIAL, builders, actions)
    requires ClockMonotone(Run(INITIAL, builders, actions).rows, slot, committer)
    ensures var s := Run(INITIAL, builders, actions); FirstComeFirstServed(s.rows, s.relay, slot, committer)
  {
    var s := Run(INITIAL, builders, actions);
    SerialRunInv(INITIAL, builders, actions);
    ClockLeavesNoLateRow(s.rows, s.relay, slot, committer);
    ServedInOrder(s.rows, s.relay, slot, committer);
  }

  /** When no two times are equal either, every serial run delivers the saved commitments of a slot
      and committer in the order of their inserts, each once, without a gap. */
  lemma DeliveredIsPrefixOfSaved(builders: KeyList, actions: seq<Action>, slot: u64, committer: string)
    requires SerialRun(INITIAL, builders, actions)
    requires ClockOrdered(Run(INITIAL, builders, actions).rows, slot, committer)
    ensures var s := Run(INITIAL, builders, actions);
      DeliveredTo(s.relay, slot, committer) <= SavedFor(s.rows, slot, committer)
  {
    var s := Run(INITIAL, builders, actions);
    var d := DeliveredTo(s.relay, slot, committer);
    MonotoneClockServesInOrder(builders, actions, slot, committer);
    ExactlyOnce(builders, actions, slot, committer);
    ServedIsPrefix(s.rows, d, slot, committer);
  }

  lemma ServedIsPrefix(rows: Rows, d: seq<Entry>, slot: u64, committer: string)
    requires ClockOrdered(rows, slot, committer) && SortedByTime(d) && Distinct(d)
    requires forall e :: e in d ==> Belongs(e, slot, committer) && Among(e, rows, |rows|)
    requires forall i, e :: 0 <= i < |rows| && Belongs(rows[i].entry, slot, committer) && rows[i].entry !in d && e in d
                        ==> e.createdAt <= rows[i].entry.createdAt
    ensures d <= SavedFor(rows, slot, committer)
  {
    var saved := SavedFor(rows, slot, committer);
    SavedSorted(rows, slot, committer);
    DistinctTimes(rows, d, slot, committer);
    forall e
      ensures e in saved <==> Belongs(e, slot, committer) && Among(e, rows, |rows|)
    {
      InSaved(rows, slot, committer, e);
    }
    forall e, f | e in d && f in saved && f.createdAt <= e.createdAt
      ensures f in d
    {
      var i :| 0 <= i < |rows| && rows[i].entry == f;
      if f !in d {
        SameTimeSameEntry(rows, slot, committer, e, f);
      }
    }
    DownwardClosedIsPrefix(d, saved);
  }

  lemma SameTimeSameEntry(rows: Rows, slot: u64, committer: string, e: Entry, f: Entry)
    requires ClockOrdered(rows, slot, committer) && Among(e, rows, |rows|) && Among(f, rows, |rows|)
    requires Belongs(e, slot, committer) && Belongs(f, slot, committer)
    requires e.createdAt == f.createdAt
    ensures e == f
  {
    var i :| 0 <= i < |rows| && rows[i].entry == e;
    var j :| 0 <= j < |rows| && rows[j].entry == f;
    assert i == j;
  }

  lemma DistinctTimes(rows: Rows, d: seq<Entry>, slot: u64, committer: string)
    requires ClockOrdered(rows, slot, committer) && SortedByTime(d) && Distinct(d)
    requires forall e :: e in d ==> Belongs(e, slot, committer) && Among(e, rows, |rows|)
    ensures StrictlySorted(d)
  {
    forall i, j | 0 <= i < j < |d|
      ensures d[i].createdAt < d[j].createdAt
    {
      assert d[i] in d && d[j] in d;
      if d[i].createdAt == d[j].createdAt {
        SameTimeSameEntry(rows, slot, committer, d[i], d[j]);
      }
    }
  }

  lemma ClockLeavesNoLateRow(rows: Rows, relay: seq<Batch>, slot: u64, committer: string)
    requires RelayOk(rows, relay) && ClockMonotone(rows, slot, committer)
    ensures NoLateRow(rows, relay, slot, committer)
  {
    forall k, i, e |
      0 <= k < |relay| && IsFor(relay[k], slot, committer)
      && relay[k].seen <= i < |rows| && Belongs(rows[i].entry, slot, committer) && e in relay[k].entries
      ensures e.createdAt <= rows[i].entry.createdAt
    {
      var j := IndexOf(rows, relay[k], e);
      assert j < i;
    }
  }

  // ---- Which rows are processed ----

  ghost predicate SomeMarks(s: State) {
    exists t :: t in s.ticks && s.ticks[t].phase.Marking?
  }

  /** The accepted messages without the one a tick is marking. */
  ghost function Settled(s: State): seq<Batch> {
    if s.relay != [] && SomeMarks(s) then s.relay[..|s.relay| - 1] else s.relay
  }

  /** A marking tick carries the last accepted message, and nothing in it is processed. */
  ghost predicate MarksLast(s: State) {
    forall t :: t in s.ticks && s.ticks[t].phase.Marking? ==>
      && s.relay != [] && s.relay[|s.relay| - 1] == s.ticks[t].phase.batch
      && NoneProcessed(s.rows, s.ticks[t].phase.batch)
  }

  ghost predicate NoneProcessed(rows: Rows, b: Batch) {
    forall i :: 0 <= i < |rows| && rows[i].entry in b.entries ==> !rows[i].processed
  }

  lemma StepMarksLast(s: State, builders: KeyList, a: Action)
    requires SerialInv(s) && SerialStep(s, a) && MarksLast(s)
    ensures MarksLast(Step(s, builders, a))
  {
    match a
    case Inserting(e) => InsertMarksLast(s, builders, e);
    case Acknowledge(t) => AcknowledgeMarksLast(s, builders, t);
    case MarkDone(t) => assert t in s.ticks && s.ticks[t].phase.Marking? ==> !SomeMarks(Step(s, builders, a));
    case _ =>
  }

  lemma InsertMarksLast(s: State, builders: KeyList, e: Entry)
    requires MarksLast(s)
    ensures MarksLast(Step(s, builders, Inserting(e)))
  {
  }

  lemma AcknowledgeMarksLast(s: State, builders: KeyList, t: nat)
    requires SerialInv(s) && MarksLast(s)
    ensures MarksLast(Step(s, builders, Acknowledge(t)))
  {
    if t in s.ticks && s.ticks[t].phase.Submitting? {
      var b := s.ticks[t].phase.batch;
      assert Fresh(s, b);
      assert forall i :: 0 <= i < |s.rows| && s.rows[i].processed ==> Accepted(s.relay, s.rows[i].entry);
      assert NoneProcessed(s.rows, b);
    }
  }

  lemma {:induction false} RunMarksLast(s: State, builders: KeyList, actions: seq<Action>)
    requires SerialInv(s) && MarksLast(s) && SerialRun(s, builders, actions)
    ensures MarksLast(Run(s, builders, actions))
    decreases |actions|
  {
    if actions != [] {
      var first := [actions[0]];
      StepMarksLast(s, builders, actions[0]);
      RunOne(s, builders, actions[0]);
      assert first[1..] == [];
      SerialRunInv(s, builders, first);
      RunMarksLast(Step(s, builders, actions[0]), builders, actions[1..]);
    }
  }

  /** In every serial run a row is processed exactly when a message other than the one being marked has
      carried it. */
  lemma ProcessedExactly(builders: KeyList, actions: seq<Action>, i: nat)
    requires SerialRun(INITIAL, builders, actions)
    requires i < |Run(INITIAL, builders, actions).rows|
    ensures var s := Run(INITIAL, builders, actions);
      s.rows[i].processed <==> Accepted(Settled(s), s.rows[i].entry)
  {
    SerialRunInv(INITIAL, builders, actions);
    RunMarksLast(INITIAL, builders, actions);
    ProcessedIsSettled(Run(INITIAL, builders, actions), i);
  }

  lemma ProcessedIsSettled(s: State, i: nat)
    requires SerialInv(s) && MarksLast(s) && i < |s.rows|
    ensures s.rows[i].processed <==> Accepted(Settled(s), s.rows[i].entry)
  {
    var e := s.rows[i].entry;
    if t :| t in s.ticks && s.ticks[t].phase.Marking? {
      var b := s.ticks[t].phase.batch;
      var last := |s.relay| - 1;
      assert Settled(s) == s.relay[..last];
      if k :| 0 <= k < last && e in s.relay[k].entries {
        assert Settled(s)[k] == s.relay[k] && Apart(s.relay[k], s.relay[last]);
        assert Accepted(s.relay, e);
      }
      if s.rows[i].processed {
        var k :| 0 <= k < |s.relay| && e in s.relay[k].entries;
        assert k < last && Settled(s)[k] == s.relay[k];
      }
    }
  }

  lemma {:induction false} DeliveredOfPrefix(relay: seq<Batch>, n: nat, slot: u64, committer: string)
    requires n <= |relay|
    ensures DeliveredTo(relay[..n], slot, committer) <= DeliveredTo(relay, slot, committer)
  {
    if n < |relay| {
      var init := relay[..|relay| - 1];
      assert init[..n] == relay[..n];
      DeliveredOfPrefix(init, n, slot, committer);
    } else {
      assert relay[..n] == relay;
    }
  }

  lemma SettledDelivers(s: State, slot: u64, committer: string, e: Entry)
    requires Inv(s) && Belongs(e, slot, committer)
    ensures Accepted(Settled(s), e) <==> e in DeliveredTo(Settled(s), slot, committer)
  {
    InDelivered(Settled(s), slot, committer, e);
    if k :| 0 <= k < |Settled(s)| && e in Settled(s)[k].entries {
      assert BatchOk(s.rows, s.relay[k]);
      assert Belongs(e, s.relay[k].message.slot, s.relay[k].committer);
    }
  }

  /** So with creation times in insert order and no two equal, in every serial state, marking or not, the
      processed rows of a slot and committer are the first ones saved. */
  lemma ProcessedIsPrefixOfSaved(builders: KeyList, actions: seq<Action>, slot: u64, committer: string)
    requires SerialRun(INITIAL, builders, actions)
    requires ClockOrdered(Run(INITIAL, builders, actions).rows, slot, committer)
    ensures var s := Run(INITIAL, builders, actions);
      var first := DeliveredTo(Settled(s), slot, committer);
      && first <= SavedFor(s.rows, slot, committer)
      && forall i :: 0 <= i < |s.rows| && Belongs(s.rows[i].entry, slot, committer)
                 ==> (s.rows[i].processed <==> s.rows[i].entry in first)
  {
    var s := Run(INITIAL, builders, actions);
    SerialRunInv(INITIAL, builders, actions);
    DeliveredIsPrefixOfSaved(builders, actions, slot, committer);
    DeliveredOfPrefix(s.relay, |Settled(s)|, slot, committer);
    assert s.relay[..|Settled(s)|] == Settled(s);
    forall i | 0 <= i < |s.rows| && Belongs(s.rows[i].entry, slot, committer)
      ensures s.rows[i].processed <==> s.rows[i].entry in DeliveredTo(Settled(s), slot, committer)
    {
      ProcessedExactly(builders, actions, i);
      SettledDelivers(s, slot, committer, s.rows[i].entry);
    }
  }

  // ---- Serial runs one after the other ----

  lemma {:induction false} SerialRunAppend(s: State, builders: KeyList, a: seq<Action>, b: seq<Action>)
    ensures Run(s, builders, a + b) == Run(Run(s, builders, a), builders, b)
    ensures SerialRun(s, builders, a) && SerialRun(Run(s, builders, a), builders, b) ==> SerialRun(s, builders, a + b)
    decreases |a|
  {
    if a == [] {
      assert a + b == b;
    } else {
      assert (a + b)[1..] == a[1..] + b;
      SerialRunAppend(Step(s, builders, a[0]), builders, a[1..], b);
    }
  }
}
