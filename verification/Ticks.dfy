/** A submission tick served without interruption (src/services/constraint_submission.rs): the loops over
    slots and delegations as they run on the stores, proved to take the steps of the pipeline. */
module Ticks {
  import opened Machine
  import opened Types
  import Address
  import opened Commitments
  import opened Submission
  import D = Delegations
  import opened Pipeline
  import Gateway
  import Relay
  import SlotClock

  /** What happens to one submission: whether its statements and its signature succeed, how its POSTs
      end, and which of those that did not end well the relay kept nevertheless. */
  datatype Luck = Luck(
    selects: bool, signs: bool, outcome: nat -> Relay.Outcome, kept: nat -> bool, marks: bool)

  /** `None` if any configured key is malformed. */
  function ParseAuthorizedBuilders(keys: seq<string>): Option<seq<PublicKey>> {
    if keys == [] then Some([])
    else
      var key :- Address.ParseHexBytes(keys[0], 48);
      var rest :- ParseAuthorizedBuilders(keys[1..]);
      Some([key] + rest)
  }

  /** All keys parse, each to its own 48 bytes, in the configured order. */
  lemma {:induction false} ParsesKeys(texts: seq<string>, keys: seq<PublicKey>)
    ensures ParseAuthorizedBuilders(texts) == Some(keys)
       <==> && |keys| == |texts|
            && forall i :: 0 <= i < |texts| ==> Address.ParseHexBytes(texts[i], 48) == Some(keys[i])
  {
    if texts != [] && keys != [] {
      ParsesKeys(texts[1..], keys[1..]);
      assert keys == [keys[0]] + keys[1..];
      assert forall i :: 0 < i < |texts| ==> texts[i] == texts[1..][i - 1];
      assert |keys| == |texts| ==> forall i :: 0 < i < |texts| ==> keys[i] == keys[1..][i - 1];
    }
  }

  // ---- Runs of one tick ----

  ghost predicate OnlyOf(t: nat, trace: seq<Action>) {
    forall i :: 0 <= i < |trace| ==> IsOf(trace[i], t)
  }

  lemma Joined(s: State, builders: KeyList, t: nat, a: seq<Action>, b: seq<Action>)
    requires OnlyOf(t, a) && OnlyOf(t, b)
    ensures OnlyOf(t, a + b)
    ensures Run(s, builders, a + b) == Run(Run(s, builders, a), builders, b)
  {
    RunAppend(s, builders, a, b);
  }

  // ---- The relay's part ----

  /** The kept ones among the first `posts` POSTs. */
  ghost function KeptPosts(t: nat, kept: nat -> bool, posts: nat): (trace: seq<Action>)
    ensures OnlyOf(t, trace)
  {
    if posts == 0 then []
    else KeptPosts(t, kept, posts - 1) + (if kept(posts - 1) then [RelayKeeps(t)] else [])
  }

  ghost function Copies(b: Batch, kept: nat -> bool, posts: nat): (bs: seq<Batch>)
    ensures forall i :: 0 <= i < |bs| ==> bs[i] == b
  {
    if posts == 0 then []
    else Copies(b, kept, posts - 1) + (if kept(posts - 1) then [b] else [])
  }

  lemma KeptOne(s: State, builders: KeyList, t: nat, b: Batch, before: seq<Action>, relay: seq<Batch>)
    requires t in s.ticks && s.ticks[t].phase == Submitting(b)
    requires Run(s, builders, before) == s.(relay := relay)
    ensures Run(s, builders, before + [RelayKeeps(t)]) == s.(relay := relay + [b])
  {
    RunAppend(s, builders, before, [RelayKeeps(t)]);
    RunOne(s.(relay := relay), builders, RelayKeeps(t));
  }

  lemma KeptNext(s: State, builders: KeyList, t: nat, b: Batch, keep: bool, before: seq<Action>, copies: seq<Batch>)
    requires t in s.ticks && s.ticks[t].phase == Submitting(b)
    requires Run(s, builders, before) == s.(relay := s.relay + copies)
    ensures Run(s, builders, before + (if keep then [RelayKeeps(t)] else []))
         == s.(relay := s.relay + (copies + (if keep then [b] else [])))
  {
    if keep {
      KeptOne(s, builders, t, b, before, s.relay + copies);
      assert s.relay + (copies + [b]) == s.relay + copies + [b];
    } else {
      assert before + [] == before && copies + [] == copies;
    }
  }

  lemma {:induction false} KeptRun(s: State, builders: KeyList, t: nat, b: Batch, kept: nat -> bool, posts: nat)
    requires t in s.ticks && s.ticks[t].phase == Submitting(b)
    ensures Run(s, builders, KeptPosts(t, kept, posts)) == s.(relay := s.relay + Copies(b, kept, posts))
  {
    if posts == 0 {
      assert s.relay + [] == s.relay;
    } else {
      KeptRun(s, builders, t, b, kept, posts - 1);
      KeptNext(s, builders, t, b, kept(posts - 1), KeptPosts(t, kept, posts - 1), Copies(b, kept, posts - 1));
    }
  }

  /** How many of the first POSTs the relay kept. */
  ghost function KeptCount(kept: nat -> bool, posts: nat): nat {
    if posts == 0 then 0 else KeptCount(kept, posts - 1) + (if kept(posts - 1) then 1 else 0)
  }

  lemma {:induction false} CopiesCount(b: Batch, kept: nat -> bool, posts: nat)
    ensures |Copies(b, kept, posts)| == KeptCount(kept, posts)
  {
    if posts > 0 {
      CopiesCount(b, kept, posts - 1);
    }
  }

  /** The state after a submission of which the relay has got this. */
  ghost function PostLeaves(s: State, t: nat, b: Batch, received: seq<Batch>, ok: bool): State
    requires t in s.ticks
  {
    s.(relay := s.relay + received,
       ticks := s.ticks[t := if ok then s.ticks[t].(phase := Marking(b)) else Advance(s.ticks[t])])
  }

  /** The end of a submission whose earlier POSTs left `copies` with the relay. */
  lemma PostEnds(s: State, builders: KeyList, t: nat, b: Batch, before: seq<Action>, copies: seq<Batch>, ok: bool)
    requires t in s.ticks && s.ticks[t].phase == Submitting(b)
    requires Run(s, builders, before) == s.(relay := s.relay + copies)
    ensures Run(s, builders, before + [if ok then Acknowledge(t) else GiveUp(t)])
         == PostLeaves(s, t, b, if ok then copies + [b] else copies, ok)
  {
    var last := if ok then Acknowledge(t) else GiveUp(t);
    RunAppend(s, builders, before, [last]);
    RunOne(s.(relay := s.relay + copies), builders, last);
    assert s.relay + copies + [b] == s.relay + (copies + [b]);
  }

  /** A 200 or 202 comes within the attempts, after retryable outcomes only. */
  ghost predicate Accepts(maxRetries: nat, luck: Luck) {
    exists i: nat ::
      i < Relay.Attempts(maxRetries) && Relay.Undecided(luck.outcome, i) && Relay.React(luck.outcome(i)).Succeed?
  }

  /** The steps of a submission of which `others` POSTs come before its end. */
  ghost function PostActions(t: nat, kept: nat -> bool, others: nat, ok: bool): (trace: seq<Action>)
    ensures OnlyOf(t, trace)
  {
    KeptPosts(t, kept, others) + [if ok then Acknowledge(t) else GiveUp(t)]
  }

  /** What the relay gets of a submission: the POSTs it kept though they did not end well, and the
      accepted one. */
  ghost function Received(b: Batch, maxRetries: nat, luck: Luck): seq<Batch> {
    var posts := Relay.Posts(maxRetries, luck.outcome);
    if Relay.React(luck.outcome(posts - 1)).Succeed? then Copies(b, luck.kept, posts - 1) + [b]
    else Copies(b, luck.kept, posts)
  }

  /** One copy for each POST that was kept, and one for the accepted one. */
  lemma ReceivedCopies(b: Batch, maxRetries: nat, luck: Luck)
    ensures var posts := Relay.Posts(maxRetries, luck.outcome);
      |Received(b, maxRetries, luck)| == if Relay.IsSuccess(luck.outcome(posts - 1))
                                         then KeptCount(luck.kept, posts - 1) + 1
                                         else KeptCount(luck.kept, posts)
    ensures forall k :: 0 <= k < |Received(b, maxRetries, luck)| ==> Received(b, maxRetries, luck)[k] == b
    ensures Accepts(maxRetries, luck) ==> Received(b, maxRetries, luck) != []
  {
    var posts := Relay.Posts(maxRetries, luck.outcome);
    Relay.AcceptedExactly(maxRetries, luck.outcome, posts);
    Relay.ReactsExactly(luck.outcome(posts - 1));
    CopiesCount(b, luck.kept, posts - 1);
    CopiesCount(b, luck.kept, posts);
  }

  lemma PostRun(s: State, builders: KeyList, t: nat, b: Batch, kept: nat -> bool, others: nat, ok: bool)
    requires t in s.ticks && s.ticks[t].phase == Submitting(b)
    ensures Run(s, builders, PostActions(t, kept, others, ok))
         == PostLeaves(s, t, b, if ok then Copies(b, kept, others) + [b] else Copies(b, kept, others), ok)
  {
    KeptRun(s, builders, t, b, kept, others);
    PostEnds(s, builders, t, b, KeptPosts(t, kept, others), Copies(b, kept, others), ok);
  }

  lemma SubmissionEnds(b: Batch, maxRetries: nat, luck: Luck, posts: nat, ok: bool)
    requires 1 <= posts <= Relay.Attempts(maxRetries) && Relay.Undecided(luck.outcome, posts - 1)
    requires posts == Relay.Attempts(maxRetries) || !Relay.Retryable(luck.outcome(posts - 1))
    requires ok == Relay.React(luck.outcome(posts - 1)).Succeed?
    ensures ok <==> Accepts(maxRetries, luck)
    ensures Received(b, maxRetries, luck)
         == if ok then Copies(b, luck.kept, posts - 1) + [b] else Copies(b, luck.kept, posts)
  {
    Relay.AcceptedExactly(maxRetries, luck.outcome, posts);
    Relay.PostsAreUnique(maxRetries, luck.outcome, posts, Relay.Posts(maxRetries, luck.outcome));
  }

  /** Posting a batch: the steps, and the relay afterwards. On success the last POST is acknowledged;
      the earlier ones may have been kept too, so delivery is at least once. */
  method Post(
      maxRetries: nat, luck: Luck, builders: KeyList, ghost s: State, ghost t: nat, ghost b: Batch)
    returns (ok: bool, ghost trace: seq<Action>)
    requires t in s.ticks && s.ticks[t].phase == Submitting(b)
    ensures ok <==> Accepts(maxRetries, luck)
    ensures OnlyOf(t, trace)
    ensures Run(s, builders, trace) == PostLeaves(s, t, b, Received(b, maxRetries, luck), ok)
  {
    var r, posts, _ := Relay.SubmitConstraints(maxRetries, luck.outcome);
    ok := r.Accepted?;
    SubmissionEnds(b, maxRetries, luck, posts, ok);
    ghost var others := if ok then posts - 1 else posts;
    trace := PostActions(t, luck.kept, others, ok);
    PostRun(s, builders, t, b, luck.kept, others, ok);
  }

  // ---- One delegation ----

  /** Marking what was selected and converted marks exactly the rows a delegation serves. */
  predicate ServedRow(row: Row, slot: u64, committer: string) {
    row.entry.slotNumber.Some? && row.entry.slotNumber == TryI64(slot) && IsConvertible(row.entry, committer)
  }

  lemma MarkServes(rows: Rows, slot: i64, committer: string, selected: seq<Entry>, i: nat)
    requires UniqueHashes(rows) && IsSelection(rows, slot, selected) && i < |rows|
    ensures rows[i].processed || HashOf(rows[i].entry) in HashesOf(Convertible(selected, committer))
       <==> rows[i].processed || (rows[i].entry.slotNumber == Some(slot) && IsConvertible(rows[i].entry, committer))
  {
    var served := Convertible(selected, committer);
    var e := rows[i].entry;
    InConvertible(selected, committer, e);
    SelectionMembers(rows, slot, selected, e);
    if e in served {
      var k :| 0 <= k < |served| && served[k] == e;
      assert HashesOf(served)[k] == HashOf(e);
    }
    if HashOf(e) in HashesOf(served) {
      var k :| 0 <= k < |served| && HashesOf(served)[k] == HashOf(e);
      InConvertible(selected, committer, served[k]);
      SelectionMembers(rows, slot, selected, served[k]);
      var j :| 0 <= j < |rows| && rows[j].entry == served[k] && Pending(rows[j], slot);
      assert j == i;
    }
  }

  /** The rows after serving a delegation: on success exactly the rows it serves have become processed. */
  ghost predicate Served(rows: Rows, later: Rows, slot: u64, committer: string, ok: bool) {
    && |later| == |rows|
    && forall i :: 0 <= i < |rows| ==>
         && later[i].entry == rows[i].entry
         && (later[i].processed <==> rows[i].processed || (ok && ServedRow(rows[i], slot, committer)))
  }

  lemma SelectStep(s: State, builders: KeyList, t: nat, selected: seq<Entry>)
    requires CanSelect(s, t, selected)
    ensures var entries := Convertible(selected, s.ticks[t].queue[0].committer);
      && |entries| <= 0x7FFF_FFFF_FFFF_FFFF
      && Run(s, builders, [Select(t, selected)])
         == s.(ticks := s.ticks[t := if entries == [] then Advance(s.ticks[t])
                                     else
                                        s.ticks[t].(phase :=
                                          Submitting(MakeBatch(s, s.ticks[t], builders, selected)))])
  {
    SelectionShrinks(s, t, selected);
    RunOne(s, builders, Select(t, selected));
  }

  /** The tick gives its delegation up. */
  lemma GiveUpStep(s: State, builders: KeyList, t: nat)
    requires t in s.ticks
    ensures Run(s, builders, [GiveUp(t)]) == s.(ticks := s.ticks[t := Advance(s.ticks[t])])
  {
    RunOne(s, builders, GiveUp(t));
  }

  /** What a served delegation leaves behind: the tick has moved on, and the relay has got this. */
  ghost predicate MovedOn(s: State, s': State, t: nat, received: seq<Batch>)
    requires t in s.ticks
  {
    s'.ticks == s.ticks[t := Advance(s.ticks[t])] && s'.relay == s.relay + received
  }

  /** The update by hashes, as the rows it serves. */
  method MarkServed(
      store: CommitmentStore, slot: u64, committer: string, hashes: seq<string>, ghost selected: seq<Entry>)
    requires UniqueHashes(store.rows) && TryI64(slot).Some? && IsSelection(store.rows, slot, selected)
    requires hashes == HashesOf(Convertible(selected, committer))
    modifies store
    ensures store.rows == Mark(old(store.rows), hashes)
    ensures Served(old(store.rows), store.rows, slot, committer, true)
  {
    ghost var rows := store.rows;
    forall i | 0 <= i < |rows|
      ensures (rows[i].processed || HashOf(rows[i].entry) in hashes)
         <==> rows[i].processed || ServedRow(rows[i], slot, committer)
    {
      MarkServes(rows, slot, committer, selected, i);
    }
    var _ := store.MarkProcessed(hashes);
  }

  /** The end of a submission the relay has acknowledged. */
  lemma MarkEnds(s: State, s1: State, builders: KeyList, t: nat, b: Batch, marks: bool, received: seq<Batch>)
    requires t in s.ticks
    requires s1 == s.(relay := s.relay + received, ticks := s.ticks[t := s.ticks[t].(phase := Marking(b))])
    ensures var s' := Run(s1, builders, [if marks then MarkDone(t) else GiveUp(t)]);
      && MovedOn(s, s', t, received)
      && s'.rows == if marks then Mark(s.rows, HashesOf(b.entries)) else s.rows
  {
    RunOne(s1, builders, if marks then MarkDone(t) else GiveUp(t));
  }

  /** Submitting and marking what has been selected. */
  method Submit(
      store: CommitmentStore, slot: u64, committer: string, hashes: seq<string>, maxRetries: nat, luck: Luck,
      builders: KeyList, ghost s: State, ghost t: nat, ghost selected: seq<Entry>, ghost b: Batch)
    returns (ok: bool, ghost trace: seq<Action>)
    requires t in s.ticks && s.ticks[t].phase == Submitting(b)
    requires s.rows == store.rows && UniqueHashes(store.rows)
    requires TryI64(slot).Some? && IsSelection(store.rows, slot, selected)
    requires b.entries == Convertible(selected, committer) && hashes == HashesOf(b.entries)
    modifies store
    ensures ok <==> Accepts(maxRetries, luck) && luck.marks
    ensures Served(old(store.rows), store.rows, slot, committer, ok)
    ensures OnlyOf(t, trace)
    ensures var s' := Run(s, builders, trace);
      s'.rows == store.rows && MovedOn(s, s', t, Received(b, maxRetries, luck))
  {
    ok, trace := Post(maxRetries, luck, builders, s, t, b);
    if !ok {
      return;
    }
    ghost var last := [if luck.marks then MarkDone(t) else GiveUp(t)];
    MarkEnds(s, Run(s, builders, trace), builders, t, b, luck.marks, Received(b, maxRetries, luck));
    Joined(s, builders, t, trace, last);
    trace := trace + last;
    ok := luck.marks;
    if luck.marks {
      MarkServed(store, slot, committer, hashes, selected);
    }
  }

  predicate CanSign(builderKeys: seq<string>, luck: Luck) {
    ParseAuthorizedBuilders(builderKeys).Some? && luck.signs
  }

  /** The message is built and signed first; a malformed builder key or a failing signature ends it. */
  method SignAndSubmit(
      store: CommitmentStore, slot: u64, committer: string, hashes: seq<string>, builderKeys: seq<string>,
      maxRetries: nat, luck: Luck, ghost builders: KeyList, ghost s: State, ghost t: nat, ghost selected: seq<Entry>,
      ghost b: Batch)
    returns (ok: bool, ghost trace: seq<Action>)
    requires t in s.ticks && s.ticks[t].phase == Submitting(b)
    requires s.rows == store.rows && UniqueHashes(store.rows)
    requires TryI64(slot).Some? && IsSelection(store.rows, slot, selected)
    requires b.entries == Convertible(selected, committer) && hashes == HashesOf(b.entries)
    requires ParseAuthorizedBuilders(builderKeys).Some? ==> builders == ParseAuthorizedBuilders(builderKeys).value
    modifies store
    ensures ok <==> CanSign(builderKeys, luck) && Accepts(maxRetries, luck) && luck.marks
    ensures Served(old(store.rows), store.rows, slot, committer, ok)
    ensures OnlyOf(t, trace)
    ensures var s' := Run(s, builders, trace);
      && s'.rows == store.rows
      && MovedOn(s, s', t, if CanSign(builderKeys, luck) then Received(b, maxRetries, luck) else [])
  {
    var receivers := ParseAuthorizedBuilders(builderKeys);
    if receivers.None? || !luck.signs {
      GiveUpStep(s, builders, t);
      assert s.relay + [] == s.relay;
      return false, [GiveUp(t)];
    }
    ok, trace := Submit(store, slot, committer, hashes, maxRetries, luck, receivers.value, s, t, selected, b);
  }

  /** The entry is that of an unprocessed row the delegation serves. */
  ghost predicate Waits(rows: Rows, e: Entry, slot: u64, committer: string) {
    exists i :: 0 <= i < |rows| && rows[i].entry == e && !rows[i].processed && ServedRow(rows[i], slot, committer)
  }

  ghost predicate NothingWaits(rows: Rows, slot: u64, committer: string) {
    forall i :: 0 <= i < |rows| && ServedRow(rows[i], slot, committer) ==> rows[i].processed
  }

  /** A message in the delegation's name that carries exactly the waiting commitments, oldest first. */
  ghost predicate IsBatchOf(rows: Rows, b: Batch, d: DelegationMessage, slot: u64, builders: KeyList) {
    && b.committer == d.committer
    && b.message.proposer == d.proposer && b.message.delegate == d.delegate && b.message.slot == slot
    && b.message.constraints == ConstraintsOf(b.entries) && b.message.receivers == builders
    && SortedByTime(b.entries)
    && forall e :: e in b.entries <==> Waits(rows, e, slot, d.committer)
  }

  lemma BatchIsOf(s: State, builders: KeyList, t: nat, selected: seq<Entry>)
    requires CanSelect(s, t, selected) && UniqueHashes(s.rows)
    ensures |Convertible(selected, s.ticks[t].queue[0].committer)| <= 0x7FFF_FFFF_FFFF_FFFF
    ensures IsBatchOf(s.rows, MakeBatch(s, s.ticks[t], builders, selected), s.ticks[t].queue[0], s.ticks[t].slot,
                      builders)
  {
    var d, slot := s.ticks[t].queue[0], s.ticks[t].slot;
    SelectionShrinks(s, t, selected);
    SelectionDistinct(s.rows, slot, selected);
    ConvertibleKeeps(selected, d.committer);
    forall e
      ensures e in Convertible(selected, d.committer) <==> Waits(s.rows, e, slot, d.committer)
    {
      InConvertible(selected, d.committer, e);
      SelectionMembers(s.rows, slot, selected, e);
    }
  }

  lemma NothingConvertible(rows: Rows, slot: u64, committer: string, selected: seq<Entry>)
    requires TryI64(slot).Some? && IsSelection(rows, slot, selected)
    ensures Convertible(selected, committer) == [] <==> NothingWaits(rows, slot, committer)
  {
    var converted := Convertible(selected, committer);
    if converted != [] {
      InConvertible(selected, committer, converted[0]);
      SelectionMembers(rows, slot, selected, converted[0]);
    }
    forall i | 0 <= i < |rows| && ServedRow(rows[i], slot, committer) && !rows[i].processed
      ensures rows[i].entry in converted
    {
      SelectionMembers(rows, slot, selected, rows[i].entry);
      InConvertible(selected, committer, rows[i].entry);
    }
  }

  /** Both statements of a submission, its signature and the relay come off. */
  ghost predicate Works(slot: u64, builderKeys: seq<string>, maxRetries: nat, luck: Luck) {
    Sends(slot, builderKeys, maxRetries, luck) && luck.marks
  }

  ghost predicate Sends(slot: u64, builderKeys: seq<string>, maxRetries: nat, luck: Luck) {
    Signs(slot, builderKeys, luck) && Accepts(maxRetries, luck)
  }

  /** The SELECT, the builder keys and the signature come off, so that something can be posted. */
  ghost predicate Signs(slot: u64, builderKeys: seq<string>, luck: Luck) {
    luck.selects && TryI64(slot).Some? && CanSign(builderKeys, luck)
  }

  /** What the relay gets for a delegation: nothing unless something waits and can be signed; then one
      message of the delegation, as often as the relay keeps it. */
  ghost predicate Gets(
      relay: seq<Batch>, later: seq<Batch>, rows: Rows, d: DelegationMessage, slot: u64, builders: KeyList,
      builderKeys: seq<string>, maxRetries: nat, luck: Luck)
  {
    if NothingWaits(rows, slot, d.committer) || !Signs(slot, builderKeys, luck) then later == relay
    else exists b :: IsBatchOf(rows, b, d, slot, builders) && later == relay + Received(b, maxRetries, luck)
  }

  /** What serving a delegation does to the tick and the relay. */
  ghost predicate DelegationServed(
      s: State, s': State, t: nat, rows: Rows, d: DelegationMessage, slot: u64, builders: KeyList,
      builderKeys: seq<string>, maxRetries: nat, luck: Luck)
    requires t in s.ticks
  {
    && s'.ticks == s.ticks[t := Advance(s.ticks[t])]
    && Gets(s.relay, s'.relay, rows, d, slot, builders, builderKeys, maxRetries, luck)
  }

  /** So only messages of the delegation are new, none without a signature, and one at least if something
      waits and the submission is sent. */
  ghost predicate Grew(
      relay: seq<Batch>, later: seq<Batch>, rows: Rows, d: DelegationMessage, slot: u64, builders: KeyList,
      signs: bool, sends: bool)
  {
    && relay <= later
    && (forall k :: |relay| <= k < |later| ==> signs && IsBatchOf(rows, later[k], d, slot, builders))
    && (sends && !NothingWaits(rows, slot, d.committer) ==> |later| > |relay|)
  }

  lemma GetsGrew(
      relay: seq<Batch>, later: seq<Batch>, rows: Rows, d: DelegationMessage, slot: u64, builders: KeyList,
      builderKeys: seq<string>, maxRetries: nat, luck: Luck)
    requires Gets(relay, later, rows, d, slot, builders, builderKeys, maxRetries, luck)
    ensures Grew(relay, later, rows, d, slot, builders, Signs(slot, builderKeys, luck),
                 Sends(slot, builderKeys, maxRetries, luck))
  {
    if !NothingWaits(rows, slot, d.committer) && Signs(slot, builderKeys, luck) {
      var b :| IsBatchOf(rows, b, d, slot, builders) && later == relay + Received(b, maxRetries, luck);
      ReceivedCopies(b, maxRetries, luck);
    }
  }

  /** One delegation. It succeeds exactly when the SELECT does and either nothing waits or everything else
      comes off too; exactly when everything comes off the rows it serves are processed. */
  method ProcessDelegationConstraints(
      store: CommitmentStore, slot: u64, d: DelegationMessage, builderKeys: seq<string>, maxRetries: nat, luck: Luck,
      ghost builders: KeyList, ghost s: State, ghost t: nat)
    returns (ok: bool, ghost trace: seq<Action>)
    requires t in s.ticks && s.ticks[t].phase.Picking? && s.ticks[t].slot == slot
    requires s.ticks[t].queue != [] && s.ticks[t].queue[0] == d
    requires s.rows == store.rows && UniqueHashes(store.rows) && |store.rows| <= 0x7FFF_FFFF_FFFF_FFFF
    requires ParseAuthorizedBuilders(builderKeys).Some? ==> builders == ParseAuthorizedBuilders(builderKeys).value
    modifies store
    ensures ok <==> && luck.selects && TryI64(slot).Some?
                    && (NothingWaits(old(store.rows), slot, d.committer) || Works(slot, builderKeys, maxRetries, luck))
    ensures Served(old(store.rows), store.rows, slot, d.committer, Works(slot, builderKeys, maxRetries, luck))
    ensures OnlyOf(t, trace)
    ensures var s' := Run(s, builders, trace);
      && s'.rows == store.rows
      && DelegationServed(s, s', t, old(store.rows), d, slot, builders, builderKeys, maxRetries, luck)
  {
    trace := [GiveUp(t)];
    GiveUpStep(s, builders, t);
    if !luck.selects {
      return false, trace;
    }
    var commitments := store.GetUnprocessedForSlot(slot);
    if commitments.None? {
      return false, trace;
    }
    ok, trace := ProcessSelected(store, slot, d, commitments.value, builderKeys, maxRetries, luck, builders, s, t);
  }

  method ProcessSelected(
      store: CommitmentStore, slot: u64, d: DelegationMessage, selected: seq<Entry>, builderKeys: seq<string>,
      maxRetries: nat, luck: Luck, ghost builders: KeyList, ghost s: State, ghost t: nat)
    returns (ok: bool, ghost trace: seq<Action>)
    requires t in s.ticks && s.ticks[t].phase.Picking? && s.ticks[t].slot == slot
    requires s.ticks[t].queue != [] && s.ticks[t].queue[0] == d
    requires s.rows == store.rows && UniqueHashes(store.rows) && |store.rows| <= 0x7FFF_FFFF_FFFF_FFFF
    requires TryI64(slot).Some? && IsSelection(store.rows, slot, selected) && luck.selects
    requires ParseAuthorizedBuilders(builderKeys).Some? ==> builders == ParseAuthorizedBuilders(builderKeys).value
    modifies store
    ensures ok <==> NothingWaits(old(store.rows), slot, d.committer) || Works(slot, builderKeys, maxRetries, luck)
    ensures Served(old(store.rows), store.rows, slot, d.committer, Works(slot, builderKeys, maxRetries, luck))
    ensures OnlyOf(t, trace)
    ensures var s' := Run(s, builders, trace);
      && s'.rows == store.rows
      && DelegationServed(s, s', t, old(store.rows), d, slot, builders, builderKeys, maxRetries, luck)
  {
    SelectionLength(store.rows, slot, selected);
    SelectStep(s, builders, t, selected);
    trace := [Select(t, selected)];
    ghost var s1 := Run(s, builders, trace);
    NothingConvertible(store.rows, slot, d.committer, selected);
    var constraints, hashes := CreateConstraints(selected, d.committer);
    if constraints == [] {
      assert Convertible(selected, d.committer) == [];
      return true, trace;
    }
    ghost var b := MakeBatch(s, s.ticks[t], builders, selected);
    BatchIsOf(s, builders, t, selected);
    ghost var last;
    ok, last :=
      SignAndSubmit(store, slot, d.committer, hashes, builderKeys, maxRetries, luck, builders, s1, t, selected, b);
    Joined(s, builders, t, trace, last);
    trace := trace + last;
  }

  // ---- One slot ----

  function SlasherOf(row: Row): string {
    row.entry.signed.commitment.slasher
  }

  /** The rows after serving the delegations of these committers for a slot. */
  ghost predicate ServedAll(rows: Rows, later: Rows, slot: u64, done: set<string>) {
    && |later| == |rows|
    && forall i :: 0 <= i < |rows| ==>
         && later[i].entry == rows[i].entry
         && (later[i].processed
             <==> (rows[i].processed || (SlasherOf(rows[i]) in done && ServedRow(rows[i], slot, SlasherOf(rows[i])))))
  }

  lemma ServedOneMore(rows: Rows, mid: Rows, later: Rows, slot: u64, done: set<string>, committer: string, ok: bool)
    requires ServedAll(rows, mid, slot, done) && Served(mid, later, slot, committer, ok)
    ensures ServedAll(rows, later, slot, if ok then done + {committer} else done)
  {
  }

  lemma ServedKeepsUnique(rows: Rows, later: Rows, slot: u64, done: set<string>)
    requires ServedAll(rows, later, slot, done) && UniqueHashes(rows)
    ensures UniqueHashes(later)
  {
  }

  lemma {:induction false} FilterFront(keep: SignedDelegation -> bool, d: SignedDelegation, ds: seq<SignedDelegation>)
    ensures D.Filter(keep, [d] + ds) == (if keep(d) then [d] else []) + D.Filter(keep, ds)
  {
    if ds == [] {
      assert [d] + ds == [] + [d];
      D.FilterAppend(keep, [], d);
    } else {
      var init, last := ds[..|ds| - 1], ds[|ds| - 1];
      FilterFront(keep, d, init);
      assert [d] + ds == ([d] + init) + [last];
      D.FilterAppend(keep, [d] + init, last);
    }
  }

  ghost predicate Idle(s: State, t: nat) {
    t in s.ticks ==> s.ticks[t].queue == [] && s.ticks[t].phase.Picking?
  }

  /** The messages a tick serves of the delegations from the i-th on. */
  ghost function QueueFrom(ourKey: PublicKey, ds: seq<SignedDelegation>, i: nat): seq<DelegationMessage>
    requires i <= |ds|
  {
    Gateway.MessagesOf(D.Filter(D.IsOurs(ourKey), ds[i..]))
  }

  lemma QueueStep(ourKey: PublicKey, ds: seq<SignedDelegation>, i: nat)
    requires i < |ds|
    ensures QueueFrom(ourKey, ds, i)
         == (if ds[i].message.delegate == ourKey then [ds[i].message] else []) + QueueFrom(ourKey, ds, i + 1)
  {
    FilterFront(D.IsOurs(ourKey), ds[i], ds[i + 1..]);
    assert ds[i..] == [ds[i]] + ds[i + 1..];
  }

  ghost predicate TickIs(s: State, t: nat, slot: u64, queue: seq<DelegationMessage>) {
    t in s.ticks && s.ticks[t] == Tick(slot, queue, Picking)
  }

  lemma BeginStep(s: State, builders: KeyList, t: nat, slot: u64, queue: seq<DelegationMessage>)
    requires Idle(s, t)
    ensures Run(s, builders, [Begin(t, slot, queue)]) == s.(ticks := s.ticks[t := Tick(slot, queue, Picking)])
  {
    RunOne(s, builders, Begin(t, slot, queue));
  }

  // ---- The delegations of a slot ----

  /** The circumstances of a slot: our key, the configured builders and retries, and the luck of each
      delegation of the SELECT's answer. */
  datatype Env = Env(ourKey: PublicKey, builderKeys: seq<string>, maxRetries: nat, luck: nat -> Luck)

  ghost predicate SendsFor(env: Env, slot: u64, ds: seq<SignedDelegation>, j: nat) {
    && j < |ds| && ds[j].message.delegate == env.ourKey
    && Sends(slot, env.builderKeys, env.maxRetries, env.luck(j))
  }

  /** The committers among the first delegations to our key for which everything comes off. */
  ghost function DoneUpTo(env: Env, slot: u64, ds: seq<SignedDelegation>, i: nat): set<string>
    requires i <= |ds|
  {
    if i == 0 then {}
    else
      DoneUpTo(env, slot, ds, i - 1)
      + (if ds[i - 1].message.delegate == env.ourKey && Works(slot, env.builderKeys, env.maxRetries, env.luck(i - 1))
         then {ds[i - 1].message.committer} else {})
  }

  lemma {:induction false} InDone(env: Env, slot: u64, ds: seq<SignedDelegation>, i: nat, c: string)
    requires i <= |ds|
    ensures c in DoneUpTo(env, slot, ds, i)
       <==> exists j :: 0 <= j < i && ds[j].message.committer == c && SendsFor(env, slot, ds, j) && env.luck(j).marks
  {
    if i > 0 {
      InDone(env, slot, ds, i - 1, c);
    }
  }

  /** The entry is in a message that the relay got meanwhile. */
  ghost predicate AcceptedSince(relay: seq<Batch>, later: seq<Batch>, e: Entry) {
    exists k :: |relay| <= k < |later| && e in later[k].entries
  }

  /** Whatever waited for a delegation that was sent has reached the relay. */
  ghost predicate SentUpTo(
      env: Env, slot: u64, ds: seq<SignedDelegation>, i: nat, rows: Rows, relay: seq<Batch>, later: seq<Batch>)
  {
    forall j, e :: 0 <= j < i && SendsFor(env, slot, ds, j) && Waits(rows, e, slot, ds[j].message.committer)
               ==> AcceptedSince(relay, later, e)
  }

  /** The message is in the name of a delegation of the answer to our key and carries only what waited; that
      delegation's SELECT, builder keys and signature came off. */
  ghost predicate IsOurBatch(
      env: Env, slot: u64, ds: seq<SignedDelegation>, rows: Rows, builders: KeyList, b: Batch)
  {
    exists j ::
      && 0 <= j < |ds| && ds[j].message.delegate == env.ourKey && IsPartOf(rows, b, ds[j].message, slot, builders)
      && Signs(slot, env.builderKeys, env.luck(j))
  }

  ghost predicate IsPartOf(rows: Rows, b: Batch, d: DelegationMessage, slot: u64, builders: KeyList) {
    && b.committer == d.committer
    && b.message.proposer == d.proposer && b.message.delegate == d.delegate && b.message.slot == slot
    && b.message.constraints == ConstraintsOf(b.entries) && b.message.receivers == builders
    && forall e :: e in b.entries ==> Waits(rows, e, slot, d.committer)
  }

  ghost predicate OnlyOurs(
      env: Env, slot: u64, ds: seq<SignedDelegation>, rows: Rows, builders: KeyList, relay: seq<Batch>,
      later: seq<Batch>)
  {
    relay <= later && forall k :: |relay| <= k < |later| ==> IsOurBatch(env, slot, ds, rows, builders, later[k])
  }

  ghost predicate GetsFor(
      env: Env, slot: u64, ds: seq<SignedDelegation>, i: nat, rows: Rows, builders: KeyList, relay: seq<Batch>,
      later: seq<Batch>)
    requires i < |ds|
  {
    Gets(relay, later, rows, ds[i].message, slot, builders, env.builderKeys, env.maxRetries, env.luck(i))
  }

  /** What the relay gets for the first delegations to our key, one after the other: each finds the rows
      that those before it left. */
  ghost predicate GetsUpTo(
      env: Env, slot: u64, ds: seq<SignedDelegation>, i: nat, rows: Rows, builders: KeyList, relay: seq<Batch>,
      later: seq<Batch>)
    requires i <= |ds|
    decreases i
  {
    if i == 0 then later == relay
    else
      var j: nat := i - 1;
      if ds[j].message.delegate != env.ourKey then GetsUpTo(env, slot, ds, j, rows, builders, relay, later)
      else
        exists before: seq<Batch>, mid: Rows ::
          && GetsUpTo(env, slot, ds, j, rows, builders, relay, before)
          && ServedAll(rows, mid, slot, DoneUpTo(env, slot, ds, j))
          && GetsFor(env, slot, ds, j, mid, builders, before, later)
  }

  ghost predicate GrewBy(
      env: Env, slot: u64, ds: seq<SignedDelegation>, i: nat, rows: Rows, builders: KeyList, relay: seq<Batch>,
      later: seq<Batch>)
    requires i < |ds|
  {
    Grew(relay, later, rows, ds[i].message, slot, builders, Signs(slot, env.builderKeys, env.luck(i)),
         Sends(slot, env.builderKeys, env.maxRetries, env.luck(i)))
  }

  lemma SentOneMore(
      env: Env, slot: u64, ds: seq<SignedDelegation>, i: nat, rows: Rows, mid: Rows, builders: KeyList,
      s: State, s1: State, s2: State)
    requires i < |ds| && ds[i].message.delegate == env.ourKey
    requires ServedAll(rows, mid, slot, DoneUpTo(env, slot, ds, i))
    requires s.relay <= s1.relay && SentUpTo(env, slot, ds, i, rows, s.relay, s1.relay)
    requires GrewBy(env, slot, ds, i, mid, builders, s1.relay, s2.relay)
    ensures SentUpTo(env, slot, ds, i + 1, rows, s.relay, s2.relay)
  {
    forall j, e | 0 <= j < i + 1 && SendsFor(env, slot, ds, j) && Waits(rows, e, slot, ds[j].message.committer)
      ensures AcceptedSince(s.relay, s2.relay, e)
    {
      if j < i {
        AcceptedLonger(s.relay, s1.relay, s2.relay, e);
      } else {
        SentNow(env, slot, ds, i, rows, mid, builders, s, s1, s2, e);
      }
    }
  }

  lemma AcceptedLonger(relay: seq<Batch>, mid: seq<Batch>, later: seq<Batch>, e: Entry)
    requires AcceptedSince(relay, mid, e) && mid <= later
    ensures AcceptedSince(relay, later, e)
  {
    var k :| |relay| <= k < |mid| && e in mid[k].entries;
    assert later[k] == mid[k];
  }

  lemma SentNow(
      env: Env, slot: u64, ds: seq<SignedDelegation>, i: nat, rows: Rows, mid: Rows, builders: KeyList,
      s: State, s1: State, s2: State, e: Entry)
    requires SendsFor(env, slot, ds, i) && Waits(rows, e, slot, ds[i].message.committer)
    requires ServedAll(rows, mid, slot, DoneUpTo(env, slot, ds, i))
    requires s.relay <= s1.relay && SentUpTo(env, slot, ds, i, rows, s.relay, s1.relay)
    requires GrewBy(env, slot, ds, i, mid, builders, s1.relay, s2.relay)
    ensures AcceptedSince(s.relay, s2.relay, e)
  {
    var c := ds[i].message.committer;
    var r :| 0 <= r < |rows| && rows[r].entry == e && !rows[r].processed && ServedRow(rows[r], slot, c);
    if mid[r].processed {
      InDone(env, slot, ds, i, c);
      var j :| 0 <= j < i && ds[j].message.committer == c && SendsFor(env, slot, ds, j) && env.luck(j).marks;
      AcceptedLonger(s.relay, s1.relay, s2.relay, e);
    } else {
      assert Waits(mid, e, slot, c);
      var k := |s1.relay|;
      assert IsBatchOf(mid, s2.relay[k], ds[i].message, slot, builders);
    }
  }

  lemma OursOneMore(
      env: Env, slot: u64, ds: seq<SignedDelegation>, i: nat, rows: Rows, mid: Rows, builders: KeyList,
      s: State, s1: State, s2: State)
    requires i < |ds| && ds[i].message.delegate == env.ourKey
    requires ServedAll(rows, mid, slot, DoneUpTo(env, slot, ds, i))
    requires OnlyOurs(env, slot, ds, rows, builders, s.relay, s1.relay)
    requires GrewBy(env, slot, ds, i, mid, builders, s1.relay, s2.relay)
    ensures OnlyOurs(env, slot, ds, rows, builders, s.relay, s2.relay)
  {
    forall k | |s.relay| <= k < |s2.relay|
      ensures IsOurBatch(env, slot, ds, rows, builders, s2.relay[k])
    {
      if k < |s1.relay| {
        assert s2.relay[k] == s1.relay[k];
      } else {
        WaitedBefore(env, slot, ds, i, rows, mid, builders, s2.relay[k]);
      }
    }
  }

  lemma WaitedBefore(
      env: Env, slot: u64, ds: seq<SignedDelegation>, i: nat, rows: Rows, mid: Rows, builders: KeyList, b: Batch)
    requires i <= |ds| && ServedAll(rows, mid, slot, DoneUpTo(env, slot, ds, i))
    requires i < |ds| && IsBatchOf(mid, b, ds[i].message, slot, builders)
    ensures IsPartOf(rows, b, ds[i].message, slot, builders)
  {
    forall e | e in b.entries
      ensures Waits(rows, e, slot, ds[i].message.committer)
    {
      var r :| && 0 <= r < |mid| && mid[r].entry == e && !mid[r].processed
               && ServedRow(mid[r], slot, ds[i].message.committer);
      assert rows[r].entry == e && !rows[r].processed;
    }
  }

  /** Everything a slot's loop leaves behind after the first delegations. */
  ghost predicate SlotServed(
      env: Env, slot: u64, ds: seq<SignedDelegation>, i: nat, rows: Rows, builders: KeyList, s: State, s': State)
    requires i <= |ds|
  {
    && ServedAll(rows, s'.rows, slot, DoneUpTo(env, slot, ds, i))
    && GetsUpTo(env, slot, ds, i, rows, builders, s.relay, s'.relay)
    && SentUpTo(env, slot, ds, i, rows, s.relay, s'.relay)
    && OnlyOurs(env, slot, ds, rows, builders, s.relay, s'.relay)
  }

  lemma SlotStep(
      env: Env, slot: u64, ds: seq<SignedDelegation>, i: nat, rows: Rows, builders: KeyList,
      s: State, s1: State, s2: State)
    requires i < |ds| && ds[i].message.delegate == env.ourKey
    requires SlotServed(env, slot, ds, i, rows, builders, s, s1)
    requires Served(s1.rows, s2.rows, slot, ds[i].message.committer,
                    Works(slot, env.builderKeys, env.maxRetries, env.luck(i)))
    requires GetsFor(env, slot, ds, i, s1.rows, builders, s1.relay, s2.relay)
    ensures SlotServed(env, slot, ds, i + 1, rows, builders, s, s2)
  {
    GetsGrew(s1.relay, s2.relay, s1.rows, ds[i].message, slot, builders, env.builderKeys, env.maxRetries, env.luck(i));
    var works := Works(slot, env.builderKeys, env.maxRetries, env.luck(i));
    ServedOneMore(rows, s1.rows, s2.rows, slot, DoneUpTo(env, slot, ds, i), ds[i].message.committer, works);
    assert DoneUpTo(env, slot, ds, i) + {} == DoneUpTo(env, slot, ds, i);
    SentOneMore(env, slot, ds, i, rows, s1.rows, builders, s, s1, s2);
    OursOneMore(env, slot, ds, i, rows, s1.rows, builders, s, s1, s2);
  }

  lemma SlotSkip(
      env: Env, slot: u64, ds: seq<SignedDelegation>, i: nat, rows: Rows, builders: KeyList, s: State, s1: State)
    requires i < |ds| && ds[i].message.delegate != env.ourKey
    requires SlotServed(env, slot, ds, i, rows, builders, s, s1)
    ensures SlotServed(env, slot, ds, i + 1, rows, builders, s, s1)
  {
    assert DoneUpTo(env, slot, ds, i) + {} == DoneUpTo(env, slot, ds, i);
  }

  lemma SlotBegins(
      env: Env, slot: u64, ds: seq<SignedDelegation>, builders: KeyList, s: State, s1: State)
    requires s1.rows == s.rows && s1.relay == s.relay
    ensures SlotServed(env, slot, ds, 0, s.rows, builders, s, s1)
  {
  }

  /** All delegations of a slot to our key, one after the other; an error in one does not stop the next.
      Exactly the rows of the committers for which everything came off become processed, whatever waited
      for a submission that was sent has reached the relay, and nothing else has. */
  method ProcessConstraintsForSlot(
      store: CommitmentStore, delegations: D.DelegationStore, slot: u64, env: Env, readable: bool,
      ghost builders: KeyList, ghost s: State, ghost t: nat)
    returns (ok: bool, ghost trace: seq<Action>, ghost answer: seq<SignedDelegation>)
    requires Idle(s, t)
    requires s.rows == store.rows && UniqueHashes(store.rows) && |store.rows| <= 0x7FFF_FFFF_FFFF_FFFF
    requires ParseAuthorizedBuilders(env.builderKeys).Some?
         ==> builders == ParseAuthorizedBuilders(env.builderKeys).value
    modifies store
    ensures ok == readable
    ensures if readable then D.IsAnswer(delegations.table, slot, answer) else answer == []
    ensures OnlyOf(t, trace)
    ensures var s' := Run(s, builders, trace);
      s'.rows == store.rows && Idle(s', t) && SlotServed(env, slot, answer, |answer|, old(store.rows), builders, s, s')
  {
    trace, answer := [], [];
    SlotBegins(env, slot, answer, builders, s, s);
    if !readable {
      return false, trace, answer;
    }
    var ds := delegations.GetDelegationsForSlot(slot);
    answer := ds;
    trace := [Begin(t, slot, QueueFrom(env.ourKey, ds, 0))];
    BeginStep(s, builders, t, slot, QueueFrom(env.ourKey, ds, 0));
    SlotBegins(env, slot, ds, builders, s, Run(s, builders, trace));
    ghost var s1 := Run(s, builders, trace);
    for i := 0 to |ds|
      invariant OnlyOf(t, trace) && s1 == Run(s, builders, trace) && s1.rows == store.rows
      invariant TickIs(s1, t, slot, QueueFrom(env.ourKey, ds, i))
      invariant SlotServed(env, slot, ds, i, old(store.rows), builders, s, s1)
    {
      ghost var last := ProcessNext(store, slot, ds, i, env, builders, s, s1, t, old(store.rows));
      Joined(s, builders, t, trace, last);
      trace := trace + last;
      s1 := Run(s1, builders, last);
    }
    return true, trace, answer;
  }

  /** The next delegation of a slot, if it is to our key. */
  method ProcessNext(
      store: CommitmentStore, slot: u64, ds: seq<SignedDelegation>, i: nat, env: Env, ghost builders: KeyList,
      ghost s: State, ghost s1: State, ghost t: nat, ghost rows: Rows)
    returns (ghost last: seq<Action>)
    requires i < |ds| && UniqueHashes(rows) && |rows| <= 0x7FFF_FFFF_FFFF_FFFF
    requires ParseAuthorizedBuilders(env.builderKeys).Some?
         ==> builders == ParseAuthorizedBuilders(env.builderKeys).value
    requires s1.rows == store.rows && TickIs(s1, t, slot, QueueFrom(env.ourKey, ds, i))
    requires SlotServed(env, slot, ds, i, rows, builders, s, s1)
    modifies store
    ensures OnlyOf(t, last)
    ensures var s2 := Run(s1, builders, last);
      && s2.rows == store.rows && TickIs(s2, t, slot, QueueFrom(env.ourKey, ds, i + 1))
      && SlotServed(env, slot, ds, i + 1, rows, builders, s, s2)
  {
    QueueStep(env.ourKey, ds, i);
    if ds[i].message.delegate != env.ourKey {
      SlotSkip(env, slot, ds, i, rows, builders, s, s1);
      return [];
    }
    ServedKeepsUnique(rows, store.rows, slot, DoneUpTo(env, slot, ds, i));
    var _, trace := ProcessDelegationConstraints(
      store, slot, ds[i].message, env.builderKeys, env.maxRetries, env.luck(i), builders, s1, t);
    last := trace;
    ghost var s2 := Run(s1, builders, last);
    assert GetsFor(env, slot, ds, i, s1.rows, builders, s1.relay, s2.relay);
    SlotStep(env, slot, ds, i, rows, builders, s, s1, s2);
  }

  // ---- One tick ----

  /** The circumstances of a tick: `clock(0)` is read for the current slot and `clock(1 + k)` for the k-th
      deadline; `readable(k)` says whether the delegations of the k-th slot can be read. */
  datatype TickEnv = TickEnv(
    ourKey: PublicKey, builderKeys: seq<string>, maxRetries: nat, genesis: u64, clock: nat -> u64,
    readable: nat -> bool, luck: nat -> nat -> Luck)

  function SlotAt(env: TickEnv, k: nat): u64
    requires k < 4
  {
    SlotClock.CurrentSlotEstimate(env.genesis, env.clock(0)) + k
  }

  function EnvAt(env: TickEnv, k: nat): Env {
    Env(env.ourKey, env.builderKeys, env.maxRetries, env.luck(k))
  }

  predicate Attempts(env: TickEnv, k: nat)
    requires k < 4
  {
    SlotClock.IsWithinWindow(env.genesis, SlotAt(env, k), env.clock(k + 1))
  }

  predicate Reads(env: TickEnv, k: nat)
    requires k < 4
  {
    Attempts(env, k) && env.readable(k)
  }

  /** One of the first slots is read and serves the row: everything comes off for a delegation of its
      slot whose committer is spelled like its slasher. */
  ghost predicate ServesAt(env: TickEnv, k: nat, ds: seq<SignedDelegation>, row: Row)
    requires k < 4
  {
    && Reads(env, k) && ServedRow(row, SlotAt(env, k), SlasherOf(row))
    && SlasherOf(row) in DoneUpTo(EnvAt(env, k), SlotAt(env, k), ds, |ds|)
  }

  ghost predicate TickServes(env: TickEnv, answers: seq<seq<SignedDelegation>>, row: Row)
    requires |answers| <= 4
  {
    exists k :: 0 <= k < |answers| && ServesAt(env, k, answers[k], row)
  }

  /** Whatever waited for a submission of the k-th slot that was sent has reached the relay. */
  ghost predicate SentAt(
      env: TickEnv, k: nat, ds: seq<SignedDelegation>, rows: Rows, relay: seq<Batch>, later: seq<Batch>)
    requires k < 4
  {
    Reads(env, k) ==> SentUpTo(EnvAt(env, k), SlotAt(env, k), ds, |ds|, rows, relay, later)
  }

  /** The message is one of a slot that was attempted and read. */
  ghost predicate IsTickBatch(
      env: TickEnv, answers: seq<seq<SignedDelegation>>, rows: Rows, builders: KeyList, b: Batch)
    requires |answers| <= 4
  {
    exists k :: 0 <= k < |answers| && IsBatchAt(env, k, answers[k], rows, builders, b)
  }

  ghost predicate IsBatchAt(
      env: TickEnv, k: nat, ds: seq<SignedDelegation>, rows: Rows, builders: KeyList, b: Batch)
    requires k < 4
  {
    Reads(env, k) && IsOurBatch(EnvAt(env, k), SlotAt(env, k), ds, rows, builders, b)
  }

  ghost predicate OnlyTickBatches(
      env: TickEnv, answers: seq<seq<SignedDelegation>>, rows: Rows, builders: KeyList, relay: seq<Batch>,
      later: seq<Batch>)
    requires |answers| <= 4
  {
    relay <= later && forall k :: |relay| <= k < |later| ==> IsTickBatch(env, answers, rows, builders, later[k])
  }

  /** The rows after a tick's first slots. */
  ghost predicate TickRows(env: TickEnv, answers: seq<seq<SignedDelegation>>, rows: Rows, later: Rows)
    requires |answers| <= 4
  {
    && |later| == |rows|
    && forall i :: 0 <= i < |rows| ==>
         && later[i].entry == rows[i].entry
         && (later[i].processed <==> rows[i].processed || TickServes(env, answers, rows[i]))
  }

  /** What the relay gets for a tick's first slots: for those that are read what it gets for their
      delegations, for the others nothing. */
  ghost predicate TickGets(
      env: TickEnv, answers: seq<seq<SignedDelegation>>, rows: Rows, builders: KeyList, relay: seq<Batch>,
      later: seq<Batch>)
    requires |answers| <= 4
    decreases |answers|
  {
    if answers == [] then later == relay
    else
      var k := |answers| - 1;
      if !Reads(env, k) then TickGets(env, answers[..k], rows, builders, relay, later)
      else
        exists before: seq<Batch>, mid: Rows ::
          && TickGets(env, answers[..k], rows, builders, relay, before)
          && TickRows(env, answers[..k], rows, mid)
          && SlotGets(env, k, answers[k], mid, builders, before, later)
  }

  ghost predicate SlotGets(
      env: TickEnv, k: nat, ds: seq<SignedDelegation>, rows: Rows, builders: KeyList, relay: seq<Batch>,
      later: seq<Batch>)
    requires k < 4
  {
    GetsUpTo(EnvAt(env, k), SlotAt(env, k), ds, |ds|, rows, builders, relay, later)
  }

  /** The effect of a tick's first slots: exactly which rows became processed and what the relay got,
      and what follows: whatever was sent has reached it, and nothing else. */
  ghost predicate TickServed(
      env: TickEnv, answers: seq<seq<SignedDelegation>>, rows: Rows, builders: KeyList, s: State, s': State)
    requires |answers| <= 4
  {
    && TickRows(env, answers, rows, s'.rows)
    && TickGets(env, answers, rows, builders, s.relay, s'.relay)
    && OnlyTickBatches(env, answers, rows, builders, s.relay, s'.relay)
    && (forall k :: 0 <= k < |answers| ==> SentAt(env, k, answers[k], rows, s.relay, s'.relay))
  }

  lemma TickServesMore(env: TickEnv, answers: seq<seq<SignedDelegation>>, ds: seq<SignedDelegation>, row: Row)
    requires |answers| < 4
    ensures TickServes(env, answers + [ds], row) <==> TickServes(env, answers, row) || ServesAt(env, |answers|, ds, row)
  {
    var more := answers + [ds];
    if k :| 0 <= k < |more| && ServesAt(env, k, more[k], row) {
      assert k < |answers| ==> more[k] == answers[k];
    }
    if k :| 0 <= k < |answers| && ServesAt(env, k, answers[k], row) {
      assert more[k] == answers[k];
    }
    if ServesAt(env, |answers|, ds, row) {
      assert more[|answers|] == ds;
    }
  }

  /** Slots of a tick differ, so what waits in one is not touched by the others. */
  lemma StillWaits(
      env: TickEnv, answers: seq<seq<SignedDelegation>>, rows: Rows, builders: KeyList, s: State, s1: State, e: Entry,
      committer: string)
    requires |answers| < 4 && TickServed(env, answers, rows, builders, s, s1)
    requires Waits(rows, e, SlotAt(env, |answers|), committer)
    ensures Waits(s1.rows, e, SlotAt(env, |answers|), committer)
  {
    var i :| 0 <= i < |rows| && rows[i].entry == e && !rows[i].processed
             && ServedRow(rows[i], SlotAt(env, |answers|), committer);
    assert !TickServes(env, answers, rows[i]);
    assert s1.rows[i].entry == e;
  }

  lemma SentStill(
      env: TickEnv, answers: seq<seq<SignedDelegation>>, rows: Rows, builders: KeyList, s: State, s1: State, s2: State,
      k: nat)
    requires |answers| < 4 && TickServed(env, answers, rows, builders, s, s1) && s1.relay <= s2.relay
    requires k < |answers|
    ensures SentAt(env, k, answers[k], rows, s.relay, s2.relay)
  {
    if Reads(env, k) {
      var ds, slot := answers[k], SlotAt(env, k);
      forall j, e |
        0 <= j < |ds| && SendsFor(EnvAt(env, k), slot, ds, j) && Waits(rows, e, slot, ds[j].message.committer)
        ensures AcceptedSince(s.relay, s2.relay, e)
      {
        assert SentAt(env, k, answers[k], rows, s.relay, s1.relay);
        AcceptedLonger(s.relay, s1.relay, s2.relay, e);
      }
    }
  }

  lemma SentAlso(
      env: TickEnv, answers: seq<seq<SignedDelegation>>, ds: seq<SignedDelegation>, rows: Rows, builders: KeyList,
      s: State, s1: State, s2: State)
    requires |answers| < 4 && TickServed(env, answers, rows, builders, s, s1) && s1.relay <= s2.relay
    requires SentUpTo(EnvAt(env, |answers|), SlotAt(env, |answers|), ds, |ds|, s1.rows, s1.relay, s2.relay)
    ensures SentAt(env, |answers|, ds, rows, s.relay, s2.relay)
  {
    var slot := SlotAt(env, |answers|);
    forall j, e |
      0 <= j < |ds| && SendsFor(EnvAt(env, |answers|), slot, ds, j) && Waits(rows, e, slot, ds[j].message.committer)
      ensures AcceptedSince(s.relay, s2.relay, e)
    {
      StillWaits(env, answers, rows, builders, s, s1, e, ds[j].message.committer);
      assert Waits(s1.rows, e, slot, ds[j].message.committer) && SendsFor(EnvAt(env, |answers|), slot, ds, j);
      assert AcceptedSince(s1.relay, s2.relay, e);
      var k :| |s1.relay| <= k < |s2.relay| && e in s2.relay[k].entries;
    }
  }

  lemma TickBatchLonger(
      env: TickEnv, answers: seq<seq<SignedDelegation>>, ds: seq<SignedDelegation>, rows: Rows, builders: KeyList,
      b: Batch)
    requires |answers| < 4 && IsTickBatch(env, answers, rows, builders, b)
    ensures IsTickBatch(env, answers + [ds], rows, builders, b)
  {
    var k :| 0 <= k < |answers| && IsBatchAt(env, k, answers[k], rows, builders, b);
    assert (answers + [ds])[k] == answers[k];
  }

  /** What waited when a slot's turn came had waited when the tick began. */
  lemma BatchWaited(
      env: TickEnv, answers: seq<seq<SignedDelegation>>, ds: seq<SignedDelegation>, rows: Rows, builders: KeyList,
      s: State, s1: State, b: Batch)
    requires |answers| < 4 && TickServed(env, answers, rows, builders, s, s1)
    requires IsBatchAt(env, |answers|, ds, s1.rows, builders, b)
    ensures IsTickBatch(env, answers + [ds], rows, builders, b)
  {
    var k, slot := |answers|, SlotAt(env, |answers|);
    var j :|
      && 0 <= j < |ds| && ds[j].message.delegate == EnvAt(env, k).ourKey
      && IsPartOf(s1.rows, b, ds[j].message, slot, builders) && Signs(slot, env.builderKeys, env.luck(k)(j));
    forall e | e in b.entries
      ensures Waits(rows, e, slot, ds[j].message.committer)
    {
      var i :| && 0 <= i < |s1.rows| && s1.rows[i].entry == e && !s1.rows[i].processed
               && ServedRow(s1.rows[i], slot, ds[j].message.committer);
      assert rows[i].entry == e && !rows[i].processed;
    }
    assert IsPartOf(rows, b, ds[j].message, slot, builders);
    assert (answers + [ds])[k] == ds;
  }

  lemma OnlyTickBatchesMore(
      env: TickEnv, answers: seq<seq<SignedDelegation>>, ds: seq<SignedDelegation>, rows: Rows, builders: KeyList,
      s: State, s1: State, s2: State)
    requires |answers| < 4 && TickServed(env, answers, rows, builders, s, s1) && Attempts(env, |answers|)
    requires env.readable(|answers|) || ds == []
    requires OnlyOurs(EnvAt(env, |answers|), SlotAt(env, |answers|), ds, s1.rows, builders, s1.relay, s2.relay)
    ensures OnlyTickBatches(env, answers + [ds], rows, builders, s.relay, s2.relay)
  {
    forall k | |s.relay| <= k < |s2.relay|
      ensures IsTickBatch(env, answers + [ds], rows, builders, s2.relay[k])
    {
      if k < |s1.relay| {
        assert s2.relay[k] == s1.relay[k];
        TickBatchLonger(env, answers, ds, rows, builders, s2.relay[k]);
      } else {
        BatchWaited(env, answers, ds, rows, builders, s, s1, s2.relay[k]);
      }
    }
  }

  lemma TickGetsMore(
      env: TickEnv, answers: seq<seq<SignedDelegation>>, ds: seq<SignedDelegation>, rows: Rows, builders: KeyList,
      s: State, s1: State, s2: State)
    requires |answers| < 4 && TickServed(env, answers, rows, builders, s, s1) && Attempts(env, |answers|)
    requires env.readable(|answers|) || ds == []
    requires SlotGets(env, |answers|, ds, s1.rows, builders, s1.relay, s2.relay)
    ensures TickGets(env, answers + [ds], rows, builders, s.relay, s2.relay)
  {
    assert (answers + [ds])[..|answers|] == answers;
  }

  lemma TickStep(
      env: TickEnv, answers: seq<seq<SignedDelegation>>, ds: seq<SignedDelegation>, rows: Rows, builders: KeyList,
      s: State, s1: State, s2: State)
    requires |answers| < 4 && TickServed(env, answers, rows, builders, s, s1) && Attempts(env, |answers|)
    requires env.readable(|answers|) || ds == []
    requires SlotServed(EnvAt(env, |answers|), SlotAt(env, |answers|), ds, |ds|, s1.rows, builders, s1, s2)
    ensures TickServed(env, answers + [ds], rows, builders, s, s2)
  {
    forall i | 0 <= i < |rows|
      ensures s2.rows[i].processed <==> rows[i].processed || TickServes(env, answers + [ds], rows[i])
    {
      TickServesMore(env, answers, ds, rows[i]);
    }
    SentAlso(env, answers, ds, rows, builders, s, s1, s2);
    OnlyTickBatchesMore(env, answers, ds, rows, builders, s, s1, s2);
    TickGetsMore(env, answers, ds, rows, builders, s, s1, s2);
    forall k | 0 <= k < |answers + [ds]|
      ensures SentAt(env, k, (answers + [ds])[k], rows, s.relay, s2.relay)
    {
      if k < |answers| {
        SentStill(env, answers, rows, builders, s, s1, s2, k);
      }
    }
  }

  lemma TickSkip(
      env: TickEnv, answers: seq<seq<SignedDelegation>>, rows: Rows, builders: KeyList, s: State, s1: State)
    requires |answers| < 4 && TickServed(env, answers, rows, builders, s, s1) && !Attempts(env, |answers|)
    ensures TickServed(env, answers + [[]], rows, builders, s, s1)
  {
    forall i | 0 <= i < |rows|
      ensures TickServes(env, answers + [[]], rows[i]) <==> TickServes(env, answers, rows[i])
    {
      TickServesMore(env, answers, [], rows[i]);
    }
    forall k | |s.relay| <= k < |s1.relay|
      ensures IsTickBatch(env, answers + [[]], rows, builders, s1.relay[k])
    {
      TickBatchLonger(env, answers, [], rows, builders, s1.relay[k]);
    }
    assert (answers + [[]])[..|answers|] == answers;
  }

  lemma TickKeepsUnique(
      env: TickEnv, answers: seq<seq<SignedDelegation>>, rows: Rows, builders: KeyList, s: State, s1: State)
    requires |answers| <= 4 && TickServed(env, answers, rows, builders, s, s1) && UniqueHashes(rows)
    ensures UniqueHashes(s1.rows)
  {
  }

  /** The answers of the SELECTs of the slots that are read. */
  ghost predicate AreAnswers(env: TickEnv, table: D.Table, answers: seq<seq<SignedDelegation>>)
    requires |answers| <= 4
  {
    forall k :: 0 <= k < |answers| && Reads(env, k) ==> D.IsAnswer(table, SlotAt(env, k), answers[k])
  }

  lemma AnswersMore(env: TickEnv, table: D.Table, answers: seq<seq<SignedDelegation>>, ds: seq<SignedDelegation>)
    requires |answers| < 4 && AreAnswers(env, table, answers)
    requires Reads(env, |answers|) ==> D.IsAnswer(table, SlotAt(env, |answers|), ds)
    ensures AreAnswers(env, table, answers + [ds])
  {
  }

  /** The k-th slot of a tick, if the clock still allows it. */
  method ProcessSlotAt(
      store: CommitmentStore, delegations: D.DelegationStore, env: TickEnv, k: nat, ghost builders: KeyList,
      ghost s: State, ghost s1: State, ghost t: nat, ghost rows: Rows, ghost answers: seq<seq<SignedDelegation>>)
    returns (attempts: bool, ghost last: seq<Action>, ghost ds: seq<SignedDelegation>)
    requires k < 4 && Idle(s1, t)
    requires s1.rows == store.rows && UniqueHashes(rows) && |rows| <= 0x7FFF_FFFF_FFFF_FFFF
    requires ParseAuthorizedBuilders(env.builderKeys).Some?
         ==> builders == ParseAuthorizedBuilders(env.builderKeys).value
    requires |answers| == k && TickServed(env, answers, rows, builders, s, s1)
    modifies store
    ensures attempts == Attempts(env, k)
    ensures Reads(env, k) ==> D.IsAnswer(delegations.table, SlotAt(env, k), ds)
    ensures OnlyOf(t, last)
    ensures var s2 := Run(s1, builders, last);
      s2.rows == store.rows && Idle(s2, t) && TickServed(env, answers + [ds], rows, builders, s, s2)
  {
    attempts, last, ds := Attempts(env, k), [], [];
    if !attempts {
      TickSkip(env, answers, rows, builders, s, s1);
      return;
    }
    TickKeepsUnique(env, answers, rows, builders, s, s1);
    var ok;
    ok, last, ds := ProcessConstraintsForSlot(
      store, delegations, SlotAt(env, k), EnvAt(env, k), env.readable(k), builders, s1, t);
    TickStep(env, answers, ds, rows, builders, s, s1, Run(s1, builders, last));
  }

  /** A whole tick: the slots it attempts are those of the clock, an error in one does not stop the next,
      and exactly the rows it serves become processed. Its steps are a run of the pipeline in which
      only this tick moves. */
  method ProcessPendingConstraints(
      store: CommitmentStore, delegations: D.DelegationStore, env: TickEnv,
      ghost builders: KeyList, ghost s: State, ghost t: nat)
    returns (attempted: seq<u64>, ghost trace: seq<Action>, ghost answers: seq<seq<SignedDelegation>>)
    requires Idle(s, t)
    requires s.rows == store.rows && UniqueHashes(store.rows) && |store.rows| <= 0x7FFF_FFFF_FFFF_FFFF
    requires ParseAuthorizedBuilders(env.builderKeys).Some?
         ==> builders == ParseAuthorizedBuilders(env.builderKeys).value
    modifies store
    ensures attempted == SlotClock.AttemptedUpTo(env.genesis, env.clock, 4)
    ensures |answers| == 4 && AreAnswers(env, delegations.table, answers)
    ensures OnlyOf(t, trace)
    ensures var s' := Run(s, builders, trace);
      s'.rows == store.rows && Idle(s', t) && TickServed(env, answers, old(store.rows), builders, s, s')
  {
    attempted, trace, answers := ProcessSlots(store, delegations, env, 4, builders, s, t);
  }

  /** The first slots of a tick, one after the other. */
  method ProcessSlots(
      store: CommitmentStore, delegations: D.DelegationStore, env: TickEnv, count: nat,
      ghost builders: KeyList, ghost s: State, ghost t: nat)
    returns (attempted: seq<u64>, ghost trace: seq<Action>, ghost answers: seq<seq<SignedDelegation>>)
    requires count <= 4 && Idle(s, t)
    requires s.rows == store.rows && UniqueHashes(store.rows) && |store.rows| <= 0x7FFF_FFFF_FFFF_FFFF
    requires ParseAuthorizedBuilders(env.builderKeys).Some?
         ==> builders == ParseAuthorizedBuilders(env.builderKeys).value
    modifies store
    ensures attempted == SlotClock.AttemptedUpTo(env.genesis, env.clock, count)
    ensures |answers| == count && AreAnswers(env, delegations.table, answers)
    ensures OnlyOf(t, trace)
    ensures var s' := Run(s, builders, trace);
      s'.rows == store.rows && Idle(s', t) && TickServed(env, answers, old(store.rows), builders, s, s')
  {
    attempted, trace, answers := [], [], [];
    TickBegins(env, builders, s);
    ghost var s1 := s;
    for i := 0 to count
      invariant attempted == SlotClock.AttemptedUpTo(env.genesis, env.clock, i)
      invariant |answers| == i && AreAnswers(env, delegations.table, answers)
      invariant OnlyOf(t, trace) && s1 == Run(s, builders, trace) && s1.rows == store.rows && Idle(s1, t)
      invariant TickServed(env, answers, old(store.rows), builders, s, s1)
    {
      var attempts, last, ds := ProcessSlotAt(
        store, delegations, env, i, builders, s, s1, t, old(store.rows), answers);
      Joined(s, builders, t, trace, last);
      AnswersMore(env, delegations.table, answers, ds);
      trace := trace + last;
      answers := answers + [ds];
      s1 := Run(s1, builders, last);
      if attempts {
        attempted := attempted + [SlotAt(env, i)];
      }
    }
  }

  lemma TickBegins(env: TickEnv, builders: KeyList, s: State)
    ensures TickServed(env, [], s.rows, builders, s, s)
  {
  }
}
