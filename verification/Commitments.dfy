/** The `commitments` table (migrations 001, 002 and 009) and its statements (src/db/operations.rs). */
module Commitments {
  import opened Machine
  import opened Types
  import Address
  import opened Payload

  /** The columns that never change after the insert. */
  datatype Entry = Entry(id: nat, signed: SignedCommitment, slotNumber: Option<i64>, createdAt: int)

  datatype Row = Row(entry: Entry, processed: bool)

  /** The rows in the order in which their inserts took effect. */
  type Rows = seq<Row>

  function HashOf(e: Entry): string {
    e.signed.commitment.requestHash
  }

  ghost predicate UniqueHashes(rows: Rows) {
    forall i, j :: 0 <= i < j < |rows| ==> HashOf(rows[i].entry) != HashOf(rows[j].entry)
  }

  /** The CHECK constraints of the table. */
  predicate Acceptable(signed: SignedCommitment) {
    && 0 < signed.commitment.commitmentType < 0x8000_0000_0000_0000
    && Address.MatchesHexColumn(signed.commitment.requestHash, 64)
    && Address.MatchesHexColumn(signed.commitment.slasher, 40)
    && Address.MatchesHexColumn(signed.signature, 130)
  }

  /** The slot column: NULL when no slot can be extracted or it exceeds a BIGINT. */
  function SlotColumn(json: Json, commitment: Commitment): Option<i64> {
    var slot :- ExtractSlot(json, commitment.commitmentType, commitment.payload);
    TryI64(slot)
  }

  predicate Exists(rows: Rows, hash: string) {
    exists i :: 0 <= i < |rows| && HashOf(rows[i].entry) == hash
  }

  function Lookup(rows: Rows, hash: string): Option<SignedCommitment> {
    if rows == [] then None
    else if HashOf(rows[0].entry) == hash then Some(rows[0].entry.signed)
    else Lookup(rows[1..], hash)
  }

  datatype Saved = Inserted | Duplicate | Refused

  function SaveOutcome(rows: Rows, signed: SignedCommitment): Saved {
    if !Acceptable(signed) then Refused
    else if Exists(rows, signed.commitment.requestHash) then Duplicate
    else Inserted
  }

  /** `INSERT .. ON CONFLICT (request_hash) DO NOTHING`. */
  function Insert(rows: Rows, e: Entry): Rows {
    if SaveOutcome(rows, e.signed) == Inserted then rows + [Row(e, false)] else rows
  }

  predicate Pending(row: Row, slot: i64) {
    !row.processed && row.entry.slotNumber == Some(slot)
  }

  function PendingEntries(rows: Rows, slot: i64): seq<Entry> {
    if rows == [] then []
    else
      var last := rows[|rows| - 1];
      PendingEntries(rows[..|rows| - 1], slot) + (if Pending(last, slot) then [last.entry] else [])
  }

  ghost predicate SortedByTime(es: seq<Entry>) {
    forall i, j :: 0 <= i < j < |es| ==> es[i].createdAt <= es[j].createdAt
  }

  /** What `SELECT .. WHERE slot_number = slot AND NOT constraint_processed ORDER BY created_at` may
      return: the order of equal timestamps is the database's choice. */
  ghost predicate IsSelection(rows: Rows, slot: i64, selected: seq<Entry>) {
    && multiset(selected) == multiset(PendingEntries(rows, slot))
    && SortedByTime(selected)
  }

  /** `UPDATE .. SET constraint_processed = TRUE WHERE request_hash = ANY(hashes)`. */
  function Mark(rows: Rows, hashes: seq<string>): (marked: Rows)
    ensures |marked| == |rows|
    ensures forall i :: 0 <= i < |rows| ==> marked[i].entry == rows[i].entry
    ensures forall i :: 0 <= i < |rows| ==>
              (marked[i].processed <==> rows[i].processed || HashOf(rows[i].entry) in hashes)
  {
    if rows == [] then []
    else [Row(rows[0].entry, rows[0].processed || HashOf(rows[0].entry) in hashes)] + Mark(rows[1..], hashes)
  }

  // ---- The statements, column by column ----

  lemma ChecksExactly(signed: SignedCommitment)
    ensures Acceptable(signed)
       <==> && AsI64(signed.commitment.commitmentType) > 0
            && Address.MatchesHexColumn(signed.commitment.requestHash, 64)
            && Address.MatchesHexColumn(signed.commitment.slasher, 40)
            && Address.MatchesHexColumn(signed.signature, 130)
  {
  }

  /** An insert adds its row, not processed, exactly when the CHECKs hold and no row has the hash; a CHECK
      that fails is an error even then. */
  lemma InsertsExactly(rows: Rows, e: Entry)
    ensures var isNew := forall i :: 0 <= i < |rows| ==>
                           rows[i].entry.signed.commitment.requestHash != e.signed.commitment.requestHash;
      && Insert(rows, e) == (if Acceptable(e.signed) && isNew then rows + [Row(e, false)] else rows)
      && (SaveOutcome(rows, e.signed) == Refused <==> !Acceptable(e.signed))
      && (SaveOutcome(rows, e.signed) == Inserted <==> Acceptable(e.signed) && isNew)
  {
  }

  /** The column holds the payload's slot, or NULL when there is none or it exceeds a BIGINT. */
  lemma SlotColumnExactly(json: Json, c: Commitment, k: i64)
    ensures SlotColumn(json, c) == Some(k) <==> k >= 0 && ExtractSlot(json, c.commitmentType, c.payload) == Some(k)
  {
  }

  /** An update marks exactly the rows with one of the request hashes. */
  lemma MarksExactly(rows: Rows, hashes: seq<string>, i: nat)
    requires i < |rows|
    ensures |Mark(rows, hashes)| == |rows| && Mark(rows, hashes)[i].entry == rows[i].entry
    ensures Mark(rows, hashes)[i].processed
       <==> rows[i].processed || rows[i].entry.signed.commitment.requestHash in hashes
  {
  }

  // ---- Facts about the statements ----

  lemma {:induction false} LookupFinds(rows: Rows, hash: string, i: nat)
    requires UniqueHashes(rows)
    requires i < |rows| && HashOf(rows[i].entry) == hash
    ensures Lookup(rows, hash) == Some(rows[i].entry.signed)
  {
    if i > 0 {
      assert forall j :: 0 < j < |rows| ==> rows[j] == rows[1..][j - 1];
      LookupFinds(rows[1..], hash, i - 1);
    }
  }

  lemma {:induction false} LookupExists(rows: Rows, hash: string)
    ensures Lookup(rows, hash).Some? <==> Exists(rows, hash)
  {
    if rows != [] && HashOf(rows[0].entry) != hash {
      LookupExists(rows[1..], hash);
      assert Exists(rows[1..], hash) ==> Exists(rows, hash) by {
        if Exists(rows[1..], hash) {
          var i :| 0 <= i < |rows[1..]| && HashOf(rows[1..][i].entry) == hash;
          assert rows[i + 1] == rows[1..][i];
        }
      }
      assert Exists(rows, hash) ==> Exists(rows[1..], hash) by {
        if Exists(rows, hash) {
          var i :| 0 <= i < |rows| && HashOf(rows[i].entry) == hash;
          assert rows[i] == rows[1..][i - 1];
        }
      }
    }
  }

  lemma {:induction false} InPending(rows: Rows, slot: i64, e: Entry)
    ensures e in PendingEntries(rows, slot)
       <==> exists i :: 0 <= i < |rows| && rows[i].entry == e && Pending(rows[i], slot)
  {
    if rows != [] {
      var init := rows[..|rows| - 1];
      InPending(init, slot, e);
      if i :| 0 <= i < |rows| && rows[i].entry == e && Pending(rows[i], slot) {
        assert i < |init| ==> init[i] == rows[i];
      }
      if i :| 0 <= i < |init| && init[i].entry == e && Pending(init[i], slot) {
        assert rows[i] == init[i];
      }
    }
  }

  lemma {:induction false} PendingDistinct(rows: Rows, slot: i64, e: Entry)
    requires UniqueHashes(rows)
    ensures multiset(PendingEntries(rows, slot))[e] <= 1
  {
    if rows != [] {
      var init, last := rows[..|rows| - 1], rows[|rows| - 1];
      PendingDistinct(init, slot, e);
      if Pending(last, slot) && e == last.entry {
        InPending(init, slot, e);
        assert forall i :: 0 <= i < |init| ==> HashOf(rows[i].entry) != HashOf(last.entry);
        assert e !in PendingEntries(init, slot);
      }
    }
  }

  /** A selection holds exactly the unprocessed rows of the slot, oldest first. */
  lemma SelectionMembers(rows: Rows, slot: i64, selected: seq<Entry>, e: Entry)
    requires IsSelection(rows, slot, selected)
    ensures e in selected
       <==> exists i :: 0 <= i < |rows| && rows[i].entry == e && !rows[i].processed && e.slotNumber == Some(slot)
    ensures forall i, j :: 0 <= i < j < |selected| ==> selected[i].createdAt <= selected[j].createdAt
  {
    InPending(rows, slot, e);
    assert e in selected <==> e in multiset(selected);
    assert e in PendingEntries(rows, slot) <==> e in multiset(PendingEntries(rows, slot));
  }

  lemma SelectionDistinct(rows: Rows, slot: i64, selected: seq<Entry>)
    requires UniqueHashes(rows) && IsSelection(rows, slot, selected)
    ensures forall i, j :: 0 <= i < j < |selected| ==> selected[i] != selected[j]
  {
    forall i, j | 0 <= i < j < |selected|
      ensures selected[i] != selected[j]
    {
      PendingDistinct(rows, slot, selected[i]);
      assert selected == selected[..j] + selected[j..];
    }
  }

  // ---- The store ----

  /** Stable insertion by time. */
  function Place(es: seq<Entry>, e: Entry): seq<Entry> {
    if es == [] || es[|es| - 1].createdAt <= e.createdAt then es + [e]
    else Place(es[..|es| - 1], e) + [es[|es| - 1]]
  }

  lemma {:induction false} PlaceSorted(es: seq<Entry>, e: Entry)
    requires SortedByTime(es)
    ensures multiset(Place(es, e)) == multiset(es) + multiset{e}
    ensures SortedByTime(Place(es, e))
  {
    PlaceMembers(es, e);
    if es != [] && es[|es| - 1].createdAt > e.createdAt {
      var init, last := es[..|es| - 1], es[|es| - 1];
      PlaceSorted(init, e);
      PlaceMembers(init, e);
      var placed := Place(init, e);
      forall i | 0 <= i < |placed|
        ensures placed[i].createdAt <= last.createdAt
      {
        assert placed[i] in placed;
      }
      assert Place(es, e) == placed + [last];
    }
  }

  lemma {:induction false} PlaceMembers(es: seq<Entry>, e: Entry)
    ensures multiset(Place(es, e)) == multiset(es) + multiset{e}
    ensures forall x :: x in Place(es, e) ==> x == e || x in es
  {
    if es != [] && es[|es| - 1].createdAt > e.createdAt {
      PlaceMembers(es[..|es| - 1], e);
      assert es == es[..|es| - 1] + [es[|es| - 1]];
    }
  }

  lemma {:induction false} SortedExists(es: seq<Entry>) returns (sorted: seq<Entry>)
    ensures multiset(sorted) == multiset(es) && SortedByTime(sorted)
  {
    if es == [] {
      sorted := [];
    } else {
      sorted := SortedExists(es[..|es| - 1]);
      PlaceSorted(sorted, es[|es| - 1]);
      sorted := Place(sorted, es[|es| - 1]);
      assert es == es[..|es| - 1] + [es[|es| - 1]];
    }
  }

  lemma {:induction false} PendingLength(rows: Rows, slot: i64)
    ensures |PendingEntries(rows, slot)| <= |rows|
  {
    if rows != [] {
      PendingLength(rows[..|rows| - 1], slot);
    }
  }

  lemma SelectionLength(rows: Rows, slot: i64, selected: seq<Entry>)
    requires IsSelection(rows, slot, selected)
    ensures |selected| <= |rows|
  {
    PendingLength(rows, slot);
    assert |selected| == |multiset(selected)| == |multiset(PendingEntries(rows, slot))|;
  }

  lemma PendingAppend(rows: Rows, row: Row, slot: i64)
    ensures PendingEntries(rows + [row], slot)
         == PendingEntries(rows, slot) + (if Pending(row, slot) then [row.entry] else [])
  {
    assert (rows + [row])[..|rows|] == rows;
  }

  class CommitmentStore {
    var rows: Rows

    constructor ()
      ensures rows == []
    {
      rows := [];
    }

    /** `Some(true)` for a new row, `Some(false)` for a duplicate, `None` for a database error. */
    method SaveCommitment(json: Json, id: nat, signed: SignedCommitment, now: int) returns (saved: Option<bool>)
      modifies this
      ensures rows == Insert(old(rows), Entry(id, signed, SlotColumn(json, signed.commitment), now))
      ensures saved == match SaveOutcome(old(rows), signed)
                       case Inserted => Some(true)
                       case Duplicate => Some(false)
                       case Refused => None
    {
      var slot: Option<i64> := None;
      match ExtractSlot(json, signed.commitment.commitmentType, signed.commitment.payload) {
        case Some(s) => slot := TryI64(s);
        case None =>
      }
      if !Acceptable(signed) {
        return None;
      }
      var known := CommitmentExists(signed.commitment.requestHash);
      if known {
        return Some(false);
      }
      rows := rows + [Row(Entry(id, signed, slot, now), false)];
      return Some(true);
    }

    method CommitmentExists(hash: string) returns (found: bool)
      ensures found <==> Exists(rows, hash)
    {
      found := false;
      for i := 0 to |rows|
        invariant found <==> exists j :: 0 <= j < i && HashOf(rows[j].entry) == hash
      {
        if HashOf(rows[i].entry) == hash {
          found := true;
        }
      }
    }

    method GetCommitmentByHash(hash: string) returns (found: Option<SignedCommitment>)
      ensures found == Lookup(rows, hash)
      ensures found.Some? <==> Exists(rows, hash)
    {
      LookupExists(rows, hash);
      for i := 0 to |rows|
        invariant Lookup(rows, hash) == Lookup(rows[i..], hash)
      {
        if HashOf(rows[i].entry) == hash {
          return Some(rows[i].entry.signed);
        }
        assert rows[i..][1..] == rows[i + 1..];
      }
      return None;
    }

    method GetUnprocessedForSlot(slot: u64) returns (selected: Option<seq<Entry>>)
      ensures selected.Some? <==> TryI64(slot).Some?
      ensures selected.Some? ==> IsSelection(rows, slot, selected.value)
    {
      if TryI64(slot).None? {
        return None;
      }
      var es: seq<Entry> := [];
      for i := 0 to |rows|
        invariant multiset(es) == multiset(PendingEntries(rows[..i], slot))
        invariant SortedByTime(es)
      {
        PendingAppend(rows[..i], rows[i], slot);
        assert rows[..i + 1] == rows[..i] + [rows[i]];
        if Pending(rows[i], slot) {
          PlaceSorted(es, rows[i].entry);
          es := Place(es, rows[i].entry);
        }
      }
      assert rows[..|rows|] == rows;
      return Some(es);
    }

    /** The number of rows the update touched. */
    method MarkProcessed(hashes: seq<string>) returns (touched: nat)
      modifies this
      ensures rows == Mark(old(rows), hashes)
      ensures touched == |Hits(old(rows), |old(rows)|, hashes)|
    {
      var table := rows;
      touched := 0;
      if hashes == [] {
        MarkNothing(table);
        assert Hits(table, |table|, hashes) == {};
        return;
      }
      var marked: Rows := [];
      for i := 0 to |table|
        invariant marked == Mark(table[..i], hashes)
        invariant touched == |Hits(table, i, hashes)|
      {
        MarkAppend(table[..i], table[i], hashes);
        assert table[..i + 1] == table[..i] + [table[i]];
        var hit := HashOf(table[i].entry) in hashes;
        marked := marked + [Row(table[i].entry, table[i].processed || hit)];
        HitsAppend(table, i, hashes);
        touched := touched + (if hit then 1 else 0);
      }
      assert table[..|table|] == table;
      rows := marked;
    }
  }

  /** The first rows an update by hash matches. */
  ghost function Hits(rows: Rows, bound: nat, hashes: seq<string>): set<nat>
    requires bound <= |rows|
  {
    set i: nat | i < bound && HashOf(rows[i].entry) in hashes
  }

  /** What an update counts are the rows with one of the request hashes, processed before or not. */
  lemma HitsExactly(rows: Rows, hashes: seq<string>, i: nat)
    requires i < |rows|
    ensures i in Hits(rows, |rows|, hashes) <==> rows[i].entry.signed.commitment.requestHash in hashes
  {
  }

  lemma HitsAppend(rows: Rows, i: nat, hashes: seq<string>)
    requires i < |rows|
    ensures |Hits(rows, i + 1, hashes)|
         == |Hits(rows, i, hashes)| + (if HashOf(rows[i].entry) in hashes then 1 else 0)
  {
    var before := Hits(rows, i, hashes);
    assert Hits(rows, i + 1, hashes) == if HashOf(rows[i].entry) in hashes then before + {i} else before;
  }

  lemma {:induction false} MarkNothing(rows: Rows)
    ensures Mark(rows, []) == rows
  {
    assert forall i :: 0 <= i < |rows| ==> Mark(rows, [])[i] == rows[i];
  }

  lemma MarkAppend(rows: Rows, row: Row, hashes: seq<string>)
    ensures Mark(rows + [row], hashes)
         == Mark(rows, hashes) + [Row(row.entry, row.processed || HashOf(row.entry) in hashes)]
  {
    var left, right := Mark(rows + [row], hashes), Mark(rows, hashes);
    forall i | 0 <= i < |rows|
      ensures left[i] == right[i]
    {
      assert left[i].entry == right[i].entry && left[i].processed == right[i].processed;
    }
  }
}
