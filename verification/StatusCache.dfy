/** The cache of validator statuses and its lifetime bound (src/services/validator_status_cache.rs). */
module StatusCache {
  import opened Machine
  import opened Types

  /** What the beacon node would have reported of each validator at each time. */
  type History = (PublicKey, int) -> ValidatorInfo

  /** A cached status; the report was made at `asOf`, to a fetch begun at `since`, and stored at `filled`. */
  datatype Entry = Entry(info: ValidatorInfo, asOf: int, since: int, filled: int)

  datatype Lookup =
    | Fetching(key: PublicKey, since: int)
    | Holding(key: PublicKey, info: ValidatorInfo, asOf: int, since: int)
    | Answered(key: PublicKey, answer: Entry, at: int)
    | Failed(key: PublicKey)

  /** Any number of lookups at work on one cache. */
  datatype State = State(now: int, entries: map<PublicKey, Entry>, lookups: map<nat, Lookup>)

  datatype Action =
    | Pass(time: nat)
    | Look(l: nat, key: PublicKey)
    | Report(l: nat, asOf: int)     // the beacon node answers
    | Fill(l: nat)                  // the answer is cached and returned
    | Fail(l: nat)
    | Evict(key: PublicKey)         // the cache may drop an entry at any time

  predicate Live(e: Entry, now: int, ttl: nat) {
    now < e.filled + ttl
  }

  predicate Hit(s: State, ttl: nat, key: PublicKey) {
    key in s.entries && Live(s.entries[key], s.now, ttl)
  }

  function Put(s: State, l: nat, x: Lookup): State {
    s.(lookups := s.lookups[l := x])
  }

  /** A disabled step changes nothing. */
  function Step(history: History, ttl: nat, s: State, a: Action): State {
    match a
    case Pass(time) => s.(now := s.now + time)
    case Look(l, key) =>
      if l in s.lookups then s
      else if Hit(s, ttl, key) then Put(s, l, Answered(key, s.entries[key], s.now))
      else Put(s, l, Fetching(key, s.now))
    case Report(l, asOf) =>
      if l in s.lookups && s.lookups[l].Fetching? && s.lookups[l].since <= asOf <= s.now then
        var x := s.lookups[l];
        Put(s, l, Holding(x.key, history(x.key, asOf), asOf, x.since))
      else s
    case Fill(l) =>
      if l in s.lookups && s.lookups[l].Holding? then
        var x := s.lookups[l];
        var e := Entry(x.info, x.asOf, x.since, s.now);
        Put(s, l, Answered(x.key, e, s.now)).(entries := s.entries[x.key := e])
      else s
    case Fail(l) =>
      if l in s.lookups && s.lookups[l].Fetching? then Put(s, l, Failed(s.lookups[l].key)) else s
    case Evict(key) => s.(entries := s.entries - {key})
  }

  /** A lookup is answered from the cache, at once and with what the cache holds, exactly when an entry for
      the key was stored less than the lifetime ago; else it fetches. */
  lemma LooksExactly(history: History, ttl: nat, s: State, l: nat, key: PublicKey)
    requires l !in s.lookups
    ensures var x := Step(history, ttl, s, Look(l, key)).lookups[l];
      if key in s.entries && s.now - s.entries[key].filled < ttl
      then x == Answered(key, s.entries[key], s.now)
      else x == Fetching(key, s.now)
  {
  }

  /** A fetched answer is what the node reported then; it is returned and cached from now on. */
  lemma FillsExactly(history: History, ttl: nat, s: State, l: nat, asOf: int)
    requires l in s.lookups && s.lookups[l].Fetching? && s.lookups[l].since <= asOf <= s.now
    ensures var x := s.lookups[l];
      var e := Entry(history(x.key, asOf), asOf, x.since, s.now);
      var s' := Step(history, ttl, Step(history, ttl, s, Report(l, asOf)), Fill(l));
      && s'.lookups == s.lookups[l := Answered(x.key, e, s.now)]
      && s'.entries == s.entries[x.key := e] && s'.now == s.now
  {
  }

  function Run(history: History, ttl: nat, s: State, actions: seq<Action>): State
    decreases |actions|
  {
    if actions == [] then s else Run(history, ttl, Step(history, ttl, s, actions[0]), actions[1..])
  }

  function Empty(now: int): State {
    State(now, map[], map[])
  }

  // ---- Bounded staleness ----

  ghost predicate EntryOk(history: History, key: PublicKey, e: Entry, now: int) {
    e.info == history(key, e.asOf) && e.since <= e.asOf <= e.filled <= now
  }

  /** The answer is what the beacon node reported no longer ago than the lifetime plus the fetch
      that filled the entry. */
  ghost predicate Current(history: History, ttl: nat, x: Lookup)
    requires x.Answered?
  {
    && x.answer.info == history(x.key, x.answer.asOf)
    && x.answer.asOf <= x.at
    && x.at - x.answer.asOf <= ttl + (x.answer.filled - x.answer.since)
  }

  ghost predicate LookupOk(history: History, ttl: nat, x: Lookup, now: int) {
    match x
    case Fetching(_, since) => since <= now
    case Holding(key, info, asOf, since) => info == history(key, asOf) && since <= asOf <= now
    case Answered(_, _, _) => Current(history, ttl, x)
    case Failed(_) => true
  }

  ghost predicate Inv(history: History, ttl: nat, s: State) {
    && (forall key :: key in s.entries ==> EntryOk(history, key, s.entries[key], s.now))
    && (forall l :: l in s.lookups ==> LookupOk(history, ttl, s.lookups[l], s.now))
  }

  lemma StepInv(history: History, ttl: nat, s: State, a: Action)
    requires Inv(history, ttl, s)
    ensures Inv(history, ttl, Step(history, ttl, s, a))
  {
  }

  lemma {:induction false} RunInv(history: History, ttl: nat, s: State, actions: seq<Action>)
    requires Inv(history, ttl, s)
    ensures Inv(history, ttl, Run(history, ttl, s, actions))
    decreases |actions|
  {
    if actions != [] {
      StepInv(history, ttl, s, actions[0]);
      RunInv(history, ttl, Step(history, ttl, s, actions[0]), actions[1..]);
    }
  }

  /** For every history of the beacon node and every interleaving of lookups. */
  lemma AnswersAreCurrent(history: History, ttl: nat, start: int, actions: seq<Action>, l: nat)
    requires l in Run(history, ttl, Empty(start), actions).lookups
    requires Run(history, ttl, Empty(start), actions).lookups[l].Answered?
    ensures Current(history, ttl, Run(history, ttl, Empty(start), actions).lookups[l])
  {
    RunInv(history, ttl, Empty(start), actions);
  }

  lemma RunLook(history: History, ttl: nat, s: State, a: Action, b: Action, c: Action, d: Action)
    ensures Run(history, ttl, s, [a, b, c, d])
         == Step(history, ttl, Step(history, ttl, Step(history, ttl, Step(history, ttl, s, a), b), c), d)
  {
    var s1 := Step(history, ttl, s, a);
    var s2 := Step(history, ttl, s1, b);
    var s3 := Step(history, ttl, s2, c);
    assert Run(history, ttl, s, [a, b, c, d]) == Run(history, ttl, s1, [b, c, d]) by {
      assert [a, b, c, d][1..] == [b, c, d];
    }
    assert Run(history, ttl, s1, [b, c, d]) == Run(history, ttl, s2, [c, d]) by {
      assert [b, c, d][1..] == [c, d];
    }
    assert Run(history, ttl, s2, [c, d]) == Run(history, ttl, s3, [d]) by {
      assert [c, d][1..] == [d];
    }
    assert Run(history, ttl, s3, [d]) == Step(history, ttl, s3, d) by {
      assert [d][1..] == [];
    }
  }

  // ---- The cache object ----

  /** What a fetch comes to: how long it takes and, unless it fails, when the node answers. */
  datatype Fetch = Fetch(took: nat, asOf: Option<int>)

  ghost function LookupActions(l: nat, key: PublicKey, f: Fetch): seq<Action> {
    [Look(l, key), Pass(f.took), if f.asOf.Some? then Report(l, f.asOf.value) else Fail(l), Fill(l)]
  }

  class ValidatorStatusCache {
    const ttl: nat
    var entries: map<PublicKey, Entry>

    constructor (ttl: nat)
      ensures this.ttl == ttl && entries == map[]
    {
      this.ttl := ttl;
      entries := map[];
    }

    /** One lookup without interruption, as a run of the state machine. A live entry answers at once;
        a failed fetch leaves the cache as it was. */
    method GetStatus(key: PublicKey, now: int, f: Fetch, history: History, ghost l: nat, ghost s: State)
      returns (status: Option<ValidatorInfo>)
      requires f.asOf.Some? ==> now <= f.asOf.value <= now + f.took
      requires s.entries == entries && s.now == now && l !in s.lookups
      modifies this
      ensures var s' := Run(history, ttl, s, LookupActions(l, key, f));
        && l in s'.lookups
        && (status == match s'.lookups[l]
                      case Answered(_, e, _) => Some(e.info)
                      case _ => None)
        && (status.None? ==> entries == old(entries))
        && s'.entries == entries
    {
      ghost var report := if f.asOf.Some? then Report(l, f.asOf.value) else Fail(l);
      RunLook(history, ttl, s, Look(l, key), Pass(f.took), report, Fill(l));
      if key in entries && Live(entries[key], now, ttl) {
        return Some(entries[key].info);
      }
      match f.asOf {
        case None => return None;
        case Some(asOf) =>
          var info := history(key, asOf);
          entries := entries[key := Entry(info, asOf, now, now + f.took)];
          return Some(info);
      }
    }
  }

  // ---- Batches ----

  /** The results of the lookups that a batch joined, as a map; the first failure is the batch's. */
  method CollectBatch(keys: seq<PublicKey>, results: seq<Option<ValidatorInfo>>)
    returns (statuses: Option<map<PublicKey, ValidatorInfo>>)
    requires |results| == |keys|
    ensures statuses.Some? <==> forall i :: 0 <= i < |results| ==> results[i].Some?
    ensures statuses.Some? ==> forall key :: key in statuses.value <==> key in keys
    ensures statuses.Some? ==>
              forall key :: key in statuses.value ==>
                exists i :: 0 <= i < |keys| && keys[i] == key && results[i] == Some(statuses.value[key])
  {
    if keys == [] {
      return Some(map[]);
    }
    var collected: map<PublicKey, ValidatorInfo> := map[];
    for i := 0 to |keys|
      invariant forall j :: 0 <= j < i ==> results[j].Some?
      invariant forall key :: key in collected <==> key in keys[..i]
      invariant forall key :: key in collected ==>
                  exists j :: 0 <= j < i && keys[j] == key && results[j] == Some(collected[key])
    {
      match results[i] {
        case None => return None;
        case Some(info) => collected := collected[keys[i] := info];
      }
    }
    assert keys[..|keys|] == keys;
    return Some(collected);
  }

  /** A batch whose results are answers of lookups in one run holds a current status for each key. */
  lemma BatchIsCurrent(
      history: History, ttl: nat, start: int, actions: seq<Action>, ls: seq<nat>, keys: seq<PublicKey>,
      results: seq<Option<ValidatorInfo>>, statuses: map<PublicKey, ValidatorInfo>, key: PublicKey)
    returns (l: nat)
    requires |ls| == |keys| == |results|
    requires var s := Run(history, ttl, Empty(start), actions);
      forall i :: 0 <= i < |ls| ==>
        && ls[i] in s.lookups && s.lookups[ls[i]].key == keys[i]
        && (results[i].Some? ==> s.lookups[ls[i]].Answered? && s.lookups[ls[i]].answer.info == results[i].value)
    requires key in statuses
    requires exists i :: 0 <= i < |keys| && keys[i] == key && results[i] == Some(statuses[key])
    ensures var s := Run(history, ttl, Empty(start), actions);
      && l in s.lookups && s.lookups[l].Answered? && s.lookups[l].key == key
      && s.lookups[l].answer.info == statuses[key] && Current(history, ttl, s.lookups[l])
  {
    var i :| 0 <= i < |keys| && keys[i] == key && results[i] == Some(statuses[key]);
    l := ls[i];
    AnswersAreCurrent(history, ttl, start, actions, l);
  }
}
