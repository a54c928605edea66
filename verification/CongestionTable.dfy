/** The `slot_congestion` table (migrations/006_create_slot_congestion_table.sql) and the two
    statements that change it. Columns are BIGINT, so every u64 is stored as the i64 with the same bits. */
module CongestionTable {
  import opened Machine
  import opened Pricing

  datatype SlotRow = SlotRow(
    preconfirmedGas: i64, totalGasLimit: i64, gasUsedRatio: real,
    baseGasPrice: i64, feeMultiplier: real, currentTxPrice: i64)

  type Table = map<i64, SlotRow>

  function Store(c: Congestion): SlotRow {
    SlotRow(AsI64(c.preconfirmedGas), AsI64(c.totalGasLimit), c.gasUsedRatio,
            AsI64(c.baseGasPrice), c.feeMultiplier, AsI64(c.currentTxPrice))
  }

  function Load(key: i64, row: SlotRow): Congestion {
    Congestion(AsU64(key), AsU64(row.preconfirmedGas), AsU64(row.totalGasLimit), row.gasUsedRatio,
               AsU64(row.baseGasPrice), row.feeMultiplier, AsU64(row.currentTxPrice))
  }

  /** Nothing is lost by the signed columns, each of which holds its own field. */
  lemma LoadStored(c: Congestion)
    ensures Load(AsI64(c.slot), Store(c)) == c
    ensures var row := Store(c);
      && AsU64(row.preconfirmedGas) == c.preconfirmedGas && AsU64(row.totalGasLimit) == c.totalGasLimit
      && AsU64(row.baseGasPrice) == c.baseGasPrice && AsU64(row.currentTxPrice) == c.currentTxPrice
      && row.gasUsedRatio == c.gasUsedRatio && row.feeMultiplier == c.feeMultiplier
  {
  }

  /** The record of a slot, if it has one. */
  function Get(table: Table, slot: u64): Option<Congestion> {
    if AsI64(slot) in table then Some(Load(AsI64(slot), table[AsI64(slot)])) else None
  }

  /** `INSERT .. ON CONFLICT (slot) DO NOTHING` of a fresh record. */
  function Create(table: Table, slot: u64, base: u64, limit: u64): Table {
    if AsI64(slot) in table then table else table[AsI64(slot) := Store(NewCongestion(slot, base, limit))]
  }

  /** The locked read-modify-write; without a row nothing happens. */
  function Update(table: Table, slot: u64, gas: u64, power: Exponent): Table {
    match Get(table, slot)
    case None => table
    case Some(c) => table[AsI64(slot) := Store(AddGas(power, c, gas))]
  }

  lemma GetAfterCreate(table: Table, slot: u64, base: u64, limit: u64, other: u64)
    ensures Get(Create(table, slot, base, limit), other)
         == if other == slot && Get(table, slot).None? then Some(NewCongestion(slot, base, limit))
            else Get(table, other)
  {
    LoadStored(NewCongestion(slot, base, limit));
  }

  lemma GetAfterUpdate(table: Table, slot: u64, gas: u64, power: Exponent, other: u64)
    ensures Get(Update(table, slot, gas, power), other)
         == if other == slot && Get(table, slot).Some? then Some(AddGas(power, Get(table, slot).value, gas))
            else Get(table, other)
  {
    if Get(table, slot).Some? {
      LoadStored(AddGas(power, Get(table, slot).value, gas));
    }
  }

  class CongestionStore {
    var table: Table

    constructor ()
      ensures table == map[]
    {
      table := map[];
    }

    /** `representable` says which second counts the database's timestamps can hold. */
    method GetOrCreate(slot: u64, base: u64, limit: u64, genesisTime: u64, representable: i64 -> bool)
      returns (c: Option<Congestion>)
      modifies this
      ensures var start := SaturatingAdd(genesisTime, SaturatingMul(slot, 12));
        if representable(AsI64(start))
        then table == Create(old(table), slot, base, limit) && c == Get(table, slot) && c.Some?
        else table == old(table) && c == None
    {
      var start := SaturatingAdd(genesisTime, SaturatingMul(slot, 12));
      var congestion := new SlotCongestion.New(slot, base, limit);
      if !representable(AsI64(start)) {
        return None;
      }
      GetAfterCreate(table, slot, base, limit, slot);
      var key := AsI64(slot);
      if key !in table {
        table := table[key := Store(congestion.Value())];
        return Some(congestion.Value());
      }
      c := Get(table, slot);
    }

    method UpdateGasUsage(slot: u64, additional: u64, power: Exponent) returns (updated: Option<Congestion>)
      modifies this
      ensures table == Update(old(table), slot, additional, power)
      ensures updated == if AsI64(slot) in old(table) then Get(table, slot) else None
    {
      var row := Get(table, slot);
      if row.None? {
        return None;
      }
      GetAfterUpdate(table, slot, additional, power, slot);
      var congestion := new SlotCongestion.FromValue(row.value);
      congestion.AddGasUsage(additional, power);
      table := table[AsI64(slot) := Store(congestion.Value())];
      updated := Some(congestion.Value());
    }
  }

  // ---- Runs ----

  datatype Statement =
    | Creating(slot: u64, base: u64, limit: u64)
    | Updating(slot: u64, gas: u64)

  function Execute(table: Table, s: Statement, power: Exponent): Table {
    match s
    case Creating(slot, base, limit) => Create(table, slot, base, limit)
    case Updating(slot, gas) => Update(table, slot, gas, power)
  }

  /** Any interleaving of the statements of any number of clients. */
  function Run(table: Table, statements: seq<Statement>, power: Exponent): Table
    decreases |statements|
  {
    if statements == [] then table
    else Run(Execute(table, statements[0], power), statements[1..], power)
  }

  ghost predicate AllPriced(table: Table, power: Exponent) {
    forall slot: u64 :: Get(table, slot).Some? ==> Priced(power, Get(table, slot).value)
  }

  lemma StepGrows(table: Table, s: Statement, power: Exponent, slot: u64)
    requires AllPriced(table, power)
    ensures AllPriced(Execute(table, s, power), power)
    ensures Get(table, slot).Some? ==> Get(Execute(table, s, power), slot).Some?
    ensures Get(table, slot).Some? ==> Grown(Get(table, slot).value, Get(Execute(table, s, power), slot).value)
  {
    forall other: u64
      ensures Get(Execute(table, s, power), other).Some? ==> Priced(power, Get(Execute(table, s, power), other).value)
      ensures Get(table, other).Some? ==> Get(Execute(table, s, power), other).Some?
      ensures Get(table, other).Some? ==> Grown(Get(table, other).value, Get(Execute(table, s, power), other).value)
    {
      match s
      case Creating(slot', base, limit) =>
        GetAfterCreate(table, slot', base, limit, other);
      case Updating(slot', gas) =>
        GetAfterUpdate(table, slot', gas, power, other);
        if Get(table, slot').Some? {
          AddGasGrows(power, Get(table, slot').value, gas);
        }
    }
  }

  /** Over every run a slot's price never falls, its base and limit stay those of its first
      insert, and the price stays between the base and a hundred times the base. */
  lemma {:induction false} PriceNeverFalls(table: Table, statements: seq<Statement>, power: Exponent, slot: u64)
    requires AllPriced(table, power)
    ensures AllPriced(Run(table, statements, power), power)
    ensures Get(table, slot).Some? ==>
      var after := Get(Run(table, statements, power), slot);
      && after.Some?
      && Grown(Get(table, slot).value, after.value)
      && after.value.baseGasPrice <= after.value.currentTxPrice <= SaturatingMul(after.value.baseGasPrice, 100)
    decreases |statements|
  {
    if statements == [] {
      if Get(table, slot).Some? {
        PricedBounds(power, Get(table, slot).value);
      }
    } else {
      StepGrows(table, statements[0], power, slot);
      PriceNeverFalls(Execute(table, statements[0], power), statements[1..], power, slot);
    }
  }

  function GasOf(s: Statement, slot: u64): u64 {
    if s.Updating? && s.slot == slot then s.gas else 0
  }

  /** The gas of all updates of one slot. */
  function UpdatedGas(statements: seq<Statement>, slot: u64): nat {
    if statements == [] then 0 else GasOf(statements[0], slot) + UpdatedGas(statements[1..], slot)
  }

  function Capped(n: nat): u64 {
    if n <= U64_MAX then n else U64_MAX
  }

  ghost predicate HasGas(table: Table, slot: u64, gas: u64) {
    Get(table, slot).Some? && Get(table, slot).value.preconfirmedGas == gas
  }

  lemma StepGas(table: Table, s: Statement, power: Exponent, slot: u64, gas: u64)
    requires HasGas(table, slot, gas)
    ensures HasGas(Execute(table, s, power), slot, Capped(gas + GasOf(s, slot)))
  {
    match s
    case Creating(slot', base, limit) =>
      GetAfterCreate(table, slot', base, limit, slot);
    case Updating(slot', _) =>
      GetAfterUpdate(table, slot', s.gas, power, slot);
  }

  /** No update is lost: the gas of a slot is the sum of all updates, capped. */
  lemma {:induction false} GasIsConserved(
      table: Table, statements: seq<Statement>, power: Exponent, slot: u64, gas: u64)
    requires HasGas(table, slot, gas)
    ensures HasGas(Run(table, statements, power), slot, Capped(gas + UpdatedGas(statements, slot)))
    decreases |statements|
  {
    if statements != [] {
      var next, sum := Execute(table, statements[0], power), Capped(gas + GasOf(statements[0], slot));
      StepGas(table, statements[0], power, slot, gas);
      GasIsConserved(next, statements[1..], power, slot, sum);
      assert Capped(sum + UpdatedGas(statements[1..], slot)) == Capped(gas + UpdatedGas(statements, slot));
    }
  }

  lemma {:induction false} UpdatedGasAppend(a: seq<Statement>, b: seq<Statement>, slot: u64)
    ensures UpdatedGas(a + b, slot) == UpdatedGas(a, slot) + UpdatedGas(b, slot)
  {
    if a == [] {
      assert a + b == b;
    } else {
      assert (a + b)[1..] == a[1..] + b;
      UpdatedGasAppend(a[1..], b, slot);
    }
  }

  lemma UpdatedGasWithout(b: seq<Statement>, i: nat, slot: u64)
    requires i < |b|
    ensures multiset(b) == multiset{b[i]} + multiset(b[..i] + b[i + 1..])
    ensures UpdatedGas(b, slot) == GasOf(b[i], slot) + UpdatedGas(b[..i] + b[i + 1..], slot)
  {
    assert b == b[..i] + b[i..] && b[i..][1..] == b[i + 1..];
    assert b == b[..i] + [b[i]] + b[i + 1..];
    UpdatedGasAppend(b[..i], b[i..], slot);
    UpdatedGasAppend(b[..i], b[i + 1..], slot);
  }

  /** Two runs of the same statements in different orders leave the same gas. */
  lemma {:induction false} UpdatedGasUnordered(a: seq<Statement>, b: seq<Statement>, slot: u64)
    requires multiset(a) == multiset(b)
    ensures UpdatedGas(a, slot) == UpdatedGas(b, slot)
  {
    if a == [] {
      assert |b| == |multiset(b)| == 0;
    } else {
      assert a[0] in multiset(b);
      var i :| 0 <= i < |b| && b[i] == a[0];
      var others := b[..i] + b[i + 1..];
      UpdatedGasWithout(b, i, slot);
      assert a == [a[0]] + a[1..];
      MultisetTail(a[0], a[1..], others);
      UpdatedGasUnordered(a[1..], others, slot);
    }
  }

  lemma MultisetTail(s: Statement, a: seq<Statement>, b: seq<Statement>)
    requires multiset{s} + multiset(a) == multiset{s} + multiset(b)
    ensures multiset(a) == multiset(b)
  {
    assert multiset(a) == multiset{s} + multiset(a) - multiset{s};
    assert multiset(b) == multiset{s} + multiset(b) - multiset{s};
  }

  /** A quote holds against every interleaving: the price finally stored for the quoted gas is at
      least the quoted one. */
  lemma QuoteHoldsInEveryRun(
      table: Table, statements: seq<Statement>, power: Exponent, slot: u64, gas: u64, low: real, high: real)
    requires AllPriced(table, power) && Get(table, slot).Some?
    requires var c := Get(table, slot).value;
      NeverRaises(power, gas, c.totalGasLimit, c.baseGasPrice, low, high)
    ensures var later := Update(Run(table, statements, power), slot, gas, power);
      && Get(later, slot).Some?
      && Project(power, Get(table, slot).value, gas, low, high).currentTxPrice <= Get(later, slot).value.currentTxPrice
  {
    PriceNeverFalls(table, statements, power, slot);
    var before := Run(table, statements, power);
    GetAfterUpdate(before, slot, gas, power, slot);
    QuoteAtMostLaterPrice(power, Get(table, slot).value, Get(before, slot).value, gas, low, high);
  }
}
