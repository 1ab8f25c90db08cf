/**
 * The fixed table of Japanese yen denominations (app.js:30-118) and the
 * exchange-down map (app.js:120-130). Asset names, labels, colours and
 * physical sizes are rendering data and are not part of this model; the
 * body mass that the grab controller saves and restores is.
 */
module Denominations {
  import opened Wrappers

  datatype Kind = Bill | Coin

  datatype Denomination = Denomination(value: nat, kind: Kind)

  /** Descending by value: 10000, 5000, 1000 are bills, the rest coins. */
  const Table: seq<Denomination> := [
    Denomination(10000, Bill),
    Denomination(5000, Bill),
    Denomination(1000, Bill),
    Denomination(500, Coin),
    Denomination(100, Coin),
    Denomination(50, Coin),
    Denomination(10, Coin),
    Denomination(5, Coin),
    Denomination(1, Coin)
  ]

  /** EXCHANGE_TARGET_BY_VALUE: the next-smaller denomination value per value. */
  const ExchangeTargets: map<int, nat> := map[
    10000 := 5000,
    5000 := 1000,
    1000 := 500,
    500 := 100,
    100 := 50,
    50 := 10,
    10 := 5,
    5 := 1
  ]

  /** The mass a freshly created body of this kind is given (app.js:542, app.js:572). */
  function SpawnMass(kind: Kind): (m: real)
    ensures m > 0.0
  {
    match kind
    case Bill => 0.026
    case Coin => 0.012
  }

  /** `EXCHANGE_TARGET_BY_VALUE.get(value)`, `undefined` as None. */
  function ExchangeTarget(value: int): (r: Option<nat>)
    ensures r.Some? <==> value in ExchangeTargets
    ensures r.Some? ==> r.value == ExchangeTargets[value]
    ensures r.Some? ==> 0 < r.value < value && value % r.value == 0 && DenominationByValue(r.value).Some?
  {
    if value in ExchangeTargets then
      TargetFacts(value);
      Some(ExchangeTargets[value])
    else None
  }

  /** The table facts about one entry of the exchange map. */
  lemma TargetFacts(value: int)
    requires value in ExchangeTargets
    ensures var next := ExchangeTargets[value];
      0 < next < value && value % next == 0 && DenominationByValue(next).Some?
  {
  }

  /** An entry of `ds` with the given value, the first one; Table's values are distinct. */
  function FindByValue(ds: seq<Denomination>, value: int): (r: Option<Denomination>)
    ensures r.Some? ==> r.value in ds && r.value.value == value
    ensures r.None? ==> forall d :: d in ds ==> d.value != value
  {
    if ds == [] then None
    else if ds[0].value == value then Some(ds[0])
    else FindByValue(ds[1..], value)
  }

  /** `DENOMINATION_BY_VALUE.get(value)`. */
  function DenominationByValue(value: int): (r: Option<Denomination>)
    ensures r.None? ==> forall d :: d in Table ==> d.value != value
    ensures r.Some? ==> r.value in Table && r.value.value == value
  {
    FindByValue(Table, value)
  }

  /** The table is strictly descending and ends in the 1-yen coin, so its values are distinct. */
  lemma TableDescending()
    ensures forall i, j :: 0 <= i < j < |Table| ==> Table[i].value > Table[j].value
    ensures Table[|Table| - 1].value == 1
  {
  }

  /** Every source of the exchange map is a denomination of the table. */
  lemma ExchangeSourcesAreDenominations()
    ensures forall v :: v in ExchangeTargets ==> DenominationByValue(v).Some?
  {
  }

  /** Every target of the exchange map is a denomination of the table. */
  lemma ExchangeTargetsAreDenominations()
    ensures forall v :: v in ExchangeTargets ==> DenominationByValue(ExchangeTargets[v]).Some?
  {
  }

  /** Every exchange target is smaller than its source and divides it exactly. */
  lemma ExchangeTableDivides()
    ensures forall v :: v in ExchangeTargets ==> 0 < ExchangeTargets[v] < v && v % ExchangeTargets[v] == 0
  {
  }

  /** Only the 1-yen coin has no exchange target. */
  lemma OnlyOneYenLacksTarget()
    ensures forall d :: d in Table ==> (ExchangeTarget(d.value).Some? <==> d.value != 1)
  {
  }
}
