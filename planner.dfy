/**
 * The amount planner: parseAmount (app.js:737-807). A yen amount is split
 * greedily over the denomination table, the piece count is bundled so that
 * roughly MaxVisualItems pieces are shown, one queue entry is emitted per
 * bundle, and bills and coins are shuffled separately, bills first.
 *
 * The specification is the function PlanOf; the method ParseAmount follows
 * the source's loops and in-place swaps and is proved to compute PlanOf.
 */
module Planner {
  import opened Denominations
  import FisherYates
  import opened Sequences

  const MaxVisualItems: nat := 480

  /** A JavaScript number as `Number(input)` yields it: finite, or NaN/±Infinity. */
  datatype JsNumber = Finite(r: real) | NonFinite

  datatype DenominationCount = DenominationCount(denomination: Denomination, count: nat)

  /** One piece to spawn: a denomination and the part of the amount it stands for. */
  datatype QueueEntry = QueueEntry(denomination: Denomination, representedValue: nat)

  datatype Plan = Plan(
    original: int,
    itemQueue: seq<QueueEntry>,
    bundleSize: nat,
    denominationCounts: seq<DenominationCount>,
    representedAmount: int)

  /** The input parseAmount accepts: finite and strictly positive. */
  predicate Accepted(raw: JsNumber)
  {
    raw.Finite? && raw.r > 0.0
  }

  /** What parseAmount returns for input it refuses. */
  const Rejected: Plan := Plan(0, [], 1, [], 0)

  function Max(a: int, b: int): int
  {
    if a < b then b else a
  }

  /** `Math.ceil(a / b)` on non-negative integers. */
  function CeilDiv(a: nat, b: nat): nat
    requires b > 0
  {
    if a % b == 0 then a / b else a / b + 1
  }

  /** ceil(a / b) whole groups of b cover a, with less than one group to spare. */
  lemma CeilDivBounds(a: nat, b: nat)
    requires b > 0
    ensures a <= CeilDiv(a, b) * b <= a + b - 1
    ensures CeilDiv(a, b) == 0 <==> a == 0
    ensures b == 1 ==> CeilDiv(a, b) == a
  {
    var q, m := a / b, a % b;
    assert a == q * b + m;
    if m != 0 {
      assert (q + 1) * b == q * b + b;
    }
  }

  /** `Math.max(1, Math.ceil(total / MAX_VISUAL_ITEMS))`. */
  function BundleSize(total: nat): nat
  {
    Max(1, CeilDiv(total, MaxVisualItems))
  }

  predicate PositiveValues(ds: seq<Denomination>)
  {
    forall i :: 0 <= i < |ds| ==> ds[i].value > 0
  }

  lemma TablePositive()
    ensures PositiveValues(Table)
  {
  }

  // ---------------------------------------------------------------- greedy split

  /** Greedy split of `remaining` over `ds`, one row per denomination. */
  function GreedyCounts(remaining: nat, ds: seq<Denomination>): seq<DenominationCount>
    requires PositiveValues(ds)
  {
    if ds == [] then []
    else [DenominationCount(ds[0], remaining / ds[0].value)] + GreedyCounts(remaining % ds[0].value, ds[1..])
  }

  /** What the greedy split leaves over after the last row of `ds`. */
  function GreedyRemainder(remaining: nat, ds: seq<Denomination>): nat
    requires PositiveValues(ds)
  {
    if ds == [] then remaining else GreedyRemainder(remaining % ds[0].value, ds[1..])
  }

  /** Number of pieces the rows describe. */
  function TotalItems(cs: seq<DenominationCount>): nat
  {
    if cs == [] then 0 else TotalItems(cs[..|cs| - 1]) + cs[|cs| - 1].count
  }

  /** Yen value of the rows: the sum of count × value. */
  function CountedValue(cs: seq<DenominationCount>): nat
  {
    if cs == [] then 0
    else CountedValue(cs[..|cs| - 1]) + cs[|cs| - 1].count * cs[|cs| - 1].denomination.value
  }

  lemma {:induction false} CountedValueCons(c: DenominationCount, cs: seq<DenominationCount>)
    ensures CountedValue([c] + cs) == c.count * c.denomination.value + CountedValue(cs)
    decreases |cs|
  {
    if cs != [] {
      var last := cs[|cs| - 1];
      assert ([c] + cs)[..|cs|] == [c] + cs[..|cs| - 1];
      CountedValueCons(c, cs[..|cs| - 1]);
    } else {
      assert ([c] + cs)[..0] == [];
    }
  }

  /** The rows account for the split amount: value of the rows plus what is left over. */
  lemma {:induction false} GreedyAccounts(remaining: nat, ds: seq<Denomination>)
    requires PositiveValues(ds)
    ensures CountedValue(GreedyCounts(remaining, ds)) + GreedyRemainder(remaining, ds) == remaining
    ensures |GreedyCounts(remaining, ds)| == |ds|
    decreases |ds|
  {
    if ds != [] {
      var v := ds[0].value;
      assert remaining == v * (remaining / v) + remaining % v;
      GreedyAccounts(remaining % v, ds[1..]);
      CountedValueCons(DenominationCount(ds[0], remaining / v), GreedyCounts(remaining % v, ds[1..]));
    }
  }

  /** A split whose last denomination is 1 leaves nothing over. */
  lemma {:induction false} GreedyExhausts(remaining: nat, ds: seq<Denomination>)
    requires PositiveValues(ds) && ds != [] && ds[|ds| - 1].value == 1
    ensures GreedyRemainder(remaining, ds) == 0
    decreases |ds|
  {
    if |ds| > 1 {
      GreedyExhausts(remaining % ds[0].value, ds[1..]);
    }
  }

  // ---------------------------------------------------------------- emission

  /** `n` copies of `x`. */
  function Repeat<T>(x: T, n: nat): (r: seq<T>)
    ensures |r| == n
  {
    if n == 0 then [] else Repeat(x, n - 1) + [x]
  }

  /** The entries one row emits: ceil(count / bundle) bundles, none for an empty row. */
  function RowEntries(row: DenominationCount, bundleSize: nat): seq<QueueEntry>
    requires bundleSize > 0
  {
    if row.count == 0 then []
    else Repeat(QueueEntry(row.denomination, row.denomination.value * bundleSize), CeilDiv(row.count, bundleSize))
  }

  /** Entries in the order the emission loop produces them. */
  function Emitted(cs: seq<DenominationCount>, bundleSize: nat): seq<QueueEntry>
    requires bundleSize > 0
  {
    if cs == [] then [] else Emitted(cs[..|cs| - 1], bundleSize) + RowEntries(cs[|cs| - 1], bundleSize)
  }

  /** Number of entries the rows emit. */
  function VisualCount(cs: seq<DenominationCount>, bundleSize: nat): nat
    requires bundleSize > 0
  {
    if cs == [] then 0 else VisualCount(cs[..|cs| - 1], bundleSize) + CeilDiv(cs[|cs| - 1].count, bundleSize)
  }

  function Bills(q: seq<QueueEntry>): seq<QueueEntry>
  {
    if q == [] then []
    else Bills(q[..|q| - 1]) + (if q[|q| - 1].denomination.kind == Bill then [q[|q| - 1]] else [])
  }

  function Coins(q: seq<QueueEntry>): seq<QueueEntry>
  {
    if q == [] then []
    else Coins(q[..|q| - 1]) + (if q[|q| - 1].denomination.kind == Bill then [] else [q[|q| - 1]])
  }

  function SumRepresented(q: seq<QueueEntry>): int
  {
    if q == [] then 0 else SumRepresented(q[..|q| - 1]) + q[|q| - 1].representedValue
  }

  /** Yen value of the entries the rows emit: ceil(count / bundle) × value × bundle per row. */
  function BundledValue(cs: seq<DenominationCount>, bundleSize: nat): nat
    requires bundleSize > 0
  {
    if cs == [] then 0
    else BundledValue(cs[..|cs| - 1], bundleSize) +
         CeilDiv(cs[|cs| - 1].count, bundleSize) * (cs[|cs| - 1].denomination.value * bundleSize)
  }

  lemma {:induction false} SumRepresentedConcat(a: seq<QueueEntry>, b: seq<QueueEntry>)
    ensures SumRepresented(a + b) == SumRepresented(a) + SumRepresented(b)
    decreases |b|
  {
    if b == [] {
      assert a + b == a;
    } else {
      assert (a + b)[..|a + b| - 1] == a + b[..|b| - 1];
      SumRepresentedConcat(a, b[..|b| - 1]);
    }
  }

  lemma {:induction false} SumRepeat(e: QueueEntry, n: nat)
    ensures SumRepresented(Repeat(e, n)) == n * e.representedValue
  {
    if n > 0 {
      assert Repeat(e, n)[..n - 1] == Repeat(e, n - 1);
      SumRepeat(e, n - 1);
    }
  }

  /** Taking one entry out of a sequence removes one copy of it. */
  lemma RemoveOneMultiset(b: seq<QueueEntry>, k: nat)
    requires k < |b|
    ensures multiset(b[..k] + b[k + 1..]) == multiset(b) - multiset{b[k]}
  {
    var left, right := b[..k], b[k + 1..];
    assert b == left + [b[k]] + right;
    calc {
      multiset(b);
      multiset(left + [b[k]]) + multiset(right);
      multiset(left) + multiset{b[k]} + multiset(right);
    }
  }

  /** Taking one entry out of a sequence removes its value from the sum. */
  lemma RemoveOneSum(b: seq<QueueEntry>, k: nat)
    requires k < |b|
    ensures SumRepresented(b) == SumRepresented(b[..k] + b[k + 1..]) + b[k].representedValue
  {
    var left, right := b[..k], b[k + 1..];
    SplitAt(b, k);
    HeadTail(b[k..]);
    assert b[k..][1..] == right;
    SumRepresentedConcat(left, [b[k]] + right);
    SumRepresentedConcat([b[k]], right);
    SumRepresentedConcat(left, right);
    assert SumRepresented([b[k]]) == b[k].representedValue by {
      assert [b[k]][..0] == [];
    }
  }

  /** A reordering of entries represents the same amount. */
  lemma {:induction false} PermutationSum(a: seq<QueueEntry>, b: seq<QueueEntry>)
    requires multiset(a) == multiset(b)
    ensures SumRepresented(a) == SumRepresented(b)
    decreases |a|
  {
    if a == [] {
      assert |multiset(b)| == 0;
    } else {
      var x := a[|a| - 1];
      var rest := a[..|a| - 1];
      assert a == rest + [x];
      assert multiset(rest) == multiset(a) - multiset{x};
      assert x in multiset(b);
      var k :| 0 <= k < |b| && b[k] == x;
      RemoveOneMultiset(b, k);
      RemoveOneSum(b, k);
      PermutationSum(rest, b[..k] + b[k + 1..]);
    }
  }

  /** Splitting by kind loses and invents nothing. */
  lemma {:induction false} BillsCoinsPartition(q: seq<QueueEntry>)
    ensures multiset(Bills(q)) + multiset(Coins(q)) == multiset(q)
  {
    if q != [] {
      assert q == q[..|q| - 1] + [q[|q| - 1]];
      BillsCoinsPartition(q[..|q| - 1]);
    }
  }

  /** Each side of the split holds only its own kind. */
  lemma {:induction false} BillsCoinsKinds(q: seq<QueueEntry>)
    ensures forall e :: e in Bills(q) ==> e.denomination.kind == Bill
    ensures forall e :: e in Coins(q) ==> e.denomination.kind == Coin
  {
    if q != [] {
      BillsCoinsKinds(q[..|q| - 1]);
    }
  }

  /** Emission produces one entry per bundle. */
  lemma {:induction false} EmittedLength(cs: seq<DenominationCount>, bundleSize: nat)
    requires bundleSize > 0
    ensures |Emitted(cs, bundleSize)| == VisualCount(cs, bundleSize)
  {
    if cs != [] {
      EmittedLength(cs[..|cs| - 1], bundleSize);
    }
  }

  /** The emitted entries are worth BundledValue. */
  lemma {:induction false} EmittedSum(cs: seq<DenominationCount>, bundleSize: nat)
    requires bundleSize > 0
    ensures SumRepresented(Emitted(cs, bundleSize)) == BundledValue(cs, bundleSize)
  {
    if cs != [] {
      var last := cs[|cs| - 1];
      EmittedSum(cs[..|cs| - 1], bundleSize);
      SumRepresentedConcat(Emitted(cs[..|cs| - 1], bundleSize), RowEntries(last, bundleSize));
      if last.count > 0 {
        SumRepeat(QueueEntry(last.denomination, last.denomination.value * bundleSize), CeilDiv(last.count, bundleSize));
      } else {
        CeilDivBounds(last.count, bundleSize);
      }
    }
  }

  /** Every emitted entry is one whole bundle of a denomination of its rows. */
  lemma {:induction false} EmittedEntries(cs: seq<DenominationCount>, bundleSize: nat)
    requires bundleSize > 0
    requires forall i :: 0 <= i < |cs| ==> cs[i].denomination in Table
    ensures forall e :: e in Emitted(cs, bundleSize) ==>
      e.denomination in Table && e.representedValue == e.denomination.value * bundleSize
  {
    if cs != [] {
      var last := cs[|cs| - 1];
      EmittedEntries(cs[..|cs| - 1], bundleSize);
      RepeatOnly(QueueEntry(last.denomination, last.denomination.value * bundleSize), CeilDiv(last.count, bundleSize));
    }
  }

  lemma {:induction false} RepeatOnly<T>(x: T, n: nat)
    ensures forall y :: y in Repeat(x, n) ==> y == x
  {
    if n > 0 {
      RepeatOnly(x, n - 1);
    }
  }

  lemma MulLe(x: int, y: int, m: nat)
    requires x <= y
    ensures x * m <= y * m
  {
  }

  /** c ≤ r·b implies c·v ≤ r·(v·b). */
  lemma ScaleBundle(c: nat, r: nat, b: nat, v: nat)
    requires c <= r * b
    ensures c * v <= r * (v * b)
    ensures c == r * b ==> c * v == r * (v * b)
  {
    assert r * (v * b) == (r * b) * v;
  }

  /** Bundling rounds every row up to whole bundles; with bundles of one it is exact. */
  lemma {:induction false} BundledCovers(cs: seq<DenominationCount>, bundleSize: nat)
    requires bundleSize > 0
    ensures BundledValue(cs, bundleSize) >= CountedValue(cs)
    ensures bundleSize == 1 ==> BundledValue(cs, bundleSize) == CountedValue(cs)
  {
    if cs != [] {
      BundledCovers(cs[..|cs| - 1], bundleSize);
      var last := cs[|cs| - 1];
      CeilDivBounds(last.count, bundleSize);
      ScaleBundle(last.count, CeilDiv(last.count, bundleSize), bundleSize, last.denomination.value);
    }
  }

  /** (x + r)·b = x·b + r·b. */
  lemma Distribute(x: nat, r: nat, b: nat)
    ensures (x + r) * b == x * b + r * b
  {
  }

  /** Each row adds less than one extra entry: entries × bundle ≤ pieces + rows × (bundle − 1). */
  lemma {:induction false} VisualCountBound(cs: seq<DenominationCount>, bundleSize: nat)
    requires bundleSize > 0
    ensures VisualCount(cs, bundleSize) * bundleSize <= TotalItems(cs) + |cs| * (bundleSize - 1)
  {
    if cs != [] {
      var prefix := cs[..|cs| - 1];
      VisualCountBound(prefix, bundleSize);
      var r := CeilDiv(cs[|cs| - 1].count, bundleSize);
      CeilDivBounds(cs[|cs| - 1].count, bundleSize);
      Distribute(VisualCount(prefix, bundleSize), r, bundleSize);
      Distribute(|prefix|, 1, bundleSize - 1);
    }
  }

  /** No entry is emitted exactly when there is no piece. */
  lemma {:induction false} VisualCountZero(cs: seq<DenominationCount>, bundleSize: nat)
    requires bundleSize > 0
    ensures VisualCount(cs, bundleSize) == 0 <==> TotalItems(cs) == 0
  {
    if cs != [] {
      VisualCountZero(cs[..|cs| - 1], bundleSize);
      CeilDivBounds(cs[|cs| - 1].count, bundleSize);
    }
  }

  /** Rows of positive denominations are worth nothing exactly when they hold no piece. */
  lemma {:induction false} CountedValueZero(cs: seq<DenominationCount>)
    requires forall i :: 0 <= i < |cs| ==> cs[i].denomination.value > 0
    ensures CountedValue(cs) == 0 <==> TotalItems(cs) == 0
  {
    if cs != [] {
      CountedValueZero(cs[..|cs| - 1]);
    }
  }

  lemma {:induction false} GreedyRows(remaining: nat, ds: seq<Denomination>)
    requires PositiveValues(ds)
    ensures |GreedyCounts(remaining, ds)| == |ds|
    ensures forall i :: 0 <= i < |ds| ==> GreedyCounts(remaining, ds)[i].denomination == ds[i]
    decreases |ds|
  {
    if ds != [] {
      GreedyRows(remaining % ds[0].value, ds[1..]);
    }
  }

  // ---------------------------------------------------------------- the plan

  /** Bills shuffled with the first draws, then coins shuffled with the draws after them. */
  function ShuffledQueue(emitted: seq<QueueEntry>, rng: nat -> FisherYates.Unit): seq<QueueEntry>
  {
    var bills := Bills(emitted);
    var coins := Coins(emitted);
    FisherYates.Shuffled(bills, |bills| - 1, rng, 0) +
    FisherYates.Shuffled(coins, |coins| - 1, rng, FisherYates.DrawsFor(|bills|))
  }

  /** The shuffled queue is a reordering of the emitted entries. */
  lemma ShuffledQueuePermutes(emitted: seq<QueueEntry>, rng: nat -> FisherYates.Unit)
    ensures multiset(ShuffledQueue(emitted, rng)) == multiset(emitted)
  {
    var bills, coins := Bills(emitted), Coins(emitted);
    FisherYates.ShuffledPermutes(bills, |bills| - 1, rng, 0);
    FisherYates.ShuffledPermutes(coins, |coins| - 1, rng, FisherYates.DrawsFor(|bills|));
    BillsCoinsPartition(emitted);
  }

  /** All bills followed by all coins: position decides the kind. */
  lemma KindSplit(bills: seq<QueueEntry>, coins: seq<QueueEntry>)
    requires forall x :: x in bills ==> x.denomination.kind == Bill
    requires forall x :: x in coins ==> x.denomination.kind == Coin
    ensures forall i :: 0 <= i < |bills + coins| ==>
      ((bills + coins)[i].denomination.kind == Bill <==> i < |bills|)
  {
    forall i | 0 <= i < |bills + coins|
      ensures (bills + coins)[i].denomination.kind == Bill <==> i < |bills|
    {
      if i < |bills| {
        assert (bills + coins)[i] == bills[i];
      } else {
        assert (bills + coins)[i] == coins[i - |bills|];
      }
    }
  }

  /** In the shuffled queue every bill comes before every coin. */
  lemma ShuffledQueueBillsFirst(emitted: seq<QueueEntry>, rng: nat -> FisherYates.Unit)
    ensures forall i :: 0 <= i < |ShuffledQueue(emitted, rng)| ==>
      (ShuffledQueue(emitted, rng)[i].denomination.kind == Bill <==> i < |Bills(emitted)|)
  {
    var bills, coins := Bills(emitted), Coins(emitted);
    FisherYates.ShuffledMembers(bills, |bills| - 1, rng, 0);
    FisherYates.ShuffledMembers(coins, |coins| - 1, rng, FisherYates.DrawsFor(|bills|));
    BillsCoinsKinds(emitted);
    var shuffledBills := FisherYates.Shuffled(bills, |bills| - 1, rng, 0);
    var shuffledCoins := FisherYates.Shuffled(coins, |coins| - 1, rng, FisherYates.DrawsFor(|bills|));
    KindSplit(shuffledBills, shuffledCoins);
    assert ShuffledQueue(emitted, rng) == shuffledBills + shuffledCoins;
  }

  /** What parseAmount returns for `raw` when `Math.random()` yields `rng(0)`, `rng(1)`, .... */
  function PlanOf(raw: JsNumber, rng: nat -> FisherYates.Unit): Plan
  {
    if !Accepted(raw) then Rejected else PlanFor(raw.r.Floor, rng)
  }

  /** The plan of an accepted amount whose whole part is `original`. */
  function PlanFor(original: nat, rng: nat -> FisherYates.Unit): Plan
  {
    var counts := GreedyCounts(original, Table);
    var bundleSize := BundleSize(TotalItems(counts));
    var emitted := Emitted(counts, bundleSize);
    Plan(original, ShuffledQueue(emitted, rng), bundleSize, counts, SumRepresented(emitted))
  }

  /** The greedy loop of parseAmount (app.js:748-758), over the denominations `ds`. */
  method SplitGreedy(original: nat, ds: seq<Denomination>) returns (counts: seq<DenominationCount>, totalItems: nat)
    requires PositiveValues(ds)
    ensures counts == GreedyCounts(original, ds)
    ensures totalItems == TotalItems(counts)
  {
    var remaining: nat := original;
    counts := [];
    totalItems := 0;
    for k := 0 to |ds|
      invariant counts + GreedyCounts(remaining, ds[k..]) == GreedyCounts(original, ds)
      invariant totalItems == TotalItems(counts)
    {
      var d := ds[k];
      var count := remaining / d.value;
      assert ds[k..][1..] == ds[k + 1..];
      assert remaining - count * d.value == remaining % d.value by {
        assert remaining == d.value * count + remaining % d.value;
      }
      remaining := remaining - count * d.value;
      counts := counts + [DenominationCount(d, count)];
      assert counts[..|counts| - 1] + [counts[|counts| - 1]] == counts;
      totalItems := totalItems + count;
    }
    assert ds[|ds|..] == [];
  }

  lemma EmittedSnoc(counts: seq<DenominationCount>, k: nat, bundleSize: nat)
    requires k < |counts| && bundleSize > 0
    ensures Emitted(counts[..k + 1], bundleSize) == Emitted(counts[..k], bundleSize) + RowEntries(counts[k], bundleSize)
  {
    assert counts[..k + 1][..k] == counts[..k];
  }

  /** Appending one entry appends it to its own side of the split and adds its value. */
  lemma QueueSnoc(q: seq<QueueEntry>, x: QueueEntry)
    ensures Bills(q + [x]) == Bills(q) + (if x.denomination.kind == Bill then [x] else [])
    ensures Coins(q + [x]) == Coins(q) + (if x.denomination.kind == Bill then [] else [x])
    ensures SumRepresented(q + [x]) == SumRepresented(q) + x.representedValue
  {
    assert (q + [x])[..|q|] == q;
  }

  /** The inner loop of the emission: one entry per bundle of a non-empty row (app.js:769-781). */
  method EmitRow(entry: DenominationCount, bundleSize: nat, ghost emitted: seq<QueueEntry>,
                 billQueue: seq<QueueEntry>, coinQueue: seq<QueueEntry>, representedAmount: int)
    returns (bills: seq<QueueEntry>, coins: seq<QueueEntry>, represented: int)
    requires bundleSize > 0 && entry.count > 0
    requires billQueue == Bills(emitted) && coinQueue == Coins(emitted)
    requires representedAmount == SumRepresented(emitted)
    ensures bills == Bills(emitted + RowEntries(entry, bundleSize))
    ensures coins == Coins(emitted + RowEntries(entry, bundleSize))
    ensures represented == SumRepresented(emitted + RowEntries(entry, bundleSize))
  {
    bills, coins, represented := billQueue, coinQueue, representedAmount;
    var visualCount := CeilDiv(entry.count, bundleSize);
    var item := QueueEntry(entry.denomination, entry.denomination.value * bundleSize);
    ghost var done := emitted;
    for i := 0 to visualCount
      invariant done == emitted + Repeat(item, i)
      invariant bills == Bills(done) && coins == Coins(done)
      invariant represented == SumRepresented(done)
    {
      if entry.denomination.kind == Bill {
        bills := bills + [item];
      } else {
        coins := coins + [item];
      }
      represented := represented + item.representedValue;
      QueueSnoc(done, item);
      SnocAssoc(emitted, Repeat(item, i), item);
      done := done + [item];
    }
    assert RowEntries(entry, bundleSize) == Repeat(item, visualCount);
  }

  /** The emission loop of parseAmount (app.js:761-782). */
  method EmitEntries(counts: seq<DenominationCount>, bundleSize: nat)
    returns (billQueue: seq<QueueEntry>, coinQueue: seq<QueueEntry>, representedAmount: int)
    requires bundleSize > 0
    ensures billQueue == Bills(Emitted(counts, bundleSize))
    ensures coinQueue == Coins(Emitted(counts, bundleSize))
    ensures representedAmount == SumRepresented(Emitted(counts, bundleSize))
  {
    billQueue, coinQueue, representedAmount := [], [], 0;
    for k := 0 to |counts|
      invariant billQueue == Bills(Emitted(counts[..k], bundleSize))
      invariant coinQueue == Coins(Emitted(counts[..k], bundleSize))
      invariant representedAmount == SumRepresented(Emitted(counts[..k], bundleSize))
    {
      EmittedSnoc(counts, k, bundleSize);
      var entry := counts[k];
      if entry.count == 0 {
        assert Emitted(counts[..k], bundleSize) + RowEntries(entry, bundleSize) == Emitted(counts[..k], bundleSize);
        continue;
      }
      billQueue, coinQueue, representedAmount :=
        EmitRow(entry, bundleSize, Emitted(counts[..k], bundleSize), billQueue, coinQueue, representedAmount);
    }
    assert counts[..|counts|] == counts;
  }

  /** The two in-place shuffles and the concatenation, bills first (app.js:785-798). */
  method ShuffleQueues(billQueue: seq<QueueEntry>, coinQueue: seq<QueueEntry>, rng: nat -> FisherYates.Unit)
    returns (itemQueue: seq<QueueEntry>)
    ensures itemQueue == FisherYates.Shuffled(billQueue, |billQueue| - 1, rng, 0) +
                         FisherYates.Shuffled(coinQueue, |coinQueue| - 1, rng, FisherYates.DrawsFor(|billQueue|))
  {
    var bills, draw := ShuffleArray(billQueue, rng, 0);
    var coins, _ := ShuffleArray(coinQueue, rng, draw);
    itemQueue := bills + coins;
  }

  /** One queue held in an array and shuffled in place, from draw `draw` on. */
  method ShuffleArray(queue: seq<QueueEntry>, rng: nat -> FisherYates.Unit, draw: nat)
    returns (shuffled: seq<QueueEntry>, next: nat)
    ensures shuffled == FisherYates.Shuffled(queue, |queue| - 1, rng, draw)
    ensures next == draw + FisherYates.DrawsFor(|queue|)
  {
    var a := new QueueEntry[|queue|](i requires 0 <= i < |queue| => queue[i]);
    assert a[..] == queue;
    next := FisherYates.ShuffleInPlace(a, rng, draw);
    shuffled := a[..];
  }

  /** parseAmount: validation, split, bundling, emission, then the two shuffles (app.js:737-807). */
  method ParseAmount(raw: JsNumber, rng: nat -> FisherYates.Unit) returns (plan: Plan)
    ensures plan == PlanOf(raw, rng)
  {
    if !raw.Finite? || raw.r <= 0.0 {
      return Rejected;
    }
    plan := PlanAmount(raw.r.Floor, rng);
  }

  /** parseAmount past its guard: the greedy split with its bundle size, then the queue (app.js:747-806). */
  method PlanAmount(original: nat, rng: nat -> FisherYates.Unit) returns (plan: Plan)
    ensures plan == PlanFor(original, rng)
  {
    var counts, bundleSize := SplitAmount(original);
    var itemQueue, representedAmount := BuildQueue(counts, bundleSize, rng);
    plan := Plan(original, itemQueue, bundleSize, counts, representedAmount);
  }

  /** The greedy split over the table and `Math.max(1, Math.ceil(totalItems / MAX_VISUAL_ITEMS))` (app.js:748-759). */
  method SplitAmount(original: nat) returns (counts: seq<DenominationCount>, bundleSize: nat)
    ensures PositiveValues(Table) && counts == GreedyCounts(original, Table)
    ensures bundleSize == BundleSize(TotalItems(counts)) && bundleSize > 0
  {
    TablePositive();
    var totalItems;
    counts, totalItems := SplitGreedy(original, Table);
    bundleSize := Max(1, CeilDiv(totalItems, MaxVisualItems));
  }

  /** Emission of the rows and the two shuffles, bills first (app.js:761-798). */
  method BuildQueue(counts: seq<DenominationCount>, bundleSize: nat, rng: nat -> FisherYates.Unit)
    returns (itemQueue: seq<QueueEntry>, representedAmount: int)
    requires bundleSize > 0
    ensures itemQueue == ShuffledQueue(Emitted(counts, bundleSize), rng)
    ensures representedAmount == SumRepresented(Emitted(counts, bundleSize))
  {
    var billQueue, coinQueue;
    billQueue, coinQueue, representedAmount := EmitEntries(counts, bundleSize);
    itemQueue := ShuffleQueues(billQueue, coinQueue, rng);
  }

  // ---------------------------------------------------------------- properties of the plan

  /** Refused input (not finite, or not positive) plans nothing (app.js:738-746). */
  lemma PlanRejects(raw: JsNumber, rng: nat -> FisherYates.Unit)
    requires !Accepted(raw)
    ensures PlanOf(raw, rng).itemQueue == []
    ensures PlanOf(raw, rng).bundleSize == 1
    ensures PlanOf(raw, rng).representedAmount == 0
    ensures PlanOf(raw, rng).original == 0
  {
  }

  /**
   * For accepted input the rows follow the table and their value is exactly
   * floor(raw): the greedy loop leaves nothing over.
   */
  lemma PlanCountsExact(raw: JsNumber, rng: nat -> FisherYates.Unit)
    requires Accepted(raw)
    ensures PlanOf(raw, rng).original == raw.r.Floor >= 0
    ensures |PlanOf(raw, rng).denominationCounts| == |Table|
    ensures forall i :: 0 <= i < |Table| ==> PlanOf(raw, rng).denominationCounts[i].denomination == Table[i]
    ensures CountedValue(PlanOf(raw, rng).denominationCounts) == PlanOf(raw, rng).original
  {
    var original: nat := raw.r.Floor;
    TablePositive();
    GreedyAccounts(original, Table);
    GreedyExhausts(original, Table);
    GreedyRows(original, Table);
  }

  /**
   * The queue is a reordering of the emitted entries in which the bills
   * come first and the coins after them.
   */
  lemma PlanQueueOrder(raw: JsNumber, rng: nat -> FisherYates.Unit)
    requires Accepted(raw)
    ensures var p := PlanOf(raw, rng);
      multiset(p.itemQueue) == multiset(Emitted(p.denominationCounts, p.bundleSize))
    ensures var p := PlanOf(raw, rng);
      forall i :: 0 <= i < |p.itemQueue| ==>
        (p.itemQueue[i].denomination.kind == Bill <==> i < |Bills(Emitted(p.denominationCounts, p.bundleSize))|)
  {
    var p := PlanOf(raw, rng);
    ShuffledQueuePermutes(Emitted(p.denominationCounts, p.bundleSize), rng);
    ShuffledQueueBillsFirst(Emitted(p.denominationCounts, p.bundleSize), rng);
  }

  lemma BundleOfSmallPile(total: nat)
    requires total <= MaxVisualItems
    ensures BundleSize(total) == 1
  {
    CeilDivBounds(total, MaxVisualItems);
  }

  /**
   * The represented amount is what the queue's entries add up to; bundling
   * can only round it up, and below MaxVisualItems pieces it is exact.
   */
  lemma PlanRepresented(raw: JsNumber, rng: nat -> FisherYates.Unit)
    requires Accepted(raw)
    ensures PlanOf(raw, rng).representedAmount == SumRepresented(PlanOf(raw, rng).itemQueue)
    ensures PlanOf(raw, rng).representedAmount >= PlanOf(raw, rng).original
    ensures TotalItems(PlanOf(raw, rng).denominationCounts) <= MaxVisualItems ==>
      PlanOf(raw, rng).bundleSize == 1 && PlanOf(raw, rng).representedAmount == PlanOf(raw, rng).original
  {
    var p := PlanOf(raw, rng);
    var e := Emitted(p.denominationCounts, p.bundleSize);
    PlanQueueOrder(raw, rng);
    PermutationSum(p.itemQueue, e);
    EmittedSum(p.denominationCounts, p.bundleSize);
    BundledCovers(p.denominationCounts, p.bundleSize);
    PlanCountsExact(raw, rng);
    if TotalItems(p.denominationCounts) <= MaxVisualItems {
      BundleOfSmallPile(TotalItems(p.denominationCounts));
    }
  }

  /** Division of an exact multiple: (k·v) / v = k with nothing left over. */
  lemma DivExact(k: int, v: int)
    requires v > 0
    ensures (k * v) / v == k && (k * v) % v == 0
  {
    var a := k * v;
    var q, r := a / v, a % v;
    assert a == v * q + r;
    var t := k - q;
    assert v * t == r by {
      assert v * t == v * k - v * q;
    }
  }

  lemma WholeBundle(v: nat, b: nat)
    requires v > 0 && b > 0
    ensures v * b > 0 && (v * b) % v == 0
  {
    DivExact(b, v);
    assert b * v == v * b;
  }

  /** Every queued entry is a whole bundle of a table denomination: a positive multiple of its value. */
  lemma PlanEntriesBundled(raw: JsNumber, rng: nat -> FisherYates.Unit)
    requires Accepted(raw)
    ensures var p := PlanOf(raw, rng);
      forall e :: e in p.itemQueue ==>
        e.denomination in Table && e.representedValue == e.denomination.value * p.bundleSize &&
        e.representedValue > 0 && e.representedValue % e.denomination.value == 0
  {
    var p := PlanOf(raw, rng);
    PlanCountsExact(raw, rng);
    PlanQueueOrder(raw, rng);
    EmittedEntries(p.denominationCounts, p.bundleSize);
    TablePositive();
    forall e | e in p.itemQueue
      ensures e.denomination in Table && e.representedValue == e.denomination.value * p.bundleSize &&
        e.representedValue > 0 && e.representedValue % e.denomination.value == 0
    {
      assert e in multiset(p.itemQueue);
      assert e in Emitted(p.denominationCounts, p.bundleSize);
      WholeBundle(e.denomination.value, p.bundleSize);
    }
  }

  lemma BelowBound(n: nat, b: nat, total: nat, rows: nat)
    requires b > 0 && rows > 0 && total <= MaxVisualItems * b
    requires n * b <= total + rows * (b - 1)
    ensures n < MaxVisualItems + rows
  {
    assert rows * (b - 1) == rows * b - rows;
    assert (MaxVisualItems + rows) * b == MaxVisualItems * b + rows * b;
    assert n * b <= MaxVisualItems * b + rows * b - rows;
    if n >= MaxVisualItems + rows {
      MulLe(MaxVisualItems + rows, n, b);
    }
  }

  /**
   * One entry per bundle; the bundle size keeps the queue below
   * MaxVisualItems plus one entry per denomination row.
   */
  lemma PlanQueueLength(raw: JsNumber, rng: nat -> FisherYates.Unit)
    requires Accepted(raw)
    ensures |PlanOf(raw, rng).itemQueue| == VisualCount(PlanOf(raw, rng).denominationCounts, PlanOf(raw, rng).bundleSize)
    ensures |PlanOf(raw, rng).itemQueue| < MaxVisualItems + |Table|
  {
    var p := PlanOf(raw, rng);
    var total := TotalItems(p.denominationCounts);
    PlanCountsExact(raw, rng);
    PlanQueueOrder(raw, rng);
    assert |p.itemQueue| == |multiset(p.itemQueue)|;
    EmittedLength(p.denominationCounts, p.bundleSize);
    VisualCountBound(p.denominationCounts, p.bundleSize);
    CeilDivBounds(total, MaxVisualItems);
    assert total <= MaxVisualItems * p.bundleSize;
    BelowBound(|p.itemQueue|, p.bundleSize, total, |Table|);
  }

  /** The queue is empty exactly when the accepted amount floors to zero yen (or is refused). */
  lemma PlanEmptyExactly(raw: JsNumber, rng: nat -> FisherYates.Unit)
    ensures PlanOf(raw, rng).itemQueue == [] <==> PlanOf(raw, rng).original == 0
    ensures PlanOf(raw, rng).original == 0 <==> !Accepted(raw) || raw.r < 1.0
  {
    if Accepted(raw) {
      var p := PlanOf(raw, rng);
      PlanCountsExact(raw, rng);
      PlanQueueLength(raw, rng);
      VisualCountZero(p.denominationCounts, p.bundleSize);
      CountedValueZero(p.denominationCounts);
    }
  }

  /**
   * MaxVisualItems bounds the queue only approximately: 9,409,999 yen is
   * 960 pieces, bundled in twos, and the rounding up in each of the nine
   * rows gives 482 entries.
   */
  lemma BundleCapOverrun()
    ensures var counts := GreedyCounts(9409999, Table);
      TotalItems(counts) == 960 && BundleSize(TotalItems(counts)) == 2 &&
      VisualCount(counts, 2) == 482 && VisualCount(counts, 2) > MaxVisualItems
  {
    TablePositive();
    assert Table[9..] == [];
    RowStep(4, 8, 4, 0, 0, 0);
    RowStep(9, 7, 1, 4, 4, 2);
    RowStep(49, 6, 4, 9, 5, 3);
    RowStep(99, 5, 1, 49, 9, 5);
    RowStep(499, 4, 4, 99, 10, 6);
    RowStep(999, 3, 1, 499, 14, 8);
    RowStep(4999, 2, 4, 999, 15, 9);
    RowStep(9999, 1, 1, 4999, 19, 11);
    RowStep(9409999, 0, 940, 9999, 20, 12);
    assert Table[0..] == Table;
  }

  /** Pieces and entries of the greedy rows from row `k` on, from those of the rows after it. */
  lemma RowStep(remaining: nat, k: nat, count: nat, rest: nat, pieces: nat, entries: nat)
    requires k < |Table| && PositiveValues(Table)
    requires remaining / Table[k].value == count && remaining % Table[k].value == rest
    requires PositiveValues(Table[k + 1..])
    requires TotalItems(GreedyCounts(rest, Table[k + 1..])) == pieces
    requires VisualCount(GreedyCounts(rest, Table[k + 1..]), 2) == entries
    ensures PositiveValues(Table[k..])
    ensures TotalItems(GreedyCounts(remaining, Table[k..])) == count + pieces
    ensures VisualCount(GreedyCounts(remaining, Table[k..]), 2) == CeilDiv(count, 2) + entries
  {
    GreedyStep(remaining, k);
    RowsCons(DenominationCount(Table[k], count), GreedyCounts(rest, Table[k + 1..]), 2);
  }

  /** One greedy row over the table from row `k` on. */
  lemma GreedyStep(remaining: nat, k: nat)
    requires k < |Table|
    ensures PositiveValues(Table[k..]) && PositiveValues(Table[k + 1..])
    ensures GreedyCounts(remaining, Table[k..]) ==
      [DenominationCount(Table[k], remaining / Table[k].value)] + GreedyCounts(remaining % Table[k].value, Table[k + 1..])
  {
    TablePositive();
    assert Table[k..][1..] == Table[k + 1..];
  }

  /** Pieces and entries of rows counted from the front. */
  lemma {:induction false} RowsCons(x: DenominationCount, cs: seq<DenominationCount>, bundleSize: nat)
    requires bundleSize > 0
    ensures TotalItems([x] + cs) == x.count + TotalItems(cs)
    ensures VisualCount([x] + cs, bundleSize) == CeilDiv(x.count, bundleSize) + VisualCount(cs, bundleSize)
    decreases |cs|
  {
    if cs == [] {
      assert ([x] + cs)[..0] == [];
    } else {
      var init := cs[..|cs| - 1];
      assert ([x] + cs)[..|cs|] == [x] + init;
      RowsCons(x, init, bundleSize);
    }
  }
}
