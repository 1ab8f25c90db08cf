/**
 * The decision part of exchangeCashObject (app.js:673-694): which smaller
 * denomination a piece breaks into, into how many pieces, and what each of
 * them stands for. Removing the piece and spawning the new ones is the
 * Scene module's ExchangeCashObject.
 */
module Exchange {
  import opened Wrappers
  import opened Denominations
  import Planner

  /** A successful exchange: `pieceCount` pieces of `target`, each standing for `perPieceValue` yen. */
  datatype Split = Split(target: Denomination, pieceCount: nat, perPieceValue: nat)

  /**
   * The guards of exchangeCashObject in order: no exchange target (or a
   * falsy one), a target missing from the table, fewer than two pieces, and
   * a represented value the pieces cannot share evenly all refuse.
   */
  function ExchangeOf(d: Denomination, representedValue: nat): (r: Option<Split>)
    ensures r.Some? ==> r.value.pieceCount >= 2
    ensures r.Some? ==> r.value.pieceCount * r.value.perPieceValue == representedValue
    ensures r.Some? ==> r.value.target in Table
    ensures r.Some? ==> ExchangeTarget(d.value) == Some(r.value.target.value)
  {
    match ExchangeTarget(d.value)
    case None => None
    case Some(next) =>
      if next == 0 then None
      else match DenominationByValue(next)
        case None => None
        case Some(target) =>
          var pieceCount := d.value / next;
          if pieceCount <= 1 then None
          else if representedValue % pieceCount != 0 then None
          else
            SharesEvenly(representedValue, pieceCount);
            Some(Split(target, pieceCount, representedValue / pieceCount))
  }

  /** A value divisible by `pieces` is `pieces` times its share. */
  lemma SharesEvenly(value: nat, pieces: nat)
    requires pieces > 0 && value % pieces == 0
    ensures value / pieces >= 0 && pieces * (value / pieces) == value
  {
    assert value == pieces * (value / pieces) + value % pieces;
  }

  /** The 1-yen coin is never exchanged. */
  lemma OneYenRefused(d: Denomination, representedValue: nat)
    requires d.value == 1
    ensures ExchangeOf(d, representedValue).None?
  {
  }

  /** A source divided by a smaller divisor gives at least two pieces. */
  lemma AtLeastTwoPieces(v: nat, t: nat)
    requires 0 < t < v && v % t == 0
    ensures v / t >= 2
  {
    var p := v / t;
    assert v == t * p by { assert v == t * (v / t) + v % t; }
  }

  /**
   * A denomination of the exchange table breaks into value / next pieces,
   * and does so exactly when the represented value shares evenly among them.
   */
  lemma ExchangeSucceedsIff(d: Denomination, representedValue: nat)
    requires d.value in ExchangeTargets
    ensures var next := ExchangeTargets[d.value];
      next > 0 &&
      (ExchangeOf(d, representedValue).Some? <==> representedValue % (d.value / next) == 0) &&
      (ExchangeOf(d, representedValue).Some? ==> ExchangeOf(d, representedValue).value.pieceCount == d.value / next)
  {
    var next := ExchangeTargets[d.value];
    ExchangeTableDivides();
    ExchangeTargetsAreDenominations();
    assert DenominationByValue(next).Some?;
    AtLeastTwoPieces(d.value, next);
  }

  /** rv a multiple of v, and t divides v: rv splits evenly into v / t pieces, each a multiple of t. */
  lemma MultipleSplits(rv: nat, v: nat, t: nat)
    requires 0 < t < v && v % t == 0 && rv % v == 0
    ensures v / t > 0 && rv % (v / t) == 0 && (rv / (v / t)) % t == 0
  {
    var p := v / t;
    var k := rv / v;
    assert v == p * t by { assert v == t * (v / t) + v % t; }
    assert rv == k * v by { assert rv == v * (rv / v) + rv % v; }
    assert p > 0;
    assert rv == (k * t) * p;
    Planner.DivExact(k * t, p);
    Planner.DivExact(k, t);
  }

  /**
   * A piece that stands for a whole multiple of its denomination (every
   * planned queue entry does) can always be exchanged when its value has an
   * exchange target (every table value but 1 yen, by OnlyOneYenLacksTarget), and each new piece again stands for a whole multiple of its own
   * denomination, so exchanges can be repeated down to 1 yen.
   */
  lemma ExchangeKeepsMultiples(d: Denomination, representedValue: nat)
    requires d.value in ExchangeTargets
    requires representedValue % d.value == 0
    ensures ExchangeOf(d, representedValue).Some?
    ensures var s := ExchangeOf(d, representedValue).value;
      s.perPieceValue % s.target.value == 0
  {
    var v, t := d.value, ExchangeTargets[d.value];
    ExchangeTableDivides();
    assert 0 < t < v && v % t == 0;
    MultipleSplits(representedValue, v, t);
    ExchangeSucceedsIff(d, representedValue);
    var s := ExchangeOf(d, representedValue).value;
    assert s.target.value == t && s.pieceCount == v / t;
    assert s.perPieceValue == representedValue / (v / t);
  }
}
