/**
 * The objects spawnCash puts on the table (app.js:610-661): a piece with a
 * mesh id, a denomination, the part of the amount it stands for and a
 * physics body. Only the body fields the bookkeeping reads or writes are
 * modelled; shapes, damping and orientation belong to the physics engine.
 */
module Pieces {
  import opened Denominations
  import opened Arena
  import opened Planner
  import opened Sequences

  /** SETTLE_SPEED_SQ and SETTLE_ANGULAR_SPEED_SQ (app.js:27-28). */
  const SettleSpeedSq: real := 0.04
  const SettleAngularSpeedSq: real := 0.08

  datatype BodyType = Dynamic | Kinematic

  datatype SleepState = Awake | Sleepy | Sleeping

  /** The part of a cannon-es body that spawning, dragging and settling touch. */
  class Body {
    var bodyType: BodyType
    var mass: real
    var position: Vec3
    var velocity: Vec3
    var angularVelocity: Vec3
    var sleepState: SleepState

    /** A freshly created dynamic body, awake, placed and launched as given. */
    constructor (mass: real, position: Vec3, velocity: Vec3, angularVelocity: Vec3)
      ensures this.bodyType == Dynamic && this.mass == mass && this.sleepState == Awake
      ensures this.position == position && this.velocity == velocity
      ensures this.angularVelocity == angularVelocity
    {
      this.bodyType := Dynamic;
      this.mass := mass;
      this.position := position;
      this.velocity := velocity;
      this.angularVelocity := angularVelocity;
      this.sleepState := Awake;
    }

    /** Hand the body back to the simulation: dynamic, with `mass`, dropping gently, awake (app.js:905-911). */
    method Release(mass: real)
      modifies this
      ensures bodyType == Dynamic && this.mass == mass && sleepState == Awake
      ensures velocity == Vec3(0.0, -0.04, 0.0) && angularVelocity == Zero && position == old(position)
    {
      bodyType := Dynamic;
      this.mass := mass;
      velocity := Vec3(0.0, -0.04, 0.0);
      angularVelocity := Zero;
      sleepState := Awake;
    }

    /** Take the body out of the simulation: awake, kinematic, massless and stopped (app.js:942, app.js:952-956). */
    method Hold()
      modifies this
      ensures bodyType == Kinematic && mass == 0.0 && sleepState == Awake
      ensures velocity == Zero && angularVelocity == Zero && position == old(position)
    {
      sleepState := Awake;
      bodyType := Kinematic;
      mass := 0.0;
      velocity := Zero;
      angularVelocity := Zero;
    }

    /** Place the body at `p` and stop it (app.js:895-897). */
    method Pin(p: Vec3)
      modifies this
      ensures position == p && velocity == Zero && angularVelocity == Zero
      ensures bodyType == old(bodyType) && mass == old(mass) && sleepState == old(sleepState)
    {
      position := p;
      velocity := Zero;
      angularVelocity := Zero;
    }
  }

  /** No two distinct pieces of a Distinct list share a body. */
  lemma DistinctBodies(s: seq<Piece>, p: Piece, q: Piece)
    requires Distinct(s) && p in s && q in s && p != q
    ensures p.body != q.body
  {
    var i :| 0 <= i < |s| && s[i] == p;
    var j :| 0 <= j < |s| && s[j] == q;
    assert i != j;
    if i < j {
      assert s[i].body != s[j].body;
    } else {
      assert s[j].body != s[i].body;
    }
  }

  /** isBodySettled (app.js:992-1000): asleep, or slow enough both in speed and in spin. */
  predicate BodySettled(b: Body)
    reads b
  {
    b.sleepState == Sleeping ||
    (LengthSquared(b.velocity) < SettleSpeedSq && LengthSquared(b.angularVelocity) < SettleAngularSpeedSq)
  }

  /** A cash object: what spawnCash records about a piece (app.js:655-656). */
  class Piece {
    const meshId: nat
    const denomination: Denomination
    const representedValue: nat
    const body: Body

    constructor (meshId: nat, denomination: Denomination, representedValue: nat, body: Body)
      ensures this.meshId == meshId && this.denomination == denomination
      ensures this.representedValue == representedValue && this.body == body
    {
      this.meshId := meshId;
      this.denomination := denomination;
      this.representedValue := representedValue;
      this.body := body;
    }
  }

  /** No two pieces share a mesh id or a body (so no piece appears twice). */
  predicate Distinct(s: seq<Piece>)
  {
    forall i, j :: 0 <= i < j < |s| ==> s[i].meshId != s[j].meshId && s[i].body != s[j].body
  }

  /** The bodies of a sequence of pieces. */
  function BodiesOf(s: seq<Piece>): set<Body>
  {
    set p | p in s :: p.body
  }

  /** isPileSettled (app.js:1002-1014): every body is settled; an empty pile is. */
  predicate PileSettled(s: seq<Piece>)
    reads BodiesOf(s)
  {
    forall i :: 0 <= i < |s| ==> BodySettled(s[i].body)
  }

  /** The queue entry a piece stands for: its denomination and its represented value. */
  function Entries(s: seq<Piece>): (r: seq<QueueEntry>)
    ensures |r| == |s|
    ensures forall i :: 0 <= i < |s| ==>
      r[i].denomination == s[i].denomination && r[i].representedValue == s[i].representedValue
  {
    seq(|s|, i requires 0 <= i < |s| => QueueEntry(s[i].denomination, s[i].representedValue))
  }

  /** Yen the pieces on the table stand for. */
  function RegistryTotal(s: seq<Piece>): int
  {
    SumRepresented(Entries(s))
  }

  /** Adding a piece adds what it stands for. */
  lemma RegistryTotalAppend(s: seq<Piece>, p: Piece)
    ensures RegistryTotal(s + [p]) == RegistryTotal(s) + p.representedValue
  {
    var e := Entries(s + [p]);
    assert e[..|s|] == Entries(s);
    assert e == e[..|s|] + [e[|s|]];
  }

  /** Every piece of `s` has the denomination and the represented value of `entry`. */
  predicate AllStandFor(s: seq<Piece>, entry: QueueEntry)
  {
    forall k :: 0 <= k < |s| ==>
      s[k].denomination == entry.denomination && s[k].representedValue == entry.representedValue
  }

  lemma AllStandForAppend(s: seq<Piece>, entry: QueueEntry, p: Piece)
    requires AllStandFor(s, entry)
    requires p.denomination == entry.denomination && p.representedValue == entry.representedValue
    ensures AllStandFor(s + [p], entry)
  {
  }

  /** Appending pieces that all stand for `entry` adds their number times its value. */
  lemma {:induction false} RegistryTotalShares(s: seq<Piece>, added: seq<Piece>, entry: QueueEntry)
    requires AllStandFor(added, entry)
    ensures RegistryTotal(s + added) == RegistryTotal(s) + |added| * entry.representedValue
    decreases |added|
  {
    if added != [] {
      var init := added[..|added| - 1];
      var last := added[|added| - 1];
      assert AllStandFor(init, entry);
      RegistryTotalShares(s, init, entry);
      assert added == init + [last];
      SnocAssoc(s, init, last);
      RegistryTotalAppend(s + init, last);
      assert |added| * entry.representedValue == |init| * entry.representedValue + entry.representedValue;
    } else {
      assert s + added == s;
    }
  }

  /** The pieces of `s` carry the consecutive mesh ids first, first + 1, ... */
  predicate NumberedFrom(s: seq<Piece>, first: nat)
  {
    forall k :: 0 <= k < |s| ==> s[k].meshId == first + k
  }

  lemma NumberedFromAppend(s: seq<Piece>, first: nat, p: Piece)
    requires NumberedFrom(s, first) && p.meshId == first + |s|
    ensures NumberedFrom(s + [p], first)
  {
  }

  /** `Array.prototype.indexOf`: the first position of `x`, or -1. */
  function IndexOf(s: seq<Piece>, x: Piece): (r: int)
    ensures -1 <= r < |s|
    ensures r >= 0 ==> s[r] == x && x !in s[..r]
    ensures r < 0 ==> x !in s
  {
    if s == [] then -1
    else if s[0] == x then 0
    else
      var k := IndexOf(s[1..], x);
      if k < 0 then -1
      else
        assert s[..k + 1] == [s[0]] + s[1..][..k];
        k + 1
  }

  /**
   * The list after `splice(indexOf(x), 1)`, which only happens when x is
   * present: the first occurrence of x goes, the rest keep their order.
   */
  function Without(s: seq<Piece>, x: Piece): (r: seq<Piece>)
    ensures x !in s ==> r == s
    ensures x in s ==> |r| == |s| - 1
    ensures x in s ==> exists k :: 0 <= k < |s| && s[k] == x && x !in s[..k] && r == s[..k] + s[k + 1..]
  {
    var i := IndexOf(s, x);
    if i < 0 then s else s[..i] + s[i + 1..]
  }

  /**
   * The registry invariant on values: the list and the map hold the same
   * pieces, each under its own mesh id, all ids below `next`, no piece twice
   * and no body shared.
   */
  predicate RegistryOf(list: seq<Piece>, byId: map<nat, Piece>, next: nat)
  {
    Distinct(list) &&
    (forall i :: 0 <= i < |list| ==>
      list[i].meshId < next && list[i].meshId in byId && byId[list[i].meshId] == list[i]) &&
    (forall id :: id in byId ==> byId[id] in list && byId[id].meshId == id)
  }

  /** Appending a piece with the next mesh id and a new body keeps the registry invariant. */
  lemma RegistryAppend(list: seq<Piece>, byId: map<nat, Piece>, next: nat, p: Piece)
    requires RegistryOf(list, byId, next) && p.meshId == next
    requires p.body !in BodiesOf(list)
    ensures RegistryOf(list + [p], byId[next := p], next + 1)
    ensures next !in byId
  {
    var l := list + [p];
    forall i, j | 0 <= i < j < |l|
      ensures l[i].meshId != l[j].meshId && l[i].body != l[j].body
    {
      if j == |list| {
        assert l[i] == list[i];
        assert list[i].body in BodiesOf(list);
      }
    }
  }

  /** Removing a piece from a list without duplicates keeps every other piece and loses no distinctness. */
  lemma WithoutDistinct(s: seq<Piece>, x: Piece)
    requires Distinct(s)
    ensures Distinct(Without(s, x))
    ensures forall y :: y in Without(s, x) <==> y in s && y != x
  {
    var k := IndexOf(s, x);
    if k >= 0 {
      var r := Without(s, x);
      assert r == s[..k] + s[k + 1..];
      forall i | 0 <= i < |r|
        ensures r[i] == s[if i < k then i else i + 1]
      {
      }
      forall y | y in s && y != x
        ensures y in r
      {
        var j :| 0 <= j < |s| && s[j] == y;
        assert j != k;
        assert r[if j < k then j else j - 1] == y;
      }
      forall y | y in r
        ensures y != x
      {
        var j :| 0 <= j < |r| && r[j] == y;
        var j' := if j < k then j else j + 1;
        assert s[j'] == y && j' != k;
      }
    }
  }

  /** Removing a piece from the list and its id from the map keeps the registry invariant. */
  lemma RegistryRemove(list: seq<Piece>, byId: map<nat, Piece>, next: nat, x: Piece)
    requires RegistryOf(list, byId, next)
    requires x.meshId in byId ==> byId[x.meshId] == x
    ensures RegistryOf(Without(list, x), byId - {x.meshId}, next)
    ensures forall p :: p in Without(list, x) <==> p in list && p != x
  {
    WithoutDistinct(list, x);
    var l := Without(list, x);
    forall i | 0 <= i < |l|
      ensures l[i].meshId < next && l[i].meshId in byId - {x.meshId} && byId[l[i].meshId] == l[i]
    {
      assert l[i] in list;
      var k :| 0 <= k < |list| && list[k] == l[i];
    }
    forall id | id in byId - {x.meshId}
      ensures byId[id] in l && byId[id].meshId == id
    {
      assert byId[id] != x;
    }
  }

  /** Removing the last piece of a list without duplicates drops the last element. */
  lemma WithoutLast(s: seq<Piece>)
    requires Distinct(s) && |s| > 0
    ensures Without(s, s[|s| - 1]) == s[..|s| - 1]
  {
    var k := IndexOf(s, s[|s| - 1]);
    assert s[k] == s[|s| - 1];
    assert k == |s| - 1;
  }

  /** Removing a present piece removes what it stands for. */
  lemma WithoutTotal(s: seq<Piece>, x: Piece)
    requires x in s
    ensures RegistryTotal(Without(s, x)) + x.representedValue == RegistryTotal(s)
  {
    var k := IndexOf(s, x);
    var e := Entries(s);
    assert Entries(Without(s, x)) == e[..k] + e[k + 1..];
    RemoveOneSum(e, k);
  }
}
