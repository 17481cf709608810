/**
 * The `ChainSynth` client's state and its ring redraw bookkeeping. The two.js
 * scene is kept abstractly as the set of circle handles it currently draws;
 * only which handles are created, kept and removed is modelled, not where
 * they are drawn.
 */
module Synth {
  import Progress

  /** A circle handle returned by `two.makeCircle`. */
  type Handle = nat

  /** The two.js scene: the circles it currently draws and the next handle it will issue. */
  class Scene {
    var shapes: set<Handle>
    var nextId: nat

    constructor ()
      ensures shapes == {} && nextId == 0
    {
      shapes := {};
      nextId := 0;
    }

    /** `two.makeCircle(x, y, r)`: a handle never issued before, now drawn. */
    method MakeCircle() returns (h: Handle)
      modifies this
      ensures h == old(nextId) && nextId == old(nextId) + 1
      ensures shapes == old(shapes) + {h}
    {
      h := nextId;
      nextId := nextId + 1;
      shapes := shapes + {h};
    }

    /** `two.remove(circle)`: a handle that is not drawn is ignored. */
    method Remove(h: Handle)
      modifies this
      ensures shapes == old(shapes) - {h} && nextId == old(nextId)
    {
      shapes := shapes - {h};
    }
  }

  /** The handles of a sequence, as a set. */
  function Elems(s: seq<Handle>): (r: set<Handle>)
    ensures forall h :: h in r <==> h in s
  {
    set h | h in s
  }

  /** The n handles lo, lo + 1, ..., lo + n - 1, in the order they are issued. */
  function Ids(lo: nat, n: nat): (r: seq<Handle>)
    ensures |r| == n
    ensures forall i :: 0 <= i < n ==> r[i] == lo + i
  {
    if n == 0 then [] else Ids(lo, n - 1) + [lo + n - 1]
  }

  /** What the client's fields and the scene hold at one moment. */
  datatype Snapshot = Snapshot(
    shapes: set<Handle>,
    nextId: nat,
    extrinsicCircles: seq<Handle>,
    eventCircles: seq<Handle>,
    extrinsicCount: nat,
    eventCount: nat,
    lastBlockTime: int)

  /** The state right after construction: every field at its initialiser, an empty scene. */
  const Initial: Snapshot := Snapshot({}, 0, [], [], 0, 0, 0)

  /**
   * The bookkeeping the client keeps: every handle it knows was issued by the
   * scene, and every drawn circle is listed in one of its two arrays.
   */
  ghost predicate Inv(s: Snapshot) {
    && (forall h :: h in s.shapes ==> h < s.nextId)
    && (forall i :: 0 <= i < |s.extrinsicCircles| ==> s.extrinsicCircles[i] < s.nextId)
    && (forall i :: 0 <= i < |s.eventCircles| ==> s.eventCircles[i] < s.nextId)
    && (forall h :: h in s.shapes ==> h in s.extrinsicCircles || h in s.eventCircles)
  }

  /**
   * `drawExtrinsics`: nothing at all when the count is zero; otherwise remove
   * every circle listed in `extrinsicCircles`, then draw and append the
   * boundary circle and one dot per extrinsic. The array is never cleared.
   */
  function DrawExtrinsicsOn(s: Snapshot): Snapshot {
    if s.extrinsicCount == 0 then s
    else
      var drawn := Ids(s.nextId, s.extrinsicCount + 1);
      s.(shapes := (s.shapes - Elems(s.extrinsicCircles)) + Elems(drawn),
         nextId := s.nextId + s.extrinsicCount + 1,
         extrinsicCircles := s.extrinsicCircles + drawn)
  }

  /**
   * `drawEvents`: nothing at all when the count is zero; otherwise remove
   * every circle listed in `eventCircles`, draw the boundary circle and
   * append it to `eventCircles`, then draw one dot per event and append the
   * dots to `extrinsicCircles`.
   */
  function DrawEventsOn(s: Snapshot): Snapshot {
    if s.eventCount == 0 then s
    else
      var drawn := Ids(s.nextId, s.eventCount + 1);
      s.(shapes := (s.shapes - Elems(s.eventCircles)) + Elems(drawn),
         nextId := s.nextId + s.eventCount + 1,
         eventCircles := s.eventCircles + [s.nextId],
         extrinsicCircles := s.extrinsicCircles + Ids(s.nextId + 1, s.eventCount))
  }

  /** Both rings, extrinsics first, as `processBlockDetails` and `onWindowResize` draw them. */
  function RedrawOn(s: Snapshot): Snapshot {
    DrawEventsOn(DrawExtrinsicsOn(s))
  }

  /**
   * `processBlockDetails` once both fetches have completed: record the
   * extrinsic count and the arrival time, record the event count, and redraw.
   */
  function ProcessBlockOn(s: Snapshot, extrinsics: nat, events: nat, now: int): Snapshot {
    RedrawOn(s.(extrinsicCount := extrinsics, eventCount := events, lastBlockTime := now))
  }

  /**
   * How far one run of `processBlockDetails` gets. The block fetch can
   * reject before any field is written. After the extrinsic count and the
   * arrival time are written, the audio calls can throw and the events
   * fetch can reject; either ends the run with nothing else written. Or both
   * fetches complete.
   */
  datatype BlockOutcome =
    | BlockRejected
    | StoppedAfterBlock(extrinsics: nat)
    | Completed(extrinsics: nat, events: nat)

  /** The state one run of `processBlockDetails` leaves, for each way the run can end. */
  function BlockDetailsOn(s: Snapshot, outcome: BlockOutcome, now: int): Snapshot {
    match outcome
    case BlockRejected => s
    case StoppedAfterBlock(extrinsics) => s.(extrinsicCount := extrinsics, lastBlockTime := now)
    case Completed(extrinsics, events) => ProcessBlockOn(s, extrinsics, events, now)
  }

  /** With no extrinsics, `drawExtrinsics` returns before touching the scene or the array. */
  lemma DrawExtrinsicsZero(s: Snapshot)
    requires s.extrinsicCount == 0
    ensures DrawExtrinsicsOn(s) == s
  {
  }

  /** With no events, `drawEvents` returns before touching the scene or the arrays. */
  lemma DrawEventsZero(s: Snapshot)
    requires s.eventCount == 0
    ensures DrawEventsOn(s) == s
  {
  }

  /**
   * With K > 0 extrinsics: every handle listed before is no longer drawn,
   * exactly K + 1 handles that were neither drawn nor listed before are now
   * drawn, and every other drawn circle stays.
   */
  lemma DrawExtrinsicsScene(s: Snapshot)
    requires Inv(s)
    requires s.extrinsicCount > 0
    ensures var r := DrawExtrinsicsOn(s);
      && (forall h :: h in s.extrinsicCircles ==> h !in r.shapes)
      && |r.shapes - s.shapes| == s.extrinsicCount + 1
      && (forall h :: h in r.shapes - s.shapes ==> h !in s.extrinsicCircles && h !in s.eventCircles)
      && (forall h :: h in s.shapes && h !in s.extrinsicCircles ==> h in r.shapes)
  {
    var drawn := Ids(s.nextId, s.extrinsicCount + 1);
    FreshIds(s, s.extrinsicCount + 1);
    ReplaceSets(s.shapes, Elems(s.extrinsicCircles), Elems(drawn));
    IdsCard(s.nextId, s.extrinsicCount + 1);
  }

  /**
   * With K > 0 extrinsics, the array is not cleared: it keeps its old
   * entries and gains exactly the K + 1 circles just drawn; `eventCircles`
   * is untouched.
   */
  lemma DrawExtrinsicsArrays(s: Snapshot)
    requires Inv(s)
    requires s.extrinsicCount > 0
    ensures var r := DrawExtrinsicsOn(s);
      && |r.extrinsicCircles| == |s.extrinsicCircles| + s.extrinsicCount + 1
      && r.extrinsicCircles[..|s.extrinsicCircles|] == s.extrinsicCircles
      && r.shapes - s.shapes == Elems(r.extrinsicCircles[|s.extrinsicCircles|..])
      && r.eventCircles == s.eventCircles
  {
    var r := DrawExtrinsicsOn(s);
    var drawn := Ids(s.nextId, s.extrinsicCount + 1);
    assert r.extrinsicCircles[|s.extrinsicCircles|..] == drawn;
    FreshIds(s, s.extrinsicCount + 1);
    ReplaceSets(s.shapes, Elems(s.extrinsicCircles), Elems(drawn));
  }

  /**
   * With K > 0 events: every handle listed in `eventCircles` is no longer
   * drawn, exactly K + 1 handles that were neither drawn nor listed before
   * are now drawn, and every other drawn circle stays.
   */
  lemma DrawEventsScene(s: Snapshot)
    requires Inv(s)
    requires s.eventCount > 0
    ensures var r := DrawEventsOn(s);
      && (forall h :: h in s.eventCircles ==> h !in r.shapes)
      && |r.shapes - s.shapes| == s.eventCount + 1
      && (forall h :: h in r.shapes - s.shapes ==> h !in s.extrinsicCircles && h !in s.eventCircles)
      && (forall h :: h in s.shapes && h !in s.eventCircles ==> h in r.shapes)
  {
    var drawn := Ids(s.nextId, s.eventCount + 1);
    FreshIds(s, s.eventCount + 1);
    ReplaceSets(s.shapes, Elems(s.eventCircles), Elems(drawn));
    IdsCard(s.nextId, s.eventCount + 1);
  }

  /**
   * With K > 0 events: exactly one new handle, the boundary, is appended to
   * `eventCircles`, and the K new dot handles are appended to
   * `extrinsicCircles`; neither array loses an entry.
   */
  lemma DrawEventsArrays(s: Snapshot)
    requires Inv(s)
    requires s.eventCount > 0
    ensures var r := DrawEventsOn(s);
      && r.eventCircles == s.eventCircles + [s.nextId]
      && s.nextId !in s.shapes
      && |r.extrinsicCircles| == |s.extrinsicCircles| + s.eventCount
      && r.extrinsicCircles[..|s.extrinsicCircles|] == s.extrinsicCircles
      && r.shapes - s.shapes == Elems(r.extrinsicCircles[|s.extrinsicCircles|..]) + {s.nextId}
  {
    var r := DrawEventsOn(s);
    var drawn := Ids(s.nextId, s.eventCount + 1);
    assert r.extrinsicCircles[|s.extrinsicCircles|..] == Ids(s.nextId + 1, s.eventCount);
    IdsCons(s.nextId, s.eventCount);
    FreshIds(s, s.eventCount + 1);
    ReplaceSets(s.shapes, Elems(s.eventCircles), Elems(drawn));
  }

  /** Removing R from S and adding fresh D: exactly D is new, R is gone, the rest of S stays. */
  lemma ReplaceSets(S: set<Handle>, R: set<Handle>, D: set<Handle>)
    requires forall h :: h in D ==> h !in S && h !in R
    ensures ((S - R) + D) - S == D
    ensures forall h :: h in R ==> h !in (S - R) + D
    ensures forall h :: h in S && h !in R ==> h in (S - R) + D
  {
    assert forall h :: h in ((S - R) + D) - S <==> h in D;
  }

  /** A run of n + 1 handles is its first handle followed by the run of the next n. */
  lemma IdsCons(lo: nat, n: nat)
    ensures Ids(lo, n + 1) == [lo] + Ids(lo + 1, n)
    ensures Elems(Ids(lo, n + 1)) == {lo} + Elems(Ids(lo + 1, n))
  {
    assert Ids(lo, n + 1) == [lo] + Ids(lo + 1, n);
  }

  lemma UnionAssoc(a: set<Handle>, b: set<Handle>, c: set<Handle>)
    ensures (a + b) + c == a + (b + c)
  {
  }

  /** Handles from nextId on were never issued, so none is drawn or listed. */
  lemma FreshIds(s: Snapshot, n: nat)
    requires Inv(s)
    ensures forall h :: h in Ids(s.nextId, n) ==> h !in s.shapes && h !in s.extrinsicCircles && h !in s.eventCircles
  {
  }

  /** Issued handles are distinct: n of them make a set of n. */
  lemma {:induction false} IdsCard(lo: nat, n: nat)
    ensures |Elems(Ids(lo, n))| == n
  {
    if n > 0 {
      IdsCard(lo, n - 1);
      assert Ids(lo, n) == Ids(lo, n - 1) + [lo + n - 1];
      assert Elems(Ids(lo, n)) == Elems(Ids(lo, n - 1)) + {lo + n - 1};
      assert lo + n - 1 !in Elems(Ids(lo, n - 1));
    }
  }

  lemma DrawExtrinsicsInv(s: Snapshot)
    requires Inv(s)
    ensures Inv(DrawExtrinsicsOn(s))
  {
  }

  lemma DrawEventsInv(s: Snapshot)
    requires Inv(s)
    ensures Inv(DrawEventsOn(s))
  {
    if s.eventCount > 0 {
      var r := DrawEventsOn(s);
      IdsCons(s.nextId, s.eventCount);
    }
  }

  /** The bookkeeping invariant holds initially and after every processed block. */
  lemma ProcessBlockInv(s: Snapshot, extrinsics: nat, events: nat, now: int)
    requires Inv(s)
    ensures Inv(Initial)
    ensures Inv(ProcessBlockOn(s, extrinsics, events, now))
  {
    var t := s.(extrinsicCount := extrinsics, eventCount := events, lastBlockTime := now);
    DrawExtrinsicsInv(t);
    DrawEventsInv(DrawExtrinsicsOn(t));
  }

  /** The bookkeeping invariant survives every run of `processBlockDetails`, however it ends. */
  lemma BlockDetailsInv(s: Snapshot, outcome: BlockOutcome, now: int)
    requires Inv(s)
    ensures Inv(BlockDetailsOn(s, outcome, now))
  {
    if outcome.Completed? {
      ProcessBlockInv(s, outcome.extrinsics, outcome.events, now);
    }
  }

  /**
   * A run that stops after the block fetch writes the new extrinsic count
   * and the arrival time, keeps the previous block's event count, and
   * leaves the scene and both arrays as they were.
   */
  lemma StoppedBlockKeepsScene(s: Snapshot, extrinsics: nat, now: int)
    ensures var r := BlockDetailsOn(s, StoppedAfterBlock(extrinsics), now);
      && r.shapes == s.shapes && r.nextId == s.nextId
      && r.extrinsicCircles == s.extrinsicCircles && r.eventCircles == s.eventCircles
      && r.extrinsicCount == extrinsics && r.eventCount == s.eventCount
      && r.lastBlockTime == now
  {
  }

  /**
   * After a run that stopped after the block fetch, the next window resize
   * draws the new block's extrinsic ring beside the previous block's event
   * ring: E + V' + 2 circles, where V' is the old event count.
   */
  lemma StoppedBlockThenResize(s: Snapshot, extrinsics: nat, now: int)
    requires Inv(s)
    requires extrinsics > 0 && s.eventCount > 0
    ensures |RedrawOn(BlockDetailsOn(s, StoppedAfterBlock(extrinsics), now)).shapes|
      == extrinsics + s.eventCount + 2
  {
    var t := BlockDetailsOn(s, StoppedAfterBlock(extrinsics), now);
    assert Inv(t);
    RedrawCount(t);
  }

  /**
   * When both counts are positive, a redraw leaves exactly the circles it has
   * just drawn: E + 1 for the extrinsic ring and V + 1 for the event ring,
   * with no stale circle left behind.
   */
  lemma RedrawExact(s: Snapshot)
    requires Inv(s)
    requires s.extrinsicCount > 0 && s.eventCount > 0
    ensures RedrawOn(s).shapes == Elems(Ids(s.nextId, s.extrinsicCount + s.eventCount + 2))
  {
    var x := Ids(s.nextId, s.extrinsicCount + 1);
    var y := Ids(s.nextId + s.extrinsicCount + 1, s.eventCount + 1);
    FreshIds(s, s.extrinsicCount + 1);
    ReplaceTwice(s.shapes, Elems(s.extrinsicCircles), Elems(s.eventCircles), Elems(x), Elems(y));
    var m := DrawExtrinsicsOn(s);
    assert m.shapes == (s.shapes - Elems(s.extrinsicCircles)) + Elems(x);
    assert m.eventCircles == s.eventCircles && m.eventCount == s.eventCount;
    assert m.nextId == s.nextId + s.extrinsicCount + 1;
    assert DrawEventsOn(m).shapes == (m.shapes - Elems(m.eventCircles)) + Elems(y);
    IdsSplit(s.nextId, s.extrinsicCount + 1, s.eventCount + 1);
  }

  /**
   * Every circle of S is listed in A or B and the circles X are listed in
   * neither: removing A, adding X, removing B and adding Y leaves X and Y.
   */
  lemma ReplaceTwice(S: set<Handle>, A: set<Handle>, B: set<Handle>, X: set<Handle>, Y: set<Handle>)
    requires forall h :: h in S ==> h in A || h in B
    requires forall h :: h in X ==> h !in B
    ensures (((S - A) + X) - B) + Y == X + Y
  {
    assert forall h :: h in (((S - A) + X) - B) + Y <==> h in X + Y;
  }

  /** The same redraw, counted: E + V + 2 circles are drawn, however many redraws came before. */
  lemma RedrawCount(s: Snapshot)
    requires Inv(s)
    requires s.extrinsicCount > 0 && s.eventCount > 0
    ensures |RedrawOn(s).shapes| == s.extrinsicCount + s.eventCount + 2
  {
    var n := s.extrinsicCount + s.eventCount + 2;
    IdsCard(s.nextId, n);
    var e := Elems(Ids(s.nextId, n));
    assert |e| == n;
    RedrawExact(s);
    var r := RedrawOn(s);
    assert r.shapes == e;
    assert |r.shapes| == |e|;
  }

  /** A run of a + b handles is the run of the first a followed by the run of the next b. */
  lemma IdsSplit(lo: nat, a: nat, b: nat)
    ensures Elems(Ids(lo, a + b)) == Elems(Ids(lo, a)) + Elems(Ids(lo + a, b))
  {
    var all := Ids(lo, a + b);
    forall h | h in Elems(all) ensures h in Elems(Ids(lo, a)) + Elems(Ids(lo + a, b)) {
      var i :| 0 <= i < |all| && all[i] == h;
      if i < a {
        assert Ids(lo, a)[i] == h;
      } else {
        assert Ids(lo + a, b)[i - a] == h;
      }
    }
    forall h | h in Elems(Ids(lo, a)) + Elems(Ids(lo + a, b)) ensures h in Elems(all) {
      if h in Elems(Ids(lo, a)) {
        var i :| 0 <= i < a && Ids(lo, a)[i] == h;
        assert all[i] == h;
      } else {
        var i :| 0 <= i < b && Ids(lo + a, b)[i] == h;
        assert all[a + i] == h;
      }
    }
  }

  /**
   * Processing a block appends to `extrinsicCircles` E + 1 handles when there
   * are E > 0 extrinsics and V handles when there are V > 0 events, and to
   * `eventCircles` one handle when V > 0; neither array ever loses an entry.
   */
  lemma ProcessBlockGrowth(s: Snapshot, extrinsics: nat, events: nat, now: int)
    ensures var r := ProcessBlockOn(s, extrinsics, events, now);
      && |r.extrinsicCircles| == |s.extrinsicCircles| + (if extrinsics > 0 then extrinsics + 1 else 0) + events
      && r.extrinsicCircles[..|s.extrinsicCircles|] == s.extrinsicCircles
      && |r.eventCircles| == |s.eventCircles| + (if events > 0 then 1 else 0)
      && r.eventCircles[..|s.eventCircles|] == s.eventCircles
      && r.extrinsicCount == extrinsics && r.eventCount == events && r.lastBlockTime == now
  {
    var t := s.(extrinsicCount := extrinsics, eventCount := events, lastBlockTime := now);
    var m := DrawExtrinsicsOn(t);
    assert m.extrinsicCircles[..|s.extrinsicCircles|] == s.extrinsicCircles;
    var r := DrawEventsOn(m);
    assert r.extrinsicCircles[..|m.extrinsicCircles|] == m.extrinsicCircles;
    assert r.extrinsicCircles[..|s.extrinsicCircles|] == m.extrinsicCircles[..|s.extrinsicCircles|];
  }

  /**
   * A block with 3 extrinsics and 6 events, then one with no extrinsics and
   * 2 events: the second block does not remove the first block's extrinsic
   * ring nor its event dots (they are listed in `extrinsicCircles`, which is
   * not processed), so 13 circles stay drawn instead of the 3 of the new
   * event ring.
   */
  lemma StaleRingsExample()
    ensures var b1 := ProcessBlockOn(Initial, 3, 6, 0);
      var b2 := ProcessBlockOn(b1, 0, 2, 6000);
      && b1.shapes == Elems(Ids(0, 11))
      && b2.shapes == Elems(Ids(0, 4)) + Elems(Ids(5, 9))
      && |b2.shapes| == 13
  {
    FirstBlock();
    var b1 := ProcessBlockOn(Initial, 3, 6, 0);
    SecondBlock(b1);
    StaleSet();
    IdsDisjointCard(0, 4, 5, 9);
  }

  /** The circles left after the second block, as two runs of handles: 0..3 and 5..13. */
  lemma StaleSet()
    ensures (Elems(Ids(0, 11)) - {4}) + Elems(Ids(11, 3)) == Elems(Ids(0, 4)) + Elems(Ids(5, 9))
  {
    IdsSplit(0, 4, 7);
    IdsCons(4, 6);
    IdsSplit(5, 6, 3);
    assert 4 !in Elems(Ids(0, 4)) && 4 !in Elems(Ids(5, 6));
    RemoveMiddle(Elems(Ids(0, 4)), Elems(Ids(5, 6)), Elems(Ids(11, 3)), 4);
  }

  lemma RemoveMiddle(a: set<Handle>, b: set<Handle>, c: set<Handle>, x: Handle)
    requires x !in a && x !in b
    ensures ((a + ({x} + b)) - {x}) + c == a + (b + c)
  {
    assert forall h :: h in ((a + ({x} + b)) - {x}) + c <==> h in a + (b + c);
  }

  lemma FirstBlock()
    ensures var b1 := ProcessBlockOn(Initial, 3, 6, 0);
      && b1.shapes == Elems(Ids(0, 11))
      && b1.eventCircles == [4]
      && b1.nextId == 11
  {
    RedrawExact(Initial.(extrinsicCount := 3, eventCount := 6, lastBlockTime := 0));
  }

  lemma SecondBlock(b1: Snapshot)
    requires b1.shapes == Elems(Ids(0, 11)) && b1.eventCircles == [4] && b1.nextId == 11
    ensures ProcessBlockOn(b1, 0, 2, 6000).shapes == (Elems(Ids(0, 11)) - {4}) + Elems(Ids(11, 3))
  {
  }

  /** Two runs of handles lying apart. */
  lemma IdsDisjointCard(lo1: nat, n1: nat, lo2: nat, n2: nat)
    requires lo1 + n1 <= lo2
    ensures |Elems(Ids(lo1, n1)) + Elems(Ids(lo2, n2))| == n1 + n2
  {
    IdsCard(lo1, n1);
    IdsCard(lo2, n2);
    assert Elems(Ids(lo1, n1)) * Elems(Ids(lo2, n2)) == {};
  }

  /** The client object: its fields, the scene it draws into, and its methods. */
  class ChainSynth {
    const two: Scene
    var lastBlockTime: int
    var extrinsicCircles: seq<Handle>
    var eventCircles: seq<Handle>
    var extrinsicCount: nat
    var eventCount: nat

    /** The fields and the scene, read as one snapshot. */
    ghost function State(): Snapshot
      reads this, two
    {
      Snapshot(two.shapes, two.nextId, extrinsicCircles, eventCircles, extrinsicCount, eventCount, lastBlockTime)
    }

    constructor ()
      ensures State() == Initial && fresh(two)
    {
      two := new Scene();
      lastBlockTime := 0;
      extrinsicCircles := [];
      eventCircles := [];
      extrinsicCount := 0;
      eventCount := 0;
    }

    /** `drawExtrinsicOuterCircle`: one new circle, returned to the caller. */
    method DrawExtrinsicOuterCircle() returns (circle: Handle)
      modifies two
      ensures circle == old(two.nextId) && two.nextId == old(two.nextId) + 1
      ensures two.shapes == old(two.shapes) + {circle}
    {
      circle := two.MakeCircle();
    }

    /** `drawEventOuterCircle`: one new circle, returned to the caller. */
    method DrawEventOuterCircle() returns (circle: Handle)
      modifies two
      ensures circle == old(two.nextId) && two.nextId == old(two.nextId) + 1
      ensures two.shapes == old(two.shapes) + {circle}
    {
      circle := two.MakeCircle();
    }

    /** `this.xs.forEach((circle) => this.two.remove(circle))`. */
    method RemoveAll(xs: seq<Handle>)
      modifies two
      ensures two.shapes == old(two.shapes) - Elems(xs) && two.nextId == old(two.nextId)
    {
      var i := 0;
      while i < |xs|
        invariant 0 <= i <= |xs|
        invariant two.shapes == old(two.shapes) - Elems(xs[..i])
        invariant two.nextId == old(two.nextId)
      {
        assert Elems(xs[..i + 1]) == Elems(xs[..i]) + {xs[i]} by {
          assert xs[..i + 1] == xs[..i] + [xs[i]];
        }
        two.Remove(xs[i]);
        i := i + 1;
      }
      assert xs[..|xs|] == xs;
    }

    /**
     * The dot loop of both redraws: `count` new circles, each pushed onto
     * `extrinsicCircles` as it is drawn.
     */
    method DrawDots(count: nat)
      modifies two, this`extrinsicCircles
      ensures extrinsicCircles == old(extrinsicCircles) + Ids(old(two.nextId), count)
      ensures two.nextId == old(two.nextId) + count
      ensures two.shapes == old(two.shapes) + Elems(Ids(old(two.nextId), count))
    {
      ghost var base := two.nextId;
      var i := 0;
      while i < count
        invariant 0 <= i <= count
        invariant extrinsicCircles == old(extrinsicCircles) + Ids(base, i)
        invariant two.nextId == base + i
        invariant two.shapes == old(two.shapes) + Elems(Ids(base, i))
      {
        var circle := two.MakeCircle();
        assert Ids(base, i + 1) == Ids(base, i) + [circle];
        assert Elems(Ids(base, i + 1)) == Elems(Ids(base, i)) + {circle};
        extrinsicCircles := extrinsicCircles + [circle];
        i := i + 1;
      }
    }

    method DrawExtrinsics()
      modifies this, two
      ensures State() == DrawExtrinsicsOn(old(State()))
    {
      if extrinsicCount == 0 {
        return;
      }
      ghost var shapes0, listed0, next0 := two.shapes, extrinsicCircles, two.nextId;
      RemoveAll(extrinsicCircles);
      var outer := DrawExtrinsicOuterCircle();
      extrinsicCircles := extrinsicCircles + [outer];
      DrawDots(extrinsicCount);
      IdsCons(next0, extrinsicCount);
      assert extrinsicCircles == listed0 + Ids(next0, extrinsicCount + 1);
      UnionAssoc(shapes0 - Elems(listed0), {next0}, Elems(Ids(next0 + 1, extrinsicCount)));
      ghost var r := DrawExtrinsicsOn(old(State()));
      assert r.shapes == two.shapes && r.nextId == two.nextId;
      assert r.extrinsicCircles == extrinsicCircles && r.eventCircles == eventCircles;
    }

    method DrawEvents()
      modifies this, two
      ensures State() == DrawEventsOn(old(State()))
    {
      if eventCount == 0 {
        return;
      }
      ghost var shapes0, listed0, next0 := two.shapes, eventCircles, two.nextId;
      RemoveAll(eventCircles);
      var outer := DrawEventOuterCircle();
      eventCircles := eventCircles + [outer];
      DrawDots(eventCount);
      IdsCons(next0, eventCount);
      UnionAssoc(shapes0 - Elems(listed0), {next0}, Elems(Ids(next0 + 1, eventCount)));
      ghost var r := DrawEventsOn(old(State()));
      assert r.shapes == two.shapes && r.nextId == two.nextId;
      assert r.extrinsicCircles == extrinsicCircles && r.eventCircles == eventCircles;
    }

    /** `onWindowResize`: redraw both rings with the current counts. */
    method OnWindowResize()
      modifies this, two
      ensures State() == RedrawOn(old(State()))
    {
      DrawExtrinsics();
      DrawEvents();
    }

    /**
     * `processBlockDetails`, given how the run ends (with the fetched lengths
     * it got) and the clock reading taken after the block fetch.
     */
    method ProcessBlockDetails(outcome: BlockOutcome, now: int)
      modifies this, two
      ensures State() == BlockDetailsOn(old(State()), outcome, now)
    {
      if outcome.BlockRejected? {
        return;
      }
      extrinsicCount := outcome.extrinsics;
      lastBlockTime := now;
      if outcome.StoppedAfterBlock? {
        return;
      }
      eventCount := outcome.events;
      DrawExtrinsics();
      DrawEvents();
    }

    /** One tick of `updateProgress`: the percentage the indicator shows at time `now`. */
    method UpdateProgress(now: int) returns (progressPercent: real)
      ensures progressPercent <= 100.0
      ensures progressPercent == 100.0 <==> now - lastBlockTime >= Progress.BlockTimeMs
      ensures progressPercent == Progress.ProgressPercent(now, lastBlockTime)
    {
      var elapsed := Progress.Elapsed(now, lastBlockTime);
      progressPercent := (elapsed * 100) as real / Progress.BlockTimeMs as real;
    }
  }
}
