/**
 The bounding-box pass `calculateBoundingBox` with its inner `processCoords`.

 Four accumulators start at inverted sentinels and are folded over every
 coordinate pair found by a shape-driven descent of each feature's
 `coordinates` tree. The reference meaning of the fold is given by the sets
 `Lats` and `Lngs` of ordinates the descent visits: each accumulator ends as
 the maximum (or minimum) of its sentinel and the visited values.
 */
module Extent {
  import opened Wrappers
  import opened GeoJson

  /** The four running extrema, and the shape of the returned box. */
  datatype Box = Box(north: real, south: real, east: real, west: real)

  /** Inverted starting values: north and east start at the lowest legal
      ordinate, south and west at the highest. */
  const Sentinels: Box := Box(-90.0, 90.0, -180.0, 180.0)

  /** The leaf test: the first element is a number and there are at least two. */
  predicate IsPair(es: seq<J>)
  {
    |es| >= 2 && es[0].JNum?
  }

  /** One leaf visit. Only the first two elements are read. A latitude that is
      not a number compares false against every accumulator and moves nothing. */
  function VisitPair(acc: Box, lng: real, lat: J): Box
  {
    var north := if lat.JNum? && lat.n > acc.north then lat.n else acc.north;
    var south := if lat.JNum? && lat.n < acc.south then lat.n else acc.south;
    var east := if lng > acc.east then lng else acc.east;
    var west := if lng < acc.west then lng else acc.west;
    Box(north, south, east, west)
  }

  // ---------------------------------------------------------------------------
  // Reference meaning: which ordinates the descent visits

  /** The latitude a pair contributes: its second element, when that is a number. */
  ghost function PairLats(es: seq<J>): set<real>
    requires IsPair(es)
  {
    if es[1].JNum? then {es[1].n} else {}
  }

  /** Every latitude the descent of `j` visits. */
  ghost function Lats(j: J): set<real>
  {
    match j
    case JArr(es) => if IsPair(es) then PairLats(es) else LatsOfSeq(es)
    case _ => {}
  }

  ghost function LatsOfSeq(es: seq<J>): set<real>
  {
    set e, x | e in es && x in Lats(e) :: x
  }

  /** Every longitude the descent of `j` visits. */
  ghost function Lngs(j: J): set<real>
  {
    match j
    case JArr(es) => if IsPair(es) then {es[0].n} else LngsOfSeq(es)
    case _ => {}
  }

  ghost function LngsOfSeq(es: seq<J>): set<real>
  {
    set e, x | e in es && x in Lngs(e) :: x
  }

  /** Ordinates visited over a whole feature sequence; a feature without a
      geometry or without coordinates contributes none. */
  ghost function FeatureLats(f: Feature): set<real>
  {
    match CoordinatesOf(f)
    case None => {}
    case Some(c) => Lats(c)
  }

  ghost function FeatureLngs(f: Feature): set<real>
  {
    match CoordinatesOf(f)
    case None => {}
    case Some(c) => Lngs(c)
  }

  ghost function AllLats(fs: seq<Feature>): set<real>
  {
    set f, x | f in fs && x in FeatureLats(f) :: x
  }

  ghost function AllLngs(fs: seq<Feature>): set<real>
  {
    set f, x | f in fs && x in FeatureLngs(f) :: x
  }

  /** `m` is the largest of `init` and the values in `s`. */
  ghost predicate IsMaxOf(m: real, init: real, s: set<real>)
  {
    && m >= init
    && (forall x :: x in s ==> m >= x)
    && (m == init || m in s)
  }

  /** `m` is the smallest of `init` and the values in `s`. */
  ghost predicate IsMinOf(m: real, init: real, s: set<real>)
  {
    && m <= init
    && (forall x :: x in s ==> m <= x)
    && (m == init || m in s)
  }

  /** `r` is what folding the latitudes `lats` and longitudes `lngs` into the
      accumulators `acc` must give. */
  ghost predicate Folded(r: Box, acc: Box, lats: set<real>, lngs: set<real>)
  {
    && IsMaxOf(r.north, acc.north, lats)
    && IsMinOf(r.south, acc.south, lats)
    && IsMaxOf(r.east, acc.east, lngs)
    && IsMinOf(r.west, acc.west, lngs)
  }

  lemma FoldedCompose(acc: Box, mid: Box, r: Box, lats1: set<real>, lngs1: set<real>, lats2: set<real>, lngs2: set<real>)
    requires Folded(mid, acc, lats1, lngs1)
    requires Folded(r, mid, lats2, lngs2)
    ensures Folded(r, acc, lats1 + lats2, lngs1 + lngs2)
  {
  }

  /** The fold's result is determined by the visited sets alone. */
  lemma FoldedUnique(acc: Box, r1: Box, r2: Box, lats: set<real>, lngs: set<real>)
    requires Folded(r1, acc, lats, lngs)
    requires Folded(r2, acc, lats, lngs)
    ensures r1 == r2
  {
  }

  // ---------------------------------------------------------------------------
  // The traversal

  /** `processCoords`: a falsy or non-array node is skipped, a pair is
      visited, any other array is walked element by element, in order. */
  function ProcessCoords(j: J, acc: Box): (r: Box)
    ensures Folded(r, acc, Lats(j), Lngs(j))
  {
    match j
    case JArr(es) =>
      if IsPair(es) then VisitPair(acc, es[0].n, es[1])
      else
        var r := ProcessEach(es, acc);
        assert Lats(j) == LatsOfSeq(es) && Lngs(j) == LngsOfSeq(es);
        r
    case _ => acc
  }

  /** `coords.forEach(coord => processCoords(coord))`. */
  function ProcessEach(es: seq<J>, acc: Box): (r: Box)
    ensures Folded(r, acc, LatsOfSeq(es), LngsOfSeq(es))
  {
    if es == [] then acc
    else
      var mid := ProcessCoords(es[0], acc);
      var r := ProcessEach(es[1..], mid);
      SplitSeq(es);
      FoldedCompose(acc, mid, r, Lats(es[0]), Lngs(es[0]), LatsOfSeq(es[1..]), LngsOfSeq(es[1..]));
      r
  }

  lemma SplitSeq(es: seq<J>)
    requires es != []
    ensures LatsOfSeq(es) == Lats(es[0]) + LatsOfSeq(es[1..])
    ensures LngsOfSeq(es) == Lngs(es[0]) + LngsOfSeq(es[1..])
  {
    assert forall e :: e in es <==> e == es[0] || e in es[1..];
  }

  /** `geoJson.features.forEach(...)`: only features whose geometry and
      coordinates are both present are descended into. */
  function ProcessFeatures(fs: seq<Feature>, acc: Box): (r: Box)
    ensures Folded(r, acc, AllLats(fs), AllLngs(fs))
  {
    if fs == [] then acc
    else
      var mid := match CoordinatesOf(fs[0]) case None => acc case Some(c) => ProcessCoords(c, acc);
      var r := ProcessFeatures(fs[1..], mid);
      SplitFeatures(fs);
      FoldedCompose(acc, mid, r, FeatureLats(fs[0]), FeatureLngs(fs[0]), AllLats(fs[1..]), AllLngs(fs[1..]));
      r
  }

  lemma SplitFeatures(fs: seq<Feature>)
    requires fs != []
    ensures AllLats(fs) == FeatureLats(fs[0]) + AllLats(fs[1..])
    ensures AllLngs(fs) == FeatureLngs(fs[0]) + AllLngs(fs[1..])
  {
    assert forall f :: f in fs <==> f == fs[0] || f in fs[1..];
    forall x | x in AllLats(fs) ensures x in FeatureLats(fs[0]) + AllLats(fs[1..]) {
      var f :| f in fs && x in FeatureLats(f);
    }
    forall x | x in FeatureLats(fs[0]) + AllLats(fs[1..]) ensures x in AllLats(fs) {
      if x !in FeatureLats(fs[0]) {
        var f :| f in fs[1..] && x in FeatureLats(f);
        assert f in fs;
      }
    }
    forall x | x in AllLngs(fs) ensures x in FeatureLngs(fs[0]) + AllLngs(fs[1..]) {
      var f :| f in fs && x in FeatureLngs(f);
    }
    forall x | x in FeatureLngs(fs[0]) + AllLngs(fs[1..]) ensures x in AllLngs(fs) {
      if x !in FeatureLngs(fs[0]) {
        var f :| f in fs[1..] && x in FeatureLngs(f);
        assert f in fs;
      }
    }
  }

  /** `calculateBoundingBox`: fold from the sentinels, then report `null` when
      north and south are both still at their sentinels. */
  function CalculateBoundingBox(fc: FeatureCollection): (r: Option<Box>)
    ensures r.None? <==> AllLats(fc.features) == {}
    ensures r.Some? ==> Folded(r.value, Sentinels, AllLats(fc.features), AllLngs(fc.features))
    ensures r.Some? ==> r.value.north >= r.value.south && r.value.east >= r.value.west
  {
    var b := ProcessFeatures(fc.features, Sentinels);
    if b.north == -90.0 && b.south == 90.0 then None
    else
      LatImpliesLng(fc.features);
      Some(b)
  }

  // ---------------------------------------------------------------------------
  // Properties

  /** A node that visits a latitude also visits some longitude. */
  lemma {:induction false} LatImpliesLngNode(j: J, x: real)
    requires x in Lats(j)
    ensures Lngs(j) != {}
  {
    match j
    case JArr(es) =>
      if IsPair(es) {
        assert es[0].n in Lngs(j);
      } else {
        var e :| e in es && x in Lats(e);
        LatImpliesLngNode(e, x);
        var y :| y in Lngs(e);
        assert y in LngsOfSeq(es);
      }
  }

  lemma LatImpliesLng(fs: seq<Feature>)
    ensures AllLats(fs) != {} ==> AllLngs(fs) != {}
  {
    if AllLats(fs) != {} {
      var x :| x in AllLats(fs);
      var f :| f in fs && x in FeatureLats(f);
      var c := CoordinatesOf(f).value;
      LatImpliesLngNode(c, x);
      var y :| y in Lngs(c);
      assert y in FeatureLngs(f);
    }
  }

  /** Every pair reachable by the descent has a numeric latitude. */
  ghost predicate NumericPairs(j: J)
  {
    match j
    case JArr(es) => if IsPair(es) then es[1].JNum? else forall e :: e in es ==> NumericPairs(e)
    case _ => true
  }

  ghost predicate AllNumericPairs(fs: seq<Feature>)
  {
    forall f :: f in fs && CoordinatesOf(f).Some? ==> NumericPairs(CoordinatesOf(f).value)
  }

  lemma {:induction false} LngImpliesLatNode(j: J, y: real)
    requires NumericPairs(j)
    requires y in Lngs(j)
    ensures Lats(j) != {}
  {
    match j
    case JArr(es) =>
      if IsPair(es) {
        assert es[1].n in Lats(j);
      } else {
        var e :| e in es && y in Lngs(e);
        LngImpliesLatNode(e, y);
        var x :| x in Lats(e);
        assert x in LatsOfSeq(es);
      }
  }

  /** With numeric latitudes throughout, the result is `null` exactly when no
      coordinate pair was visited at all. */
  lemma NullIffNoPairVisited(fc: FeatureCollection)
    requires AllNumericPairs(fc.features)
    ensures CalculateBoundingBox(fc).None? <==> AllLngs(fc.features) == {}
  {
    LatImpliesLng(fc.features);
    if AllLngs(fc.features) != {} {
      var y :| y in AllLngs(fc.features);
      var f :| f in fc.features && y in FeatureLngs(f);
      LngImpliesLatNode(CoordinatesOf(f).value, y);
      var x :| x in Lats(CoordinatesOf(f).value);
      assert x in FeatureLats(f);
      assert x in AllLats(fc.features);
    }
  }

  /** For ordinates inside the legal ranges the sentinels never win: each
      bound of a non-null result is a visited ordinate, so the box is the
      exact extent of the data. */
  lemma InRangeIsExact(fc: FeatureCollection)
    requires forall x :: x in AllLats(fc.features) ==> -90.0 <= x <= 90.0
    requires forall x :: x in AllLngs(fc.features) ==> -180.0 <= x <= 180.0
    ensures var r := CalculateBoundingBox(fc);
      r.Some? ==>
        && r.value.north in AllLats(fc.features) && r.value.south in AllLats(fc.features)
        && r.value.east in AllLngs(fc.features) && r.value.west in AllLngs(fc.features)
  {
    var r := CalculateBoundingBox(fc);
    if r.Some? {
      var b, lats, lngs := r.value, AllLats(fc.features), AllLngs(fc.features);
      assert Folded(b, Sentinels, lats, lngs);
      LatImpliesLng(fc.features);
      var x :| x in lats;
      var y :| y in lngs;
      assert b.north == -90.0 ==> b.north == x;
      assert b.south == 90.0 ==> b.south == x;
      assert b.east == -180.0 ==> b.east == y;
      assert b.west == 180.0 ==> b.west == y;
    }
  }

  /** Only indices 0 and 1 of a pair are read: trailing values (an altitude)
      change nothing. */
  lemma AltitudeIgnored(lng: real, lat: J, rest: seq<J>, acc: Box)
    ensures ProcessCoords(JArr([JNum(lng), lat] + rest), acc) == ProcessCoords(JArr([JNum(lng), lat]), acc)
  {
  }

  /** A number, a non-array value, an empty array and a one-number array
      contribute nothing. */
  lemma NonPairsContributeNothing(x: real, acc: Box)
    ensures ProcessCoords(JNum(x), acc) == acc
    ensures ProcessCoords(JOther, acc) == acc
    ensures ProcessCoords(JArr([]), acc) == acc
    ensures ProcessCoords(JArr([JNum(x)]), acc) == acc
  {
    assert ProcessEach([JNum(x)], acc) == ProcessEach([], acc);
  }

  /** Reordering the features never changes the result. */
  lemma FeatureOrderIrrelevant(fs1: seq<Feature>, fs2: seq<Feature>)
    requires multiset(fs1) == multiset(fs2)
    ensures CalculateBoundingBox(FeatureCollection(fs1)) == CalculateBoundingBox(FeatureCollection(fs2))
  {
    assert forall f :: f in fs1 <==> f in fs2 by {
      forall f ensures f in fs1 <==> f in fs2 {
        assert f in fs1 <==> f in multiset(fs1);
        assert f in fs2 <==> f in multiset(fs2);
      }
    }
    assert AllLats(fs1) == AllLats(fs2);
    assert AllLngs(fs1) == AllLngs(fs2);
    FoldedUnique(Sentinels, ProcessFeatures(fs1, Sentinels), ProcessFeatures(fs2, Sentinels), AllLats(fs1), AllLngs(fs1));
  }

  /** Reordering the elements of a nested array never changes the result,
      provided neither order makes the array itself a pair. */
  lemma NestedOrderIrrelevant(es1: seq<J>, es2: seq<J>, acc: Box)
    requires !IsPair(es1) && !IsPair(es2)
    requires multiset(es1) == multiset(es2)
    ensures ProcessCoords(JArr(es1), acc) == ProcessCoords(JArr(es2), acc)
  {
    assert forall e :: e in es1 <==> e in es2 by {
      forall e ensures e in es1 <==> e in es2 {
        assert e in es1 <==> e in multiset(es1);
        assert e in es2 <==> e in multiset(es2);
      }
    }
    assert LatsOfSeq(es1) == LatsOfSeq(es2);
    assert LngsOfSeq(es1) == LngsOfSeq(es2);
    FoldedUnique(acc, ProcessCoords(JArr(es1), acc), ProcessCoords(JArr(es2), acc), Lats(JArr(es1)), Lngs(JArr(es1)));
  }

  /** The proviso above is needed: moving a number to the front of an array
      turns it into a pair, whose second element is then not a number. */
  lemma ReorderCanMakePair()
    ensures var inner := JArr([JNum(1.0), JNum(2.0)]);
      && ProcessCoords(JArr([inner, JNum(5.0)]), Sentinels) == Box(2.0, 2.0, 1.0, 1.0)
      && ProcessCoords(JArr([JNum(5.0), inner]), Sentinels) == Box(-90.0, 90.0, 5.0, 5.0)
  {
    var inner := JArr([JNum(1.0), JNum(2.0)]);
    assert ProcessEach([JNum(5.0)], Box(2.0, 2.0, 1.0, 1.0)) == Box(2.0, 2.0, 1.0, 1.0) by {
      assert [JNum(5.0)][1..] == [];
    }
  }

  /** A feature with no geometry, or a geometry with no `coordinates`, adds nothing. */
  lemma UncoordinatedFeatureIgnored(fs: seq<Feature>, f: Feature)
    requires CoordinatesOf(f).None?
    ensures CalculateBoundingBox(FeatureCollection(fs + [f])) == CalculateBoundingBox(FeatureCollection(fs))
  {
    var gs := fs + [f];
    assert forall g :: g in gs <==> g in fs || g == f;
    assert AllLats(gs) == AllLats(fs);
    assert AllLngs(gs) == AllLngs(fs);
    FoldedUnique(Sentinels, ProcessFeatures(gs, Sentinels), ProcessFeatures(fs, Sentinels), AllLats(fs), AllLngs(fs));
  }

  function PointFeature(lng: real, lat: real): Feature
  {
    Feature(Some(Geometry("Point", Some(JArr([JNum(lng), JNum(lat)])))))
  }

  /** A lone point gives a zero-area box; out of range, the sentinels take
      part in the fold (a lone point at longitude 200 gives west = 180). */
  lemma PointExamples()
    ensures CalculateBoundingBox(FeatureCollection([PointFeature(10.0, 20.0)])) == Some(Box(20.0, 20.0, 10.0, 10.0))
    ensures CalculateBoundingBox(FeatureCollection([PointFeature(200.0, 0.0)])) == Some(Box(0.0, 0.0, 200.0, 180.0))
  {
    assert [PointFeature(10.0, 20.0)][1..] == [];
    assert [PointFeature(200.0, 0.0)][1..] == [];
  }

  function Pt(lng: real, lat: real): J
  {
    JArr([JNum(lng), JNum(lat)])
  }

  /** The closed ring (0,0) (0,10) (10,10) (10,0) (0,0). */
  const SquareRing: seq<J> := [Pt(0.0, 0.0), Pt(0.0, 10.0), Pt(10.0, 10.0), Pt(10.0, 0.0), Pt(0.0, 0.0)]

  lemma SquareRingFold()
    ensures ProcessEach(SquareRing, Sentinels) == Box(10.0, 0.0, 10.0, 0.0)
  {
    var es := SquareRing;
    var b := Box(10.0, 0.0, 10.0, 0.0);
    assert ProcessEach(es[4..], b) == b by { assert es[4..][1..] == []; }
    assert ProcessEach(es[3..], b) == b by { assert es[3..][1..] == es[4..]; }
    assert ProcessEach(es[2..], Box(10.0, 0.0, 0.0, 0.0)) == b by { assert es[2..][1..] == es[3..]; }
    assert ProcessEach(es[1..], Box(0.0, 0.0, 0.0, 0.0)) == b by { assert es[1..][1..] == es[2..]; }
  }

  lemma SquarePolygonFold()
    ensures ProcessCoords(JArr([JArr(SquareRing)]), Sentinels) == Box(10.0, 0.0, 10.0, 0.0)
  {
    var b := Box(10.0, 0.0, 10.0, 0.0);
    assert ProcessCoords(JArr(SquareRing), Sentinels) == b by {
      SquareRingFold();
      assert !IsPair(SquareRing);
    }
    var rings := [JArr(SquareRing)];
    assert !IsPair(rings);
    assert ProcessCoords(JArr(rings), Sentinels) == ProcessEach(rings, Sentinels);
    assert ProcessEach(rings, Sentinels) == ProcessEach(rings[1..], b);
    assert ProcessEach(rings[1..], b) == b by { assert rings[1..] == []; }
  }

  /** A square Polygon gives its exact extent. */
  lemma PolygonExample()
    ensures CalculateBoundingBox(FeatureCollection([Feature(Some(Geometry("Polygon", Some(JArr([JArr(SquareRing)])))))]))
        == Some(Box(10.0, 0.0, 10.0, 0.0))
  {
    var b := Box(10.0, 0.0, 10.0, 0.0);
    var fs := [Feature(Some(Geometry("Polygon", Some(JArr([JArr(SquareRing)])))))];
    SquarePolygonFold();
    assert ProcessFeatures(fs[1..], b) == b by { assert fs[1..] == []; }
  }
}
