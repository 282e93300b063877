/** Ray casting over exact coordinates. */
module Geo {
  datatype Point = Point(lat: real, lng: real)

  // ----- One edge -----

  /** The edge from a to b is crossed by the ray from p towards greater latitudes. */
  predicate Crosses(p: Point, a: Point, b: Point) {
    && (a.lng > p.lng) != (b.lng > p.lng)
    && p.lat < (b.lat - a.lat) * (p.lng - a.lng) / (b.lng - a.lng) + a.lat
  }

  /** Twice the signed area of the triangle a, b, p: positive where p lies on one side of the line, negative on the other. */
  function Area(a: Point, b: Point, p: Point): real {
    (b.lat - p.lat) * (p.lng - a.lng) + (a.lat - p.lat) * (b.lng - p.lng)
  }

  lemma Divided(x: real, y: real, d: real)
    requires d > 0.0
    ensures 0.0 < x / d + y <==> 0.0 < x + y * d
  {
    var q := x / d;
    assert q * d == x;
    assert (q + y) * d == x + y * d;
    if q + y > 0.0 {
      Positive(q + y, d);
    } else if q + y < 0.0 {
      Positive(-(q + y), d);
      assert -(q + y) * d == -(x + y * d);
    } else {
      assert (q + y) * d == 0.0;
    }
  }

  lemma Positive(x: real, y: real)
    requires x > 0.0 && y > 0.0
    ensures x * y > 0.0
  {
  }

  lemma NotNegative(x: real, y: real)
    requires x >= 0.0 && y >= 0.0
    ensures x * y >= 0.0
  {
  }

  lemma AreaExpands(a: Point, b: Point, p: Point)
    ensures Area(a, b, p) == (b.lat - a.lat) * (p.lng - a.lng) + (a.lat - p.lat) * (b.lng - a.lng)
  {
  }

  lemma AreaTurns(a: Point, b: Point, p: Point)
    ensures Area(b, a, p) == -Area(a, b, p)
  {
  }

  lemma NegatedQuotient(x: real, d: real)
    requires d != 0.0
    ensures x / d == (-x) / (-d)
  {
    var q := x / d;
    assert q * d == x;
    assert q * (-d) == -x;
  }

  /** An edge counts exactly where its ends lie on different sides of the ray's line and p lies below it. */
  lemma CrossesBySide(p: Point, a: Point, b: Point)
    ensures a.lng <= p.lng < b.lng ==> (Crosses(p, a, b) <==> Area(a, b, p) > 0.0)
    ensures b.lng <= p.lng < a.lng ==> (Crosses(p, a, b) <==> Area(a, b, p) < 0.0)
    ensures (a.lng > p.lng) == (b.lng > p.lng) ==> !Crosses(p, a, b)
  {
    var x, d, y := (b.lat - a.lat) * (p.lng - a.lng), b.lng - a.lng, a.lat - p.lat;
    AreaExpands(a, b, p);
    if a.lng <= p.lng < b.lng {
      Divided(x, y, d);
    } else if b.lng <= p.lng < a.lng {
      NegatedQuotient(x, d);
      Divided(-x, y, -d);
      assert y * (-d) == -(y * d);
    }
  }

  /** The direction of an edge does not matter. */
  lemma CrossesIsSymmetric(p: Point, a: Point, b: Point)
    ensures Crosses(p, a, b) == Crosses(p, b, a)
  {
    CrossesBySide(p, a, b);
    CrossesBySide(p, b, a);
    AreaTurns(a, b, p);
  }

  // ----- Paths and rings -----

  /** Whether an odd number of the path's edges are crossed. */
  predicate Odd(p: Point, path: seq<Point>) {
    if |path| < 2 then false
    else Odd(p, path[..|path| - 1]) != Crosses(p, path[|path| - 1], path[|path| - 2])
  }

  function Ring(polygon: seq<Point>): seq<Point>
    requires polygon != []
  {
    polygon + [polygon[0]]
  }

  predicate InPolygon(p: Point, polygon: seq<Point>) {
    polygon != [] && Odd(p, Ring(polygon))
  }

  lemma {:induction false} Joined(p: Point, s: seq<Point>, v: Point, t: seq<Point>)
    ensures Odd(p, s + [v] + t) == (Odd(p, s + [v]) != Odd(p, [v] + t))
  {
    if t == [] {
      assert s + [v] + t == s + [v];
      assert [v] + t == [v];
    } else {
      var front, last := t[..|t| - 1], t[|t| - 1];
      Joined(p, s, v, front);
      var whole, part := s + [v] + t, [v] + t;
      assert whole[..|whole| - 1] == s + [v] + front && part[..|part| - 1] == [v] + front;
    }
  }

  lemma OddEdge(p: Point, a: Point, b: Point)
    ensures Odd(p, [a, b]) == Crosses(p, a, b)
  {
    assert [a, b][..1] == [a];
    CrossesIsSymmetric(p, a, b);
  }

  /** Where the listing of the vertices starts does not matter. */
  lemma RotationKeepsAnswer(p: Point, u: seq<Point>, w: seq<Point>)
    ensures InPolygon(p, u + w) == InPolygon(p, w + u)
  {
    if u == [] || w == [] {
      assert u + w == w + u;
    } else {
      RotatedRing(p, u, w);
      RotatedRing(p, w, u);
    }
  }

  lemma RotatedRing(p: Point, u: seq<Point>, w: seq<Point>)
    requires u != [] && w != []
    ensures InPolygon(p, u + w) == (Odd(p, u + [w[0]]) != Odd(p, w + [u[0]]))
  {
    var rest := w[1..] + [u[0]];
    assert Ring(u + w) == u + [w[0]] + rest;
    assert [w[0]] + rest == w + [u[0]];
    Joined(p, u, w[0], rest);
  }

  function Reversed(s: seq<Point>): (r: seq<Point>)
    ensures |r| == |s|
  {
    if s == [] then [] else [s[|s| - 1]] + Reversed(s[..|s| - 1])
  }

  lemma {:induction false} ReversedPath(p: Point, path: seq<Point>)
    ensures Odd(p, Reversed(path)) == Odd(p, path)
  {
    if |path| >= 2 {
      var front, u, v := path[..|path| - 1], path[|path| - 2], path[|path| - 1];
      ReversedPath(p, front);
      var rest := Reversed(front[..|front| - 1]);
      assert Reversed(front) == [u] + rest;
      assert Reversed(path) == [v] + [u] + rest;
      Joined(p, [v], u, rest);
      assert [v] + [u] == [v, u];
      OddEdge(p, v, u);
    } else if |path| == 1 {
      assert Reversed(path[..0]) == [];
    }
  }

  lemma {:induction false} ReversedFront(v: Point, s: seq<Point>)
    ensures Reversed([v] + s) == Reversed(s) + [v]
  {
    var whole := [v] + s;
    if s != [] {
      ReversedFront(v, s[..|s| - 1]);
      assert whole[..|whole| - 1] == [v] + s[..|s| - 1];
    } else {
      assert whole == [v];
      assert [v][..0] == [];
    }
  }

  /** Listing the vertices the other way round does not matter. */
  lemma ReversalKeepsAnswer(p: Point, polygon: seq<Point>)
    ensures InPolygon(p, Reversed(polygon)) == InPolygon(p, polygon)
  {
    if polygon != [] {
      var first, rest := polygon[0], Reversed(polygon[1..]);
      assert polygon == [first] + polygon[1..];
      ReversedFront(first, polygon[1..]);
      ReversedPath(p, Ring(polygon));
      assert Ring(polygon)[..|polygon|] == polygon;
      assert Reversed(Ring(polygon)) == [first] + (rest + [first]);
      assert Ring([first] + rest) == [first] + (rest + [first]);
      RotationKeepsAnswer(p, rest, [first]);
    }
  }

  // ----- Cutting a polygon -----

  /** Cutting at two vertices x and y: the two parts' answers differ exactly where the whole says inside. */
  lemma CutAtVertices(p: Point, a: seq<Point>, x: Point, b: seq<Point>, y: Point, c: seq<Point>)
    ensures InPolygon(p, a + [x] + b + [y] + c) == (InPolygon(p, [x] + b + [y]) != InPolygon(p, [y] + c + a + [x]))
  {
    var u, w := [x] + b, [y] + c + a;
    assert a + [x] + b + [y] + c == a + ([x] + b + [y] + c);
    RotationKeepsAnswer(p, a, [x] + b + [y] + c);
    assert [x] + b + [y] + c + a == u + w;
    RotatedRing(p, u, w);
    Closing(p, u, y);
    Closing(p, w, x);
    CrossesIsSymmetric(p, x, y);
  }

  /** A path closed by the edge from its end to its start. */
  lemma Closing(p: Point, u: seq<Point>, y: Point)
    requires u != []
    ensures InPolygon(p, u + [y]) == (Odd(p, u + [y]) != Crosses(p, y, u[0]))
  {
    assert Ring(u + [y]) == u + [y] + [u[0]];
    Joined(p, u, y, [u[0]]);
    assert [y] + [u[0]] == [y, u[0]];
    OddEdge(p, y, u[0]);
  }

  /** Cutting along the diagonal from vertex i to vertex j, whether or not it runs inside the polygon. */
  lemma CutAlongDiagonal(p: Point, polygon: seq<Point>, i: nat, j: nat)
    requires i < j < |polygon|
    ensures InPolygon(p, polygon) == (InPolygon(p, polygon[i..j + 1]) != InPolygon(p, polygon[j..] + polygon[..i + 1]))
  {
    var a, b, c := polygon[..i], polygon[i + 1..j], polygon[j + 1..];
    var x, y := polygon[i], polygon[j];
    assert polygon == a + [x] + b + [y] + c;
    assert polygon[i..j + 1] == [x] + b + [y];
    assert polygon[j..] + polygon[..i + 1] == [y] + c + a + [x];
    CutAtVertices(p, a, x, b, y, c);
  }

  // ----- The fan of triangles -----

  /** How the answers for the triangles from the first vertex combine: odd many of them. */
  predicate OddTriangles(p: Point, polygon: seq<Point>)
    requires |polygon| >= 2
    decreases |polygon|
  {
    if |polygon| == 2 then false
    else OddTriangles(p, polygon[..|polygon| - 1]) != InPolygon(p, [polygon[0], polygon[|polygon| - 2], polygon[|polygon| - 1]])
  }

  /** A polygon holds p exactly where an odd number of its fan triangles do. */
  lemma {:induction false} FanDecidesPolygon(p: Point, polygon: seq<Point>)
    requires |polygon| >= 2
    ensures InPolygon(p, polygon) == OddTriangles(p, polygon)
    decreases |polygon|
  {
    if |polygon| == 2 {
      TwoVerticesHoldNothing(p, polygon);
    } else {
      FanDecidesPolygon(p, polygon[..|polygon| - 1]);
      CutOffLast(p, polygon);
    }
  }

  /** The last vertex stands on the triangle it forms with its two neighbours. */
  lemma CutOffLast(p: Point, polygon: seq<Point>)
    requires |polygon| >= 3
    ensures InPolygon(p, polygon)
         == (InPolygon(p, polygon[..|polygon| - 1]) != InPolygon(p, [polygon[0], polygon[|polygon| - 2], polygon[|polygon| - 1]]))
  {
    var n := |polygon|;
    CutAlongDiagonal(p, polygon, 0, n - 2);
    assert polygon[0..n - 2 + 1] == polygon[..n - 1];
    LastTriangle(p, polygon);
  }

  lemma LastTriangle(p: Point, polygon: seq<Point>)
    requires |polygon| >= 3
    ensures var n := |polygon|;
      InPolygon(p, polygon[n - 2..] + polygon[..0 + 1]) == InPolygon(p, [polygon[0], polygon[n - 2], polygon[n - 1]])
  {
    var n := |polygon|;
    var first, others := [polygon[0]], [polygon[n - 2], polygon[n - 1]];
    assert polygon[n - 2..] + polygon[..0 + 1] == others + first;
    assert [polygon[0], polygon[n - 2], polygon[n - 1]] == first + others;
    RotationKeepsAnswer(p, first, others);
  }

  /** Fewer than three vertices hold no point, with or without the guard at the start of the algorithm. */
  lemma TwoVerticesHoldNothing(p: Point, polygon: seq<Point>)
    requires |polygon| <= 2
    ensures !InPolygon(p, polygon)
  {
    if |polygon| == 1 {
      var a := polygon[0];
      assert Ring(polygon) == [a, a];
      OddEdge(p, a, a);
    } else if |polygon| == 2 {
      var a, b := polygon[0], polygon[1];
      assert polygon == [a] + [b];
      Closing(p, [a], b);
      assert [a] + [b] == [a, b];
      OddEdge(p, a, b);
      CrossesIsSymmetric(p, a, b);
    }
  }

  // ----- Triangles -----

  /** p lies strictly inside the triangle: on the same side of all three edges. */
  predicate StrictlyInside(p: Point, a: Point, b: Point, c: Point) {
    || (Area(a, b, p) > 0.0 && Area(b, c, p) > 0.0 && Area(c, a, p) > 0.0)
    || (Area(a, b, p) < 0.0 && Area(b, c, p) < 0.0 && Area(c, a, p) < 0.0)
  }

  /** The areas, as weights of the opposite vertices, balance at p. */
  lemma Balance(p: Point, a: Point, b: Point, c: Point)
    ensures Area(b, c, p) * (a.lng - p.lng) + Area(c, a, p) * (b.lng - p.lng) + Area(a, b, p) * (c.lng - p.lng) == 0.0
  {
    BalanceOf(a.lat - p.lat, a.lng - p.lng, b.lat - p.lat, b.lng - p.lng, c.lat - p.lat, c.lng - p.lng);
  }

  lemma BalanceOf(a: real, x: real, b: real, y: real, c: real, z: real)
    ensures (c * -y + b * z) * x + (a * -z + c * x) * y + (b * -x + a * y) * z == 0.0
  {
    assert (c * -y + b * z) * x == b * z * x - c * y * x;
    assert (a * -z + c * x) * y == c * x * y - a * z * y;
    assert (b * -x + a * y) * z == a * y * z - b * x * z;
    assert c * y * x == c * x * y;
    assert b * z * x == b * x * z;
    assert a * z * y == a * y * z;
  }

  lemma TriangleAnswer(p: Point, a: Point, b: Point, c: Point)
    ensures InPolygon(p, [a, b, c]) == ((Crosses(p, a, b) != Crosses(p, b, c)) != Crosses(p, c, a))
  {
    assert [a, b, c] == [a, b] + [c];
    Closing(p, [a, b], c);
    assert [a, b, c] == [a] + [b] + [c];
    Joined(p, [a], b, [c]);
    assert [a] + [b] == [a, b] && [b] + [c] == [b, c];
    OddEdge(p, a, b);
    OddEdge(p, b, c);
  }

  /** With a alone beyond p's line, the far edge follows the two near ones. */
  lemma LoneVertex(p: Point, a: Point, b: Point, c: Point)
    requires Area(a, b, p) != 0.0 && Area(b, c, p) != 0.0 && Area(c, a, p) != 0.0
    requires (a.lng > p.lng && b.lng <= p.lng && c.lng <= p.lng) || (a.lng <= p.lng && b.lng > p.lng && c.lng > p.lng)
    ensures Area(a, b, p) > 0.0 && Area(c, a, p) > 0.0 ==> Area(b, c, p) > 0.0
    ensures Area(a, b, p) < 0.0 && Area(c, a, p) < 0.0 ==> Area(b, c, p) < 0.0
  {
    Balance(p, a, b, c);
    SignFollows(Area(b, c, p), a.lng - p.lng, Area(c, a, p), b.lng - p.lng, Area(a, b, p), c.lng - p.lng);
  }

  lemma SignFollows(f: real, x: real, u: real, y: real, v: real, z: real)
    requires f * x + u * y + v * z == 0.0 && f != 0.0 && u != 0.0 && v != 0.0
    requires (x > 0.0 && y <= 0.0 && z <= 0.0) || (x <= 0.0 && y > 0.0 && z > 0.0)
    ensures u > 0.0 && v > 0.0 ==> f > 0.0
    ensures u < 0.0 && v < 0.0 ==> f < 0.0
  {
    SignClash(-f, x, u, y, v, z);
    SignClash(f, x, -u, y, -v, z);
    assert (-f) * x == -(f * x) && (-u) * y == -(u * y) && (-v) * z == -(v * z);
  }

  lemma SignClash(f: real, x: real, u: real, y: real, v: real, z: real)
    requires (x > 0.0 && y <= 0.0 && z <= 0.0) || (x <= 0.0 && y > 0.0 && z > 0.0)
    ensures f > 0.0 && u > 0.0 && v > 0.0 ==> (-f) * x + u * y + v * z != 0.0
  {
    if f > 0.0 && u > 0.0 && v > 0.0 {
      assert (-f) * x == -(f * x) && (-f) * x == f * -x;
      assert u * -y == -(u * y) && v * -z == -(v * z);
      if x > 0.0 {
        Positive(f, x);
        NotNegative(u, -y);
        NotNegative(v, -z);
      } else {
        NotNegative(f, -x);
        Positive(u, y);
        Positive(v, z);
      }
    }
  }

  /** For a triangle and a point on none of its lines, the answer is the strict interior. */
  lemma TriangleIsStrictInterior(p: Point, a: Point, b: Point, c: Point)
    requires Area(a, b, p) != 0.0 && Area(b, c, p) != 0.0 && Area(c, a, p) != 0.0
    ensures InPolygon(p, [a, b, c]) <==> StrictlyInside(p, a, b, c)
  {
    TriangleAnswer(p, a, b, c);
    CrossesBySide(p, a, b);
    CrossesBySide(p, b, c);
    CrossesBySide(p, c, a);
    if (a.lng > p.lng) == (b.lng > p.lng) == (c.lng > p.lng) {
      OneSidedIsOutside(p, a, b, c);
    } else if (b.lng > p.lng) == (c.lng > p.lng) {
      LoneVertex(p, a, b, c);
    } else if (a.lng > p.lng) == (c.lng > p.lng) {
      LoneVertex(p, b, c, a);
    } else {
      LoneVertex(p, c, a, b);
    }
  }

  lemma OneSidedIsOutside(p: Point, a: Point, b: Point, c: Point)
    requires (a.lng > p.lng && b.lng > p.lng && c.lng > p.lng) || (a.lng <= p.lng && b.lng <= p.lng && c.lng <= p.lng)
    ensures !StrictlyInside(p, a, b, c)
  {
    Balance(p, a, b, c);
    var f, u, v := Area(b, c, p), Area(c, a, p), Area(a, b, p);
    var x, y, z := a.lng - p.lng, b.lng - p.lng, c.lng - p.lng;
    OneSidedSum(f, x, u, y, v, z);
    OneSidedSum(-f, x, -u, y, -v, z);
    assert (-f) * x == -(f * x) && (-u) * y == -(u * y) && (-v) * z == -(v * z);
    if x == y == z == 0.0 {
      assert (b.lat - p.lat) * 0.0 == 0.0 && (a.lat - p.lat) * 0.0 == 0.0;
    }
  }

  lemma OneSidedSum(f: real, x: real, u: real, y: real, v: real, z: real)
    requires (x > 0.0 && y > 0.0 && z > 0.0) || (x <= 0.0 && y <= 0.0 && z <= 0.0)
    ensures f > 0.0 && u > 0.0 && v > 0.0 && (x != 0.0 || y != 0.0 || z != 0.0) ==> f * x + u * y + v * z != 0.0
  {
    if f > 0.0 && u > 0.0 && v > 0.0 {
      if x > 0.0 {
        Positive(f, x);
        Positive(u, y);
        Positive(v, z);
      } else {
        WeightedBelow(f, x);
        WeightedBelow(u, y);
        WeightedBelow(v, z);
      }
    }
  }

  lemma WeightedBelow(w: real, x: real)
    requires w > 0.0 && x <= 0.0
    ensures w * x <= 0.0 && (x < 0.0 ==> w * x < 0.0)
  {
    assert w * x == -(w * -x);
    if x < 0.0 {
      Positive(w, -x);
    }
  }

  // ----- The bounding box -----

  /** Beside or above all vertices no edge is crossed. */
  lemma BeyondTheBoxIsOutside(p: Point, polygon: seq<Point>)
    requires || (forall i :: 0 <= i < |polygon| ==> polygon[i].lat <= p.lat)
             || (forall i :: 0 <= i < |polygon| ==> polygon[i].lng <= p.lng)
             || (forall i :: 0 <= i < |polygon| ==> polygon[i].lng > p.lng)
    ensures !InPolygon(p, polygon)
  {
    if polygon != [] {
      NothingCrossed(p, Ring(polygon));
    }
  }

  lemma {:induction false} NothingCrossed(p: Point, path: seq<Point>)
    requires || (forall i :: 0 <= i < |path| ==> path[i].lat <= p.lat)
             || (forall i :: 0 <= i < |path| ==> path[i].lng <= p.lng)
             || (forall i :: 0 <= i < |path| ==> path[i].lng > p.lng)
    ensures !Odd(p, path)
  {
    if |path| >= 2 {
      NothingCrossed(p, path[..|path| - 1]);
      EdgeNotCrossed(p, path[|path| - 1], path[|path| - 2]);
    }
  }

  lemma EdgeNotCrossed(p: Point, a: Point, b: Point)
    requires (a.lat <= p.lat && b.lat <= p.lat) || ((a.lng > p.lng) == (b.lng > p.lng))
    ensures !Crosses(p, a, b)
  {
    CrossesBySide(p, a, b);
    if a.lat <= p.lat && b.lat <= p.lat {
      if a.lng <= p.lng < b.lng {
        AreaAbove(p, a, b);
      } else if b.lng <= p.lng < a.lng {
        AreaAbove(p, b, a);
        AreaTurns(b, a, p);
      }
    }
  }

  lemma AreaAbove(p: Point, a: Point, b: Point)
    requires a.lat <= p.lat && b.lat <= p.lat && a.lng <= p.lng < b.lng
    ensures Area(a, b, p) <= 0.0
  {
    NotNegative(p.lat - b.lat, p.lng - a.lng);
    NotNegative(p.lat - a.lat, b.lng - p.lng);
    assert (p.lat - b.lat) * (p.lng - a.lng) == -((b.lat - p.lat) * (p.lng - a.lng));
    assert (p.lat - a.lat) * (b.lng - p.lng) == -((a.lat - p.lat) * (b.lng - p.lng));
  }

  /** Below all vertices every change of side is crossed, and a closed ring changes side an even number of times. */
  lemma BelowTheBoxIsOutside(p: Point, polygon: seq<Point>)
    requires forall i :: 0 <= i < |polygon| ==> p.lat < polygon[i].lat
    ensures !InPolygon(p, polygon)
  {
    if polygon != [] {
      EverySideChangeCounts(p, Ring(polygon));
    }
  }

  lemma {:induction false} EverySideChangeCounts(p: Point, path: seq<Point>)
    requires path != [] && forall i :: 0 <= i < |path| ==> p.lat < path[i].lat
    ensures Odd(p, path) == ((path[0].lng > p.lng) != (path[|path| - 1].lng > p.lng))
  {
    if |path| >= 2 {
      EverySideChangeCounts(p, path[..|path| - 1]);
      EdgeCrossed(p, path[|path| - 1], path[|path| - 2]);
    }
  }

  lemma EdgeCrossed(p: Point, a: Point, b: Point)
    requires p.lat < a.lat && p.lat < b.lat
    ensures Crosses(p, a, b) == ((a.lng > p.lng) != (b.lng > p.lng))
  {
    CrossesBySide(p, a, b);
    if a.lng <= p.lng < b.lng {
      AreaBelow(p, a, b);
    } else if b.lng <= p.lng < a.lng {
      AreaBelow(p, b, a);
      AreaTurns(b, a, p);
    }
  }

  lemma AreaBelow(p: Point, a: Point, b: Point)
    requires p.lat < a.lat && p.lat < b.lat && a.lng <= p.lng < b.lng
    ensures Area(a, b, p) > 0.0
  {
    NotNegative(b.lat - p.lat, p.lng - a.lng);
    Positive(a.lat - p.lat, b.lng - p.lng);
  }

  // ----- The loop -----

  /** Each vertex in turn with the one before it, the last one standing before the first. */
  method PointInPolygon(point: Point, polygon: seq<Point>) returns (inside: bool)
    ensures inside == InPolygon(point, polygon)
  {
    var n := |polygon|;
    if n < 3 {
      TwoVerticesHoldNothing(point, polygon);
      return false;
    }
    inside := false;
    var j := n - 1;
    ghost var walk := [polygon[n - 1]];
    for i := 0 to n
      invariant j == if i == 0 then n - 1 else i - 1
      invariant walk == [polygon[n - 1]] + polygon[..i]
      invariant inside == Odd(point, walk)
    {
      if Crosses(point, polygon[i], polygon[j]) {
        inside := !inside;
      }
      LongerWalk(point, walk, polygon[i]);
      walk := walk + [polygon[i]];
      j := i;
    }
    WalkIsRing(point, polygon);
  }

  lemma LongerWalk(p: Point, walk: seq<Point>, v: Point)
    requires walk != []
    ensures Odd(p, walk + [v]) == (Odd(p, walk) != Crosses(p, v, walk[|walk| - 1]))
  {
    var longer := walk + [v];
    assert longer[..|longer| - 1] == walk;
  }

  lemma WalkIsRing(p: Point, polygon: seq<Point>)
    requires polygon != []
    ensures Odd(p, [polygon[|polygon| - 1]] + polygon[..|polygon|]) == InPolygon(p, polygon)
  {
    var front, last := polygon[..|polygon| - 1], polygon[|polygon| - 1];
    assert polygon == front + [last];
    RotationKeepsAnswer(p, front, [last]);
    assert Ring([last] + front) == [last] + polygon[..|polygon|];
  }
}
