/** The engine-independent helpers of the SteamVR utilities: a registry of
    message listeners, linear interpolation and its inverse, the conversion
    of an OpenVR pose matrix to the engine's handedness, and the index
    loops that tessellate the lens-distortion mesh. */
module SteamVRUtils {
  import opened UnityMath
  import opened Wrappers

  // ---------------------------------------------------------------------
  // Events

  /** A listener, known by its identity (delegates compare by target and
      method). */
  datatype Handler = Handler(id: nat)

  /** Delegate subtraction `chain - h`: the runtime scans the invocation
      list from its end and drops the last occurrence of `h`; a chain
      without `h` is returned as it is. */
  function Subtract(chain: seq<Handler>, h: Handler): (r: seq<Handler>)
    ensures h !in chain ==> r == chain
    ensures |r| == if h in chain then |chain| - 1 else |chain|
    decreases |chain|
  {
    if |chain| == 0 then []
    else
      var init, last := chain[..|chain| - 1], chain[|chain| - 1];
      assert chain == init + [last];
      if last == h then init
      else Subtract(init, h) + [last]
  }

  /** The position of the last occurrence of `h` in `chain`, or -1. */
  function LastIndexOf(chain: seq<Handler>, h: Handler): (k: int)
    ensures -1 <= k < |chain|
    ensures k >= 0 ==> chain[k] == h
    ensures forall j :: k < j < |chain| ==> chain[j] != h
    decreases |chain|
  {
    if |chain| == 0 then -1
    else if chain[|chain| - 1] == h then |chain| - 1
    else LastIndexOf(chain[..|chain| - 1], h)
  }

  /** Subtraction removes exactly the last occurrence of `h`, and leaves a
      chain without `h` unchanged. */
  lemma {:induction false} SubtractRemovesLast(chain: seq<Handler>, h: Handler)
    ensures var k := LastIndexOf(chain, h);
            Subtract(chain, h) == if k < 0 then chain else chain[..k] + chain[k + 1..]
    decreases |chain|
  {
    if |chain| > 0 {
      var n := |chain| - 1;
      var init := chain[..n];
      if chain[n] != h {
        SubtractRemovesLast(init, h);
        var k := LastIndexOf(init, h);
        if k >= 0 {
          calc {
            Subtract(chain, h);
            init[..k] + init[k + 1..] + [chain[n]];
            { assert init[k + 1..] + [chain[n]] == chain[k + 1..]; }
            init[..k] + chain[k + 1..];
            chain[..k] + chain[k + 1..];
          }
        } else {
          assert init + [chain[n]] == chain;
        }
      }
    }
  }

  /** Subtraction takes away one copy of `h` when there is one, and
      changes nothing otherwise. */
  lemma SubtractCounts(chain: seq<Handler>, h: Handler)
    ensures multiset(Subtract(chain, h)) == multiset(chain) - multiset{h}
  {
    SubtractRemovesLast(chain, h);
    var k := LastIndexOf(chain, h);
    if k >= 0 {
      SpliceCount(chain, k);
    } else {
      AbsentCount(chain, h);
    }
  }

  lemma SpliceCount(chain: seq<Handler>, k: nat)
    requires k < |chain|
    ensures multiset(chain[..k] + chain[k + 1..]) == multiset(chain) - multiset{chain[k]}
  {
    var front, back := chain[..k], chain[k + 1..];
    assert chain == front + [chain[k]] + back;
  }

  lemma AbsentCount(chain: seq<Handler>, h: Handler)
    requires forall j :: 0 <= j < |chain| ==> chain[j] != h
    ensures h !in chain && multiset(chain) - multiset{h} == multiset(chain)
  {
    assert multiset(chain)[h] == 0;
  }

  /** Adding a listener and removing it again gives back the chain. */
  lemma ListenThenRemove(chain: seq<Handler>, h: Handler)
    ensures Subtract(chain + [h], h) == chain
  {
    assert (chain + [h])[..|chain|] == chain;
  }

  /** The registry of listeners per message. A message absent from the map
      and a message whose chain has been emptied (a null delegate) both
      have no listeners. */
  class EventRegistry {
    var listeners: map<string, seq<Handler>>

    /** The invocation list registered for `message`. */
    function Handlers(message: string): seq<Handler>
      reads this
    {
      if message in listeners then listeners[message] else []
    }

    constructor ()
      ensures listeners == map[]
    {
      listeners := map[];
    }

    /** `Listen`: append the handler to the message's chain, or make it the
        chain when the message has none. */
    method Listen(message: string, action: Handler)
      modifies this
      ensures Handlers(message) == old(Handlers(message)) + [action]
      ensures forall m :: m != message ==> Handlers(m) == old(Handlers(m))
      ensures listeners.Keys == old(listeners.Keys) + {message}
    {
      var actions := Handlers(message);
      if actions != [] {
        listeners := listeners[message := actions + [action]];
      } else {
        listeners := listeners[message := [action]];
      }
    }

    /** `Remove`: subtract the handler from the message's chain; nothing
        happens when the message has no listeners. */
    method Remove(message: string, action: Handler)
      modifies this
      ensures Handlers(message) == Subtract(old(Handlers(message)), action)
      ensures forall m :: m != message ==> Handlers(m) == old(Handlers(m))
      ensures old(Handlers(message)) == [] ==> listeners == old(listeners)
    {
      var actions := Handlers(message);
      if actions != [] {
        listeners := listeners[message := Subtract(actions, action)];
      }
    }

    /** `Send`: the handlers the message's chain invokes, in order, each
        with the same arguments; none for a message without listeners. */
    method Send(message: string) returns (invoked: seq<Handler>)
      ensures message !in listeners ==> invoked == []
      ensures message in listeners ==> invoked == listeners[message]
    {
      var actions := Handlers(message);
      invoked := [];
      if actions != [] {
        invoked := actions;
      }
    }
  }

  // ---------------------------------------------------------------------
  // Interpolation

  /** `Lerp(A, B, t)` for floats and doubles: `t` is not clamped. */
  function Lerp(a: real, b: real, t: real): (r: real)
    ensures t == 0.0 ==> r == a
    ensures t == 1.0 ==> r == b
  {
    a + Product(b - a, t)
  }

  /** `Lerp` on vectors, component by component. */
  function LerpVec(a: Vec3, b: Vec3, t: real): (r: Vec3)
    ensures t == 0.0 ==> r == a
    ensures t == 1.0 ==> r == b
  {
    Vec3(Lerp(a.x, b.x, t), Lerp(a.y, b.y, t), Lerp(a.z, b.z, t))
  }

  /** `InverseLerp(A, B, result)` for floats and doubles: where `t` lies
      between `A` and `B`. With `A == B` the division has no finite result
      (None). */
  function InverseLerp(a: real, b: real, result: real): (t: Option<real>)
    ensures t.Some? <==> a != b
    ensures t.Some? ==> Lerp(a, b, t.value) == result
  {
    if b - a == 0.0 then None
    else
      var q := (result - a) / (b - a);
      assert Product(b - a, q) == result - a;
      Some(q)
  }

  /** `InverseLerp` on vectors: the dot product of `result - A` with
      `B - A`, not divided by the squared length of `B - A`. */
  function InverseLerpVec(a: Vec3, b: Vec3, result: Vec3): (r: real)
    ensures a == b ==> r == 0.0
    ensures result == a ==> r == 0.0
    ensures result == b ==> r == SqrMagnitude(Sub(b, a))
  {
    Dot(Sub(result, a), Sub(b, a))
  }

  /** The scalar inverse undoes `Lerp` whenever the end points differ. */
  lemma InverseLerpOfLerp(a: real, b: real, t: real)
    requires a != b
    ensures InverseLerp(a, b, Lerp(a, b, t)) == Some(t)
  {
    assert Lerp(a, b, t) - a == Product(b - a, t);
    assert Product(b - a, t) / (b - a) == t;
  }

  /** For t between 0 and 1, `Lerp` stays between its end points. */
  lemma LerpBetween(a: real, b: real, t: real)
    requires a <= b && 0.0 <= t <= 1.0
    ensures a <= Lerp(a, b, t) <= b
  {
    ProductNonNegative(b - a, t);
    ProductNonNegative(b - a, 1.0 - t);
    assert (b - a) - Product(b - a, t) == Product(b - a, 1.0 - t);
  }

  lemma ProductNonNegative(x: real, y: real)
    requires x >= 0.0 && y >= 0.0
    ensures Product(x, y) >= 0.0
  {
  }

  /** The vector inverse of a vector `Lerp` is `t` scaled by the squared
      distance between the end points, so it is `t` only for end points one
      unit apart. */
  lemma InverseLerpVecOfLerp(a: Vec3, b: Vec3, t: real)
    ensures InverseLerpVec(a, b, LerpVec(a, b, t)) == Product(t, SqrMagnitude(Sub(b, a)))
  {
    var d := Sub(b, a);
    assert Sub(LerpVec(a, b, t), a) == Vec3(Product(d.x, t), Product(d.y, t), Product(d.z, t));
    calc {
      InverseLerpVec(a, b, LerpVec(a, b, t));
      Product(d.x, t) * d.x + Product(d.y, t) * d.y + Product(d.z, t) * d.z;
      t * (d.x * d.x) + t * (d.y * d.y) + t * (d.z * d.z);
      Product(t, SqrMagnitude(d));
    }
  }

  /** Two points two units apart: the vector inverse of `Lerp(A, B, 1)` is
      4, not 1. */
  lemma InverseLerpVecNotNormalised()
    ensures var a, b := Zero, Vec3(2.0, 0.0, 0.0);
            InverseLerpVec(a, b, LerpVec(a, b, 1.0)) == 4.0
  {
  }

  // ---------------------------------------------------------------------
  // Poses

  /** A 4x4 matrix as its 16 entries in row-major order: entry (r, c) is at
      index 4r + c. */
  type Matrix4 = s: seq<real> | |s| == 16
    witness [1.0, 0.0, 0.0, 0.0,
             0.0, 1.0, 0.0, 0.0,
             0.0, 0.0, 1.0, 0.0,
             0.0, 0.0, 0.0, 1.0]

  /** The entries that pair the z axis with another axis change sign when
      the right-handed OpenVR frame becomes the left-handed engine frame. */
  predicate Mirrored(r: int, c: int) {
    (r == 2) != (c == 2)
  }

  /** The matrix built from a 3x4 OpenVR pose (`pose.m`, row-major): the
      identity with its top three rows replaced, the mirrored entries
      negated. */
  function FromPose34(pose: seq<real>): (m: Matrix4)
    requires |pose| == 12
    ensures forall i :: 0 <= i < 12 ==> m[i] == if Mirrored(i / 4, i % 4) then -pose[i] else pose[i]
    ensures m[12..] == [0.0, 0.0, 0.0, 1.0]
  {
    [ pose[0],  pose[1], -pose[2],   pose[3],
      pose[4],  pose[5], -pose[6],   pose[7],
     -pose[8], -pose[9],  pose[10], -pose[11],
      0.0,      0.0,      0.0,       1.0]
  }

  /** The matrix built from a 4x4 OpenVR matrix, the mirrored entries
      negated. */
  function FromPose44(pose: seq<real>): (m: Matrix4)
    requires |pose| == 16
    ensures forall i :: 0 <= i < 16 ==> m[i] == if Mirrored(i / 4, i % 4) then -pose[i] else pose[i]
  {
    [ pose[0],   pose[1],  -pose[2],   pose[3],
      pose[4],   pose[5],  -pose[6],   pose[7],
     -pose[8],  -pose[9],   pose[10], -pose[11],
      pose[12],  pose[13], -pose[14],  pose[15]]
  }

  /** The point p moved by the affine transform of the top three rows:
      rotation and scale from the 3x3 block, then the translation column. */
  function MultiplyPoint(m: Matrix4, p: Vec3): Vec3 {
    Vec3(m[0] * p.x + m[1] * p.y + m[2] * p.z + m[3],
         m[4] * p.x + m[5] * p.y + m[6] * p.z + m[7],
         m[8] * p.x + m[9] * p.y + m[10] * p.z + m[11])
  }

  /** `GetPosition`: the translation column, entries (0,3), (1,3), (2,3),
      which is where the transform takes the origin. */
  function GetPosition(m: Matrix4): (p: Vec3)
    ensures p == MultiplyPoint(m, Zero)
  {
    Vec3(m[3], m[7], m[11])
  }

  /** Changing handedness twice gives back the OpenVR matrix. */
  lemma HandednessChangeInvolution(pose: seq<real>)
    requires |pose| == 16
    ensures FromPose44(FromPose44(pose)) == pose
  {
  }

  /** The position of a `RigidTransform` made from a 3x4 pose: the pose's
      translation with z negated. */
  function RigidTransformPosition34(pose: seq<real>): (p: Vec3)
    requires |pose| == 12
    ensures p == Vec3(pose[3], pose[7], -pose[11])
  {
    GetPosition(FromPose34(pose))
  }

  /** The position of a `RigidTransform` made from a 4x4 matrix: the same
      mapping of the translation column. */
  function RigidTransformPosition44(pose: seq<real>): (p: Vec3)
    requires |pose| == 16
    ensures p == Vec3(pose[3], pose[7], -pose[11])
    ensures p == RigidTransformPosition34(pose[..12])
  {
    GetPosition(FromPose44(pose))
  }

  // ---------------------------------------------------------------------
  // Distortion mesh

  /** The engine's Rect: origin and size. */
  datatype Rect = Rect(x: real, y: real, width: real, height: real) {
    function XMin(): real { x }
    function XMax(): real { x + width }
    function YMin(): real { y }
    function YMax(): real { y + height }
  }

  /** The slot of grid point (iV, iU) in the vertex arrays. */
  function VertexIndex(resU: int, iV: int, iU: int): int {
    iV * resU + iU
  }

  /** The vertex at grid point (iV, iU): x runs from the left edge to the
      right, y from the top edge down, at depth 0.1. */
  function GridVertex(bounds: Rect, resU: int, resV: int, iV: int, iU: int): Vec3
    requires resU >= 2 && resV >= 2
  {
    var v := (iV as real) / ((resV - 1) as real);
    var u := (iU as real) / ((resU - 1) as real);
    Vec3(Lerp(bounds.XMin(), bounds.XMax(), u), Lerp(bounds.YMax(), bounds.YMin(), v), 0.1)
  }

  /** The two triangles of the cell whose far corner is (iV, iU): a, b are
      the previous row's corners, c, d this row's; (a, b, d) and (a, d, c). */
  function Quad(resU: int, iV: int, iU: int): seq<int> {
    var a := VertexIndex(resU, iV - 1, iU - 1);
    var b := VertexIndex(resU, iV - 1, iU);
    var c := VertexIndex(resU, iV, iU - 1);
    var d := VertexIndex(resU, iV, iU);
    [a, b, d, a, d, c]
  }

  /** The triangles of the first n cells of row iV. */
  function RowQuads(resU: int, iV: int, n: nat): seq<int>
    decreases n
  {
    if n == 0 then [] else RowQuads(resU, iV, n - 1) + Quad(resU, iV, n)
  }

  /** The triangles of grid rows 1 to `rows`, each with its resU - 1 cells. */
  function GridQuads(resU: int, rows: nat): seq<int>
    requires resU >= 1
    decreases rows
  {
    if rows == 0 then [] else GridQuads(resU, rows - 1) + RowQuads(resU, rows, resU - 1)
  }

  /** Grid rows whose cells are complete once rows 0 to iV - 1 are done. */
  function RowsDone(iV: int): nat {
    if iV <= 0 then 0 else iV - 1
  }

  lemma MulLeftMonotonic(w: int, x: int, y: int)
    requires w >= 0 && x <= y
    ensures w * x <= w * y
  {
    assert w * y - w * x == w * (y - x);
  }

  /** Each cell's triangles share the diagonal a-d and use its four
      corners, which are distinct and adjacent in the grid. */
  lemma QuadSharesDiagonal(resU: int, iV: int, iU: int)
    requires resU >= 2
    ensures var q := Quad(resU, iV, iU);
            && q[0] == q[3] && q[2] == q[4]
            && q[1] == q[0] + 1 && q[5] == q[0] + resU && q[2] == q[0] + resU + 1
            && |{q[0], q[1], q[2], q[5]}| == 4
  {
    var q := Quad(resU, iV, iU);
    assert VertexIndex(resU, iV, iU - 1) == VertexIndex(resU, iV - 1, iU - 1) + resU;
    assert q[0] != q[1] && q[0] != q[2] && q[0] != q[5] && q[1] != q[2] && q[1] != q[5] && q[2] != q[5];
  }

  lemma {:induction false} RowQuadsLength(resU: int, iV: int, n: nat)
    ensures |RowQuads(resU, iV, n)| == 6 * n
    decreases n
  {
    if n > 0 {
      RowQuadsLength(resU, iV, n - 1);
    }
  }

  /** The grid holds six entries per cell. */
  lemma {:induction false} GridQuadsLength(resU: int, rows: nat)
    requires resU >= 1
    ensures |GridQuads(resU, rows)| == 6 * ((resU - 1) * rows)
    decreases rows
  {
    if rows > 0 {
      GridQuadsLength(resU, rows - 1);
      RowQuadsLength(resU, rows, resU - 1);
      assert (resU - 1) * rows == (resU - 1) * (rows - 1) + (resU - 1);
    }
  }

  /** The vertex index of a grid point lies below the vertex count. */
  lemma VertexIndexInRange(resU: int, resV: int, iV: int, iU: int)
    requires 0 <= iV < resV && 0 <= iU < resU
    ensures 0 <= VertexIndex(resU, iV, iU) < resU * resV
  {
    MulLeftMonotonic(resU, 0, iV);
    MulLeftMonotonic(resU, iV + 1, resV);
    assert resU * iV == iV * resU;
  }

  /** Grid points come in row-major order: a point before another in that
      order has the smaller index. */
  lemma VertexIndexOrder(resU: int, r: int, col: int, iV: int, iU: int)
    requires 0 <= col < resU && 0 <= iU
    requires r < iV || (r == iV && col < iU)
    ensures VertexIndex(resU, r, col) < VertexIndex(resU, iV, iU)
  {
    if r < iV {
      MulLeftMonotonic(resU, r + 1, iV);
      assert resU * (r + 1) == r * resU + resU;
      assert resU * iV == iV * resU;
    }
  }

  /** The vertex index is a bijection from the resU x resV grid points onto
      the slots 0 to resU * resV - 1. */
  lemma VertexIndexBijective(resU: int, resV: int)
    requires resU >= 1 && resV >= 1
    ensures forall iV, iU :: 0 <= iV < resV && 0 <= iU < resU ==>
              0 <= VertexIndex(resU, iV, iU) < resU * resV
    ensures forall iV, iU, jV, jU ::
              (0 <= iV < resV && 0 <= iU < resU && 0 <= jV < resV && 0 <= jU < resU &&
               VertexIndex(resU, iV, iU) == VertexIndex(resU, jV, jU)) ==> iV == jV && iU == jU
    ensures forall k :: 0 <= k < resU * resV ==>
              0 <= k / resU < resV && VertexIndex(resU, k / resU, k % resU) == k
  {
    forall iV, iU | 0 <= iV < resV && 0 <= iU < resU
      ensures 0 <= VertexIndex(resU, iV, iU) < resU * resV
    {
      VertexIndexInRange(resU, resV, iV, iU);
    }
    forall iV, iU, jV, jU |
      0 <= iV < resV && 0 <= iU < resU && 0 <= jV < resV && 0 <= jU < resU &&
      VertexIndex(resU, iV, iU) == VertexIndex(resU, jV, jU)
      ensures iV == jV && iU == jU
    {
      if iV < jV || (iV == jV && iU < jU) {
        VertexIndexOrder(resU, iV, iU, jV, jU);
      } else if jV < iV || (iV == jV && jU < iU) {
        VertexIndexOrder(resU, jV, jU, iV, iU);
      }
    }
    forall k | 0 <= k < resU * resV
      ensures 0 <= k / resU < resV && VertexIndex(resU, k / resU, k % resU) == k
    {
      var q, r := k / resU, k % resU;
      assert k == q * resU + r && 0 <= r < resU;
    }
  }

  /** Every entry of the cells of rows 1 to `rows` indexes a vertex of a
      grid with rows + 1 rows. */
  lemma {:induction false} GridQuadsInRange(resU: int, rows: nat)
    requires resU >= 2
    ensures forall k :: 0 <= k < |GridQuads(resU, rows)| ==>
              0 <= GridQuads(resU, rows)[k] < resU * (rows + 1)
    decreases rows
  {
    if rows > 0 {
      GridQuadsInRange(resU, rows - 1);
      MulLeftMonotonic(resU, rows, rows + 1);
      RowQuadsInRange(resU, resU + 0, rows, resU - 1, rows + 1);
    }
  }

  lemma {:induction false} RowQuadsInRange(resU: int, w: int, iV: int, n: nat, height: int)
    requires resU >= 2 && w == resU && 1 <= iV < height && n <= resU - 1
    ensures forall k :: 0 <= k < |RowQuads(resU, iV, n)| ==>
              0 <= RowQuads(resU, iV, n)[k] < resU * height
    decreases n
  {
    if n > 0 {
      RowQuadsInRange(resU, w, iV, n - 1, height);
      VertexIndexInRange(resU, height, iV, n);
      VertexIndexInRange(resU, height, iV - 1, n - 1);
      VertexIndexOrder(resU, iV - 1, n - 1, iV, n);
      VertexIndexOrder(resU, iV - 1, n, iV, n);
      VertexIndexOrder(resU, iV, n - 1, iV, n);
      VertexIndexOrder(resU, iV - 1, n - 1, iV - 1, n);
      VertexIndexOrder(resU, iV - 1, n - 1, iV, n - 1);
    }
  }

  lemma SliceOfFront<T>(a: seq<T>, b: seq<T>, lo: int, hi: int)
    requires 0 <= lo <= hi <= |a|
    ensures (a + b)[lo..hi] == a[lo..hi]
  {
  }

  lemma SliceOfBack<T>(a: seq<T>, b: seq<T>, lo: int, hi: int)
    requires 0 <= lo <= hi <= |b|
    ensures (a + b)[|a| + lo..|a| + hi] == b[lo..hi]
  {
  }

  /** The j-th cell of a row sits at entries 6(j - 1) to 6j of the row. */
  lemma {:induction false} RowQuadsAt(resU: int, iV: int, n: nat, j: int)
    requires 1 <= j <= n
    ensures 6 * j <= |RowQuads(resU, iV, n)|
    ensures RowQuads(resU, iV, n)[6 * (j - 1)..6 * j] == Quad(resU, iV, j)
    decreases n
  {
    RowQuadsLength(resU, iV, n - 1);
    var front := RowQuads(resU, iV, n - 1);
    assert RowQuads(resU, iV, n) == front + Quad(resU, iV, n);
    if j < n {
      RowQuadsAt(resU, iV, n - 1, j);
      SliceOfFront(front, Quad(resU, iV, n), 6 * (j - 1), 6 * j);
    } else {
      SliceOfBack(front, Quad(resU, iV, n), 0, 6);
    }
  }

  /** The cell whose far corner is (i, j) sits at its row-major position
      in the grid: its six entries start after the rows before row i and
      the j - 1 cells before it in its row (by `GridQuadsLength`, after
      (resU - 1)(i - 1) + j - 1 cells). */
  lemma {:induction false} GridQuadsAt(resU: int, rows: nat, i: int, j: int)
    requires resU >= 2 && 1 <= i <= rows && 1 <= j <= resU - 1
    ensures var start := |GridQuads(resU, i - 1)| + 6 * (j - 1);
            && start + 6 <= |GridQuads(resU, rows)|
            && GridQuads(resU, rows)[start..start + 6] == Quad(resU, i, j)
    decreases rows
  {
    var start := |GridQuads(resU, i - 1)| + 6 * (j - 1);
    var front := GridQuads(resU, rows - 1);
    var row := RowQuads(resU, rows, resU - 1);
    if i < rows {
      GridQuadsAt(resU, rows - 1, i, j);
      SliceOfFront(front, row, start, start + 6);
    } else {
      RowQuadsAt(resU, rows, resU - 1, j);
      SliceOfBack(front, row, 6 * (j - 1), 6 * j);
    }
  }

  lemma CellFits(w: int, iV: int, iU: int, rows: int)
    requires 1 <= iU <= w && 1 <= iV <= rows
    ensures w * (iV - 1) + iU <= w * rows
  {
    MulLeftMonotonic(w, iV, rows);
    assert w * iV == w * (iV - 1) + w;
  }

  /** The triangle entries written once the loops have reached grid point
      (iV, iU): the complete cell rows, then the cells of row iV before
      column iU. Row 0 and column 0 close no cell. */
  ghost function Emitted(resU: int, iV: int, iU: int): seq<int>
    requires resU >= 1
  {
    GridQuads(resU, RowsDone(iV)) + (if iV <= 0 then [] else RowQuads(resU, iV, RowsDone(iU)))
  }

  lemma EmittedLength(resU: int, iV: int, iU: int)
    requires resU >= 1
    ensures |Emitted(resU, iV, iU)| ==
              6 * ((resU - 1) * RowsDone(iV)) + (if iV <= 0 then 0 else 6 * RowsDone(iU))
  {
    GridQuadsLength(resU, RowsDone(iV));
    if iV > 0 {
      RowQuadsLength(resU, iV, RowsDone(iU));
    }
  }

  /** The room left in the triangle array for the cell at (iV, iU). */
  lemma EmittedRoom(resU: int, resV: int, iV: int, iU: int)
    requires resU >= 2 && 1 <= iV < resV && 1 <= iU < resU
    ensures |Emitted(resU, iV, iU)| + 6 <= 6 * ((resU - 1) * (resV - 1))
  {
    EmittedLength(resU, iV, iU);
    CellFits(resU - 1, iV, iU, resV - 1);
  }

  /** One step of the inner loop appends the cell at (iV, iU) when it
      closes one, and nothing otherwise. */
  lemma EmittedStep(resU: int, iV: int, iU: int)
    requires resU >= 1 && iU >= 0
    ensures Emitted(resU, iV, iU + 1) ==
              Emitted(resU, iV, iU) + (if iV > 0 && iU > 0 then Quad(resU, iV, iU) else [])
  {
    if iV > 0 && iU > 0 {
      assert RowsDone(iU + 1) == RowsDone(iU) + 1;
    }
  }

  /** The end of a row is the start of the next. */
  lemma EmittedRowEnd(resU: int, iV: int)
    requires resU >= 1 && iV >= 0
    ensures Emitted(resU, iV, resU) == Emitted(resU, iV + 1, 0)
  {
  }

  /** The source's six `triangles[iTri++] = ...` writes for one cell. */
  method WriteQuad(triangles: array<int>, iTri: int, resU: int, iV: int, iU: int) returns (next: int)
    requires 0 <= iTri && iTri + 6 <= triangles.Length
    modifies triangles
    ensures next == iTri + 6
    ensures triangles[..next] == old(triangles[..iTri]) + Quad(resU, iV, iU)
  {
    var a := (iV - 1) * resU + (iU - 1);
    var b := (iV - 1) * resU + iU;
    var c := iV * resU + (iU - 1);
    var d := iV * resU + iU;
    next := iTri;
    triangles[next] := a;
    next := next + 1;
    triangles[next] := b;
    next := next + 1;
    triangles[next] := d;
    next := next + 1;
    triangles[next] := a;
    next := next + 1;
    triangles[next] := d;
    next := next + 1;
    triangles[next] := c;
    next := next + 1;
  }

  /** Slot k holds the vertex of grid point (k / resU, k % resU). */
  function SlotVertex(bounds: Rect, resU: int, resV: int, k: int): Vec3
    requires resU >= 2 && resV >= 2
  {
    GridVertex(bounds, resU, resV, k / resU, k % resU)
  }

  /** A grid point's coordinates are recovered from its vertex index. */
  lemma IndexCoordinates(resU: int, resV: int, iV: int, iU: int)
    requires resU >= 1 && resV >= 1 && 0 <= iV < resV && 0 <= iU < resU
    ensures VertexIndex(resU, iV, iU) / resU == iV && VertexIndex(resU, iV, iU) % resU == iU
  {
    var k := VertexIndex(resU, iV, iU);
    VertexIndexBijective(resU, resV);
    assert 0 <= k / resU < resV && 0 <= k % resU < resU;
    assert VertexIndex(resU, k / resU, k % resU) == k;
  }

  /** The end of a row's slots is the start of the next row's. */
  lemma NextRowStart(resU: int, iV: int)
    ensures VertexIndex(resU, iV, resU) == VertexIndex(resU, iV + 1, 0)
  {
  }

  /** The vertex array the mesh should have: slot k holds the vertex of
      grid point (k / resU, k % resU). */
  ghost function MeshVertices(bounds: Rect, resU: int, resV: int): (vs: seq<Vec3>)
    requires resU >= 2 && resV >= 2
    ensures |vs| == resU * resV
  {
    MulLeftMonotonic(resU, 0, resV);
    seq(resU * resV, k => SlotVertex(bounds, resU, resV, k))
  }

  /** Slots filled in order give every grid point its vertex. */
  lemma SlotsToGridPoints(bounds: Rect, resU: int, resV: int)
    requires resU >= 2 && resV >= 2
    ensures var vs := MeshVertices(bounds, resU, resV);
            forall iV, iU :: 0 <= iV < resV && 0 <= iU < resU ==>
              && 0 <= VertexIndex(resU, iV, iU) < resU * resV
              && vs[VertexIndex(resU, iV, iU)] == GridVertex(bounds, resU, resV, iV, iU)
  {
    var vs := MeshVertices(bounds, resU, resV);
    forall iV, iU | 0 <= iV < resV && 0 <= iU < resU
      ensures && 0 <= VertexIndex(resU, iV, iU) < resU * resV
              && vs[VertexIndex(resU, iV, iU)] == GridVertex(bounds, resU, resV, iV, iU)
    {
      VertexIndexInRange(resU, resV, iV, iU);
      IndexCoordinates(resU, resV, iV, iU);
    }
  }

  /** The vertex write of the inner loop: grid point (iV, iU) goes to its
      row-major slot, extending the filled prefix by one. */
  method WriteVertex(vertices: array<Vec3>, resU: int, resV: int, iV: int, iU: int, bounds: Rect, y: real)
    requires resU >= 2 && resV >= 2 && 0 <= iV < resV && 0 <= iU < resU
    requires vertices.Length == resU * resV
    requires y == Lerp(bounds.YMax(), bounds.YMin(), (iV as real) / ((resV - 1) as real))
    requires 0 <= VertexIndex(resU, iV, iU) <= vertices.Length
    requires vertices[..VertexIndex(resU, iV, iU)] == MeshVertices(bounds, resU, resV)[..VertexIndex(resU, iV, iU)]
    modifies vertices
    ensures 0 <= VertexIndex(resU, iV, iU + 1) <= vertices.Length
    ensures vertices[..VertexIndex(resU, iV, iU + 1)] == MeshVertices(bounds, resU, resV)[..VertexIndex(resU, iV, iU + 1)]
  {
    ghost var expected := MeshVertices(bounds, resU, resV);
    var u := (iU as real) / ((resU - 1) as real);
    var x := Lerp(bounds.XMin(), bounds.XMax(), u);
    var idx := iV * resU + iU;
    VertexIndexInRange(resU, resV, iV, iU);
    IndexCoordinates(resU, resV, iV, iU);
    vertices[idx] := Vec3(x, y, 0.1);
    assert vertices[idx] == expected[idx];
    assert vertices[..idx + 1] == expected[..idx + 1];
    assert VertexIndex(resU, iV, iU + 1) == idx + 1;
  }

  /** One pass of the inner loop of `CreateDistortMesh`: the vertices of
      grid row iV, and the cells that row closes. */
  method TessellateRow(vertices: array<Vec3>, triangles: array<int>, iTri: int,
                       resU: int, resV: int, iV: int, bounds: Rect) returns (next: int)
    requires resU >= 2 && resV >= 2 && 0 <= iV < resV
    requires vertices.Length == resU * resV && triangles.Length == 6 * ((resU - 1) * (resV - 1))
    requires 0 <= iTri <= triangles.Length
    requires iTri == |Emitted(resU, iV, 0)| && triangles[..iTri] == Emitted(resU, iV, 0)
    requires 0 <= VertexIndex(resU, iV, 0) <= vertices.Length
    requires vertices[..VertexIndex(resU, iV, 0)] == MeshVertices(bounds, resU, resV)[..VertexIndex(resU, iV, 0)]
    modifies vertices, triangles
    ensures 0 <= next <= triangles.Length
    ensures next == |Emitted(resU, iV + 1, 0)| && triangles[..next] == Emitted(resU, iV + 1, 0)
    ensures 0 <= VertexIndex(resU, iV + 1, 0) <= vertices.Length
    ensures vertices[..VertexIndex(resU, iV + 1, 0)] == MeshVertices(bounds, resU, resV)[..VertexIndex(resU, iV + 1, 0)]
  {
    ghost var expected := MeshVertices(bounds, resU, resV);
    var v := (iV as real) / ((resV - 1) as real);
    var y := Lerp(bounds.YMax(), bounds.YMin(), v);
    next := iTri;
    var iU := 0;
    while iU < resU
      invariant 0 <= iU <= resU
      invariant 0 <= next <= triangles.Length
      invariant next == |Emitted(resU, iV, iU)| && triangles[..next] == Emitted(resU, iV, iU)
      invariant 0 <= VertexIndex(resU, iV, iU) <= vertices.Length
      invariant vertices[..VertexIndex(resU, iV, iU)] == expected[..VertexIndex(resU, iV, iU)]
    {
      WriteVertex(vertices, resU, resV, iV, iU, bounds, y);
      EmittedStep(resU, iV, iU);
      if iV > 0 && iU > 0 {
        EmittedRoom(resU, resV, iV, iU);
        next := WriteQuad(triangles, next, resU, iV, iU);
      }
      iU := iU + 1;
    }
    EmittedRowEnd(resU, iV);
    NextRowStart(resU, iV);
  }

  /** `CreateDistortMesh`: the vertex and triangle arrays of a resU x resV
      grid over `bounds`. Slot by slot, the vertices are those of
      `MeshVertices` (every grid point's own, by `SlotsToGridPoints`), and
      the triangles are the cells' in row-major order, each appending
      (a, b, d) and (a, d, c), so the triangle array is filled exactly. */
  method CreateDistortMesh(resU: int, resV: int, bounds: Rect)
    returns (vertices: array<Vec3>, triangles: array<int>)
    requires resU >= 2 && resV >= 2
    ensures vertices.Length == resU * resV
    ensures vertices[..] == MeshVertices(bounds, resU, resV)
    ensures triangles.Length == 2 * 3 * (resU - 1) * (resV - 1)
    ensures triangles[..] == GridQuads(resU, resV - 1)
  {
    var numVerts := resU * resV;
    vertices := new Vec3[numVerts];
    ghost var expected := MeshVertices(bounds, resU, resV);
    var iTri := 0;
    var resUm1 := resU - 1;
    var resVm1 := resV - 1;
    MulLeftMonotonic(resUm1, 0, resVm1);
    triangles := new int[2 * 3 * resUm1 * resVm1];
    assert triangles.Length == 6 * (resUm1 * resVm1);
    var iV := 0;
    while iV < resV
      invariant 0 <= iV <= resV
      invariant 0 <= iTri <= triangles.Length
      invariant iTri == |Emitted(resU, iV, 0)| && triangles[..iTri] == Emitted(resU, iV, 0)
      invariant 0 <= VertexIndex(resU, iV, 0) <= numVerts
      invariant vertices[..VertexIndex(resU, iV, 0)] == expected[..VertexIndex(resU, iV, 0)]
    {
      iTri := TessellateRow(vertices, triangles, iTri, resU, resV, iV, bounds);
      iV := iV + 1;
    }
    assert VertexIndex(resU, resV, 0) == numVerts;
    assert vertices[..] == expected;
    EmittedLength(resU, resV, 0);
    assert triangles[..] == triangles[..iTri];
  }
}
