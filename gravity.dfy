/** Newtonian gravity between the bodies of a universe, as `Universe::step` computes
    it: every unordered pair is visited once, its attraction is added to the first
    body's net force and subtracted from the second's, and then every body takes one
    semi-implicit Euler step (velocity first, then position with the new velocity). */
module Gravity {
  import opened Bodies

  /** The gravitational constant the universe uses. */
  const G: real := 0.0000000000667

  /** What the model needs of `std::sqrt`: positive on positive arguments. */
  ghost predicate PositiveRoot(sqrt: real -> real) {
    forall x: real :: 0.0 < x ==> 0.0 < sqrt(x)
  }

  /** No two bodies share a position, so no pairwise distance is zero. */
  predicate Apart(s: seq<Body>) {
    forall i, j :: 0 <= i < j < |s| ==> s[i].Position() != s[j].Position()
  }

  /** Every mass can be divided by. */
  predicate NonZeroMasses(s: seq<Body>) {
    forall i :: 0 <= i < |s| ==> s[i].mass != 0.0
  }

  /** The forces of `s` are defined. */
  ghost predicate Forceable(s: seq<Body>, sqrt: real -> real) {
    PositiveRoot(sqrt) && Apart(s)
  }

  lemma SquaresPositive(dx: real, dy: real)
    requires dx != 0.0 || dy != 0.0
    ensures dx * dx + dy * dy > 0.0
  {
    if dx != 0.0 {
      assert dx * dx > 0.0;
    } else {
      assert dy * dy > 0.0;
    }
    assert dx * dx >= 0.0 && dy * dy >= 0.0;
  }

  /** The pull between masses `ma` and `mb` at offset `(dx, dy)` and distance `d`:
      magnitude `G ma mb / d^2` along `(dx, dy) / d`. */
  function Pull(ma: real, mb: real, dx: real, dy: real, d: real): Vec2
    requires d != 0.0
  {
    var force := (G * ma * mb) / (d * d);
    Vec2(force * dx / d, force * dy / d)
  }

  /** The two components of `Pull`, spelled out as the step computes them. */
  lemma PullComponents(ma: real, mb: real, dx: real, dy: real, d: real)
    requires d != 0.0
    ensures Pull(ma, mb, dx, dy, d) == Vec2((G * ma * mb) / (d * d) * dx / d, (G * ma * mb) / (d * d) * dy / d)
  {
  }

  /** The length of the offset `(dx, dy)`, as `std::sqrt` gives it. */
  function Hypot(dx: real, dy: real, sqrt: real -> real): (d: real)
    requires PositiveRoot(sqrt) && (dx != 0.0 || dy != 0.0)
    ensures d > 0.0
  {
    SquaresPositive(dx, dy);
    sqrt(dx * dx + dy * dy)
  }

  /** The distance between `a` and `b`. */
  function Distance(a: Body, b: Body, sqrt: real -> real): (d: real)
    requires PositiveRoot(sqrt) && a.Position() != b.Position()
    ensures d > 0.0
  {
    Hypot(b.px - a.px, b.py - a.py, sqrt)
  }

  /** The attraction `b` exerts on `a`, computed in the order the step computes it. */
  function PairForce(a: Body, b: Body, sqrt: real -> real): Vec2
    requires PositiveRoot(sqrt) && a.Position() != b.Position()
  {
    Pull(a.mass, b.mass, b.px - a.px, b.py - a.py, Distance(a, b, sqrt))
  }

  /** The attraction of `b` on `a` from the offset `(dx, dy)` between them, as the
      step computes it from the bodies' positions. */
  lemma PairForceOf(a: Body, b: Body, dx: real, dy: real, sqrt: real -> real)
    requires PositiveRoot(sqrt) && a.Position() != b.Position()
    requires dx == b.px - a.px && dy == b.py - a.py
    ensures dx != 0.0 || dy != 0.0
    ensures PairForce(a, b, sqrt) == Pull(a.mass, b.mass, dx, dy, Hypot(dx, dy, sqrt))
  {
  }

  /** `G ma mb / d^3`: the factor by which the pull scales the offset. */
  function Coefficient(ma: real, mb: real, d: real): real
    requires d != 0.0
  {
    (G * ma * mb) / (d * d) / d
  }

  /** The factor by which `PairForce` scales the displacement from `a` to `b`. */
  function PairScale(a: Body, b: Body, sqrt: real -> real): real
    requires PositiveRoot(sqrt) && a.Position() != b.Position()
  {
    Coefficient(a.mass, b.mass, Distance(a, b, sqrt))
  }

  /** Adds the pair force `p` to body `i` and subtracts it from body `j`. */
  function AddPair(f: seq<Vec2>, i: nat, j: nat, p: Vec2): (r: seq<Vec2>)
    requires i < |f| && j < |f|
    ensures |r| == |f|
  {
    f[i := Add(f[i], p)][j := Sub(f[j], p)]
  }

  /** The inner loop of the force computation after pairs `(i, i + 1)`, ...,
      `(i, j - 1)`: the forces accumulated so far, in the order they are added. */
  function RowPrefix(s: seq<Body>, sqrt: real -> real, f: seq<Vec2>, i: nat, j: nat): (r: seq<Vec2>)
    requires Forceable(s, sqrt) && |f| == |s| && i < j <= |s|
    ensures |r| == |f|
    decreases j
  {
    if j == i + 1 then f
    else AddPair(RowPrefix(s, sqrt, f, i, j - 1), i, j - 1, PairForce(s[i], s[j - 1], sqrt))
  }

  /** The outer loop of the force computation: rows `i`, `i + 1`, ... */
  function AllForces(s: seq<Body>, sqrt: real -> real, f: seq<Vec2>, i: nat): (r: seq<Vec2>)
    requires Forceable(s, sqrt) && |f| == |s| && i <= |s|
    ensures |r| == |f|
    decreases |s| - i
  {
    if i == |s| then f
    else AllForces(s, sqrt, RowPrefix(s, sqrt, f, i, |s|), i + 1)
  }

  /** One row of the outer loop. */
  lemma AllForcesStep(s: seq<Body>, sqrt: real -> real, f: seq<Vec2>, i: nat)
    requires Forceable(s, sqrt) && |f| == |s| && i < |s|
    ensures AllForces(s, sqrt, f, i) == AllForces(s, sqrt, RowPrefix(s, sqrt, f, i, |s|), i + 1)
  {
  }

  function Zeros(n: nat): (r: seq<Vec2>)
    ensures |r| == n && forall k :: 0 <= k < n ==> r[k] == Zero
  {
    seq(n, _ => Zero)
  }

  /** The net force on every body, as the step's two nested loops leave it. */
  function Forces(s: seq<Body>, sqrt: real -> real): (r: seq<Vec2>)
    requires Forceable(s, sqrt)
    ensures |r| == |s|
  {
    AllForces(s, sqrt, Zeros(|s|), 0)
  }

  /** One body's update: velocity by the acceleration `f / mass`, then position. */
  function StepBody(b: Body, f: Vec2, dt: real): Body
    requires b.mass != 0.0
  {
    Moved(Accelerated(b, f.x / b.mass, f.y / b.mass, dt), dt)
  }

  /** The universe after one `step(dt)`: every body is updated with the force computed
      from the positions before the step. Masses and image names are kept. */
  function StepAll(s: seq<Body>, dt: real, sqrt: real -> real): (r: seq<Body>)
    requires Forceable(s, sqrt) && NonZeroMasses(s)
    ensures |r| == |s|
    ensures forall k :: 0 <= k < |s| ==> r[k].mass == s[k].mass && r[k].imageFile == s[k].imageFile
  {
    var f := Forces(s, sqrt);
    seq(|s|, k requires 0 <= k < |s| => StepBody(s[k], f[k], dt))
  }

  // ---------------------------------------------------------------------------
  // The pair force

  /** Newton's third law for one pair: the forces are equal and opposite. */
  lemma PairForceOpposite(a: Body, b: Body, sqrt: real -> real)
    requires PositiveRoot(sqrt) && a.Position() != b.Position()
    ensures PairForce(b, a, sqrt) == Neg(PairForce(a, b, sqrt))
  {
    DistanceSymmetric(a, b, sqrt);
    PullOpposite(a.mass, b.mass, b.px - a.px, b.py - a.py, Distance(a, b, sqrt));
    assert a.px - b.px == -(b.px - a.px) && a.py - b.py == -(b.py - a.py);
  }

  lemma DistanceSymmetric(a: Body, b: Body, sqrt: real -> real)
    requires PositiveRoot(sqrt) && a.Position() != b.Position()
    ensures Distance(b, a, sqrt) == Distance(a, b, sqrt)
  {
    NegSquare(b.px - a.px);
    NegSquare(b.py - a.py);
    assert a.px - b.px == -(b.px - a.px) && a.py - b.py == -(b.py - a.py);
  }

  lemma PullOpposite(ma: real, mb: real, dx: real, dy: real, d: real)
    requires d != 0.0
    ensures Pull(mb, ma, -dx, -dy, d) == Neg(Pull(ma, mb, dx, dy, d))
  {
    var force := (G * ma * mb) / (d * d);
    MassesCommute(ma, mb);
    NegDiv(force, dx, d);
    NegDiv(force, dy, d);
  }

  /** The pair force points from `a` towards `b`; with positive masses it attracts. */
  lemma PairForceAttracts(a: Body, b: Body, sqrt: real -> real)
    requires PositiveRoot(sqrt) && a.Position() != b.Position()
    ensures PairForce(a, b, sqrt) == Scale(PairScale(a, b, sqrt), Sub(b.Position(), a.Position()))
    ensures a.mass > 0.0 && b.mass > 0.0 ==> PairScale(a, b, sqrt) > 0.0
  {
    PullAlong(a.mass, b.mass, b.px - a.px, b.py - a.py, Distance(a, b, sqrt));
    if a.mass > 0.0 && b.mass > 0.0 {
      CoefficientPositive(a.mass, b.mass, Distance(a, b, sqrt));
    }
  }

  /** The reaction on `b` points from `b` towards `a`, with the same coefficient. */
  lemma PairForceAttractsBack(a: Body, b: Body, sqrt: real -> real)
    requires PositiveRoot(sqrt) && a.Position() != b.Position()
    ensures Neg(PairForce(a, b, sqrt)) == Scale(PairScale(a, b, sqrt), Sub(a.Position(), b.Position()))
  {
    PairForceAttracts(a, b, sqrt);
    NegScale(PairScale(a, b, sqrt), Sub(b.Position(), a.Position()));
    assert Neg(Sub(b.Position(), a.Position())) == Sub(a.Position(), b.Position());
  }

  lemma PullAlong(ma: real, mb: real, dx: real, dy: real, d: real)
    requires d != 0.0
    ensures Pull(ma, mb, dx, dy, d) == Scale(Coefficient(ma, mb, d), Vec2(dx, dy))
  {
    var force := (G * ma * mb) / (d * d);
    MulDiv(force, dx, d);
    MulDiv(force, dy, d);
  }

  // ---------------------------------------------------------------------------
  // Newton's third law for the whole universe

  /** The vector sum of `f`. */
  function Total(f: seq<Vec2>): Vec2
    decreases |f|
  {
    if f == [] then Zero else Add(f[0], Total(f[1..]))
  }

  /** Replacing one entry changes the sum by the difference. */
  lemma {:induction false} TotalUpdate(f: seq<Vec2>, k: nat, v: Vec2)
    requires k < |f|
    ensures Total(f[k := v]) == Add(Sub(Total(f), f[k]), v)
    decreases |f|
  {
    if k == 0 {
      assert f[k := v][1..] == f[1..];
    } else {
      assert f[k := v][1..] == f[1..][k - 1 := v];
      TotalUpdate(f[1..], k - 1, v);
    }
  }

  /** Adding a pair force to one body and subtracting it from another keeps the sum. */
  lemma AddPairTotal(f: seq<Vec2>, i: nat, j: nat, p: Vec2)
    requires i < |f| && j < |f| && i != j
    ensures Total(AddPair(f, i, j, p)) == Total(f)
  {
    var g := f[i := Add(f[i], p)];
    var t, u := Total(f), Total(g);
    TotalUpdate(f, i, Add(f[i], p));
    assert u == Add(t, p) by {
      assert u == Add(Sub(t, f[i]), Add(f[i], p));
    }
    TotalUpdate(g, j, Sub(g[j], p));
    assert Total(AddPair(f, i, j, p)) == Add(Sub(u, g[j]), Sub(g[j], p));
  }

  lemma {:induction false} RowPrefixTotal(s: seq<Body>, sqrt: real -> real, f: seq<Vec2>, i: nat, j: nat)
    requires Forceable(s, sqrt) && |f| == |s| && i < j <= |s|
    ensures Total(RowPrefix(s, sqrt, f, i, j)) == Total(f)
    decreases j
  {
    if j > i + 1 {
      RowPrefixTotal(s, sqrt, f, i, j - 1);
      AddPairTotal(RowPrefix(s, sqrt, f, i, j - 1), i, j - 1, PairForce(s[i], s[j - 1], sqrt));
    }
  }

  lemma {:induction false} AllForcesTotal(s: seq<Body>, sqrt: real -> real, f: seq<Vec2>, i: nat)
    requires Forceable(s, sqrt) && |f| == |s| && i <= |s|
    ensures Total(AllForces(s, sqrt, f, i)) == Total(f)
    decreases |s| - i
  {
    if i < |s| {
      RowPrefixTotal(s, sqrt, f, i, |s|);
      AllForcesTotal(s, sqrt, RowPrefix(s, sqrt, f, i, |s|), i + 1);
    }
  }

  lemma {:induction false} ZerosTotal(n: nat)
    ensures Total(Zeros(n)) == Zero
  {
    if n > 0 {
      assert Zeros(n)[1..] == Zeros(n - 1);
      ZerosTotal(n - 1);
    }
  }

  /** The net forces of a step sum to zero: every pair force is added once and
      subtracted once. */
  lemma NetForceZero(s: seq<Body>, sqrt: real -> real)
    requires Forceable(s, sqrt)
    ensures Total(Forces(s, sqrt)) == Zero
  {
    ZerosTotal(|s|);
    AllForcesTotal(s, sqrt, Zeros(|s|), 0);
  }

  // ---------------------------------------------------------------------------
  // Superposition: the pair loops compute the textbook net force

  /** The net force on body `k` by the law of superposition: the sum of the pulls of
      every other body, in index order. */
  function NetForce(s: seq<Body>, sqrt: real -> real, k: nat): Vec2
    requires Forceable(s, sqrt) && k < |s|
  {
    PullsUpTo(s, sqrt, k, |s|)
  }

  /** The pulls of bodies `0 .. n - 1` other than `k` on body `k`. */
  function PullsUpTo(s: seq<Body>, sqrt: real -> real, k: nat, n: nat): Vec2
    requires Forceable(s, sqrt) && k < |s| && n <= |s|
    decreases n
  {
    if n == 0 then Zero
    else Add(PullsUpTo(s, sqrt, k, n - 1), if n - 1 == k then Zero else PairForce(s[k], s[n - 1], sqrt))
  }

  /** Whether the pair `{k, m}` has been visited once the nested loops have reached
      row `i`, column `j` (rows before `i` are done, row `i` up to column `j - 1`). */
  predicate Visited(k: nat, m: nat, i: nat, j: nat) {
    var lo := if k < m then k else m;
    var hi := if k < m then m else k;
    k != m && (lo < i || (lo == i && hi < j))
  }

  /** What body `k` has received from bodies `0 .. n - 1` at loop position `(i, j)`. */
  function Received(s: seq<Body>, sqrt: real -> real, k: nat, i: nat, j: nat, n: nat): Vec2
    requires Forceable(s, sqrt) && k < |s| && n <= |s|
    decreases n
  {
    if n == 0 then Zero
    else Add(Received(s, sqrt, k, i, j, n - 1),
             if Visited(k, n - 1, i, j) then PairForce(s[k], s[n - 1], sqrt) else Zero)
  }

  lemma {:induction false} ReceivedSame(s: seq<Body>, sqrt: real -> real, k: nat, i: nat, j: nat,
                                        i2: nat, j2: nat, n: nat)
    requires Forceable(s, sqrt) && k < |s| && n <= |s|
    requires forall m :: 0 <= m < n ==> Visited(k, m, i, j) == Visited(k, m, i2, j2)
    ensures Received(s, sqrt, k, i, j, n) == Received(s, sqrt, k, i2, j2, n)
    decreases n
  {
    if n > 0 {
      ReceivedSame(s, sqrt, k, i, j, i2, j2, n - 1);
    }
  }

  lemma {:induction false} ReceivedOneMore(s: seq<Body>, sqrt: real -> real, k: nat, i: nat, j: nat,
                                           i2: nat, j2: nat, q: nat, n: nat)
    requires Forceable(s, sqrt) && k < |s| && q < n <= |s|
    requires forall m :: 0 <= m < n && m != q ==> Visited(k, m, i, j) == Visited(k, m, i2, j2)
    requires !Visited(k, q, i, j) && Visited(k, q, i2, j2)
    ensures Received(s, sqrt, k, i2, j2, n) == Add(Received(s, sqrt, k, i, j, n), PairForce(s[k], s[q], sqrt))
    decreases n
  {
    if q == n - 1 {
      ReceivedSame(s, sqrt, k, i, j, i2, j2, n - 1);
    } else {
      ReceivedOneMore(s, sqrt, k, i, j, i2, j2, q, n - 1);
    }
  }

  lemma {:induction false} ReceivedNone(s: seq<Body>, sqrt: real -> real, k: nat, n: nat)
    requires Forceable(s, sqrt) && k < |s| && n <= |s|
    ensures Received(s, sqrt, k, 0, 1, n) == Zero
    decreases n
  {
    if n > 0 {
      ReceivedNone(s, sqrt, k, n - 1);
    }
  }

  lemma {:induction false} ReceivedAll(s: seq<Body>, sqrt: real -> real, k: nat, n: nat)
    requires Forceable(s, sqrt) && k < |s| && n <= |s|
    ensures Received(s, sqrt, k, |s|, |s| + 1, n) == PullsUpTo(s, sqrt, k, n)
    decreases n
  {
    if n > 0 {
      ReceivedAll(s, sqrt, k, n - 1);
    }
  }

  lemma {:induction false} RowPrefixReceived(s: seq<Body>, sqrt: real -> real, f: seq<Vec2>, i: nat, j: nat)
    requires Forceable(s, sqrt) && |f| == |s| && i < j <= |s|
    requires forall k :: 0 <= k < |s| ==> f[k] == Received(s, sqrt, k, i, i + 1, |s|)
    ensures forall k :: 0 <= k < |s| ==> RowPrefix(s, sqrt, f, i, j)[k] == Received(s, sqrt, k, i, j, |s|)
    decreases j
  {
    if j > i + 1 {
      RowPrefixReceived(s, sqrt, f, i, j - 1);
      var q := j - 1;
      var p := PairForce(s[i], s[q], sqrt);
      var g := RowPrefix(s, sqrt, f, i, q);
      assert RowPrefix(s, sqrt, f, i, j) == AddPair(g, i, q, p);
      forall k | 0 <= k < |s|
        ensures AddPair(g, i, q, p)[k] == Received(s, sqrt, k, i, j, |s|)
      {
        if k == i {
          ReceivedOneMore(s, sqrt, k, i, q, i, j, q, |s|);
        } else if k == q {
          PairForceOpposite(s[i], s[q], sqrt);
          ReceivedOneMore(s, sqrt, k, i, q, i, j, i, |s|);
        } else {
          ReceivedSame(s, sqrt, k, i, q, i, j, |s|);
        }
      }
    }
  }

  lemma {:induction false} AllForcesReceived(s: seq<Body>, sqrt: real -> real, f: seq<Vec2>, i: nat)
    requires Forceable(s, sqrt) && |f| == |s| && i <= |s|
    requires forall k :: 0 <= k < |s| ==> f[k] == Received(s, sqrt, k, i, i + 1, |s|)
    ensures forall k :: 0 <= k < |s| ==> AllForces(s, sqrt, f, i)[k] == Received(s, sqrt, k, |s|, |s| + 1, |s|)
    decreases |s| - i
  {
    if i < |s| {
      var g := RowPrefix(s, sqrt, f, i, |s|);
      RowPrefixReceived(s, sqrt, f, i, |s|);
      forall k | 0 <= k < |s|
        ensures g[k] == Received(s, sqrt, k, i + 1, i + 2, |s|)
      {
        ReceivedSame(s, sqrt, k, i, |s|, i + 1, i + 2, |s|);
      }
      AllForcesReceived(s, sqrt, g, i + 1);
    }
  }

  /** The pairwise loops give every body exactly the net force of superposition. */
  lemma ForcesAreNet(s: seq<Body>, sqrt: real -> real)
    requires Forceable(s, sqrt)
    ensures forall k :: 0 <= k < |s| ==> Forces(s, sqrt)[k] == NetForce(s, sqrt, k)
  {
    forall k | 0 <= k < |s|
      ensures Zeros(|s|)[k] == Received(s, sqrt, k, 0, 1, |s|)
    {
      ReceivedNone(s, sqrt, k, |s|);
    }
    AllForcesReceived(s, sqrt, Zeros(|s|), 0);
    forall k | 0 <= k < |s|
      ensures Received(s, sqrt, k, |s|, |s| + 1, |s|) == NetForce(s, sqrt, k)
    {
      ReceivedAll(s, sqrt, k, |s|);
    }
  }

  // ---------------------------------------------------------------------------
  // The step

  /** Each body moves with the velocity it has just been given: the step is the
      semi-implicit (symplectic) Euler method, not the explicit one. */
  lemma StepIsSemiImplicit(b: Body, f: Vec2, dt: real)
    requires b.mass != 0.0
    ensures StepBody(b, f, dt).Velocity() == Add(b.Velocity(), Scale(dt, Vec2(f.x / b.mass, f.y / b.mass)))
    ensures StepBody(b, f, dt).Position() == Add(b.Position(), Scale(dt, StepBody(b, f, dt).Velocity()))
    ensures StepBody(b, f, dt).mass == b.mass && StepBody(b, f, dt).imageFile == b.imageFile
  {
    var ax, ay := f.x / b.mass, f.y / b.mass;
    var r := StepBody(b, f, dt);
    assert r.vx == b.vx + ax * dt && r.vy == b.vy + ay * dt;
    assert r.px == b.px + r.vx * dt && r.py == b.py + r.vy * dt;
    MulCommutes(ax, dt);
    MulCommutes(ay, dt);
    MulCommutes(r.vx, dt);
    MulCommutes(r.vy, dt);
  }

  /** One body of `StepAll`. */
  lemma StepAllAt(s: seq<Body>, dt: real, sqrt: real -> real, k: nat)
    requires Forceable(s, sqrt) && NonZeroMasses(s) && k < |s|
    ensures StepAll(s, dt, sqrt)[k] == StepBody(s[k], Forces(s, sqrt)[k], dt)
  {
  }

  /** `step(0)` changes nothing: every body keeps its position and velocity. */
  lemma StepAllZero(s: seq<Body>, sqrt: real -> real)
    requires Forceable(s, sqrt) && NonZeroMasses(s)
    ensures StepAll(s, 0.0, sqrt) == s
  {
    var f := Forces(s, sqrt);
    forall k | 0 <= k < |s|
      ensures StepAll(s, 0.0, sqrt)[k] == s[k]
    {
      StepAllAt(s, 0.0, sqrt, k);
      ZeroStepUpdates(s[k], f[k].x / s[k].mass, f[k].y / s[k].mass);
    }
  }

  /** The momentum `mass * velocity` of every body. */
  function Momenta(s: seq<Body>): (p: seq<Vec2>)
    ensures |p| == |s|
  {
    seq(|s|, k requires 0 <= k < |s| => Scale(s[k].mass, s[k].Velocity()))
  }

  /** The total momentum of the universe. */
  function Momentum(s: seq<Body>): Vec2 {
    Total(Momenta(s))
  }

  /** One body's momentum grows by `dt` times the force on it. */
  lemma StepBodyMomentum(b: Body, f: Vec2, dt: real)
    requires b.mass != 0.0
    ensures Scale(b.mass, StepBody(b, f, dt).Velocity()) == Add(Scale(b.mass, b.Velocity()), Scale(dt, f))
  {
    KickMomentum(b.mass, b.vx, f.x, dt);
    KickMomentum(b.mass, b.vy, f.y, dt);
  }

  /** Summing entry-wise kicks. */
  lemma {:induction false} TotalKick(a: seq<Vec2>, c: seq<Vec2>, f: seq<Vec2>, dt: real)
    requires |a| == |c| == |f|
    requires forall k :: 0 <= k < |c| ==> c[k] == Add(a[k], Scale(dt, f[k]))
    ensures Total(c) == Add(Total(a), Scale(dt, Total(f)))
    decreases |c|
  {
    if c != [] {
      TotalKick(a[1..], c[1..], f[1..], dt);
      ScaleAdd(dt, f[0], Total(f[1..]));
    }
  }

  /** The step conserves total momentum: the net forces cancel. */
  lemma MomentumConserved(s: seq<Body>, dt: real, sqrt: real -> real)
    requires Forceable(s, sqrt) && NonZeroMasses(s)
    ensures Momentum(StepAll(s, dt, sqrt)) == Momentum(s)
  {
    var r := StepAll(s, dt, sqrt);
    var f := Forces(s, sqrt);
    forall k | 0 <= k < |s|
      ensures Momenta(r)[k] == Add(Momenta(s)[k], Scale(dt, f[k]))
    {
      StepBodyMomentum(s[k], f[k], dt);
    }
    TotalKick(Momenta(s), Momenta(r), f, dt);
    NetForceZero(s, sqrt);
  }

  /** A body alone feels no force and drifts in a straight line. */
  lemma SingleBodyDrifts(b: Body, dt: real, sqrt: real -> real)
    requires PositiveRoot(sqrt) && b.mass != 0.0
    ensures Forces([b], sqrt) == [Zero]
    ensures StepAll([b], dt, sqrt) == [Moved(b, dt)]
  {
    assert RowPrefix([b], sqrt, Zeros(1), 0, 1) == Zeros(1);
    assert AllForces([b], sqrt, Zeros(1), 1) == Zeros(1);
    assert Zeros(1) == [Zero];
    DriftWithoutForce(b.mass, dt);
  }

  /** Two bodies receive one pair force each, equal and opposite. */
  lemma TwoBodyForces(a: Body, b: Body, sqrt: real -> real)
    requires PositiveRoot(sqrt) && a.Position() != b.Position()
    ensures Forces([a, b], sqrt) == [PairForce(a, b, sqrt), Neg(PairForce(a, b, sqrt))]
  {
    var s := [a, b];
    var p := PairForce(a, b, sqrt);
    var g := AddPair(Zeros(2), 0, 1, p);
    assert RowPrefix(s, sqrt, Zeros(2), 0, 2) == g;
    assert RowPrefix(s, sqrt, g, 1, 2) == g;
    assert AllForces(s, sqrt, g, 1) == g;
    assert g == [p, Neg(p)];
  }

  /** Two bodies released at rest start moving towards each other: each is kicked
      along the line to the other, by a positive amount. With `TwoBodySteps` this is
      what `StepAll` does to them. */
  lemma TwoBodiesAtRestAttract(a: Body, b: Body, dt: real, sqrt: real -> real)
    requires PositiveRoot(sqrt) && a.Position() != b.Position()
    requires a.mass > 0.0 && b.mass > 0.0 && dt > 0.0
    requires a.Velocity() == Zero && b.Velocity() == Zero
    ensures StepBody(a, PairForce(a, b, sqrt), dt).Velocity()
            == Scale(PairScale(a, b, sqrt) / a.mass * dt, Sub(b.Position(), a.Position()))
    ensures StepBody(b, Neg(PairForce(a, b, sqrt)), dt).Velocity()
            == Scale(PairScale(a, b, sqrt) / b.mass * dt, Sub(a.Position(), b.Position()))
    ensures PairScale(a, b, sqrt) / a.mass * dt > 0.0 && PairScale(a, b, sqrt) / b.mass * dt > 0.0
  {
    var p, k := PairForce(a, b, sqrt), PairScale(a, b, sqrt);
    PairForceAttracts(a, b, sqrt);
    PairForceAttractsBack(a, b, sqrt);
    KickedFromRest(StepBody(a, p, dt), a, p, k, Sub(b.Position(), a.Position()), dt);
    KickedFromRest(StepBody(b, Neg(p), dt), b, Neg(p), k, Sub(a.Position(), b.Position()), dt);
    RateOfApproach(k, a.mass, dt);
    RateOfApproach(k, b.mass, dt);
  }

  /** The step of two bodies: each is kicked by the pull of the other. */
  lemma TwoBodySteps(a: Body, b: Body, dt: real, sqrt: real -> real)
    requires PositiveRoot(sqrt) && a.Position() != b.Position() && a.mass != 0.0 && b.mass != 0.0
    ensures StepAll([a, b], dt, sqrt)[0] == StepBody(a, PairForce(a, b, sqrt), dt)
    ensures StepAll([a, b], dt, sqrt)[1] == StepBody(b, Neg(PairForce(a, b, sqrt)), dt)
  {
    TwoBodyForces(a, b, sqrt);
    StepAllAt([a, b], dt, sqrt, 0);
    StepAllAt([a, b], dt, sqrt, 1);
  }

  /** A body at rest pushed by `k * d` starts moving along `d`. */
  lemma KickedFromRest(r: Body, b: Body, p: Vec2, k: real, d: Vec2, dt: real)
    requires b.mass != 0.0 && b.Velocity() == Zero && p == Scale(k, d) && r == StepBody(b, p, dt)
    ensures r.Velocity() == Scale(k / b.mass * dt, d)
  {
    KickFromRest(k, d.x, b.mass, dt);
    KickFromRest(k, d.y, b.mass, dt);
  }

  // ---------------------------------------------------------------------------
  // Real arithmetic the solver needs spelled out

  lemma MulCommutes(x: real, y: real)
    ensures x * y == y * x
  {
  }

  lemma NegSquare(x: real)
    ensures (-x) * (-x) == x * x
  {
  }

  lemma MassesCommute(ma: real, mb: real)
    ensures G * mb * ma == G * ma * mb
  {
  }

  lemma MulDiv(k: real, x: real, d: real)
    requires d != 0.0
    ensures k * x / d == (k / d) * x
  {
    var q := k / d;
    assert q * d == k;
    assert (q * x) * d == k * x;
  }

  lemma NegDiv(k: real, x: real, d: real)
    requires d != 0.0
    ensures k * (-x) / d == -(k * x / d)
  {
    var q := k * x / d;
    assert q * d == k * x;
    assert (-q) * d == k * (-x);
  }

  lemma CoefficientPositive(ma: real, mb: real, d: real)
    requires ma > 0.0 && mb > 0.0 && d > 0.0
    ensures Coefficient(ma, mb, d) > 0.0
  {
    assert G * ma > 0.0;
    assert G * ma * mb > 0.0;
    assert d * d > 0.0;
    assert (G * ma * mb) / (d * d) > 0.0;
  }

  lemma KickMomentum(m: real, v: real, f: real, dt: real)
    requires m != 0.0
    ensures m * (v + (f / m) * dt) == m * v + dt * f
  {
    var q := f / m;
    assert q * m == f;
    assert m * (v + q * dt) == m * v + (q * m) * dt;
  }

  lemma NegScale(k: real, d: Vec2)
    ensures Neg(Scale(k, d)) == Scale(k, Neg(d))
  {
  }

  lemma ScaleAdd(k: real, u: Vec2, v: Vec2)
    ensures Scale(k, Add(u, v)) == Add(Scale(k, u), Scale(k, v))
  {
  }

  lemma DriftWithoutForce(m: real, dt: real)
    requires m != 0.0
    ensures (0.0 / m) * dt == 0.0
  {
  }

  /** A body at rest kicked by `k * d`: its new velocity component is `(k / m * dt) * d`. */
  lemma KickFromRest(k: real, d: real, m: real, dt: real)
    requires m != 0.0
    ensures 0.0 + (k * d / m) * dt == (k / m * dt) * d
  {
    var q := k / m;
    assert q * m == k;
    assert (q * d) * m == k * d;
    assert k * d / m == q * d;
  }

  lemma RateOfApproach(k: real, m: real, dt: real)
    requires k > 0.0 && m > 0.0 && dt > 0.0
    ensures k / m * dt > 0.0
  {
    assert k / m > 0.0;
  }
}
