/** De-skewing of an organised point cloud: every row gets the sensor motion of its own capture
    time, interpolated between knots along the sweep. Times and coordinates are exact reals. */
module Deskew {
  import opened Wrappers

  // ------------------------------------------------------------ Rigid motions

  datatype Vec = Vec(x: real, y: real, z: real) {
    function Plus(v: Vec): (r: Vec) { Vec(x + v.x, y + v.y, z + v.z) }
    function Scale(k: real): (r: Vec) { Vec(k * x, k * y, k * z) }
    function Dot(v: Vec): (r: real) { x * v.x + y * v.y + z * v.z }
  }

  const ZERO := Vec(0.0, 0.0, 0.0)

  // A 3x3 matrix by rows.
  datatype Mat = Mat(a: Vec, b: Vec, c: Vec) {
    function Times(v: Vec): (r: Vec) { Vec(a.Dot(v), b.Dot(v), c.Dot(v)) }
    function Transpose(): (r: Mat)
    {
      Mat(Vec(a.x, b.x, c.x), Vec(a.y, b.y, c.y), Vec(a.z, b.z, c.z))
    }
    function Compose(m: Mat): (r: Mat)
    {
      var t := m.Transpose();
      Mat(Vec(a.Dot(t.a), a.Dot(t.b), a.Dot(t.c)),
          Vec(b.Dot(t.a), b.Dot(t.b), b.Dot(t.c)),
          Vec(c.Dot(t.a), c.Dot(t.b), c.Dot(t.c)))
    }
  }

  const IDENTITY := Mat(Vec(1.0, 0.0, 0.0), Vec(0.0, 1.0, 0.0), Vec(0.0, 0.0, 1.0))

  predicate Orthogonal(m: Mat)
  {
    m.Transpose().Compose(m) == IDENTITY && m.Compose(m.Transpose()) == IDENTITY
  }

  // tf2::Transform: rotate, then move the origin.
  datatype Transform = Transform(rot: Mat, origin: Vec) {
    function Apply(v: Vec): (r: Vec) { rot.Times(v).Plus(origin) }
    function Inverse(): (r: Transform)
    {
      var t := rot.Transpose();
      Transform(t, t.Times(origin.Scale(-1.0)))
    }
    function Compose(t: Transform): (r: Transform)
    {
      Transform(rot.Compose(t.rot), rot.Times(t.origin).Plus(origin))
    }
  }

  lemma ComposeTimes(m: Mat, n: Mat, v: Vec)
    ensures m.Compose(n).Times(v) == m.Times(n.Times(v))
  {
    RowTimes(m.a, n, v);
    RowTimes(m.b, n, v);
    RowTimes(m.c, n, v);
  }

  lemma RowTimes(row: Vec, n: Mat, v: Vec)
    ensures var t := n.Transpose();
            Vec(row.Dot(t.a), row.Dot(t.b), row.Dot(t.c)).Dot(v) == row.Dot(n.Times(v))
  {
  }

  lemma TimesPlus(m: Mat, v: Vec, w: Vec)
    ensures m.Times(v.Plus(w)) == m.Times(v).Plus(m.Times(w))
  {
  }

  lemma TimesScale(m: Mat, k: real, v: Vec)
    ensures m.Times(v.Scale(k)) == m.Times(v).Scale(k)
  {
  }

  lemma ComposeApply(s: Transform, t: Transform, v: Vec)
    ensures s.Compose(t).Apply(v) == s.Apply(t.Apply(v))
  {
    ComposeTimes(s.rot, t.rot, v);
    TimesPlus(s.rot, t.rot.Times(v), t.origin);
    hide Mat.Times, Mat.Compose;
    PlusAssoc(s.rot.Times(t.rot.Times(v)), s.rot.Times(t.origin), s.origin);
  }

  lemma PlusAssoc(u: Vec, v: Vec, w: Vec)
    ensures u.Plus(v).Plus(w) == u.Plus(v.Plus(w))
    ensures u.Plus(ZERO) == u
  {
  }

  lemma InverseUndoes(t: Transform, v: Vec)
    requires Orthogonal(t.rot)
    ensures t.Inverse().Apply(t.Apply(v)) == v
    ensures t.Apply(t.Inverse().Apply(v)) == v
  {
    var m, n, o := t.rot, t.rot.Transpose(), t.origin;
    ComposeTimes(n, m, v);
    TimesPlus(n, m.Times(v), o);
    TimesScale(n, -1.0, o);
    ComposeTimes(m, n, v);
    ComposeTimes(m, n, o);
    TimesPlus(m, n.Times(v), n.Times(o.Scale(-1.0)));
    TimesScale(m, -1.0, n.Times(o));
    IdentityTimes(v);
    IdentityTimes(o);
    hide Mat.Times, Mat.Compose, Mat.Transpose;
    var p, q := n.Times(m.Times(v)), n.Times(o);
    assert p.Plus(q).Plus(q.Scale(-1.0)) == p;
    assert v.Plus(o.Scale(-1.0)).Plus(o) == v;
  }

  lemma IdentityTimes(v: Vec)
    ensures IDENTITY.Times(v) == v
  {
  }

  // ---------------------------------------------------------- Knots and rows

  // One sweep of an organised cloud: rows from tLo to tLo + duration, a knot every `step` rows.
  datatype Sweep = Sweep(tRef: real, tLo: real, duration: real, height: nat, step: nat)

  ghost predicate ValidSweep(s: Sweep)
  {
    s.height > 0 && s.step >= 1
  }

  function KnotCount(s: Sweep): (r: nat)
    requires s.step >= 1
  {
    (s.height + s.step - 1) / s.step + 1
  }

  // The row a knot stands at.
  function KnotRow(s: Sweep, k: nat): (r: nat)
  {
    k * s.step
  }

  function KnotTime(s: Sweep, k: nat): (r: real)
    requires s.height > 0
  {
    var frac := KnotRow(s, k) as real / s.height as real;
    s.tLo + (if frac < 1.0 then frac else 1.0) * s.duration
  }

  // The capture time of a row.
  function RowTime(s: Sweep, r: nat): (t: real)
    requires s.height > 0
  {
    s.tLo + r as real / s.height as real * s.duration
  }

  // The knot before a row, and how far the row is on the way to the next one.
  function KnotBefore(s: Sweep, r: nat): (k: int)
    requires s.step >= 1
  {
    (r as real / s.step as real).Floor
  }

  function Part(s: Sweep, r: nat): (a: real)
    requires s.step >= 1
  {
    r as real / s.step as real - KnotBefore(s, r) as real
  }

  lemma FloorOfQuotient(r: nat, step: nat)
    requires step >= 1
    ensures (r as real / step as real).Floor == r / step
  {
    var q, d := r / step, r % step;
    assert r == q * step + d;
    var x := r as real / step as real;
    QuotientBounds(r as real, step as real, q as real, d as real);
    assert q as real <= x < (q + 1) as real;
  }

  lemma QuotientBounds(r: real, step: real, q: real, d: real)
    requires step > 0.0 && 0.0 <= d < step && r == q * step + d
    ensures q <= r / step < q + 1.0
    ensures r / step - q == d / step
  {
    assert r / step == q + d / step;
    BelowOne(d, step);
  }

  lemma BelowOne(d: real, step: real)
    requires step > 0.0 && 0.0 <= d < step
    ensures 0.0 <= d / step < 1.0
  {
    var x := d / step;
    assert x * step == d;
    assert x >= 1.0 ==> x * step >= step;
  }

  /** The knot behind a row always exists, so the index clamp never binds. */
  lemma KnotsBracket(s: Sweep, r: nat)
    requires ValidSweep(s) && r < s.height
    ensures var k := KnotBefore(s, r);
            && k == r / s.step
            && 0 <= k && k + 1 <= KnotCount(s) - 1
            && KnotRow(s, k) <= r < KnotRow(s, k + 1) == KnotRow(s, k) + s.step
            && Part(s, r) == (r - KnotRow(s, k)) as real / s.step as real
            && 0.0 <= Part(s, r) < 1.0
  {
    FloorOfQuotient(r, s.step);
    Division(r, s.step);
    var k := r / s.step;
    QuotientBounds(r as real, s.step as real, k as real, (r - KnotRow(s, k)) as real);
    QuotientReaches(k + 1, s.height + s.step - 1, s.step);
  }

  lemma Division(n: nat, d: nat)
    requires d >= 1
    ensures n / d * d <= n < n / d * d + d == (n / d + 1) * d
    ensures n % d == n - n / d * d
  {
  }

  lemma QuotientReaches(q: nat, n: nat, d: nat)
    requires d >= 1 && q * d <= n
    ensures q <= n / d
  {
    Division(n, d);
    NotAbove(q, n / d + 1, d);
  }

  lemma NotAbove(x: nat, y: nat, d: nat)
    ensures x >= y ==> x * d >= y * d
  {
  }

  function Lerp(x: real, y: real, a: real): (r: real)
  {
    x * (1.0 - a) + y * a
  }

  // The time that interpolation between the two knots gives to a row.
  function InterpolatedTime(s: Sweep, r: nat): (t: real)
    requires ValidSweep(s) && KnotBefore(s, r) >= 0
  {
    var k := KnotBefore(s, r);
    Lerp(KnotTime(s, k), KnotTime(s, k + 1), Part(s, r))
  }

  // The two knots of the row are a whole step apart.
  predicate FullInterval(s: Sweep, r: nat)
    requires s.step >= 1 && KnotBefore(s, r) >= 0
  {
    KnotRow(s, KnotBefore(s, r) + 1) <= s.height
  }

  // The time `rows` rows into the sweep, at `unit` seconds a row.
  function At(tLo: real, unit: real, rows: real): (t: real)
  {
    tLo + rows * unit
  }

  function Unit(s: Sweep): (u: real)
    requires s.height > 0
  {
    s.duration / s.height as real
  }

  lemma RowAt(s: Sweep, r: nat)
    requires s.height > 0
    ensures RowTime(s, r) == At(s.tLo, Unit(s), r as real)
  {
    Fraction(r, s.height, s.duration);
  }

  lemma KnotAt(s: Sweep, k: nat)
    requires s.height > 0
    ensures KnotTime(s, k) ==
            At(s.tLo, Unit(s), if KnotRow(s, k) < s.height then KnotRow(s, k) as real else s.height as real)
  {
    Fraction(KnotRow(s, k), s.height, s.duration);
    Fraction(s.height, s.height, s.duration);
  }

  lemma Fraction(n: nat, h: nat, duration: real)
    requires h > 0
    ensures n as real / h as real * duration == n as real * (duration / h as real)
    ensures n as real / h as real < 1.0 <==> n < h
    ensures n == h ==> n as real / h as real == 1.0
  {
    var x := n as real / h as real;
    assert x * h as real == n as real;
    if n < h {
      BelowOne(n as real, h as real);
    } else {
      NotBelowOne(n as real, h as real, x);
    }
  }

  lemma NotBelowOne(n: real, h: real, x: real)
    requires h > 0.0 && n >= h && x * h == n
    ensures x >= 1.0 && (n == h ==> x == 1.0)
  {
    assert x < 1.0 ==> (1.0 - x) * h > 0.0;
    assert x > 1.0 ==> (x - 1.0) * h > 0.0;
  }

  lemma LerpFull(tLo: real, unit: real, start: real, step: real, d: real)
    requires step > 0.0
    ensures Lerp(At(tLo, unit, start), At(tLo, unit, start + step), d / step) == At(tLo, unit, start + d)
  {
    var a := d / step;
    assert a * step == d;
    assert Lerp(At(tLo, unit, start), At(tLo, unit, start + step), a) == tLo + start * unit + a * step * unit;
  }

  lemma LerpPartial(tLo: real, unit: real, start: real, step: real, d: real, l: real)
    requires unit > 0.0 && 0.0 <= d < l < step
    ensures var lag := At(tLo, unit, start + d) - Lerp(At(tLo, unit, start), At(tLo, unit, start + l), d / step);
            0.0 <= lag < Quarter(unit, step)
  {
    var a := d / step;
    assert a * step == d;
    var lag := At(tLo, unit, start + d) - Lerp(At(tLo, unit, start), At(tLo, unit, start + l), a);
    assert lag == (d - a * l) * unit;
    LagRows(step, d, l, a);
    Scaled(d - a * l, step / 4.0, unit);
  }

  function Quarter(unit: real, step: real): (t: real)
  {
    unit * (step / 4.0)
  }

  lemma LagRows(step: real, d: real, l: real, a: real)
    requires 0.0 <= d < l < step && a * step == d
    ensures 0.0 <= d - a * l < step / 4.0
  {
    assert (d - a * l) * step == d * (step - l);
    assert d * (step - l) < l * (step - l);
    assert step * step - 4.0 * l * (step - l) == (step - 2.0 * l) * (step - 2.0 * l);
    SquareNotNegative(step - 2.0 * l);
    assert (d - a * l) * step < step / 4.0 * step;
    assert (d - a * l) * step >= 0.0;
  }

  lemma SquareNotNegative(x: real)
    ensures x * x >= 0.0
  {
  }

  lemma Scaled(x: real, y: real, unit: real)
    requires unit > 0.0 && 0.0 <= x < y
    ensures 0.0 <= x * unit < unit * y
  {
  }

  /** Interpolation hits the capture time of every row of a full interval. */
  lemma FullIntervalExact(s: Sweep, r: nat)
    requires ValidSweep(s) && r < s.height
    ensures KnotBefore(s, r) >= 0
    ensures FullInterval(s, r) ==> InterpolatedTime(s, r) == RowTime(s, r)
  {
    KnotsBracket(s, r);
    hide KnotTime, RowTime, KnotBefore, KnotCount, KnotRow, Part, Lerp, At, Unit;
    var k := KnotBefore(s, r);
    if FullInterval(s, r) {
      KnotAt(s, k);
      KnotAt(s, k + 1);
      RowAt(s, r);
      LerpFull(s.tLo, Unit(s), KnotRow(s, k) as real, s.step as real, (r - KnotRow(s, k)) as real);
    }
  }

  /** In a partial last interval the interpolated time is never late, and early by less
      than a quarter of a knot spacing. */
  lemma PartialIntervalLag(s: Sweep, r: nat)
    requires ValidSweep(s) && r < s.height && s.duration > 0.0
    ensures KnotBefore(s, r) >= 0
    ensures !FullInterval(s, r) ==>
              0.0 <= RowTime(s, r) - InterpolatedTime(s, r) < QuarterSpacing(s)
  {
    KnotsBracket(s, r);
    UnitPositive(s);
    hide KnotTime, RowTime, KnotBefore, KnotCount, KnotRow, Part, Lerp, At, Unit, Quarter, QuarterSpacing;
    var k := KnotBefore(s, r);
    if !FullInterval(s, r) {
      KnotAt(s, k);
      KnotAt(s, k + 1);
      RowAt(s, r);
      LerpPartial(s.tLo, Unit(s), KnotRow(s, k) as real, s.step as real,
                  (r - KnotRow(s, k)) as real, (s.height - KnotRow(s, k)) as real);
    }
  }

  // A row of a partial interval is behind its capture time, except at the knot.
  lemma PartialBehind(tLo: real, unit: real, start: real, step: real, d: real, l: real)
    requires 0.0 <= d < l < step
    ensures Lerp(At(tLo, unit, start), At(tLo, unit, start + l), d / step) == At(tLo, unit, start + d) <==>
            unit == 0.0 || d == 0.0
  {
    var a := d / step;
    assert a * step == d;
    BehindFactor(d - a * l, unit);
    assert Lerp(At(tLo, unit, start), At(tLo, unit, start + l), a) == At(tLo, unit, start + d) - (d - a * l) * unit;
    BehindFactor(step - l, d);
    assert (d - a * l) * step == (step - l) * d;
    BehindFactor(d - a * l, step);
  }

  lemma BehindFactor(x: real, y: real)
    ensures x * y == 0.0 <==> x == 0.0 || y == 0.0
  {
  }

  // A row of a full interval, or a row with a knot of its own.
  predicate ExactRow(s: Sweep, r: nat)
    requires s.step >= 1 && KnotBefore(s, r) >= 0
  {
    FullInterval(s, r) || r % s.step == 0
  }

  /** For every sweep and row, interpolation hits the capture time if and only if the row is in
      a full interval or on a knot (or the sweep takes no time). */
  lemma ExactTimes(s: Sweep, r: nat)
    requires ValidSweep(s) && r < s.height
    ensures KnotBefore(s, r) >= 0
    ensures InterpolatedTime(s, r) == RowTime(s, r) <==> s.duration == 0.0 || ExactRow(s, r)
  {
    KnotsBracket(s, r);
    FullIntervalExact(s, r);
    NoTime(s);
    hide KnotTime, RowTime, KnotBefore, KnotCount, KnotRow, Part, Lerp, At, Unit;
    var k := KnotBefore(s, r);
    if !FullInterval(s, r) {
      KnotAt(s, k);
      KnotAt(s, k + 1);
      RowAt(s, r);
      OnKnot(s, r);
      PartialBehind(s.tLo, Unit(s), KnotRow(s, k) as real, s.step as real,
                    (r - KnotRow(s, k)) as real, (s.height - KnotRow(s, k)) as real);
    }
  }

  lemma NoTime(s: Sweep)
    requires s.height > 0
    ensures Unit(s) == 0.0 <==> s.duration == 0.0
  {
    assert Unit(s) * s.height as real == s.duration;
    BehindFactor(Unit(s), s.height as real);
  }

  lemma OnKnot(s: Sweep, r: nat)
    requires ValidSweep(s) && r < s.height
    ensures KnotBefore(s, r) >= 0
    ensures r == KnotRow(s, KnotBefore(s, r)) <==> r % s.step == 0
  {
    KnotsBracket(s, r);
    Division(r, s.step);
  }

  /** A row that is behind: five rows with a knot every three, the last row. */
  lemma RowBehind()
    ensures var s := Sweep(0.0, 0.0, 1.0, 5, 3);
            ValidSweep(s) && KnotBefore(s, 4) == 1 && InterpolatedTime(s, 4) < RowTime(s, 4)
  {
    var s := Sweep(0.0, 0.0, 1.0, 5, 3);
    KnotsBracket(s, 4);
    PartialIntervalLag(s, 4);
    ExactTimes(s, 4);
  }

  // A quarter of the time between two knots.
  function QuarterSpacing(s: Sweep): (t: real)
    requires s.height > 0
  {
    s.duration * s.step as real / (4.0 * s.height as real)
  }

  lemma UnitPositive(s: Sweep)
    requires ValidSweep(s) && s.duration > 0.0
    ensures Unit(s) > 0.0
    ensures Quarter(Unit(s), s.step as real) == QuarterSpacing(s)
  {
    var unit, h, step := Unit(s), s.height as real, s.step as real;
    assert unit * h == s.duration;
    assert QuarterSpacing(s) * (4.0 * h) == unit * h * step;
  }

  // ------------------------------------------------------------- Row motions

  // What tf knows: the pose of the sensor in the fixed frame, where it is known.
  type Poses = real -> Option<Transform>

  // Rotation interpolation is left abstract: (from, to, part) to rotation.
  type Slerp = (Mat, Mat, real) -> Mat

  ghost predicate SlerpFixes(slerp: Slerp)
  {
    forall q, a :: slerp(q, q, a) == q
  }

  // All lookups of one cloud succeed.
  predicate Covered(s: Sweep, tf: Poses)
    requires s.height > 0 && s.step >= 1
  {
    tf(s.tRef).Some? && forall k: nat :: k < KnotCount(s) ==> tf(KnotTime(s, k)).Some?
  }

  // sensor at the reference time <- sensor at the knot.
  function Knot(s: Sweep, tf: Poses, k: nat): (t: Transform)
    requires s.height > 0 && s.step >= 1 && Covered(s, tf) && k < KnotCount(s)
  {
    tf(s.tRef).value.Inverse().Compose(tf(KnotTime(s, k)).value)
  }

  function Blend(slerp: Slerp, a: Transform, b: Transform, part: real): (t: Transform)
  {
    Transform(if part <= 0.0 then a.rot else slerp(a.rot, b.rot, part),
              a.origin.Scale(1.0 - part).Plus(b.origin.Scale(part)))
  }

  function RowMotion(s: Sweep, tf: Poses, slerp: Slerp, r: nat): (t: Transform)
    requires s.height > 0 && s.step >= 1 && Covered(s, tf) && r < s.height
  {
    KnotsBracket(s, r);
    var k := KnotBefore(s, r);
    Blend(slerp, Knot(s, tf, k), Knot(s, tf, k + 1), Part(s, r))
  }

  /** Any motion, knot rows: a static world point, seen from the sensor when the row was
      captured, comes out where the sensor at the reference time sees it. */
  lemma KnotRowExact(s: Sweep, tf: Poses, slerp: Slerp, r: nat, w: Vec)
    requires ValidSweep(s) && Covered(s, tf) && r < s.height
    requires tf(RowTime(s, r)).Some? && Orthogonal(tf(RowTime(s, r)).value.rot)
    requires r % s.step == 0
    ensures RowMotion(s, tf, slerp, r).Apply(tf(RowTime(s, r)).value.Inverse().Apply(w)) ==
            tf(s.tRef).value.Inverse().Apply(w)
  {
    KnotsBracket(s, r);
    var k := KnotBefore(s, r);
    assert KnotRow(s, k) == r;
    KnotAt(s, k);
    RowAt(s, r);
    hide KnotTime, RowTime, KnotBefore, KnotCount, At, Mat.Times, Mat.Compose, Mat.Transpose, Orthogonal;
    var pose, ref := tf(RowTime(s, r)).value, tf(s.tRef).value;
    var a, b := Knot(s, tf, k), Knot(s, tf, k + 1);
    assert Part(s, r) == 0.0;
    assert Blend(slerp, a, b, 0.0) == a;
    ComposeApply(ref.Inverse(), pose, pose.Inverse().Apply(w));
    InverseUndoes(pose, w);
  }

  // The knot transforms of a sensor that only translates are translations.
  lemma KnotOfTranslation(rot: Mat, here: Vec, ref: Vec)
    requires Orthogonal(rot)
    ensures Transform(rot, ref).Inverse().Compose(Transform(rot, here)) ==
            Transform(IDENTITY, rot.Transpose().Times(here.Plus(ref.Scale(-1.0))))
  {
    TimesPlus(rot.Transpose(), here, ref.Scale(-1.0));
  }

  // A pose that moves uniformly: origin c at time 0, velocity v.
  function Uniform(rot: Mat, c: Vec, v: Vec, t: real): (r: Transform)
  {
    Transform(rot, c.Plus(v.Scale(t)))
  }

  lemma UniformKnot(rot: Mat, c: Vec, v: Vec, t: real, tRef: real)
    requires Orthogonal(rot)
    ensures Uniform(rot, c, v, tRef).Inverse().Compose(Uniform(rot, c, v, t)) ==
            Transform(IDENTITY, rot.Transpose().Times(v).Scale(t - tRef))
  {
    var here, ref := c.Plus(v.Scale(t)), c.Plus(v.Scale(tRef));
    KnotOfTranslation(rot, here, ref);
    assert here.Plus(ref.Scale(-1.0)) == v.Scale(t - tRef);
    TimesScale(rot.Transpose(), t - tRef, v);
  }

  lemma UniformSight(rot: Mat, c: Vec, v: Vec, t: real, tRef: real, w: Vec)
    ensures Uniform(rot, c, v, t).Inverse().Apply(w) ==
            Uniform(rot, c, v, tRef).Inverse().Apply(w).Plus(rot.Transpose().Times(v).Scale(tRef - t))
  {
    var n := rot.Transpose();
    var here, ref := c.Plus(v.Scale(t)), c.Plus(v.Scale(tRef));
    assert here.Scale(-1.0) == ref.Scale(-1.0).Plus(v.Scale(tRef - t));
    TimesPlus(n, ref.Scale(-1.0), v.Scale(tRef - t));
    TimesScale(n, tRef - t, v);
    PlusAssoc(n.Times(w), n.Times(ref.Scale(-1.0)), n.Times(v).Scale(tRef - t));
  }

  lemma BlendTranslations(slerp: Slerp, u: Vec, x: real, y: real, part: real)
    requires SlerpFixes(slerp)
    ensures Blend(slerp, Transform(IDENTITY, u.Scale(x)), Transform(IDENTITY, u.Scale(y)), part) ==
            Transform(IDENTITY, u.Scale(Lerp(x, y, part)))
  {
    assert slerp(IDENTITY, IDENTITY, part) == IDENTITY;
    BlendVectors(u, x, y, part);
  }

  lemma BlendVectors(u: Vec, x: real, y: real, a: real)
    ensures u.Scale(x).Scale(1.0 - a).Plus(u.Scale(y).Scale(a)) == u.Scale(Lerp(x, y, a))
  {
    var b := 1.0 - a;
    var p, q, sum := b * x, a * y, Lerp(x, y, a);
    LerpParts(x, y, a, b, p, q, sum);
    ScaleTwice(u, x, b, p);
    ScaleTwice(u, y, a, q);
    ScaleSum(u, p, q, sum);
  }

  lemma LerpParts(x: real, y: real, a: real, b: real, p: real, q: real, sum: real)
    requires b == 1.0 - a && p == b * x && q == a * y && sum == Lerp(x, y, a)
    ensures sum == p + q
  {
  }

  lemma ScaleTwice(u: Vec, x: real, k: real, kx: real)
    requires kx == k * x
    ensures u.Scale(x).Scale(k) == u.Scale(kx)
  {
    Associate(k, x, kx, u.x);
    Associate(k, x, kx, u.y);
    Associate(k, x, kx, u.z);
  }

  lemma Associate(k: real, x: real, kx: real, u: real)
    requires kx == k * x
    ensures k * (x * u) == kx * u
  {
  }

  lemma ScaleSum(u: Vec, p: real, q: real, sum: real)
    requires sum == p + q
    ensures u.Scale(p).Plus(u.Scale(q)) == u.Scale(sum)
  {
  }

  lemma LerpShift(x: real, y: real, d: real, a: real)
    ensures Lerp(x - d, y - d, a) == Lerp(x, y, a) - d
  {
  }

  lemma TranslateBack(p: Vec, u: Vec, x: real, y: real)
    ensures Transform(IDENTITY, u.Scale(x)).Apply(p.Plus(u.Scale(y))) == p.Plus(u.Scale(x + y))
  {
  }

  // What tf knows of the sensor, at the times that are looked up, is uniform motion.
  ghost predicate MovesUniformly(s: Sweep, tf: Poses, rot: Mat, c: Vec, v: Vec)
    requires s.height > 0 && s.step >= 1
  {
    && tf(s.tRef) == Some(Uniform(rot, c, v, s.tRef))
    && forall k: nat :: k < KnotCount(s) ==> tf(KnotTime(s, k)) == Some(Uniform(rot, c, v, KnotTime(s, k)))
  }

  // Or it does not move.
  ghost predicate StandsStill(s: Sweep, tf: Poses, pose: Transform)
    requires s.height > 0 && s.step >= 1
  {
    tf(s.tRef) == Some(pose) && forall k: nat :: k < KnotCount(s) ==> tf(KnotTime(s, k)) == Some(pose)
  }

  /** Constant orientation and velocity, every row: a static world point comes out where the
      sensor at the reference time sees it, displaced by velocity times the time error of the
      interpolation. */
  lemma UniformMotion(s: Sweep, tf: Poses, slerp: Slerp, rot: Mat, c: Vec, v: Vec, r: nat, w: Vec)
    requires ValidSweep(s) && r < s.height
    requires Orthogonal(rot) && SlerpFixes(slerp)
    requires MovesUniformly(s, tf, rot, c, v)
    ensures Covered(s, tf) && KnotBefore(s, r) >= 0
    ensures RowMotion(s, tf, slerp, r).Apply(Uniform(rot, c, v, RowTime(s, r)).Inverse().Apply(w)) ==
            Uniform(rot, c, v, s.tRef).Inverse().Apply(w)
            .Plus(rot.Transpose().Times(v).Scale(InterpolatedTime(s, r) - RowTime(s, r)))
  {
    KnotsBracket(s, r);
    hide KnotTime, RowTime, KnotBefore, KnotCount, KnotRow, Part, Lerp, Uniform, Blend,
      Mat.Times, Mat.Compose, Mat.Transpose, Orthogonal, Vec.Plus, Vec.Scale, Vec.Dot,
      Transform.Apply, Transform.Inverse, Transform.Compose;
    var k := KnotBefore(s, r);
    var u := rot.Transpose().Times(v);
    var t0, t1, tr := KnotTime(s, k), KnotTime(s, k + 1), RowTime(s, r);
    UniformKnot(rot, c, v, t0, s.tRef);
    UniformKnot(rot, c, v, t1, s.tRef);
    UniformSight(rot, c, v, tr, s.tRef, w);
    BlendTranslations(slerp, u, t0 - s.tRef, t1 - s.tRef, Part(s, r));
    LerpShift(t0, t1, s.tRef, Part(s, r));
    TranslateBack(Uniform(rot, c, v, s.tRef).Inverse().Apply(w), u, InterpolatedTime(s, r) - s.tRef, s.tRef - tr);
  }

  /** So in every full interval the point comes out exactly. */
  lemma UniformMotionExact(s: Sweep, tf: Poses, slerp: Slerp, rot: Mat, c: Vec, v: Vec, r: nat, w: Vec)
    requires ValidSweep(s) && r < s.height
    requires Orthogonal(rot) && SlerpFixes(slerp)
    requires MovesUniformly(s, tf, rot, c, v)
    ensures Covered(s, tf) && KnotBefore(s, r) >= 0
    ensures FullInterval(s, r) ==>
              RowMotion(s, tf, slerp, r).Apply(Uniform(rot, c, v, RowTime(s, r)).Inverse().Apply(w)) ==
              Uniform(rot, c, v, s.tRef).Inverse().Apply(w)
  {
    UniformMotion(s, tf, slerp, rot, c, v, r, w);
    FullIntervalExact(s, r);
    NoDisplacement(Uniform(rot, c, v, s.tRef).Inverse().Apply(w), rot.Transpose().Times(v));
  }

  /** For every sweep and every uniform motion: a row has its points exactly if and only if the
      sensor does not move, or the row is in a full interval or on a knot (or the sweep takes
      no time). It does not depend on the point. */
  lemma ExactRows(s: Sweep, tf: Poses, slerp: Slerp, rot: Mat, c: Vec, v: Vec, r: nat, w: Vec)
    requires ValidSweep(s) && r < s.height
    requires Orthogonal(rot) && SlerpFixes(slerp)
    requires MovesUniformly(s, tf, rot, c, v)
    ensures Covered(s, tf) && KnotBefore(s, r) >= 0
    ensures RowMotion(s, tf, slerp, r).Apply(Uniform(rot, c, v, RowTime(s, r)).Inverse().Apply(w)) ==
            Uniform(rot, c, v, s.tRef).Inverse().Apply(w) <==>
            v == ZERO || s.duration == 0.0 || ExactRow(s, r)
  {
    UniformMotion(s, tf, slerp, rot, c, v, r, w);
    ExactTimes(s, r);
    var k := InterpolatedTime(s, r) - RowTime(s, r);
    var u := rot.Transpose().Times(v);
    Displaced(Uniform(rot, c, v, s.tRef).Inverse().Apply(w), u, k);
    TurnedZero(rot, v);
  }

  lemma Displaced(p: Vec, u: Vec, k: real)
    ensures p.Plus(u.Scale(k)) == p <==> u == ZERO || k == 0.0
  {
    BehindFactor(k, u.x);
    BehindFactor(k, u.y);
    BehindFactor(k, u.z);
  }

  lemma TurnedZero(rot: Mat, v: Vec)
    requires Orthogonal(rot)
    ensures rot.Transpose().Times(v) == ZERO <==> v == ZERO
  {
    ComposeTimes(rot, rot.Transpose(), v);
    IdentityTimes(v);
  }

  lemma NoDisplacement(p: Vec, u: Vec)
    ensures p.Plus(u.Scale(0.0)) == p
  {
  }

  /** A stationary sensor: every row keeps its points. */
  lemma Stationary(s: Sweep, tf: Poses, slerp: Slerp, pose: Transform, r: nat, p: Vec)
    requires ValidSweep(s) && r < s.height
    requires Orthogonal(pose.rot) && SlerpFixes(slerp)
    requires StandsStill(s, tf, pose)
    ensures Covered(s, tf) && RowMotion(s, tf, slerp, r).Apply(p) == p
  {
    StandStill(pose, s.tRef);
    forall k: nat
      ensures Uniform(pose.rot, pose.origin, ZERO, KnotTime(s, k)) == pose
    {
      StandStill(pose, KnotTime(s, k));
    }
    var w := pose.Apply(p);
    UniformMotion(s, tf, slerp, pose.rot, pose.origin, ZERO, r, w);
    hide Orthogonal, RowMotion, Transform.Apply, Transform.Inverse, Mat.Times, Uniform,
      KnotBefore, InterpolatedTime, RowTime, Covered;
    StandStill(pose, RowTime(s, r));
    StandStill(pose, s.tRef);
    InverseUndoes(pose, p);
    ZeroDisplacement(pose.rot.Transpose(), InterpolatedTime(s, r) - RowTime(s, r), p);
  }

  lemma StandStill(pose: Transform, t: real)
    ensures Uniform(pose.rot, pose.origin, ZERO, t) == pose
  {
  }

  lemma ZeroDisplacement(m: Mat, k: real, p: Vec)
    ensures p.Plus(m.Times(ZERO).Scale(k)) == p
  {
  }

  // ------------------------------------------------------------ Turning sensors

  // A sensor that turns as `rot` says while its origin moves uniformly.
  function Pose(rot: real -> Mat, c: Vec, v: Vec, t: real): (r: Transform)
  {
    Transform(rot(t), c.Plus(v.Scale(t)))
  }

  // tf knows its poses at the times that are looked up.
  ghost predicate MovesAs(s: Sweep, tf: Poses, rot: real -> Mat, c: Vec, v: Vec)
    requires s.height > 0 && s.step >= 1
  {
    && tf(s.tRef) == Some(Pose(rot, c, v, s.tRef))
    && forall k: nat :: k < KnotCount(s) ==> tf(KnotTime(s, k)) == Some(Pose(rot, c, v, KnotTime(s, k)))
  }

  // Between two times, slerp goes through the rotations in between, seen from the reference.
  ghost predicate SlerpBetween(slerp: Slerp, rot: real -> Mat, tRef: real, x: real, y: real)
  {
    forall a: real :: 0.0 < a < 1.0 ==>
      slerp(rot(tRef).Transpose().Compose(rot(x)), rot(tRef).Transpose().Compose(rot(y)), a) ==
      rot(tRef).Transpose().Compose(rot(Lerp(x, y, a)))
  }

  ghost predicate SlerpFollows(s: Sweep, slerp: Slerp, rot: real -> Mat)
    requires s.height > 0 && s.step >= 1
  {
    forall k: nat :: k + 1 < KnotCount(s) ==> SlerpBetween(slerp, rot, s.tRef, KnotTime(s, k), KnotTime(s, k + 1))
  }

  // The pose at a time, seen from the reference time.
  lemma Relative(rot: real -> Mat, c: Vec, v: Vec, t: real, tRef: real)
    ensures Pose(rot, c, v, tRef).Inverse().Compose(Pose(rot, c, v, t)) ==
            Transform(rot(tRef).Transpose().Compose(rot(t)), rot(tRef).Transpose().Times(v).Scale(t - tRef))
  {
    var n := rot(tRef).Transpose();
    var here, ref := c.Plus(v.Scale(t)), c.Plus(v.Scale(tRef));
    TimesPlus(n, here, ref.Scale(-1.0));
    Apart(c, v, t, tRef);
    TimesScale(n, t - tRef, v);
  }

  lemma Apart(c: Vec, v: Vec, t: real, tRef: real)
    ensures c.Plus(v.Scale(t)).Plus(c.Plus(v.Scale(tRef)).Scale(-1.0)) == v.Scale(t - tRef)
  {
  }

  /** The motion of every row, for a sensor that turns in any way slerp follows and moves
      uniformly: the true motion from the reference time to the row's interpolated time, rotation
      and translation. */
  lemma TurningMotion(s: Sweep, tf: Poses, slerp: Slerp, rot: real -> Mat, c: Vec, v: Vec, r: nat)
    requires ValidSweep(s) && r < s.height
    requires MovesAs(s, tf, rot, c, v) && SlerpFollows(s, slerp, rot)
    ensures Covered(s, tf) && KnotBefore(s, r) >= 0
    ensures RowMotion(s, tf, slerp, r) ==
            Pose(rot, c, v, s.tRef).Inverse().Compose(Pose(rot, c, v, InterpolatedTime(s, r)))
    ensures RowMotion(s, tf, slerp, r).rot == rot(s.tRef).Transpose().Compose(rot(InterpolatedTime(s, r)))
  {
    KnotsBracket(s, r);
    hide KnotTime, RowTime, KnotBefore, KnotCount, KnotRow, Part, Lerp, Pose, Mat.Times, Mat.Compose,
      Mat.Transpose, Vec.Plus, Vec.Scale, Vec.Dot, Transform.Inverse, Transform.Compose, SlerpBetween;
    var k := KnotBefore(s, r);
    var t0, t1, tau := KnotTime(s, k), KnotTime(s, k + 1), InterpolatedTime(s, r);
    Relative(rot, c, v, t0, s.tRef);
    Relative(rot, c, v, t1, s.tRef);
    Relative(rot, c, v, tau, s.tRef);
    assert SlerpBetween(slerp, rot, s.tRef, t0, t1);
    BlendTurned(slerp, rot, s.tRef, t0, t1, rot(s.tRef).Transpose().Times(v), Part(s, r));
  }

  lemma BlendTurned(slerp: Slerp, rot: real -> Mat, tRef: real, x: real, y: real, u: Vec, part: real)
    requires SlerpBetween(slerp, rot, tRef, x, y) && 0.0 <= part < 1.0
    ensures var n := rot(tRef).Transpose();
            Blend(slerp, Transform(n.Compose(rot(x)), u.Scale(x - tRef)),
                  Transform(n.Compose(rot(y)), u.Scale(y - tRef)), part) ==
            Transform(n.Compose(rot(Lerp(x, y, part))), u.Scale(Lerp(x, y, part) - tRef))
  {
    BlendVectors(u, x - tRef, y - tRef, part);
    LerpShift(x, y, tRef, part);
    LerpStart(x, y);
    hide Lerp, Mat.Compose, Mat.Transpose, Vec.Plus, Vec.Scale;
  }

  lemma LerpStart(x: real, y: real)
    ensures Lerp(x, y, 0.0) == x
  {
  }

  /** So a static world point comes out where the sensor at the reference time sees it, on every
      row of a full interval and on every knot row, also while the sensor turns. */
  lemma TurningExact(s: Sweep, tf: Poses, slerp: Slerp, rot: real -> Mat, c: Vec, v: Vec, r: nat, w: Vec)
    requires ValidSweep(s) && r < s.height && Orthogonal(rot(RowTime(s, r)))
    requires MovesAs(s, tf, rot, c, v) && SlerpFollows(s, slerp, rot)
    ensures Covered(s, tf) && KnotBefore(s, r) >= 0
    ensures s.duration == 0.0 || ExactRow(s, r) ==>
              RowMotion(s, tf, slerp, r).Apply(Pose(rot, c, v, RowTime(s, r)).Inverse().Apply(w)) ==
              Pose(rot, c, v, s.tRef).Inverse().Apply(w)
  {
    TurningMotion(s, tf, slerp, rot, c, v, r);
    ExactTimes(s, r);
    hide KnotBefore, RowTime, InterpolatedTime, RowMotion, ExactRow, Covered, MovesAs, SlerpFollows,
      Mat.Times, Mat.Compose, Mat.Transpose, Orthogonal;
    var pose := Pose(rot, c, v, RowTime(s, r));
    ComposeApply(Pose(rot, c, v, s.tRef).Inverse(), pose, pose.Inverse().Apply(w));
    InverseUndoes(pose, w);
  }

  /** A matrix turns vectors the way its rows say: a quarter turn takes x to y and y to -x. */
  lemma QuarterTurn(v: Vec)
    ensures Mat(Vec(0.0, -1.0, 0.0), Vec(1.0, 0.0, 0.0), Vec(0.0, 0.0, 1.0)).Times(v) == Vec(-v.y, v.x, v.z)
  {
  }

  // --------------------------------------------------------------------- Node

  // A point: coordinates, whether all three are finite, and the other fields.
  datatype Point = Point(pos: Vec, finite: bool, rest: int)

  // An organised cloud, row by row.
  datatype Cloud = Cloud(stamp: real, height: nat, width: nat, points: seq<Point>)

  ghost predicate ValidCloud(c: Cloud)
  {
    |c.points| == c.height * c.width
  }

  function Moved(m: Transform, p: Point): (q: Point)
  {
    if p.finite then p.(pos := m.Apply(p.pos)) else p
  }

  // The place of row r, column c in the point list.
  function Index(r: nat, c: nat, width: nat): (i: nat)
  {
    r * width + c
  }

  // Every point of the output is the input point under the motion of its row.
  ghost predicate Deskewed(out: seq<Point>, cloud: Cloud, s: Sweep, tf: Poses, slerp: Slerp)
    requires ValidCloud(cloud) && s.height == cloud.height && ValidSweep(s) && Covered(s, tf)
  {
    |out| == |cloud.points| &&
    forall r: nat, c: nat {:trigger Index(r, c, cloud.width)} :: r < cloud.height && c < cloud.width ==>
      var i := Index(r, c, cloud.width);
      i < |out| && out[i] == Moved(RowMotion(s, tf, slerp, r), cloud.points[i])
  }

  lemma IndexInRange(r: nat, c: nat, height: nat, width: nat)
    requires r < height && c < width
    ensures Index(r, c, width) < height * width
    ensures Index(r, c, width) == Index(r, 0, width) + c && Index(r, 0, width) + width == Index(r + 1, 0, width)
  {
    NotAbove(height, r + 1, width);
  }

  lemma IndexBefore(r: nat, c: nat, row: nat, width: nat)
    requires c < width
    ensures Index(r, c, width) < Index(row, 0, width) <==> r < row
  {
    NotAbove(row, r + 1, width);
    NotAbove(r, row, width);
  }

  class DeskewNode {
    const duration: real   // sweep_duration
    const stampFirst: bool // stamp_at is "first", or anything but "last"
    const rowsPerKnot: int
    var seen: nat
    var deskewed: nat
    var passed: nat

    constructor (duration: real, stampAt: string, rowsPerKnot: int)
      ensures this.rowsPerKnot >= 1 && this.duration == duration
      ensures this.rowsPerKnot == if rowsPerKnot > 1 then rowsPerKnot else 1
      ensures stampFirst <==> stampAt != "last"
      ensures seen == deskewed == passed == 0
    {
      this.duration := duration;
      this.stampFirst := stampAt != "last";
      this.rowsPerKnot := if rowsPerKnot > 1 then rowsPerKnot else 1;
      seen, deskewed, passed := 0, 0, 0;
    }

    function SweepOf(c: Cloud): (s: Sweep)
      requires rowsPerKnot >= 1
    {
      Sweep(c.stamp, if stampFirst then c.stamp else c.stamp - duration, duration, c.height, rowsPerKnot)
    }

    function SweepEnd(c: Cloud): (t: real)
    {
      if stampFirst then c.stamp + duration else c.stamp
    }

    /** The callback, for a cloud without per-point times. An unorganised cloud is published as
        it is; so is one that tf cannot cover. Otherwise each finite point gets the motion of
        its row, and everything else is kept. */
    method OnCloud(cloud: Cloud, tf: Poses, slerp: Slerp) returns (out: Cloud)
      requires ValidCloud(cloud) && rowsPerKnot >= 1
      modifies this
      ensures seen == old(seen) + 1
      ensures cloud.height <= 1 ==>
                out == cloud && passed == old(passed) && deskewed == old(deskewed)
      ensures cloud.height > 1 && !(tf(SweepEnd(cloud)).Some? && Covered(SweepOf(cloud), tf)) ==>
                out == cloud && passed == old(passed) + 1 && deskewed == old(deskewed)
      ensures cloud.height > 1 && tf(SweepEnd(cloud)).Some? && Covered(SweepOf(cloud), tf) ==>
                && passed == old(passed) && deskewed == old(deskewed) + 1
                && out == cloud.(points := out.points)
                && Deskewed(out.points, cloud, SweepOf(cloud), tf, slerp)
    {
      hide KnotTime;
      seen := seen + 1;
      if cloud.height <= 1 {
        return cloud;
      }
      var s := SweepOf(cloud);
      var knots;
      if tf(SweepEnd(cloud)).None? || tf(s.tRef).None? {
        passed := passed + 1;
        return cloud;
      }
      var ok;
      ok, knots := LookUpKnots(s, tf);
      if !ok {
        passed := passed + 1;
        return cloud;
      }
      var points := MoveRows(cloud, s, tf, slerp, knots);
      deskewed := deskewed + 1;
      out := Cloud(cloud.stamp, cloud.height, cloud.width, points);
    }
  }

  method LookUpKnots(s: Sweep, tf: Poses) returns (ok: bool, knots: seq<Transform>)
    requires ValidSweep(s) && tf(s.tRef).Some?
    ensures ok <==> Covered(s, tf)
    ensures ok ==> |knots| == KnotCount(s) && forall k :: 0 <= k < |knots| ==> knots[k] == Knot(s, tf, k)
  {
    hide KnotTime, Transform.Compose, Transform.Inverse;
    var refInv := tf(s.tRef).value.Inverse();
    knots := [];
    for k := 0 to KnotCount(s)
      invariant |knots| == k
      invariant forall j: nat :: j < k ==> tf(KnotTime(s, j)).Some?
      invariant forall j :: 0 <= j < k ==> knots[j] == refInv.Compose(tf(KnotTime(s, j)).value)
    {
      var pose := tf(KnotTime(s, k));
      if pose.None? {
        return false, [];
      }
      knots := knots + [refInv.Compose(pose.value)];
    }
    ok := true;
  }

  // The rows before `row`, and its first `col` columns, are moved; the rest is as it was.
  ghost predicate DoneUpTo(out: seq<Point>, cloud: Cloud, s: Sweep, tf: Poses, slerp: Slerp, row: nat, col: nat)
    requires ValidCloud(cloud) && s.height == cloud.height && ValidSweep(s) && Covered(s, tf)
  {
    |out| == |cloud.points| &&
    forall r: nat, c: nat {:trigger Index(r, c, cloud.width)} :: r < cloud.height && c < cloud.width ==>
      var i := Index(r, c, cloud.width);
      && i < |out|
      && out[i] ==
         if r < row || (r == row && c < col) then Moved(RowMotion(s, tf, slerp, r), cloud.points[i])
         else cloud.points[i]
  }

  lemma NothingDone(cloud: Cloud, s: Sweep, tf: Poses, slerp: Slerp)
    requires ValidCloud(cloud) && s.height == cloud.height && ValidSweep(s) && Covered(s, tf)
    ensures DoneUpTo(cloud.points, cloud, s, tf, slerp, 0, 0)
  {
    forall r: nat, c: nat {:trigger Index(r, c, cloud.width)} | r < cloud.height && c < cloud.width
      ensures Index(r, c, cloud.width) < |cloud.points|
    {
      IndexInRange(r, c, cloud.height, cloud.width);
    }
  }

  lemma NextPoint(out: seq<Point>, cloud: Cloud, s: Sweep, tf: Poses, slerp: Slerp, row: nat, col: nat)
    requires ValidCloud(cloud) && s.height == cloud.height && ValidSweep(s) && Covered(s, tf)
    requires row < cloud.height && col < cloud.width
    requires DoneUpTo(out, cloud, s, tf, slerp, row, col)
    ensures var i := Index(row, col, cloud.width);
            && i < |out| && out[i] == cloud.points[i]
            && DoneUpTo(out[i := Moved(RowMotion(s, tf, slerp, row), out[i])], cloud, s, tf, slerp, row, col + 1)
  {
    hide RowMotion, Moved, Covered, Index;
    var w := cloud.width;
    var i := Index(row, col, w);
    forall r: nat, c: nat {:trigger Index(r, c, w)} | r < cloud.height && c < w && (r != row || c != col)
      ensures Index(r, c, w) != i
    {
      DistinctIndices(r, c, row, col, w);
    }
  }

  lemma DistinctIndices(r: nat, c: nat, row: nat, col: nat, width: nat)
    requires c < width && col < width && (r != row || c != col)
    ensures Index(r, c, width) != Index(row, col, width)
  {
    if r < row {
      IndexBefore(r, c, row, width);
    } else if row < r {
      IndexBefore(row, col, r, width);
    }
  }

  // The nested loops over rows and columns, rewriting a copy of the points in place.
  method MoveRows(cloud: Cloud, s: Sweep, tf: Poses, slerp: Slerp, knots: seq<Transform>)
    returns (points: seq<Point>)
    requires ValidCloud(cloud) && s.height == cloud.height && ValidSweep(s) && Covered(s, tf)
    requires |knots| == KnotCount(s) && forall k :: 0 <= k < |knots| ==> knots[k] == Knot(s, tf, k)
    ensures Deskewed(points, cloud, s, tf, slerp)
  {
    hide Covered, Knot, RowMotion, KnotCount, Moved, DoneUpTo, Index;
    var n, w := |cloud.points|, cloud.width;
    var out := new Point[n](i requires 0 <= i < n => cloud.points[i]);
    assert out[..] == cloud.points;
    NothingDone(cloud, s, tf, slerp);
    var i := 0;
    FirstIndex(w);
    for r := 0 to cloud.height
      invariant i == Index(r, 0, w)
      invariant DoneUpTo(out[..], cloud, s, tf, slerp, r, 0)
    {
      var m := MotionOfRow(s, tf, slerp, knots, r);
      for c := 0 to w
        invariant i == Index(r, c, w)
        invariant DoneUpTo(out[..], cloud, s, tf, slerp, r, c)
      {
        NextPoint(out[..], cloud, s, tf, slerp, r, c);
        ghost var before := out[..];
        if out[i].finite {
          out[i] := out[i].(pos := m.Apply(out[i].pos));
        }
        MovedPoint(m, before[i]);
        assert out[..] == before[i := Moved(m, before[i])];
        NextIndex(r, c, w);
        i := i + 1;
      }
      RowEnds(out[..], cloud, s, tf, slerp, r);
    }
    AllDone(out[..], cloud, s, tf, slerp);
    points := out[..];
  }

  lemma FirstIndex(w: nat)
    ensures Index(0, 0, w) == 0
  {
  }

  lemma NextIndex(r: nat, c: nat, w: nat)
    ensures Index(r, c + 1, w) == Index(r, c, w) + 1
    ensures Index(r, w, w) == Index(r + 1, 0, w)
  {
  }

  lemma MovedPoint(m: Transform, p: Point)
    ensures Moved(m, p) == if p.finite then p.(pos := m.Apply(p.pos)) else p
  {
  }

  lemma RowEnds(out: seq<Point>, cloud: Cloud, s: Sweep, tf: Poses, slerp: Slerp, row: nat)
    requires ValidCloud(cloud) && s.height == cloud.height && ValidSweep(s) && Covered(s, tf)
    requires DoneUpTo(out, cloud, s, tf, slerp, row, cloud.width)
    ensures DoneUpTo(out, cloud, s, tf, slerp, row + 1, 0)
    ensures Index(row, cloud.width, cloud.width) == Index(row + 1, 0, cloud.width)
  {
    NextIndex(row, 0, cloud.width);
    hide RowMotion, Moved, Covered, Index;
  }

  lemma AllDone(out: seq<Point>, cloud: Cloud, s: Sweep, tf: Poses, slerp: Slerp)
    requires ValidCloud(cloud) && s.height == cloud.height && ValidSweep(s) && Covered(s, tf)
    requires DoneUpTo(out, cloud, s, tf, slerp, cloud.height, 0)
    ensures Deskewed(out, cloud, s, tf, slerp)
  {
    hide RowMotion, Moved, Covered, Index;
  }

  // Bracketing knots and interpolation, as the loop computes them for one row.
  method MotionOfRow(s: Sweep, tf: Poses, slerp: Slerp, knots: seq<Transform>, r: nat) returns (m: Transform)
    requires ValidSweep(s) && Covered(s, tf) && r < s.height
    requires |knots| == KnotCount(s) && forall k :: 0 <= k < |knots| ==> knots[k] == Knot(s, tf, k)
    ensures m == RowMotion(s, tf, slerp, r)
  {
    hide Covered, Knot, KnotTime;
    KnotsBracket(s, r);
    var kf := r as real / s.step as real;
    var k0 := kf.Floor;
    var k1 := if k0 + 1 < KnotCount(s) - 1 then k0 + 1 else KnotCount(s) - 1;
    var a := kf - k0 as real;
    var rot := if a <= 0.0 then knots[k0].rot else slerp(knots[k0].rot, knots[k1].rot, a);
    m := Transform(rot, knots[k0].origin.Scale(1.0 - a).Plus(knots[k1].origin.Scale(a)));
  }

  /** Only coordinates of finite points change, and for a stationary sensor nothing does. */
  lemma DeskewedKeeps(out: seq<Point>, cloud: Cloud, s: Sweep, tf: Poses, slerp: Slerp, r: nat, c: nat)
    requires ValidCloud(cloud) && s.height == cloud.height && ValidSweep(s) && Covered(s, tf)
    requires Deskewed(out, cloud, s, tf, slerp) && r < cloud.height && c < cloud.width
    ensures var i := Index(r, c, cloud.width);
            && i < |out| == |cloud.points|
            && out[i].finite == cloud.points[i].finite && out[i].rest == cloud.points[i].rest
            && (!out[i].finite ==> out[i] == cloud.points[i])
    ensures forall pose: Transform ::
              Orthogonal(pose.rot) && SlerpFixes(slerp) && StandsStill(s, tf, pose) ==>
              out[Index(r, c, cloud.width)] == cloud.points[Index(r, c, cloud.width)]
  {
    hide Covered, RowMotion, Orthogonal, SlerpFixes, KnotCount;
    var i := Index(r, c, cloud.width);
    IndexInRange(r, c, cloud.height, cloud.width);
    forall pose: Transform | Orthogonal(pose.rot) && SlerpFixes(slerp) && StandsStill(s, tf, pose)
      ensures out[i] == cloud.points[i]
    {
      Stationary(s, tf, slerp, pose, r, cloud.points[i].pos);
    }
  }

  /** The whole callback on a sensor in uniform motion: where a row saw a static world point, the
      published cloud has it as the sensor sees it at the reference time, if and only if the row
      is in a full interval or on a knot (or sensor or time stand still). */
  lemma DeskewedSees(out: seq<Point>, cloud: Cloud, s: Sweep, tf: Poses, slerp: Slerp,
                     rot: Mat, c: Vec, v: Vec, r: nat, column: nat, w: Vec)
    requires ValidCloud(cloud) && s.height == cloud.height && ValidSweep(s) && Covered(s, tf)
    requires Deskewed(out, cloud, s, tf, slerp) && r < cloud.height && column < cloud.width
    requires Orthogonal(rot) && SlerpFixes(slerp) && MovesUniformly(s, tf, rot, c, v)
    ensures var i := Index(r, column, cloud.width);
            && i < |out| == |cloud.points|
            && KnotBefore(s, r) >= 0
            && (cloud.points[i].finite &&
                cloud.points[i].pos == Uniform(rot, c, v, RowTime(s, r)).Inverse().Apply(w) ==>
                (out[i] == cloud.points[i].(pos := Uniform(rot, c, v, s.tRef).Inverse().Apply(w)) <==>
                 v == ZERO || s.duration == 0.0 || ExactRow(s, r)))
  {
    hide Covered, RowMotion, Orthogonal, SlerpFixes, KnotCount, MovesUniformly, Uniform, RowTime, KnotBefore,
      ExactRow, Transform.Apply, Transform.Inverse;
    IndexInRange(r, column, cloud.height, cloud.width);
    ExactRows(s, tf, slerp, rot, c, v, r, w);
  }

  // ------------------------------------------------- The callback in its own terms

  // The first time of the sweep of a cloud.
  function SweepStart(node: DeskewNode, stamp: real): (t: real)
  {
    if node.stampFirst then stamp else stamp - node.duration
  }

  // The time of row r of h, or of the end for later rows.
  function TimeOfRow(t0: real, duration: real, r: nat, h: nat): (t: real)
    requires h > 0
  {
    t0 + (if r < h then r as real / h as real else 1.0) * duration
  }

  lemma KnotTimeIs(s: Sweep, k: nat)
    requires s.height > 0
    ensures KnotTime(s, k) == TimeOfRow(s.tLo, s.duration, k * s.step, s.height)
  {
    Fraction(k * s.step, s.height, s.duration);
  }

  // There is a knot every `step` rows, up to the first one that is not a row any more.
  lemma KnotsCover(s: Sweep, k: nat)
    requires ValidSweep(s)
    ensures k < KnotCount(s) <==> k * s.step < s.height + s.step
    ensures KnotRow(s, KnotCount(s) - 1) >= s.height
  {
    var n := s.height + s.step - 1;
    Division(n, s.step);
    NotAbove(n / s.step, k, s.step);
    NotAbove(k, n / s.step + 1, s.step);
  }

  /** The times of the callback, in the node's parameters and the cloud's stamp: with "first", row r
      was captured at stamp + r/H * duration, with "last" at stamp - duration + r/H * duration. tf
      must know the stamp, the end of the sweep, and one time every rowsPerKnot rows; the first of
      them is the start of the sweep, the last its end. */
  lemma CallbackTimes(node: DeskewNode, cloud: Cloud, tf: Poses, r: nat)
    requires node.rowsPerKnot >= 1 && r < cloud.height
    ensures var s := node.SweepOf(cloud);
            var start := if node.stampFirst then cloud.stamp else cloud.stamp - node.duration;
            && s.tRef == cloud.stamp && s.height == cloud.height && s.step == node.rowsPerKnot
            && s.duration == node.duration
            && RowTime(s, r) == start + r as real / cloud.height as real * node.duration
            && node.SweepEnd(cloud) == start + node.duration
            && KnotTime(s, 0) == start && KnotTime(s, KnotCount(s) - 1) == start + node.duration
            && (forall k: nat :: KnotTime(s, k) ==
                 TimeOfRow(start, node.duration, k * node.rowsPerKnot, cloud.height))
            && (Covered(s, tf) <==>
                 tf(cloud.stamp).Some? &&
                 forall k: nat :: k * node.rowsPerKnot < cloud.height + node.rowsPerKnot ==>
                   tf(TimeOfRow(start, node.duration, k * node.rowsPerKnot, cloud.height)).Some?)
  {
    var s := node.SweepOf(cloud);
    hide KnotTime, KnotCount, RowTime, TimeOfRow, KnotRow;
    forall k: nat
      ensures KnotTime(s, k) == TimeOfRow(s.tLo, s.duration, k * s.step, s.height)
      ensures k < KnotCount(s) <==> k * s.step < s.height + s.step
    {
      KnotTimeIs(s, k);
      KnotsCover(s, k);
    }
    EndsOfSweep(s, r);
  }

  lemma EndsOfSweep(s: Sweep, r: nat)
    requires ValidSweep(s)
    ensures KnotTime(s, 0) == s.tLo && KnotTime(s, KnotCount(s) - 1) == s.tLo + s.duration
    ensures RowTime(s, r) == s.tLo + r as real / s.height as real * s.duration
  {
    KnotsCover(s, 0);
    hide KnotCount;
    KnotAt(s, 0);
    KnotAt(s, KnotCount(s) - 1);
    Fraction(s.height, s.height, s.duration);
    assert KnotRow(s, 0) == 0;
  }

  // tf knows the poses of a sensor at the stamp and along the sweep.
  ghost predicate Knows(node: DeskewNode, cloud: Cloud, tf: Poses, rot: real -> Mat, c: Vec, v: Vec)
    requires node.rowsPerKnot >= 1 && cloud.height > 0
  {
    && tf(cloud.stamp) == Some(Pose(rot, c, v, cloud.stamp))
    && forall k: nat :: k * node.rowsPerKnot < cloud.height + node.rowsPerKnot ==>
         KnowsAt(node, cloud, tf, rot, c, v, k)
  }

  predicate KnowsAt(node: DeskewNode, cloud: Cloud, tf: Poses, rot: real -> Mat, c: Vec, v: Vec, k: nat)
    requires node.rowsPerKnot >= 1 && cloud.height > 0
  {
    var t := TimeOfRow(SweepStart(node, cloud.stamp), node.duration, k * node.rowsPerKnot, cloud.height);
    tf(t) == Some(Pose(rot, c, v, t))
  }

  // Slerp follows the sensor from each time that is looked up to the next.
  ghost predicate Follows(node: DeskewNode, cloud: Cloud, slerp: Slerp, rot: real -> Mat)
    requires node.rowsPerKnot >= 1 && cloud.height > 0
  {
    forall k: nat :: k + 1 < KnotCount(node.SweepOf(cloud)) ==>
      SlerpBetween(slerp, rot, cloud.stamp,
                   KnotTime(node.SweepOf(cloud), k), KnotTime(node.SweepOf(cloud), k + 1))
  }

  lemma KnowsMoves(node: DeskewNode, cloud: Cloud, tf: Poses, rot: real -> Mat, c: Vec, v: Vec)
    requires node.rowsPerKnot >= 1 && cloud.height > 0 && Knows(node, cloud, tf, rot, c, v)
    ensures MovesAs(node.SweepOf(cloud), tf, rot, c, v) && Covered(node.SweepOf(cloud), tf)
  {
    hide Pose, KnotTime, KnotCount, TimeOfRow;
    var s := node.SweepOf(cloud);
    forall k: nat | k < KnotCount(s)
      ensures tf(KnotTime(s, k)) == Some(Pose(rot, c, v, KnotTime(s, k)))
    {
      KnotsCover(s, k);
      KnotTimeIs(s, k);
      assert KnowsAt(node, cloud, tf, rot, c, v, k);
    }
  }

  lemma PlaceOf(r: nat, column: nat, cloud: Cloud)
    requires ValidCloud(cloud) && r < cloud.height && column < cloud.width
    ensures r * cloud.width + column < |cloud.points| && Index(r, column, cloud.width) == r * cloud.width + column
  {
    IndexInRange(r, column, cloud.height, cloud.width);
  }

  // Point i of a cloud shows world point w from a pose.
  predicate Shows(points: seq<Point>, i: nat, pose: Transform, w: Vec)
  {
    i < |points| && points[i].finite && points[i].pos == pose.Inverse().Apply(w)
  }

  // A row of a full knot interval, or with a knot of its own.
  predicate SharpRow(r: nat, step: int, height: nat)
    requires step >= 1
  {
    (r / step + 1) * step <= height || r % step == 0
  }

  lemma SharpIsExact(s: Sweep, r: nat)
    requires ValidSweep(s) && r < s.height
    ensures KnotBefore(s, r) >= 0 && (ExactRow(s, r) <==> SharpRow(r, s.step, s.height))
  {
    KnotsBracket(s, r);
  }

  /** The callback on a sensor that turns and moves: if the point in row r and some column showed
      a static world point when the row was captured, it is published where the sensor at the
      cloud's stamp sees it, for every row of a full knot interval and every knot row. */
  lemma CallbackSees(node: DeskewNode, cloud: Cloud, tf: Poses, slerp: Slerp, out: seq<Point>,
                     rot: real -> Mat, c: Vec, v: Vec, r: nat, column: nat, w: Vec)
    requires node.rowsPerKnot >= 1 && ValidCloud(cloud) && r < cloud.height && column < cloud.width
    requires Knows(node, cloud, tf, rot, c, v) && Follows(node, cloud, slerp, rot)
    requires Covered(node.SweepOf(cloud), tf) && Deskewed(out, cloud, node.SweepOf(cloud), tf, slerp)
    ensures var i := r * cloud.width + column;
            var start := if node.stampFirst then cloud.stamp else cloud.stamp - node.duration;
            var captured := start + r as real / cloud.height as real * node.duration;
            Shows(cloud.points, i, Pose(rot, c, v, captured), w) && Orthogonal(rot(captured)) &&
            (node.duration == 0.0 || SharpRow(r, node.rowsPerKnot, cloud.height)) ==>
              Shows(out, i, Pose(rot, c, v, cloud.stamp), w)
  {
    var s := node.SweepOf(cloud);
    CallbackTimes(node, cloud, tf, r);
    KnowsMoves(node, cloud, tf, rot, c, v);
    PlaceOf(r, column, cloud);
    SharpIsExact(s, r);
    hide Covered, RowMotion, Orthogonal, KnotCount, MovesAs, Pose, RowTime, KnotTime, KnotBefore, SlerpBetween, Index,
      ExactRow, SharpRow, Knows, Transform.Apply, Transform.Inverse;
    assert SlerpFollows(s, slerp, rot);
    if Orthogonal(rot(RowTime(s, r))) {
      TurningExact(s, tf, slerp, rot, c, v, r, w);
    }
    DeskewedPoint(out, cloud, s, tf, slerp, r, column);
  }

  lemma DeskewedPoint(out: seq<Point>, cloud: Cloud, s: Sweep, tf: Poses, slerp: Slerp, r: nat, column: nat)
    requires ValidCloud(cloud) && s.height == cloud.height && ValidSweep(s) && Covered(s, tf)
    requires Deskewed(out, cloud, s, tf, slerp) && r < cloud.height && column < cloud.width
    ensures var i := Index(r, column, cloud.width);
            && i < |out| == |cloud.points|
            && out[i].finite == cloud.points[i].finite
            && (out[i].finite ==> out[i].pos == RowMotion(s, tf, slerp, r).Apply(cloud.points[i].pos))
  {
    hide Covered, RowMotion, Index, Transform.Apply;
    IndexInRange(r, column, cloud.height, cloud.width);
  }

  /** The same for a sensor of constant orientation, where it holds for no other row unless the
      sensor stands still. */
  lemma CallbackSeesExactly(node: DeskewNode, cloud: Cloud, tf: Poses, slerp: Slerp, out: seq<Point>,
                            rot: Mat, c: Vec, v: Vec, r: nat, column: nat, w: Vec)
    requires node.rowsPerKnot >= 1 && ValidCloud(cloud) && r < cloud.height && column < cloud.width
    requires Knows(node, cloud, tf, _ => rot, c, v)
    requires Covered(node.SweepOf(cloud), tf) && Deskewed(out, cloud, node.SweepOf(cloud), tf, slerp)
    ensures var i := r * cloud.width + column;
            var start := if node.stampFirst then cloud.stamp else cloud.stamp - node.duration;
            var captured := start + r as real / cloud.height as real * node.duration;
            Shows(cloud.points, i, Uniform(rot, c, v, captured), w) && Orthogonal(rot) && SlerpFixes(slerp) ==>
              (Shows(out, i, Uniform(rot, c, v, cloud.stamp), w) <==>
               v == ZERO || node.duration == 0.0 || SharpRow(r, node.rowsPerKnot, cloud.height))
  {
    var s := node.SweepOf(cloud);
    CallbackTimes(node, cloud, tf, r);
    KnowsMoves(node, cloud, tf, _ => rot, c, v);
    ConstantMoves(s, tf, rot, c, v);
    PlaceOf(r, column, cloud);
    SharpIsExact(s, r);
    hide Covered, RowMotion, Orthogonal, KnotCount, MovesUniformly, RowTime, KnotTime, KnotBefore, SlerpFixes, Index,
      ExactRow, SharpRow, Knows, Uniform, Transform.Apply, Transform.Inverse;
    if Orthogonal(rot) && SlerpFixes(slerp) {
      ExactRows(s, tf, slerp, rot, c, v, r, w);
    }
    DeskewedPoint(out, cloud, s, tf, slerp, r, column);
  }

  lemma ConstantMoves(s: Sweep, tf: Poses, rot: Mat, c: Vec, v: Vec)
    requires s.height > 0 && s.step >= 1 && MovesAs(s, tf, _ => rot, c, v)
    ensures MovesUniformly(s, tf, rot, c, v)
  {
    hide KnotTime, KnotCount;
  }
}
