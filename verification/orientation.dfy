/** The view-orientation choice of the standard export (Form1.cs, `ExportPartToDWG`):
    the extents of the first solid body's bounding box select the named view to
    show and export, looking along the axis in which the part is thinnest. */
module Orientation {
  import opened Wrappers

  datatype View = Front | Top | Right

  /** The host's canonical name of each standard view. */
  function ViewName(v: View): (name: string)
    ensures |name| >= 4 && name[0] == '*'
  {
    match v
    case Front => "*Front"
    case Top => "*Top"
    case Right => "*Right"
  }

  /** Distinct views are exported under distinct names. */
  lemma ViewNameInjective(a: View, b: View)
    requires a != b
    ensures ViewName(a) != ViewName(b)
  {
    assert ViewName(a)[1] != ViewName(b)[1];
  }

  /** The size of a bounding box along each axis. */
  datatype Extents = Extents(dx: real, dy: real, dz: real)

  const BoundingBoxUnavailable := "Bounding box alınamadı."

  function Abs(x: real): (a: real)
    ensures a >= 0.0 && (a == x || a == -x)
  {
    if x < 0.0 then -x else x
  }

  /** The extents of a box given as `xmin, ymin, zmin, xmax, ymax, zmax`; a missing
      box or one without exactly six values is refused. */
  function BoxExtents(box: Option<seq<real>>): (r: Result<Extents>)
    ensures r.Ok? <==> box.Some? && |box.value| == 6
    ensures r.Ok? ==> r.value.dx >= 0.0 && r.value.dy >= 0.0 && r.value.dz >= 0.0
    ensures r.Ok? ==> (&& r.value.dx == Abs(box.value[0] - box.value[3])
                       && r.value.dy == Abs(box.value[1] - box.value[4])
                       && r.value.dz == Abs(box.value[2] - box.value[5]))
  {
    if box.None? || |box.value| != 6 then Err(BoundingBoxUnavailable)
    else
      var b := box.value;
      Ok(Extents(Abs(b[3] - b[0]), Abs(b[4] - b[1]), Abs(b[5] - b[2])))
  }

  function ExtentAlong(e: Extents, v: View): real {
    match v
    case Right => e.dx
    case Top => e.dy
    case Front => e.dz
  }

  /** The view looking along the thinnest axis; ties go to `*Right`, then to `*Top`. */
  function ChooseView(e: Extents): (v: View)
    ensures v == Right <==> e.dx <= e.dy && e.dx <= e.dz
    ensures v == Top <==> e.dy < e.dx && e.dy <= e.dz
    ensures v == Front <==> e.dz < e.dx && e.dz < e.dy
    ensures ExtentAlong(e, v) <= e.dx && ExtentAlong(e, v) <= e.dy && ExtentAlong(e, v) <= e.dz
  {
    if e.dx <= e.dy && e.dx <= e.dz then Right
    else if e.dy <= e.dx && e.dy <= e.dz then Top
    else Front
  }

  function Min3(a: real, b: real, c: real): (m: real)
    ensures m <= a && m <= b && m <= c
    ensures m == a || m == b || m == c
  {
    if a <= b && a <= c then a else if b <= c then b else c
  }

  /** Reference definition of the choice: the first of Right, Top, Front (in that
      priority) whose extent is the smallest. */
  function FirstMinimalView(e: Extents): View {
    var m := Min3(e.dx, e.dy, e.dz);
    if e.dx == m then Right else if e.dy == m then Top else Front
  }

  lemma ChooseViewIsFirstMinimal(e: Extents)
    ensures ChooseView(e) == FirstMinimalView(e)
  {
  }

  /** Scaling a box by a positive factor does not change the chosen view. */
  lemma ChooseViewScaleInvariant(e: Extents, k: real)
    requires k > 0.0
    ensures ChooseView(Extents(k * e.dx, k * e.dy, k * e.dz)) == ChooseView(e)
  {
    var f := Extents(k * e.dx, k * e.dy, k * e.dz);
    ScalePreservesOrder(k, e.dx, e.dy, f.dx, f.dy);
    ScalePreservesOrder(k, e.dy, e.dx, f.dy, f.dx);
    ScalePreservesOrder(k, e.dx, e.dz, f.dx, f.dz);
    ScalePreservesOrder(k, e.dz, e.dx, f.dz, f.dx);
    ScalePreservesOrder(k, e.dy, e.dz, f.dy, f.dz);
    ScalePreservesOrder(k, e.dz, e.dy, f.dz, f.dy);
    SameOrderSameView(e, f);
  }

  /** The choice depends only on how the three extents compare with each other. */
  lemma SameOrderSameView(e: Extents, f: Extents)
    requires (e.dx <= e.dy <==> f.dx <= f.dy) && (e.dy <= e.dx <==> f.dy <= f.dx)
    requires (e.dx <= e.dz <==> f.dx <= f.dz) && (e.dz <= e.dx <==> f.dz <= f.dx)
    requires (e.dy <= e.dz <==> f.dy <= f.dz) && (e.dz <= e.dy <==> f.dz <= f.dy)
    ensures ChooseView(e) == ChooseView(f)
  {
  }

  /** Multiplying by a positive factor keeps the order of two values. */
  lemma ScalePreservesOrder(k: real, a: real, b: real, ka: real, kb: real)
    requires k > 0.0 && ka == k * a && kb == k * b
    ensures ka <= kb <==> a <= b
  {
    assert kb - ka == k * (b - a);
    if a <= b {
      assert k * (b - a) >= 0.0;
    } else {
      assert k * (a - b) > 0.0;
    }
  }

  /** The extents, and so the view, depend on neither the box's position nor the order
      in which each pair of opposite corner coordinates is given. */
  lemma BoxExtentsTranslationAndCornerInvariant(b: seq<real>, tx: real, ty: real, tz: real)
    requires |b| == 6
    ensures var moved := [b[3] + tx, b[4] + ty, b[5] + tz, b[0] + tx, b[1] + ty, b[2] + tz];
            BoxExtents(Some(moved)) == BoxExtents(Some(b))
  {
    var moved := [b[3] + tx, b[4] + ty, b[5] + tz, b[0] + tx, b[1] + ty, b[2] + tz];
    assert Abs(moved[3] - moved[0]) == Abs(b[3] - b[0]);
    assert Abs(moved[4] - moved[1]) == Abs(b[4] - b[1]);
    assert Abs(moved[5] - moved[2]) == Abs(b[5] - b[2]);
  }
}
