/** Picture sizes and the resize rule shared by the image factory and the
    gallery worker (main.py `_create_image`, `_process_image_queue`). Both
    compute a target size from the picture's own size and then resize; a
    division by a zero side or a target with a zero side raises. */
module Images {
  import opened Wrappers

  /** A picture's size in pixels. */
  datatype Size = Size(width: nat, height: nat)

  /** Which resize is asked for: `auto` width with an integer height scales
      the width, `auto` height with an integer width scales the height, two
      integers are taken as they are, anything else keeps the own size. */
  datatype Fit =
    | KeepSize
    | WidthFromHeight(height: nat)
    | HeightFromWidth(width: nat)
    | Exact(width: nat, height: nat)

  /** The size the resize asks for, or None when computing it divides by
      zero: the aspect ratio is `width / height`, so a zero height fails,
      and scaling the height divides by that ratio, so a zero width fails
      there too. The float products truncated by `int()` are taken as exact
      floor division. */
  function Target(fit: Fit, s: Size): (r: Option<Size>)
    ensures r.None? <==> (fit.WidthFromHeight? && s.height == 0) || (fit.HeightFromWidth? && (s.width == 0 || s.height == 0))
    ensures r.Some? && fit.WidthFromHeight? ==>
      r.value.height == fit.height && r.value.width * s.height <= fit.height * s.width < (r.value.width + 1) * s.height
    ensures r.Some? && fit.HeightFromWidth? ==>
      r.value.width == fit.width && r.value.height * s.width <= fit.width * s.height < (r.value.height + 1) * s.width
    ensures fit.Exact? ==> r == Some(Size(fit.width, fit.height))
    ensures fit.KeepSize? ==> r == Some(s)
  {
    match fit
    case KeepSize => Some(s)
    case Exact(w, h) => Some(Size(w, h))
    case WidthFromHeight(h) =>
      if s.height == 0 then None
      else Some(Size(Quotient(h * s.width, s.height), h))
    case HeightFromWidth(w) =>
      if s.width == 0 || s.height == 0 then None
      else Some(Size(w, Quotient(w * s.height, s.width)))
  }

  /** `Image.resize` refuses a size with a zero side. */
  predicate Drawable(s: Size) {
    s.width > 0 && s.height > 0
  }

  /** The size a picture is shown at, or None when the resize raises. */
  function Resized(fit: Fit, s: Size): (r: Option<Size>)
    ensures r.Some? <==> Target(fit, s).Some? && Drawable(Target(fit, s).value)
    ensures r.Some? ==> r == Target(fit, s) && Drawable(r.value)
  {
    match Target(fit, s)
    case Some(t) => if Drawable(t) then Some(t) else None
    case None => None
  }

  /** Division rounded down, characterized without `/`. */
  function Quotient(a: nat, b: nat): (q: nat)
    requires b > 0
    ensures q * b <= a < (q + 1) * b
  {
    a / b
  }

  /** A zero in the request always fails, whatever the picture. */
  lemma ZeroRequestsFail(s: Size, n: nat)
    ensures Resized(Exact(0, n), s).None? && Resized(Exact(n, 0), s).None?
    ensures Resized(WidthFromHeight(0), s).None? && Resized(HeightFromWidth(0), s).None?
  {
  }

  /** On a picture with no zero side, a request with no zero is shown at
      the requested size, and a scaled side is shown exactly when it does
      not round down to zero: a height-scaled picture must not be more than
      `width` times wider than it is high. */
  lemma PositiveRequests(s: Size, w: nat, h: nat)
    requires Drawable(s) && w > 0 && h > 0
    ensures Resized(Exact(w, h), s) == Some(Size(w, h))
    ensures Resized(KeepSize, s) == Some(s)
    ensures Resized(WidthFromHeight(h), s).Some? <==> h * s.width >= s.height
    ensures Resized(HeightFromWidth(w), s).Some? <==> w * s.height >= s.width
  {
    var t := Target(HeightFromWidth(w), s).value;
    assert t.height == 0 <==> w * s.height < s.width;
    var u := Target(WidthFromHeight(h), s).value;
    assert u.width == 0 <==> h * s.width < s.height;
  }
}
