/**
 * The primary-colour slider of PrimaryPaintView.java: a percentage that vertical
 * drags move up and down, clipped to [0,1], and a flag that makes the slider
 * ignore touches. The view height comes from the layout and is a parameter here;
 * floats are exact reals.
 */
module PrimaryPaint {
  import opened Options
  import opened ColorSpace

  /** `clip`: a value is brought into [0,1], and one already there is kept. */
  function Clip(f: real): (r: real)
    ensures InUnit(r)
    ensures InUnit(f) ==> r == f
  {
    if f > 1.0 then 1.0 else if f < 0.0 then 0.0 else f
  }

  /** Clipping never reverses the order of two values. */
  lemma ClipMonotone(a: real, b: real)
    requires a <= b
    ensures Clip(a) <= Clip(b)
  {
  }

  /** The percentage after a drag from `lastY` to `y` on a view `height` pixels tall. */
  function AfterMove(percent: real, lastY: real, y: real, height: int): (r: real)
    requires height > 0
    ensures InUnit(r)
    ensures InUnit(percent + (lastY - y) / (2 * height) as real) ==> r == percent + (lastY - y) / (2 * height) as real
  {
    Clip(percent + (lastY - y) / (2 * height) as real)
  }

  /** For a percentage in [0,1], dragging upward (towards smaller y) never lowers it, and dragging downward never raises it. */
  lemma DragDirection(percent: real, lastY: real, y: real, height: int)
    requires height > 0 && InUnit(percent)
    ensures y <= lastY ==> AfterMove(percent, lastY, y, height) >= percent
    ensures y >= lastY ==> AfterMove(percent, lastY, y, height) <= percent
  {
    var h := (2 * height) as real;
    if y <= lastY {
      assert (lastY - y) / h >= 0.0;
      ClipMonotone(percent, percent + (lastY - y) / h);
    } else {
      assert (lastY - y) / h <= 0.0;
      ClipMonotone(percent + (lastY - y) / h, percent);
    }
  }

  /** Two drags that never reach an end of the range move the percentage as far as one drag over both distances. */
  lemma DragsCompose(percent: real, y0: real, y1: real, y2: real, height: int)
    requires height > 0
    requires InUnit(percent + (y0 - y1) / (2 * height) as real)
    requires InUnit(percent + (y0 - y2) / (2 * height) as real)
    ensures AfterMove(AfterMove(percent, y0, y1, height), y1, y2, height) == AfterMove(percent, y0, y2, height)
  {
    var h := (2 * height) as real;
    assert (y0 - y1) / h + (y1 - y2) / h == (y0 - y2) / h;
  }

  /** The actions of a touch event the slider tells apart. */
  datatype TouchAction = Down | Move | OtherAction

  /** Whether the view consumed the event or left it to the toolkit's default handling. */
  datatype Handling = Consumed | Delegated

  /** The slider state; `alpha` is the view's opacity, which `setEditable` sets. */
  class PrimaryPaintView {
    const color: Color
    var editable: bool
    var lastY: real
    var colorPercent: real
    var alpha: real

    /** A new slider is editable and fully opaque, with Java's default zero for the float fields. */
    constructor (color: Color)
      ensures this.color == color && editable && alpha == 1.0
      ensures lastY == 0.0 && colorPercent == 0.0
    {
      this.color := color;
      editable, lastY, colorPercent, alpha := true, 0.0, 0.0, 1.0;
    }

    /** `setColorPercent`: stores the value as given, without clipping it. */
    method SetColorPercent(percent: real)
      modifies this
      ensures colorPercent == percent
      ensures editable == old(editable) && lastY == old(lastY) && alpha == old(alpha)
    {
      colorPercent := percent;
    }

    /** `setEditable`: an editable slider is opaque, a locked one is drawn at alpha 0.2. */
    method SetEditable(e: bool)
      modifies this
      ensures editable == e && alpha == (if e then 1.0 else 0.2)
      ensures lastY == old(lastY) && colorPercent == old(colorPercent)
    {
      editable := e;
      if e {
        alpha := 1.0;
      } else {
        alpha := 0.2;
      }
    }

    /**
     * `onTouchMove`: the percentage moves by the drag distance over twice the height,
     * clipped to [0,1], and `lastY` follows the touch; the result is the value the
     * listener receives, the new percentage.
     */
    method OnTouchMove(y: real, height: int) returns (notified: real)
      requires height > 0
      modifies this
      ensures colorPercent == AfterMove(old(colorPercent), old(lastY), y, height) && InUnit(colorPercent)
      ensures lastY == y && notified == colorPercent
      ensures InUnit(old(colorPercent)) && y <= old(lastY) ==> colorPercent >= old(colorPercent)
      ensures editable == old(editable) && alpha == old(alpha)
    {
      if InUnit(colorPercent) {
        DragDirection(colorPercent, lastY, y, height);
      }
      var dy := lastY - y;
      var factor := dy / (2 * height) as real;
      colorPercent := Clip(colorPercent + factor);
      lastY := y;
      notified := colorPercent;
    }

    /**
     * `onTouchEvent`: a locked slider consumes every event and changes nothing; a
     * down event records `lastY` only; a move event is handled by `onTouchMove` and
     * notifies the listener; any other action is left to the toolkit.
     */
    method OnTouchEvent(action: TouchAction, y: real, height: int) returns (handled: Handling, notified: Option<real>)
      requires height > 0
      modifies this
      ensures editable == old(editable) && alpha == old(alpha)
      ensures !old(editable) ==>
        handled == Consumed && notified == None && lastY == old(lastY) && colorPercent == old(colorPercent)
      ensures old(editable) && action == Down ==>
        handled == Consumed && notified == None && lastY == y && colorPercent == old(colorPercent)
      ensures old(editable) && action == Move ==>
        handled == Consumed && colorPercent == AfterMove(old(colorPercent), old(lastY), y, height)
        && lastY == y && notified == Some(colorPercent)
      ensures old(editable) && action == OtherAction ==>
        handled == Delegated && notified == None && lastY == old(lastY) && colorPercent == old(colorPercent)
    {
      if !editable {
        return Consumed, None;
      }
      match action {
        case Down =>
          lastY := y;
          return Consumed, None;
        case Move =>
          var v := OnTouchMove(y, height);
          return Consumed, Some(v);
        case OtherAction =>
          return Delegated, None;
      }
    }
  }
}
