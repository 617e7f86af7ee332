/** The fitting and padding of an image to the `IMAGE_HEIGHT` x `IMAGE_WIDTH` canvas that
    both the record writer (`WriteTFRecord.pad_image`) and the predictor
    (`Predict_Image.decode_image`) perform. Images are known here by their size only. */
module Canvas {
  import opened Wrappers

  /** `image.size`, that is `(width, height)` in pixels. */
  datatype Size = Size(width: nat, height: nat)

  /** PIL refuses to resize an image to a zero width or height. */
  datatype ImageError = ZeroSizedResize(target: Size)

  /** An RGB image pasted at the top-left corner of a black canvas: its size, and the rows
      of zeros `np.pad` adds below it and the columns it adds to its right. */
  datatype Canvas = Canvas(content: Size, padBottom: nat, padRight: nat)

  /** The array shape `(rows, columns, channels)` of a canvas. */
  function Shape(c: Canvas): seq<nat> {
    [c.content.height + c.padBottom, c.content.width + c.padRight, 3]
  }

  predicate Fits(s: Size, height: nat, width: nat) {
    s.width <= width && s.height <= height
  }

  /** `image.resize(target)`: the new size, or PIL's error for an empty target. */
  function Resize(target: Size): (r: Result<Size, ImageError>)
    ensures r.Ok? <==> target.width > 0 && target.height > 0
    ensures r.Ok? ==> r.value == target
  {
    if target.width == 0 || target.height == 0 then Err(ZeroSizedResize(target)) else Ok(target)
  }

  /** `int(a / b * x)` for `a < b`, with exact arithmetic: never more than `x`. */
  lemma ScaleDown(a: nat, b: nat, x: nat)
    requires a < b
    ensures a * x / b <= x
  {
    assert a * x <= b * x by {
      assert (b - a) * x >= 0;
      assert b * x - a * x == (b - a) * x;
    }
    assert b * x / b == x;
  }

  /** `int(a / b * x)`: `x` scaled by the ratio `a / b`, rounded down. */
  function Scaled(a: nat, b: nat, x: nat): (r: nat)
    requires a < b
    ensures r <= x
  {
    ScaleDown(a, b, x);
    a * x / b
  }

  /** One turn of the `while True` loop, from the size read at its top: a too tall image is
      scaled to the canvas height, then a too wide one (measured before the first resize) is
      scaled to the canvas width, the second resize replacing the first. */
  function Pass(s: Size, height: nat, width: nat): (r: Result<Size, ImageError>)
    requires !Fits(s, height, width)
    ensures r.Err? ==> r.error.target.width == 0 || r.error.target.height == 0
    ensures r.Ok? ==> r.value.width <= width && r.value.width <= s.width && r.value.height <= s.height
    ensures r.Ok? ==> r.value.width + r.value.height < s.width + s.height
    ensures r.Ok? && s.width <= width ==> Fits(r.value, height, width)
  {
    var first :=
      if height < s.height then
        Resize(Size(Scaled(height, s.height, s.width), height))
      else Ok(s);
    if first.Err? then first
    else if width < s.width then
      Resize(Size(width, Scaled(width, s.width, s.height)))
    else first
  }

  /** The size the loop leaves the image at, or the error that ends it. */
  function FitSize(s: Size, height: nat, width: nat): (r: Result<Size, ImageError>)
    ensures r.Ok? ==> Fits(r.value, height, width)
    ensures r.Ok? ==> r.value.width <= s.width && r.value.height <= s.height
    ensures r == Ok(s) <==> Fits(s, height, width)
    decreases s.width + s.height
  {
    if Fits(s, height, width) then Ok(s)
    else match Pass(s, height, width)
      case Err(e) => Err(e)
      case Ok(t) => FitSize(t, height, width)
  }

  /** The loop resizes at most twice: after one pass the width fits, after a second pass
      the height fits too. */
  lemma {:induction false} AtMostTwoPasses(s: Size, height: nat, width: nat)
    requires !Fits(s, height, width) && Pass(s, height, width).Ok?
    ensures var t := Pass(s, height, width).value;
      Fits(t, height, width) || (Pass(t, height, width).Ok? ==> Fits(Pass(t, height, width).value, height, width))
    ensures var t := Pass(s, height, width).value;
      FitSize(s, height, width) == (if Fits(t, height, width) then Ok(t) else Pass(t, height, width))
  {
    var t := Pass(s, height, width).value;
    if !Fits(t, height, width) {
      var u := Pass(t, height, width);
      if u.Ok? {
        assert FitSize(u.value, height, width) == Ok(u.value);
      }
    }
  }

  /** The padded canvas of the fitted image, whatever the image's size. */
  function Pad(s: Size, height: nat, width: nat): (r: Result<Canvas, ImageError>)
    ensures r.Ok? ==> Shape(r.value) == [height, width, 3]
    ensures r.Ok? ==> r.value.content.width <= s.width && r.value.content.height <= s.height
    ensures Fits(s, height, width) ==> r == Ok(Canvas(s, height - s.height, width - s.width))
    ensures r.Err? <==> FitSize(s, height, width).Err?
  {
    match FitSize(s, height, width)
    case Err(e) => Err(e)
    case Ok(t) => Ok(Canvas(t, height - t.height, width - t.width))
  }

  /** `WriteTFRecord.pad_image`: the loop as the source runs it, then the zero padding.
      (The canvas is then JPEG-encoded; see the README.) */
  method PadImage(s: Size, height: nat, width: nat) returns (r: Result<Canvas, ImageError>)
    ensures r == Pad(s, height, width)
  {
    var image := s;
    while true
      invariant FitSize(image, height, width) == FitSize(s, height, width)
      decreases image.width + image.height
    {
      var w, h := image.width, image.height;
      ghost var before := image;
      if height < h {
        var resized := Resize(Size(Scaled(height, h, w), height));
        if resized.Err? {
          assert Pass(before, height, width) == resized;
          return Err(resized.error);
        }
        image := resized.value;
      }
      if width < w {
        var resized := Resize(Size(width, Scaled(width, w, h)));
        if resized.Err? {
          assert Pass(before, height, width) == resized;
          return Err(resized.error);
        }
        image := resized.value;
      }
      if width >= w && height >= h {
        break;
      }
      assert Pass(before, height, width) == Ok(image);
    }
    r := Ok(Canvas(image, height - image.height, width - image.width));
  }

  /** A batch of canvases, the array a model predicts on. */
  datatype Batch = Batch(images: seq<Canvas>)

  /** The array shape `(images, rows, columns, channels)` of a non-empty batch. */
  function BatchShape(b: Batch): seq<nat>
    requires b.images != []
  {
    [|b.images|] + Shape(b.images[0])
  }

  /** `Predict_Image.decode_image`: the same fitting and padding, made a batch of one by
      `np.expand_dims(image, axis=0)`; a failure is logged and gives `None`. */
  function DecodeImage(s: Size, height: nat, width: nat): (r: Option<Batch>)
    ensures r.Some? <==> Pad(s, height, width).Ok?
    ensures r.Some? ==> |r.value.images| == 1 && BatchShape(r.value) == [1, height, width, 3]
  {
    match Pad(s, height, width)
    case Err(_) => None
    case Ok(c) => Some(Batch([c]))
  }
}
