/**
 * The photo cropper's helpers: the crop window's shape and aspect ratio for a profile
 * photo shape, the rotate button, and the payload handed to `onSave`.
 */
module PhotoCropper {
  import opened Wrappers

  /** JavaScript's `%`: the remainder takes the sign of the dividend. */
  function JsRem(a: int, n: int): (r: int)
    requires n > 0
    ensures a >= 0 ==> r == a % n
    ensures a < 0 ==> r == -((-a) % n) && -n < r <= 0
  {
    if a >= 0 then a % n else -((-a) % n)
  }

  /** `getCropShape`. */
  function CropShape(shape: string): (r: string)
    ensures r == "round" <==> shape == "circle" || shape == "oval"
    ensures r in {"round", "rect"}
  {
    if shape == "circle" || shape == "oval" then "round" else "rect"
  }

  /** `getAspectRatio`: width over height of the crop window. */
  function AspectRatio(shape: string): (r: real)
    ensures shape == "oval" ==> r == 4.0 / 5.0
    ensures shape != "oval" ==> r == 1.0
  {
    if shape == "oval" then 4.0 / 5.0
    else if shape == "square" || shape == "rounded-square" || shape == "circle" then 1.0
    else if shape == "heart" then 1.0
    else 1.0
  }

  /** `handleRotate`: `(prev + 90) % 360`. */
  function Rotate(rotation: int): (r: int)
    ensures rotation >= -90 ==> 0 <= r < 360 && r == (rotation + 90) % 360
    ensures rotation < -90 ==> -360 < r <= 0
  {
    JsRem(rotation + 90, 360)
  }

  /** `n` presses of the rotate button. */
  function RotateN(rotation: int, n: nat): int {
    if n == 0 then rotation else Rotate(RotateN(rotation, n - 1))
  }

  /** On an angle in [0, 360) one press adds a quarter turn, wrapping past 270 back to the low angles. */
  lemma RotateStep(rotation: int)
    requires 0 <= rotation < 360
    ensures Rotate(rotation) == if rotation < 270 then rotation + 90 else rotation - 270
  {
    if rotation >= 270 {
      assert rotation + 90 == 360 + (rotation - 270);
    }
  }

  /** Four presses return to the starting angle. */
  lemma FourRotationsRestore(rotation: int)
    requires 0 <= rotation < 360
    ensures RotateN(rotation, 4) == rotation
  {
    var r1 := Rotate(rotation);
    RotateStep(rotation);
    var r2 := Rotate(r1);
    RotateStep(r1);
    var r3 := Rotate(r2);
    RotateStep(r2);
    RotateStep(r3);
    if rotation < 90 {
      assert r1 == rotation + 90 && r2 == rotation + 180 && r3 == rotation + 270;
    } else if rotation < 180 {
      assert r1 == rotation + 90 && r2 == rotation + 180 && r3 == rotation - 90;
    } else if rotation < 270 {
      assert r1 == rotation + 90 && r2 == rotation - 180 && r3 == rotation - 90;
    } else {
      assert r1 == rotation - 270 && r2 == rotation - 180 && r3 == rotation - 90;
    }
    assert RotateN(rotation, 1) == r1;
    assert RotateN(rotation, 2) == r2;
    assert RotateN(rotation, 3) == r3;
  }

  /** From an angle in [0, 360), any number of presses stays in [0, 360), and the angles repeat every four presses. */
  lemma {:induction false} RotateNPeriodic(rotation: int, n: nat)
    requires 0 <= rotation < 360
    ensures 0 <= RotateN(rotation, n) < 360
    ensures RotateN(rotation, n + 4) == RotateN(rotation, n)
  {
    if n == 0 {
      FourRotationsRestore(rotation);
    } else {
      RotateNPeriodic(rotation, n - 1);
    }
  }

  datatype Point = Point(x: real, y: real)

  /** The pixel rectangle the cropper reports once the user stops moving it. */
  datatype Area = Area(x: real, y: real, width: real, height: real)

  /** The object handed to `onSave`. */
  datatype CropResult = CropResult(crop: Point, zoom: real, rotation: int, croppedAreaPixels: Option<Area>, shape: string)

  /** The cropper's state: it starts at the origin, zoom 1, no rotation and no reported area. */
  datatype CropperState = CropperState(crop: Point, zoom: real, rotation: int, croppedAreaPixels: Option<Area>)

  function Initial(): (s: CropperState)
    ensures s.rotation == 0 && s.zoom == 1.0 && s.croppedAreaPixels.None?
  {
    CropperState(Point(0.0, 0.0), 1.0, 0, None)
  }

  /** The rotate button applied to the cropper's state. */
  function PressRotate(s: CropperState): (r: CropperState)
    ensures r == s.(rotation := Rotate(s.rotation))
  {
    s.(rotation := Rotate(s.rotation))
  }

  /** `handleSave`: the current crop, zoom, rotation and area, with the shape passed through unchanged. */
  function Save(s: CropperState, shape: string): (r: CropResult)
    ensures r.crop == s.crop && r.zoom == s.zoom && r.rotation == s.rotation
    ensures r.croppedAreaPixels == s.croppedAreaPixels && r.shape == shape
  {
    CropResult(s.crop, s.zoom, s.rotation, s.croppedAreaPixels, shape)
  }

  /** The angle reported on save always lies in [0, 360), however many times rotate was pressed. */
  lemma {:induction false} SavedRotationInRange(presses: nat, shape: string)
    ensures 0 <= Save(PressAll(Initial(), presses), shape).rotation < 360
  {
    if presses > 0 {
      SavedRotationInRange(presses - 1, shape);
    }
  }

  function PressAll(s: CropperState, presses: nat): (r: CropperState)
    ensures r.crop == s.crop && r.zoom == s.zoom && r.croppedAreaPixels == s.croppedAreaPixels
    ensures r.rotation == RotateN(s.rotation, presses)
  {
    if presses == 0 then s else PressRotate(PressAll(s, presses - 1))
  }
}
