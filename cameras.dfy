/**
  The two camera controllers: the orbital camera, which circles a point
  driven by mouse drags and the scroll wheel, and the free camera, which
  turns with the cursor and moves with the keyboard. The window's input
  state is a small object the update methods read (and, for the scroll
  wheel, reset); the cursor positions the source keeps in function-level
  statics are fields.
 */
module Cameras {
  import opened Vectors

  /** Which of the keys the free camera responds to are held. */
  datatype Keys = Keys(w: bool, s: bool, a: bool, d: bool, space: bool, leftShift: bool)

  const NoKeys: Keys := Keys(false, false, false, false, false, false)

  /** The input state of the window: its size, the cursor, the scroll wheel, mouse button 1 and the held keys. */
  class Window {
    var width: nat
    var height: nat
    var mx: real
    var my: real
    var scroll: real
    var button1: bool
    var keys: Keys

    /** A 1280 x 720 window with the cursor in its middle and no input. */
    constructor ()
      ensures width == 1280 && height == 720 && mx == 640.0 && my == 360.0 && scroll == 0.0
      ensures !button1 && keys == NoKeys
    {
      width := 1280;
      height := 720;
      mx := 640.0;
      my := 360.0;
      scroll := 0.0;
      button1 := false;
      keys := NoKeys;
    }
  }

  // ---------------------------------------------------------------------------
  // Clamps and the azimuth wrap

  /** The float value of pi the constants are computed from. */
  const Pi: real := 3.1415927

  /** Largest azimuth: a full turn. */
  const MaxAzimuth: real := Pi * 2.0

  /** Largest absolute polar angle: just short of a quarter turn. */
  const MaxPolar: real := Pi / 2.0 - 0.01

  /** Largest absolute pitch of the free camera, in degrees. */
  const MaxPitch: real := 89.0

  /** The azimuth wrap: above a full turn it restarts at 0, below 0 it jumps to a full turn. */
  function WrapAzimuth(a: real): (r: real)
    ensures 0.0 <= r <= MaxAzimuth
    ensures 0.0 <= a <= MaxAzimuth ==> r == a
    ensures a > MaxAzimuth ==> r == 0.0
    ensures a < 0.0 ==> r == MaxAzimuth
  {
    if a > MaxAzimuth then 0.0 else if a < 0.0 then MaxAzimuth else a
  }

  /** An input amount times its rate times the frame time, the form every update step takes. */
  function Scaled(amount: real, rate: real, deltaTime: real): real
  {
    amount * rate * deltaTime
  }

  /** Clamp to [-m, m], testing the upper bound first. */
  function ClampSymmetric(v: real, m: real): (r: real)
    requires m >= 0.0
    ensures -m <= r <= m
    ensures -m <= v <= m ==> r == v
  {
    if v > m then m else if v < -m then -m else v
  }

  /** Clamp to [lo, hi], testing the lower bound first; with lo > hi the result is lo or hi, whichever test fires. */
  function Clamp(v: real, lo: real, hi: real): (r: real)
    ensures lo <= hi ==> lo <= r <= hi
    ensures lo <= v <= hi ==> r == v
    ensures r == v || r == lo || r == hi
  {
    if v < lo then lo else if v > hi then hi else v
  }

  function Dist(a: real, b: real): real
  {
    if a <= b then b - a else a - b
  }

  /** The clamp picks the point of [lo, hi] nearest to v. */
  lemma ClampIsNearest(v: real, lo: real, hi: real, q: real)
    requires lo <= q <= hi
    ensures Dist(Clamp(v, lo, hi), v) <= Dist(q, v)
  {
  }

  /** The symmetric clamp picks the point of [-m, m] nearest to v. */
  lemma ClampSymmetricIsNearest(v: real, m: real, q: real)
    requires m >= 0.0 && -m <= q <= m
    ensures Dist(ClampSymmetric(v, m), v) <= Dist(q, v)
  {
  }

  /** Both clamps agree when the interval is not empty. */
  lemma ClampsAgree(v: real, m: real)
    requires m >= 0.0
    ensures ClampSymmetric(v, m) == Clamp(v, -m, m)
  {
  }

  /** Clamping is idempotent. */
  lemma ClampIdempotent(v: real, lo: real, hi: real)
    requires lo <= hi
    ensures Clamp(Clamp(v, lo, hi), lo, hi) == Clamp(v, lo, hi)
  {
  }

  // ---------------------------------------------------------------------------
  // The orbital camera

  class OrbitalCamera {
    var position: Vec3
    var up: Vec3
    var front: Vec3
    var radius: real
    var azimuth: real
    var polar: real
    var minRadius: real
    var maxRadius: real
    var zoomSpeed: real
    var sensitivity: real
    var mxOld: real
    var myOld: real

    /** Azimuth within a turn and polar angle within its limits. */
    predicate AnglesInRange()
      reads this`azimuth, this`polar
    {
      0.0 <= azimuth <= MaxAzimuth && -MaxPolar <= polar <= MaxPolar
    }

    /** The default orbital camera; the remembered cursor starts in the middle of the window. */
    constructor (window: Window)
      ensures position == Zero && up == Vec3(0.0, 1.0, 0.0) && front == Vec3(0.0, 0.0, 1.0)
      ensures radius == 16.0 && azimuth == 0.0 && polar == 0.0
      ensures minRadius == 2.0 && maxRadius == 400.0 && zoomSpeed == 2.5 && sensitivity == 0.001
      ensures mxOld == window.width as real / 2.0 && myOld == window.height as real / 2.0
      ensures AnglesInRange() && minRadius <= radius <= maxRadius
    {
      position := Zero;
      up := Vec3(0.0, 1.0, 0.0);
      front := Vec3(0.0, 0.0, 1.0);
      radius := 16.0;
      azimuth := 0.0;
      polar := 0.0;
      minRadius := 2.0;
      maxRadius := 400.0;
      zoomSpeed := 2.5;
      sensitivity := 0.001;
      mxOld := window.width as real / 2.0;
      myOld := window.height as real / 2.0;
    }

    /**
      One frame: while button 1 is held the cursor movement turns the
      azimuth (wrapped) and the polar angle (clamped); the scroll wheel
      zooms, clamped to the radius limits; the cursor is remembered and the
      scroll consumed.
     */
    method Update(window: Window, deltaTime: real)
      modifies this`azimuth, this`polar, this`radius, this`mxOld, this`myOld, window`scroll
      ensures window.button1 ==>
                azimuth == WrapAzimuth(old(azimuth) + Scaled(window.mx - old(mxOld), sensitivity, deltaTime)) &&
                polar == ClampSymmetric(old(polar) + Scaled(window.my - old(myOld), sensitivity, deltaTime), MaxPolar)
      ensures !window.button1 ==> azimuth == old(azimuth) && polar == old(polar)
      ensures radius == Clamp(old(radius) - Scaled(old(window.scroll), zoomSpeed, deltaTime), minRadius, maxRadius)
      ensures window.button1 || old(AnglesInRange()) ==> AnglesInRange()
      ensures minRadius <= maxRadius ==> minRadius <= radius <= maxRadius
      ensures mxOld == window.mx && myOld == window.my && window.scroll == 0.0
    {
      var mx := window.mx;
      var my := window.my;
      if window.button1 {
        Orbit(mx, my, deltaTime);
      }
      mxOld := mx;
      myOld := my;
      Zoom(window.scroll, deltaTime);
      window.scroll := 0.0;
    }

    /** A drag: the azimuth turns and wraps, the polar angle tilts and is clamped. */
    method Orbit(mx: real, my: real, deltaTime: real)
      modifies this`azimuth, this`polar
      ensures azimuth == WrapAzimuth(old(azimuth) + Scaled(mx - mxOld, sensitivity, deltaTime))
      ensures polar == ClampSymmetric(old(polar) + Scaled(my - myOld, sensitivity, deltaTime), MaxPolar)
    {
      azimuth := azimuth + Scaled(mx - mxOld, sensitivity, deltaTime);
      if azimuth > MaxAzimuth {
        azimuth := 0.0;
      } else if azimuth < 0.0 {
        azimuth := MaxAzimuth;
      }
      polar := polar + Scaled(my - myOld, sensitivity, deltaTime);
      if polar > MaxPolar {
        polar := MaxPolar;
      } else if polar < -MaxPolar {
        polar := -MaxPolar;
      }
    }

    /** The scroll wheel zooms in or out, within the radius limits. */
    method Zoom(scroll: real, deltaTime: real)
      modifies this`radius
      ensures radius == Clamp(old(radius) - Scaled(scroll, zoomSpeed, deltaTime), minRadius, maxRadius)
    {
      radius := radius - Scaled(scroll, zoomSpeed, deltaTime);
      if radius < minRadius {
        radius := minRadius;
      } else if radius > maxRadius {
        radius := maxRadius;
      }
    }
  }

  // ---------------------------------------------------------------------------
  // The free camera

  /** The signed amount a pair of opposing keys contributes: nothing when both or neither are held. */
  function Signed(plus: bool, minus: bool, v: real): real
  {
    if plus == minus then 0.0 else if plus then v else -v
  }

  /** A pair of opposing keys moving along v, componentwise. */
  function Along(plus: bool, minus: bool, v: Vec3): Vec3
  {
    Vec3(Signed(plus, minus, v.x), Signed(plus, minus, v.y), Signed(plus, minus, v.z))
  }

  /** A pair of opposing keys moving p vertically by amount. */
  function Rise(p: Vec3, plus: bool, minus: bool, amount: real): Vec3
  {
    p.(y := p.y + Signed(plus, minus, amount))
  }

  /** One frame's move of a given speed along v. */
  function Stride(v: Vec3, speed: real, deltaTime: real): Vec3
  {
    Scale(Scale(v, speed), deltaTime)
  }

  /**
    Where the held keys take the position p in one frame: W and S along the
    forward step, D and A along the sideways strafe, SPACE and LEFT_SHIFT up
    and down by lift.
   */
  function Moved(p: Vec3, keys: Keys, step: Vec3, strafe: Vec3, lift: real): Vec3
  {
    Rise(Add(Add(p, Along(keys.w, keys.s, step)), Along(keys.d, keys.a, strafe)), keys.space, keys.leftShift, lift)
  }

  /** With no movement key held the position stays. */
  lemma StillWithoutKeys(p: Vec3, step: Vec3, strafe: Vec3, lift: real)
    ensures Moved(p, NoKeys, step, strafe, lift) == p
  {
  }

  /** W alone moves one step forward, S alone one step back. */
  lemma ForwardAndBackAlone(p: Vec3, step: Vec3, strafe: Vec3, lift: real)
    ensures Moved(p, NoKeys.(w := true), step, strafe, lift) == Add(p, step)
    ensures Moved(p, NoKeys.(s := true), step, strafe, lift) == Sub(p, step)
  {
  }

  /** D alone moves one strafe right, A alone one strafe left. */
  lemma SidewaysAlone(p: Vec3, step: Vec3, strafe: Vec3, lift: real)
    ensures Moved(p, NoKeys.(d := true), step, strafe, lift) == Add(p, strafe)
    ensures Moved(p, NoKeys.(a := true), step, strafe, lift) == Sub(p, strafe)
  {
  }

  /** SPACE alone raises the position by lift, LEFT_SHIFT alone lowers it; x and z stay. */
  lemma UpAndDownAlone(p: Vec3, step: Vec3, strafe: Vec3, lift: real)
    ensures Moved(p, NoKeys.(space := true), step, strafe, lift) == Vec3(p.x, p.y + lift, p.z)
    ensures Moved(p, NoKeys.(leftShift := true), step, strafe, lift) == Vec3(p.x, p.y - lift, p.z)
  {
  }

  /** Holding both keys of every opposing pair leaves the position where it was. */
  lemma OpposingKeysCancel(p: Vec3, keys: Keys, step: Vec3, strafe: Vec3, lift: real)
    requires keys.w == keys.s && keys.d == keys.a && keys.space == keys.leftShift
    ensures Moved(p, keys, step, strafe, lift) == p
  {
  }

  /** The vertical keys change only y: x and z are what the other keys alone give. */
  lemma VerticalKeysKeepGround(p: Vec3, keys: Keys, step: Vec3, strafe: Vec3, lift: real)
    ensures Moved(p, keys, step, strafe, lift).x == Moved(p, keys.(space := false, leftShift := false), step, strafe, lift).x
    ensures Moved(p, keys, step, strafe, lift).z == Moved(p, keys.(space := false, leftShift := false), step, strafe, lift).z
  {
  }

  class FreeCamera {
    var position: Vec3
    var up: Vec3
    var front: Vec3
    var yaw: real
    var pitch: real
    var speed: real
    var sensitivity: real
    var mxOld: real
    var myOld: real

    /** The default free camera; the remembered cursor starts in the middle of the window. */
    constructor (window: Window)
      ensures position == Zero && up == Vec3(0.0, 1.0, 0.0) && front == Vec3(0.0, 0.0, 1.0)
      ensures yaw == 0.0 && pitch == 0.0 && speed == 1.0 && sensitivity == 0.1
      ensures mxOld == window.width as real / 2.0 && myOld == window.height as real / 2.0
    {
      position := Zero;
      up := Vec3(0.0, 1.0, 0.0);
      front := Vec3(0.0, 0.0, 1.0);
      yaw := 0.0;
      pitch := 0.0;
      speed := 1.0;
      sensitivity := 0.1;
      mxOld := window.width as real / 2.0;
      myOld := window.height as real / 2.0;
    }

    /**
      One frame: the cursor movement turns the yaw (unbounded) and the pitch
      (clamped to 89 degrees either way, the vertical axis inverted); the
      cursor is remembered; each held key moves the position, the strafe keys
      along the normalised cross product of front and up.
     */
    method Update(window: Window, deltaTime: real, normalize: Vec3 -> Vec3)
      modifies this`yaw, this`pitch, this`mxOld, this`myOld, this`position
      ensures yaw == old(yaw) + Scaled(window.mx - old(mxOld), sensitivity, deltaTime)
      ensures pitch == ClampSymmetric(old(pitch) + Scaled(old(myOld) - window.my, sensitivity, deltaTime), MaxPitch)
      ensures -MaxPitch <= pitch <= MaxPitch
      ensures mxOld == window.mx && myOld == window.my
      ensures position == Moved(old(position), window.keys, Stride(front, speed, deltaTime),
                                Stride(normalize(Cross(front, up)), speed, deltaTime), speed * deltaTime)
    {
      var step := Stride(front, speed, deltaTime);
      var strafe := Stride(normalize(Cross(front, up)), speed, deltaTime);
      var lift := speed * deltaTime;
      Look(window.mx, window.my, deltaTime);
      Walk(window.keys, step, strafe, lift);
    }

    /** The cursor part of a frame: turn, clamp the pitch, remember the cursor. */
    method Look(mx: real, my: real, deltaTime: real)
      modifies this`yaw, this`pitch, this`mxOld, this`myOld
      ensures yaw == old(yaw) + Scaled(mx - old(mxOld), sensitivity, deltaTime)
      ensures pitch == ClampSymmetric(old(pitch) + Scaled(old(myOld) - my, sensitivity, deltaTime), MaxPitch)
      ensures mxOld == mx && myOld == my
    {
      yaw := yaw + Scaled(mx - mxOld, sensitivity, deltaTime);
      pitch := pitch + Scaled(myOld - my, sensitivity, deltaTime);
      if pitch > MaxPitch {
        pitch := MaxPitch;
      } else if pitch < -MaxPitch {
        pitch := -MaxPitch;
      }
      mxOld := mx;
      myOld := my;
    }

    /** The keyboard part of a frame, one key after the other. */
    method Walk(keys: Keys, step: Vec3, strafe: Vec3, lift: real)
      modifies this`position
      ensures position == Moved(old(position), keys, step, strafe, lift)
    {
      Pair(keys.w, keys.s, step);
      Pair(keys.d, keys.a, strafe);
      Climb(keys.space, keys.leftShift, lift);
    }

    /** A pair of opposing keys along v: the first adds it, then the second subtracts it. */
    method Pair(plus: bool, minus: bool, v: Vec3)
      modifies this`position
      ensures position == Add(old(position), Along(plus, minus, v))
    {
      if plus {
        position := Add(position, v);
      }
      if minus {
        position := Sub(position, v);
      }
    }

    /** The vertical keys: the first raises y by amount, then the second lowers it. */
    method Climb(plus: bool, minus: bool, amount: real)
      modifies this`position
      ensures position == Rise(old(position), plus, minus, amount)
    {
      if plus {
        position := position.(y := position.y + amount);
      }
      if minus {
        position := position.(y := position.y - amount);
      }
    }
  }
}
