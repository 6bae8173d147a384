/** The camera controller: its initial limits, `start`/`stop`, and the
    scroll lock of `update`, which pins the polar angle while the last page
    section straddles the middle of the viewport. */
module Controls {
  import opened Wrappers
  import opened Three

  /** A polar-angle bound: a finite angle in radians, or an infinity. */
  datatype ExtReal = NegInf | Fin(r: real) | PosInf

  /** The comparison `x <= y` on extended reals. */
  predicate AtMost(x: ExtReal, y: ExtReal)
  {
    match (x, y)
    case (NegInf, _) => true
    case (_, PosInf) => true
    case (Fin(a), Fin(b)) => a <= b
    case _ => false
  }

  /** `Math.PI`, written as the shortest decimal that rounds to the double
      nearest to pi (not that double's exact value). */
  const Pi: real := 3.141592653589793

  /** The client rectangle of the element with id `last-section`. */
  datatype Rect = Rect(top: real, bottom: real)

  /** `isInLastSection()`. `section` is the element found by id, if any;
      `windowHeight` is `window.innerHeight`. The section must cross the
      horizontal line at half the height, strictly on both sides. */
  function IsInLastSection(section: Option<Rect>, windowHeight: real): (b: bool)
    ensures section.None? ==> !b
    ensures section.Some? ==>
              (b <==> section.value.top < windowHeight / 2.0 && windowHeight / 2.0 < section.value.bottom)
  {
    match section
    case None => false
    case Some(rect) =>
      var visibleThreshold := windowHeight * 0.5;
      rect.top < visibleThreshold && rect.bottom > visibleThreshold
  }

  /** A camera-controls user action. */
  datatype Action = NoAction | Rotate | Dolly | Truck | Offset | Zoom | TouchRotate | TouchTruck | TouchDolly

  /** The DOM element the controls listen on. */
  class Element {
    constructor ()
    {
    }
  }

  /** `Controls`: the camera-controls state this program sets. `connections`
      lists the elements whose listeners are installed, in order. */
  class Controls {
    const element: Element
    var enabled: bool
    var wheelAction: Action
    var twoFingerAction: Action
    var minDistance: real
    var maxDistance: real
    var minPolarAngle: ExtReal
    var maxPolarAngle: ExtReal
    var position: Vec3
    var target: Vec3
    var connections: seq<Element>

    /** The constructor: wheel and two-finger touch do nothing, the distance
        stays in [8, 15], the polar angle in [pi/4, 3 pi/4], the camera sits
        at (10, 2, 10) looking at the origin, and input starts disabled and
        disconnected. */
    constructor (element: Element)
      ensures this.element == element
      ensures wheelAction == NoAction && twoFingerAction == NoAction
      ensures minDistance == 8.0 && maxDistance == 15.0
      ensures minPolarAngle == Fin(Pi / 4.0) && maxPolarAngle == Fin(3.0 * Pi / 4.0)
      ensures AtMost(minPolarAngle, maxPolarAngle)
      ensures position == Vec3(10.0, 2.0, 10.0) && target == Vec3(0.0, 0.0, 0.0)
      ensures !enabled && connections == []
    {
      this.element := element;
      wheelAction := NoAction;
      twoFingerAction := NoAction;
      minDistance := 8.0;
      maxDistance := 15.0;
      minPolarAngle := Fin(Pi / 4.0);
      maxPolarAngle := Fin(3.0 * Pi / 4.0);
      position := Vec3(10.0, 2.0, 10.0);
      target := Vec3(0.0, 0.0, 0.0);
      enabled := false;
      connections := [];
    }

    /** camera-controls' `disconnect()`: every listener is removed. */
    method Disconnect()
      modifies this`connections
      ensures connections == []
    {
      connections := [];
    }

    /** camera-controls' `connect(element)`: listeners go on `element`. */
    method Connect(e: Element)
      modifies this`connections
      ensures connections == old(connections) + [e]
    {
      connections := connections + [e];
    }

    /** `start()`: disconnect, then connect to the element, so the controls
        listen on exactly one element however often it is called. */
    method Start()
      modifies this`connections
      ensures connections == [element]
    {
      Disconnect();
      Connect(element);
    }

    /** `stop()`: the controls listen on nothing. */
    method Stop()
      modifies this`connections
      ensures connections == []
    {
      Disconnect();
    }

    /** The lock part of `update()`, where `polarAngle` is the camera's
        current polar angle. In the section, input is enabled and the polar
        angle is pinned where it is; elsewhere input is disabled and the
        polar angle is free. */
    method Update(section: Option<Rect>, windowHeight: real, polarAngle: real)
      modifies this`enabled, this`minPolarAngle, this`maxPolarAngle
      ensures (enabled, minPolarAngle, maxPolarAngle) == LockState(IsInLastSection(section, windowHeight), polarAngle)
    {
      if IsInLastSection(section, windowHeight) {
        enabled := true;
        var currentPolar := polarAngle;
        minPolarAngle := Fin(currentPolar);
        maxPolarAngle := Fin(currentPolar);
      } else {
        enabled := false;
        minPolarAngle := NegInf;
        maxPolarAngle := PosInf;
      }
    }
  }

  /** The `(enabled, minPolarAngle, maxPolarAngle)` that a lock decision
      leaves. */
  function LockState(inSection: bool, polarAngle: real): (s: (bool, ExtReal, ExtReal))
    ensures s.0 == inSection
    ensures inSection ==> s.1 == s.2 == Fin(polarAngle)
    ensures !inSection ==> s.1 == NegInf && s.2 == PosInf
  {
    if inSection then (true, Fin(polarAngle), Fin(polarAngle)) else (false, NegInf, PosInf)
  }

  /** Locked, the bounds admit exactly the current angle; unlocked, the
      bounds admit every angle. */
  lemma LockBounds(inSection: bool, polarAngle: real, a: real)
    ensures var s := LockState(inSection, polarAngle);
            AtMost(s.1, Fin(a)) && AtMost(Fin(a), s.2) <==> !inSection || a == polarAngle
  {
  }

  /** Input is enabled exactly when the bounds collapse to a point. */
  lemma EnabledIffPinned(inSection: bool, polarAngle: real)
    ensures var s := LockState(inSection, polarAngle);
            s.0 <==> s.1.Fin? && s.1 == s.2
  {
  }

  /** No hysteresis: the state after `update` depends on this call's inputs
      only, so two controllers in any states agree after the same call. */
  method UpdateForgetsHistory(c: Controls, d: Controls, section: Option<Rect>, windowHeight: real, polarAngle: real)
    modifies c`enabled, c`minPolarAngle, c`maxPolarAngle, d`enabled, d`minPolarAngle, d`maxPolarAngle
    ensures c.enabled == d.enabled && c.minPolarAngle == d.minPolarAngle && c.maxPolarAngle == d.maxPolarAngle
  {
    c.Update(section, windowHeight, polarAngle);
    d.Update(section, windowHeight, polarAngle);
  }

  /** Repeating `update` with the same inputs changes nothing more. */
  method UpdateTwice(c: Controls, section: Option<Rect>, windowHeight: real, polarAngle: real)
    modifies c`enabled, c`minPolarAngle, c`maxPolarAngle
    ensures (c.enabled, c.minPolarAngle, c.maxPolarAngle) == LockState(IsInLastSection(section, windowHeight), polarAngle)
  {
    c.Update(section, windowHeight, polarAngle);
    ghost var once := (c.enabled, c.minPolarAngle, c.maxPolarAngle);
    c.Update(section, windowHeight, polarAngle);
    assert (c.enabled, c.minPolarAngle, c.maxPolarAngle) == once;
  }

  /** Scrolling a section with document edges `top <= bottom` by `y` moves
      its client rectangle to `(top - y, bottom - y)`. The lock holds on
      exactly one open interval of scroll offsets: while the middle line of
      the window lies strictly inside the section. */
  lemma LockedScrollRange(top: real, bottom: real, y: real, h: real)
    ensures IsInLastSection(Some(Rect(top - y, bottom - y)), h) <==> top - h / 2.0 < y < bottom - h / 2.0
  {
  }

  /** A section of no height never locks, wherever it is. */
  lemma NoHeightNeverLocks(r: Rect, h: real)
    requires r.bottom <= r.top
    ensures !IsInLastSection(Some(r), h)
  {
  }

  /** Between two scroll offsets where the lock holds, it holds throughout:
      scrolling across the section never releases and re-takes it. */
  lemma LockedScrollConvex(top: real, bottom: real, h: real, y1: real, y2: real, y3: real)
    requires y1 <= y2 <= y3
    requires IsInLastSection(Some(Rect(top - y1, bottom - y1)), h)
    requires IsInLastSection(Some(Rect(top - y3, bottom - y3)), h)
    ensures IsInLastSection(Some(Rect(top - y2, bottom - y2)), h)
  {
    LockedScrollRange(top, bottom, y1, h);
    LockedScrollRange(top, bottom, y2, h);
    LockedScrollRange(top, bottom, y3, h);
  }

  /** The threshold is strict on both sides: a section whose edge sits
      exactly on the middle line does not count. */
  lemma EdgeOnMiddleIsOutside(h: real, other: real)
    ensures !IsInLastSection(Some(Rect(h / 2.0, other)), h)
    ensures !IsInLastSection(Some(Rect(other, h / 2.0)), h)
  {
  }
}
