/** Camera capabilities a phone reports, the settings it has applied, and the controls a desktop asks for. */
module Camera {
  import opened Wrappers
  import opened Bytes

  /** UTF-8 text. */
  type text = seq<byte>

  const MAX_PIXELS: nat := 3840 * 2160

  datatype CameraMode = CameraMode(width: u32, height: u32, fps: real)

  datatype CameraDescription = CameraDescription(
    id: text,
    labelText: text,
    facing: text,
    modes: seq<CameraMode>,
    frameRates: seq<real>)

  datatype ControlRange = ControlRange(min: real, max: real, step: real)

  datatype Capabilities = Capabilities(
    cameras: seq<CameraDescription>,
    zoom: Option<ControlRange>,
    exposureCompensation: Option<ControlRange>,
    torch: bool,
    focusModes: seq<text>,
    screenDimSupported: bool)

  datatype Applied = Applied(
    cameraId: text,
    width: u32,
    height: u32,
    fps: real,
    zoom: Option<real>,
    exposure: Option<real>,
    torch: bool,
    previewMirrored: bool,
    screenDimmed: bool)

  datatype Controls = Controls(
    cameraId: Option<text>,
    width: Option<u32>,
    height: Option<u32>,
    fps: Option<real>,
    zoom: Option<real>,
    exposure: Option<real>,
    torch: Option<bool>,
    previewMirrored: Option<bool>,
    screenDimmed: Option<bool>,
    stop: Option<bool>)

  const NoCapabilities := Capabilities([], None, None, false, [], false)
  const NoControls := Controls(None, None, None, None, None, None, None, None, None, None)

  datatype Fault =
    | TooManyCameras | InvalidDescription | TooManyModes | InvalidMode | InvalidFrameRate
    | InvalidRange | InvalidFocusModes
    | UnknownCamera | UnsupportedFormat | UnsupportedMode
    | UnsupportedZoom | UnsupportedExposure | UnsupportedTorch | UnsupportedScreenDimming

  function Distance(x: real, y: real): (d: real)
    ensures d >= 0.0
  {
    if x <= y then y - x else x - y
  }

  // ----------------------------------------------------------- capabilities

  predicate DescriptionFits(camera: CameraDescription)
  {
    0 < |camera.id| <= 256 && |camera.labelText| <= 256 && |camera.facing| <= 32
  }

  predicate ListsFit(camera: CameraDescription)
  {
    |camera.modes| <= 256 && |camera.frameRates| <= 64
  }

  predicate WidthFits(width: u32) { 320 <= width <= 4096 && width % 2 == 0 }

  predicate HeightFits(height: u32) { 240 <= height <= 4096 && height % 2 == 0 }

  predicate FpsFits(fps: real) { 15.0 <= fps <= 60.0 }

  predicate FormatFits(width: u32, height: u32, fps: real)
  {
    WidthFits(width) && HeightFits(height) && width * height <= MAX_PIXELS && FpsFits(fps)
  }

  predicate ModesFit(modes: seq<CameraMode>)
  {
    forall i :: 0 <= i < |modes| ==> FormatFits(modes[i].width, modes[i].height, modes[i].fps)
  }

  predicate RatesFit(rates: seq<real>)
  {
    forall i :: 0 <= i < |rates| ==> 1.0 <= rates[i] <= 120.0
  }

  predicate RangeFits(range: Option<ControlRange>)
  {
    range.Some? ==> range.value.min <= range.value.max && range.value.step >= 0.0
  }

  predicate FocusModesFit(modes: seq<text>)
  {
    |modes| <= 32 && forall i :: 0 <= i < |modes| ==> 0 < |modes[i]| <= 32
  }

  predicate CameraFits(camera: CameraDescription)
  {
    DescriptionFits(camera) && ListsFit(camera) && ModesFit(camera.modes) && RatesFit(camera.frameRates)
  }

  predicate DistinctIds(cameras: seq<CameraDescription>)
  {
    forall i, j :: 0 <= i < j < |cameras| ==> cameras[i].id != cameras[j].id
  }

  /** A plausible report: bounded, well-formed, and no two cameras with one id. */
  predicate Plausible(caps: Capabilities)
  {
    && |caps.cameras| <= 32
    && (forall i :: 0 <= i < |caps.cameras| ==> CameraFits(caps.cameras[i]))
    && DistinctIds(caps.cameras)
    && RangeFits(caps.zoom) && RangeFits(caps.exposureCompensation)
    && FocusModesFit(caps.focusModes)
  }

  /** What is wrong with one camera after cameras named `ids`. */
  function CameraFault(camera: CameraDescription, ids: set<text>): Option<Fault>
  {
    if !DescriptionFits(camera) || camera.id in ids then Some(InvalidDescription)
    else if !ListsFit(camera) then Some(TooManyModes)
    else if !ModesFit(camera.modes) then Some(InvalidMode)
    else if !RatesFit(camera.frameRates) then Some(InvalidFrameRate)
    else None
  }

  function Ids(cameras: seq<CameraDescription>): set<text>
  {
    set i | 0 <= i < |cameras| :: cameras[i].id
  }

  /** The first fault of a list of cameras read in order. */
  function CamerasFault(cameras: seq<CameraDescription>): Option<Fault>
  {
    if cameras == [] then None
    else
      var front, last := cameras[..|cameras| - 1], cameras[|cameras| - 1];
      if CamerasFault(front).Some? then CamerasFault(front) else CameraFault(last, Ids(front))
  }

  function RestFault(caps: Capabilities): Option<Fault>
  {
    if !RangeFits(caps.zoom) || !RangeFits(caps.exposureCompensation) then Some(InvalidRange)
    else if !FocusModesFit(caps.focusModes) then Some(InvalidFocusModes)
    else None
  }

  function CapabilitiesFault(caps: Capabilities): Option<Fault>
  {
    if |caps.cameras| > 32 then Some(TooManyCameras)
    else if CamerasFault(caps.cameras).Some? then CamerasFault(caps.cameras)
    else RestFault(caps)
  }

  lemma {:induction false} CamerasFaultPrefix(cameras: seq<CameraDescription>, n: nat)
    requires n <= |cameras| && CamerasFault(cameras[..n]).Some?
    ensures CamerasFault(cameras) == CamerasFault(cameras[..n])
  {
    if n < |cameras| {
      var front := cameras[..|cameras| - 1];
      assert front[..n] == cameras[..n];
      CamerasFaultPrefix(front, n);
    } else {
      assert cameras[..n] == cameras;
    }
  }

  /**
   * Reads the cameras in order with a growing set of ids, as the report is
   * checked before any use. It succeeds exactly on plausible reports and
   * otherwise names the first fault.
   */
  method ValidateCapabilities(caps: Capabilities) returns (r: Outcome<Fault>)
    ensures r.Pass? <==> Plausible(caps)
    ensures CapabilitiesFault(caps) == if r.Pass? then None else Some(r.error)
  {
    FaultlessExactly(caps);
    hide Plausible, CameraFault;
    var cameras := caps.cameras;
    if |cameras| > 32 {
      return Fail(TooManyCameras);
    }
    var ids: set<text> := {};
    for i := 0 to |cameras|
      invariant ids == Ids(cameras[..i])
      invariant CamerasFault(cameras[..i]).None?
    {
      var fault := CheckCamera(cameras[i], ids);
      assert cameras[..i + 1][..i] == cameras[..i];
      if fault.Some? {
        CamerasFaultPrefix(cameras, i + 1);
        return Fail(fault.value);
      }
      ids := ids + {cameras[i].id};
      OneMoreId(cameras, i);
    }
    assert cameras[..|cameras|] == cameras;
    if !RangeFits(caps.zoom) || !RangeFits(caps.exposureCompensation) {
      return Fail(InvalidRange);
    }
    if !FocusModesFit(caps.focusModes) {
      return Fail(InvalidFocusModes);
    }
    r := Pass;
  }

  lemma OneMoreId(cameras: seq<CameraDescription>, i: nat)
    requires i < |cameras|
    ensures Ids(cameras[..i + 1]) == Ids(cameras[..i]) + {cameras[i].id}
  {
    var longer := cameras[..i + 1];
    assert longer[i].id in Ids(longer);
    forall id | id in Ids(cameras[..i]) ensures id in Ids(longer) {
      var j :| 0 <= j < i && cameras[..i][j].id == id;
      assert longer[j].id == id;
    }
  }

  method CheckCamera(camera: CameraDescription, ids: set<text>) returns (fault: Option<Fault>)
    ensures fault == CameraFault(camera, ids)
  {
    if !DescriptionFits(camera) || camera.id in ids {
      return Some(InvalidDescription);
    }
    if !ListsFit(camera) {
      return Some(TooManyModes);
    }
    var modesFit := CheckModes(camera.modes);
    if !modesFit {
      return Some(InvalidMode);
    }
    fault := if RatesFit(camera.frameRates) then None else Some(InvalidFrameRate);
  }

  method CheckModes(modes: seq<CameraMode>) returns (ok: bool)
    ensures ok <==> ModesFit(modes)
  {
    for i := 0 to |modes|
      invariant ModesFit(modes[..i])
    {
      if !FormatFits(modes[i].width, modes[i].height, modes[i].fps) {
        return false;
      }
      assert forall k :: 0 <= k <= i ==> modes[..i + 1][k] == modes[k];
    }
    assert modes[..|modes|] == modes;
    ok := true;
  }

  /** Naming the first fault and describing what a plausible report is come to the same. */
  lemma FaultlessExactly(caps: Capabilities)
    ensures CapabilitiesFault(caps).None? <==> Plausible(caps)
  {
    if |caps.cameras| <= 32 {
      FaultlessCameras(caps.cameras);
    }
  }

  lemma {:induction false} FaultlessCameras(cameras: seq<CameraDescription>)
    ensures CamerasFault(cameras).None? <==>
            (forall i :: 0 <= i < |cameras| ==> CameraFits(cameras[i])) && DistinctIds(cameras)
  {
    if cameras != [] {
      hide DescriptionFits, ListsFit, ModesFit, RatesFit;
      var n := |cameras| - 1;
      var front := cameras[..n];
      FaultlessCameras(front);
      assert forall i :: 0 <= i < n ==> front[i] == cameras[i];
      NewId(cameras);
    }
  }

  lemma NewId(cameras: seq<CameraDescription>)
    requires cameras != []
    ensures var n := |cameras| - 1;
            DistinctIds(cameras) <==> DistinctIds(cameras[..n]) && cameras[n].id !in Ids(cameras[..n])
  {
    var n := |cameras| - 1;
    var front := cameras[..n];
    if cameras[n].id in Ids(front) {
      var j :| 0 <= j < n && front[j].id == cameras[n].id;
      assert cameras[j].id == cameras[n].id;
    } else {
      assert forall j :: 0 <= j < n ==> front[j].id in Ids(front);
    }
  }

  // ------------------------------------------- applied state and requests

  predicate Contains(range: Option<ControlRange>, value: real)
  {
    range.Some? && range.value.min <= value <= range.value.max
  }

  predicate KnownCamera(caps: Capabilities, id: text)
  {
    exists i :: 0 <= i < |caps.cameras| && caps.cameras[i].id == id
  }

  function AppliedFault(applied: Applied, caps: Capabilities): Option<Fault>
  {
    if CapabilitiesFault(caps).Some? then CapabilitiesFault(caps)
    else if !KnownCamera(caps, applied.cameraId) then Some(UnknownCamera)
    else if !FormatFits(applied.width, applied.height, applied.fps) then Some(UnsupportedFormat)
    else if applied.zoom.Some? && !Contains(caps.zoom, applied.zoom.value) then Some(UnsupportedZoom)
    else if applied.exposure.Some? && !Contains(caps.exposureCompensation, applied.exposure.value) then Some(UnsupportedExposure)
    else if applied.torch && !caps.torch then Some(UnsupportedTorch)
    else if applied.screenDimmed && !caps.screenDimSupported then Some(UnsupportedScreenDimming)
    else None
  }

  /** The first camera called `id`. */
  function FindCamera(cameras: seq<CameraDescription>, id: text): Option<CameraDescription>
  {
    if cameras == [] then None
    else if cameras[0].id == id then Some(cameras[0])
    else FindCamera(cameras[1..], id)
  }

  predicate HasMode(camera: CameraDescription, width: u32, height: u32, fps: real)
  {
    exists i :: 0 <= i < |camera.modes| && camera.modes[i].width == width && camera.modes[i].height == height
                && Distance(camera.modes[i].fps, fps) <= 0.5
  }

  /** A complete format asked of a camera that lists its modes must be one of them. */
  predicate ModeOffered(controls: Controls, caps: Capabilities)
  {
    controls.width.Some? && controls.height.Some? && controls.fps.Some? && (controls.cameraId.Some? || caps.cameras != []) ==>
      var id := controls.cameraId.GetOr(if caps.cameras == [] then [] else caps.cameras[0].id);
      var camera := FindCamera(caps.cameras, id);
      camera.Some? && camera.value.modes != [] ==>
        HasMode(camera.value, controls.width.value, controls.height.value, controls.fps.value)
  }

  predicate FormatAsked(controls: Controls)
  {
    && (controls.width.Some? ==> WidthFits(controls.width.value))
    && (controls.height.Some? ==> HeightFits(controls.height.value))
    && (controls.fps.Some? ==> FpsFits(controls.fps.value))
    && (controls.width.Some? && controls.height.Some? ==> controls.width.value * controls.height.value <= MAX_PIXELS)
  }

  function ControlsFault(controls: Controls, caps: Capabilities): Option<Fault>
  {
    if CapabilitiesFault(caps).Some? then CapabilitiesFault(caps)
    else if controls.cameraId.Some? && !KnownCamera(caps, controls.cameraId.value) then Some(UnknownCamera)
    else if !FormatAsked(controls) then Some(UnsupportedFormat)
    else if !ModeOffered(controls, caps) then Some(UnsupportedMode)
    else if controls.zoom.Some? && !Contains(caps.zoom, controls.zoom.value) then Some(UnsupportedZoom)
    else if controls.exposure.Some? && !Contains(caps.exposureCompensation, controls.exposure.value) then Some(UnsupportedExposure)
    else if controls.torch.Some? && !caps.torch then Some(UnsupportedTorch)
    else if controls.screenDimmed.Some? && !caps.screenDimSupported then Some(UnsupportedScreenDimming)
    else None
  }

  predicate CloseTo(requested: Option<real>, actual: Option<real>)
  {
    requested.Some? ==> actual.Some? && Distance(requested.value, actual.value) <= 0.001
  }

  /** Every requested field shows in `applied`; fields not requested do not matter. */
  predicate ReflectedBy(controls: Controls, applied: Applied)
  {
    && (controls.cameraId.Some? ==> controls.cameraId.value == applied.cameraId)
    && (controls.width.Some? ==> controls.width.value == applied.width)
    && (controls.height.Some? ==> controls.height.value == applied.height)
    && (controls.fps.Some? ==> Distance(controls.fps.value, applied.fps) <= 0.5)
    && CloseTo(controls.zoom, applied.zoom)
    && CloseTo(controls.exposure, applied.exposure)
    && (controls.torch.Some? ==> controls.torch.value == applied.torch)
    && (controls.previewMirrored.Some? ==> controls.previewMirrored.value == applied.previewMirrored)
    && (controls.screenDimmed.Some? ==> controls.screenDimmed.value == applied.screenDimmed)
  }

  /** Some settings the phone could report validate and reflect the request. */
  ghost predicate Honourable(controls: Controls, caps: Capabilities)
  {
    exists applied :: AppliedFault(applied, caps).None? && ReflectedBy(controls, applied)
  }

  /** Settings that grant the request and are otherwise as small as the limits allow. */
  function Granting(controls: Controls, caps: Capabilities): Applied
    requires caps.cameras != []
  {
    Applied(controls.cameraId.GetOr(caps.cameras[0].id),
            controls.width.GetOr(320), controls.height.GetOr(240), controls.fps.GetOr(15.0),
            controls.zoom, controls.exposure,
            controls.torch.GetOr(false), controls.previewMirrored.GetOr(false), controls.screenDimmed.GetOr(false))
  }

  /**
   * A request that validates asks for nothing the phone could not grant and
   * report, unless the phone has no camera at all, where no report validates.
   */
  lemma ValidRequestsAreHonourable(controls: Controls, caps: Capabilities)
    requires ControlsFault(controls, caps).None?
    ensures Honourable(controls, caps) <==> caps.cameras != []
  {
    hide CapabilitiesFault;
    if caps.cameras != [] {
      var applied := Granting(controls, caps);
      assert KnownCamera(caps, caps.cameras[0].id);
      SmallestFits(controls);
      assert AppliedFault(applied, caps).None? && ReflectedBy(controls, applied);
    } else if Honourable(controls, caps) {
      var applied :| AppliedFault(applied, caps).None? && ReflectedBy(controls, applied);
      assert false;
    }
  }

  lemma SmallestFits(controls: Controls)
    requires FormatAsked(controls)
    ensures FormatFits(controls.width.GetOr(320), controls.height.GetOr(240), controls.fps.GetOr(15.0))
  {
    var width, height := controls.width.GetOr(320), controls.height.GetOr(240);
    if controls.width.None? {
      assert width * height == 320 * height;
    } else if controls.height.None? {
      assert width * height == width * 240;
    }
  }


  // ---------------------------------------- what the checks let through

  /** A phone with these capabilities can be in this state. */
  predicate Supports(caps: Capabilities, applied: Applied)
  {
    && (exists i :: 0 <= i < |caps.cameras| && caps.cameras[i].id == applied.cameraId)
    && 320 <= applied.width <= 4096 && applied.width % 2 == 0
    && 240 <= applied.height <= 4096 && applied.height % 2 == 0
    && applied.width * applied.height <= 3840 * 2160
    && 15.0 <= applied.fps <= 60.0
    && (applied.zoom.Some? ==> caps.zoom.Some? && caps.zoom.value.min <= applied.zoom.value <= caps.zoom.value.max)
    && (applied.exposure.Some? ==>
          caps.exposureCompensation.Some?
          && caps.exposureCompensation.value.min <= applied.exposure.value <= caps.exposureCompensation.value.max)
    && (applied.torch ==> caps.torch)
    && (applied.screenDimmed ==> caps.screenDimSupported)
  }

  /** `applied` with every requested field put in its place. */
  function Overlay(controls: Controls, applied: Applied): Applied
  {
    Applied(controls.cameraId.GetOr(applied.cameraId),
            controls.width.GetOr(applied.width), controls.height.GetOr(applied.height), controls.fps.GetOr(applied.fps),
            if controls.zoom.Some? then controls.zoom else applied.zoom,
            if controls.exposure.Some? then controls.exposure else applied.exposure,
            controls.torch.GetOr(applied.torch), controls.previewMirrored.GetOr(applied.previewMirrored),
            controls.screenDimmed.GetOr(applied.screenDimmed))
  }

  /** The values, if any, differ by at most `tolerance`. */
  predicate Within(x: Option<real>, y: Option<real>, tolerance: real)
  {
    x == y || (x.Some? && y.Some? && -tolerance <= x.value - y.value <= tolerance)
  }

  /** The same settings, up to the tolerance a measured value has. */
  predicate Near(x: Applied, y: Applied)
  {
    && x.(fps := y.fps, zoom := y.zoom, exposure := y.exposure) == y
    && -0.5 <= x.fps - y.fps <= 0.5
    && Within(x.zoom, y.zoom, 0.001) && Within(x.exposure, y.exposure, 0.001)
  }

  /** A report reflects a request exactly when doing what was asked would leave it where it is. */
  lemma ReflectedExactly(controls: Controls, applied: Applied)
    ensures ReflectedBy(controls, applied) <==> Near(Overlay(controls, applied), applied)
  {
  }

  /** Frame rates count as one mode when they differ by at most a half. */
  predicate Lists(camera: CameraDescription, width: u32, height: u32, fps: real)
  {
    exists m :: m in camera.modes && m.width == width && m.height == height && -0.5 <= m.fps - fps <= 0.5
  }

  /** The camera a request is about: the one it names, or the first. */
  predicate IsAbout(controls: Controls, caps: Capabilities, i: nat)
    requires i < |caps.cameras|
  {
    if controls.cameraId.Some? then caps.cameras[i].id == controls.cameraId.value else i == 0
  }

  /** A complete format is one of the modes its camera lists, if it lists any. */
  predicate ModeListed(controls: Controls, caps: Capabilities)
  {
    controls.width.Some? && controls.height.Some? && controls.fps.Some? ==>
      forall i :: 0 <= i < |caps.cameras| && IsAbout(controls, caps, i) && caps.cameras[i].modes != [] ==>
        Lists(caps.cameras[i], controls.width.value, controls.height.value, controls.fps.value)
  }

  lemma {:induction false} FindsTheCamera(cameras: seq<CameraDescription>, i: nat)
    requires DistinctIds(cameras) && i < |cameras|
    ensures FindCamera(cameras, cameras[i].id) == Some(cameras[i])
  {
    if i > 0 {
      FindsTheCamera(cameras[1..], i - 1);
    }
  }

  lemma {:induction false} FindsOnlyListed(cameras: seq<CameraDescription>, id: text) returns (i: nat)
    requires FindCamera(cameras, id).Some?
    ensures i < |cameras| && cameras[i].id == id && FindCamera(cameras, id) == Some(cameras[i])
  {
    if cameras[0].id == id {
      i := 0;
    } else {
      i := FindsOnlyListed(cameras[1..], id);
      i := i + 1;
    }
  }

  lemma ListsExactly(camera: CameraDescription, width: u32, height: u32, fps: real)
    ensures HasMode(camera, width, height, fps) <==> Lists(camera, width, height, fps)
  {
    if HasMode(camera, width, height, fps) {
      var i :| 0 <= i < |camera.modes| && camera.modes[i].width == width && camera.modes[i].height == height
               && Distance(camera.modes[i].fps, fps) <= 0.5;
      assert camera.modes[i] in camera.modes;
    }
  }

  lemma ModeOfferedExactly(controls: Controls, caps: Capabilities)
    requires DistinctIds(caps.cameras)
    ensures ModeOffered(controls, caps) <==> ModeListed(controls, caps)
  {
    hide HasMode, Lists, DistinctIds;
    if controls.width.Some? && controls.height.Some? && controls.fps.Some? {
      var width, height, fps := controls.width.value, controls.height.value, controls.fps.value;
      forall i | 0 <= i < |caps.cameras| && IsAbout(controls, caps, i)
        ensures FindCamera(caps.cameras, caps.cameras[i].id) == Some(caps.cameras[i])
        ensures HasMode(caps.cameras[i], width, height, fps) <==> Lists(caps.cameras[i], width, height, fps)
      {
        FindsTheCamera(caps.cameras, i);
        ListsExactly(caps.cameras[i], width, height, fps);
      }
      if controls.cameraId.Some? && FindCamera(caps.cameras, controls.cameraId.value).Some? {
        var i := FindsOnlyListed(caps.cameras, controls.cameraId.value);
        assert IsAbout(controls, caps, i);
      } else if controls.cameraId.None? && caps.cameras != [] {
        assert IsAbout(controls, caps, 0);
      }
    }
  }

  /** A report is accepted exactly when the capabilities are plausible and support it. */
  lemma ReportsExactly(applied: Applied, caps: Capabilities)
    ensures AppliedFault(applied, caps).None? <==> Plausible(caps) && Supports(caps, applied)
  {
    FaultlessExactly(caps);
    hide CapabilitiesFault, Plausible;
  }

  /** The phone could do exactly what is asked, asking of it only what it says it has. */
  ghost predicate Grantable(controls: Controls, caps: Capabilities)
  {
    && (exists applied :: Supports(caps, applied) && Overlay(controls, applied) == applied)
    && ModeListed(controls, caps)
    && (controls.torch.Some? ==> caps.torch)
    && (controls.screenDimmed.Some? ==> caps.screenDimSupported)
  }

  /** A camera that lists nothing, for a phone that has none. */
  const PlainCamera := CameraDescription([1], [], [], [], [])

  lemma AcceptedIsGrantable(controls: Controls, caps: Capabilities)
    requires ControlsFault(controls, caps).None? && caps.cameras != []
    ensures Plausible(caps) && Grantable(controls, caps)
  {
    FaultlessExactly(caps);
    hide CapabilitiesFault;
    assert DistinctIds(caps.cameras);
    ModeOfferedExactly(controls, caps);
    hide ModeOffered, ModeListed, CameraFits, DistinctIds;
    var applied := Granting(controls, caps);
    assert KnownCamera(caps, caps.cameras[0].id);
    SmallestFits(controls);
    assert Supports(caps, applied) && Overlay(controls, applied) == applied;
  }

  lemma GrantableIsAccepted(controls: Controls, caps: Capabilities)
    requires Plausible(caps) && Grantable(controls, caps)
    ensures ControlsFault(controls, caps).None?
  {
    FaultlessExactly(caps);
    hide CapabilitiesFault;
    assert DistinctIds(caps.cameras);
    ModeOfferedExactly(controls, caps);
    hide ModeOffered, ModeListed, CameraFits, DistinctIds;
    var applied :| Supports(caps, applied) && Overlay(controls, applied) == applied;
  }

  lemma PlainAccepts(controls: Controls, caps: Capabilities)
    requires caps.cameras == []
    ensures ControlsFault(controls, caps).None? <==>
            controls.cameraId.None? && ControlsFault(controls, caps.(cameras := [PlainCamera])).None?
  {
    assert [PlainCamera][..0] == [];
    assert CamerasFault([PlainCamera]) == CameraFault(PlainCamera, Ids([]));
  }

  /**
   * A request is accepted exactly when the phone could do precisely that and
   * lists the mode; a phone without cameras is asked as if it had a plain one,
   * except that no camera can be named.
   */
  lemma RequestsExactly(controls: Controls, caps: Capabilities)
    ensures caps.cameras != [] ==> (ControlsFault(controls, caps).None? <==> Plausible(caps) && Grantable(controls, caps))
    ensures caps.cameras == [] ==>
              (ControlsFault(controls, caps).None? <==>
               controls.cameraId.None? && ControlsFault(controls, caps.(cameras := [PlainCamera])).None?)
  {
    FaultlessExactly(caps);
    hide ControlsFault, Plausible, CapabilitiesFault, Grantable;
    if caps.cameras == [] {
      PlainAccepts(controls, caps);
    } else {
      if ControlsFault(controls, caps).None? {
        AcceptedIsGrantable(controls, caps);
      }
      if Plausible(caps) && Grantable(controls, caps) {
        GrantableIsAccepted(controls, caps);
      }
    }
  }
}
