/**
 * `PlatformUtils`: the decision tables that depend on the platform. The
 * device checks, the window size, the scene's mode and the WebVR display
 * query are inputs here.
 */
module PlatformUtils {
  import opened Strings

  /**
   * `getCardZOffset`: -1.75 by default (every VR mode), then overridden in
   * turn for 360 mode on desktop, on a portrait phone and on a landscape
   * phone.
   */
  function CardZOffset(is360: bool, isMobile: bool, isPortrait: bool): (z: real)
    ensures !is360 ==> z == -1.75
    ensures is360 && !isMobile ==> z == -1.25
    ensures is360 && isMobile && isPortrait ==> z == -2.0
    ensures is360 && isMobile && !isPortrait ==> z == -1.0
  {
    var z := -1.75;
    var z := if is360 && !isMobile then -1.25 else z;
    var z := if is360 && isMobile && isPortrait then -2.0 else z;
    var z := if is360 && isMobile && !isPortrait then -1.0 else z;
    z
  }

  /** Only a portrait phone in 360 mode places the card further away than VR mode does. */
  lemma CardZOffsetOrder(is360: bool, isMobile: bool, isPortrait: bool)
    ensures CardZOffset(is360, isMobile, isPortrait) < CardZOffset(false, isMobile, isPortrait)
        <==> is360 && isMobile && isPortrait
  {
  }

  /**
   * `isEnabledOnPlatform`: `mobile-only` enables a component exactly on
   * mobile and is read first, `desktop-only` exactly off mobile, and a
   * component with neither attribute is always enabled.
   */
  function IsEnabledOnPlatform(mobileOnly: bool, desktopOnly: bool, isMobile: bool): (r: bool)
    ensures mobileOnly ==> (r <==> isMobile)
    ensures !mobileOnly && desktopOnly ==> (r <==> !isMobile)
    ensures !mobileOnly && !desktopOnly ==> r
  {
    if mobileOnly then isMobile
    else if desktopOnly then !isMobile
    else true
  }

  /** A component marked for both platforms is enabled only on mobile. */
  lemma BothAttributesMeanMobile(isMobile: bool)
    ensures IsEnabledOnPlatform(true, true, isMobile) == isMobile
  {
  }

  /** One WebVR display as `getControllerType` reads it. */
  datatype Display = Display(isPresenting: bool, displayName: string, stageParametersNull: bool)

  /** The outcome of `navigator.getVRDisplays()`. */
  datatype DisplayQuery = Rejected | Resolved(displays: seq<Display>)

  datatype ControllerType = MouseTouch | Controller

  /**
   * `getControllerType`: the value the callback receives, the controller
   * type and a name. Only the first display counts, and only while it
   * presents: a Cardboard viewer is driven by touch, any other presenting
   * display by a controller. Without a presenting display, or when the query
   * fails, the answer is mouse-touch with the name 'other'.
   */
  function GetControllerType(q: DisplayQuery): (r: (ControllerType, string))
    ensures r.0 == Controller <==>
      q.Resolved? && |q.displays| > 0 && q.displays[0].isPresenting
      && !Contains(q.displays[0].displayName, "Cardboard")
    ensures r.1 == (if q.Resolved? && |q.displays| > 0 && q.displays[0].isPresenting
                    then q.displays[0].displayName else "other")
  {
    match q
    case Rejected => (MouseTouch, "other")
    case Resolved(displays) =>
      var isFullHDDisplay := |displays| > 0 && displays[0].isPresenting;
      if isFullHDDisplay then
        var display := displays[0];
        if Contains(display.displayName, "Cardboard") then (MouseTouch, display.displayName)
        else if Contains(display.displayName, "Daydream") || display.stageParametersNull then
          (Controller, display.displayName)
        else (Controller, display.displayName)
      else (MouseTouch, "other")
  }
}
