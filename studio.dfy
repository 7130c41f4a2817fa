/** The guards of the studio panel (`StudioSection`): which clicks change a
    setting, when the start action fires, and how the thumbnail strip of the
    current session is laid out. The panel only reads the booth's state and
    calls its setters, so it is modelled as pure functions on the values it
    reads. The number of photos per session is a property the panel is given
    with its own setter; it is an input here. */
module Studio {
  import opened Types
  import opened Constants

  /** What the panel reads when a click arrives. */
  datatype Settings = Settings(
    layout: LayoutType, countdown: int, photosPerSession: int,
    isTakingPhoto: bool, isCameraActive: bool)

  /** A click on a layout card: takes effect unless a session is running. */
  function SelectLayout(s: Settings, choice: LayoutType): (r: Settings)
    ensures r.layout == (if s.isTakingPhoto then s.layout else choice)
    ensures r.(layout := s.layout) == s
  {
    if s.isTakingPhoto then s else s.(layout := choice)
  }

  /** Whether a click on the photo-count button `val` is accepted: no session
      runs, and the layout is the strip or the count is four. */
  predicate PhotoCountAccepted(s: Settings, val: int)
  {
    !s.isTakingPhoto && (s.layout == Strip || val == 4)
  }

  /** Whether the photo-count button `val` is rendered disabled. */
  predicate PhotoCountDisabled(s: Settings, val: int)
  {
    s.isTakingPhoto || (s.layout == Grid && val != 4)
  }

  /** A click on the photo-count button `val`. */
  function SelectPhotoCount(s: Settings, val: int): (r: Settings)
    ensures r.photosPerSession == (if PhotoCountAccepted(s, val) then val else s.photosPerSession)
    ensures r.(photosPerSession := s.photosPerSession) == s
  {
    if !s.isTakingPhoto && (s.layout == Strip || val == 4) then s.(photosPerSession := val) else s
  }

  /** A click on the countdown button `val`: takes effect unless a session is running. */
  function SelectCountdown(s: Settings, val: int): (r: Settings)
    ensures r.countdown == (if s.isTakingPhoto then s.countdown else val)
    ensures r.(countdown := s.countdown) == s
  {
    if s.isTakingPhoto then s else s.(countdown := val)
  }

  /** Whether a click on the start action calls `startPhotoSession`. */
  predicate StartFires(s: Settings)
  {
    !s.isTakingPhoto && s.isCameraActive
  }

  /** Whether the start action ignores the pointer (and is drawn faded). */
  predicate StartInert(s: Settings)
  {
    s.isTakingPhoto || !s.isCameraActive
  }

  /** Whether the camera and flash toggles are rendered disabled. */
  predicate TogglesDisabled(s: Settings)
  {
    s.isTakingPhoto
  }

  /** The number of empty placeholder slots after `captured` thumbnails:
      `Array.from({ length: n })` makes no slot for a negative `n`. */
  function PlaceholderCount(photosPerSession: int, captured: nat): (r: nat)
    ensures r >= photosPerSession - captured
    ensures r == 0 || captured + r == photosPerSession
  {
    if photosPerSession > captured then photosPerSession - captured else 0
  }

  /** Whether the panel of thumbnails and placeholders is rendered: only once a photo has been captured. */
  predicate PanelShown(captured: nat)
  {
    captured > 0
  }

  /** The slots the panel renders: the thumbnails and the placeholders after
      them, or none while the panel is hidden. */
  function RenderedSlots(photosPerSession: int, captured: nat): nat
  {
    if PanelShown(captured) then captured + PlaceholderCount(photosPerSession, captured) else 0
  }

  /** The number of columns of the thumbnail grid. */
  function Columns(photosPerSession: int): (r: int)
    ensures r <= 4 && r <= photosPerSession
    ensures r == 4 || r == photosPerSession
  {
    if photosPerSession < 4 then photosPerSession else 4
  }

  /** A photo-count button is disabled exactly when a click on it would be ignored. */
  lemma DisabledExactlyWhenRejected(s: Settings, val: int)
    ensures PhotoCountDisabled(s, val) <==> !PhotoCountAccepted(s, val)
  {
  }

  /** The start action is inert exactly when a click on it would not start a session. */
  lemma InertExactlyWhenNotFiring(s: Settings)
    ensures StartInert(s) <==> !StartFires(s)
  {
  }

  /** Under the grid layout only the count four is ever accepted. */
  lemma GridAcceptsOnlyFour(s: Settings, val: int)
    requires s.layout == Grid
    ensures PhotoCountAccepted(s, val) ==> val == 4
    ensures !s.isTakingPhoto ==> SelectPhotoCount(s, 4).photosPerSession == 4
  {
  }

  /** While a session is running, no click on a setting changes anything. */
  lemma SettingsFrozenDuringSession(s: Settings, choice: LayoutType, count: int, seconds: int)
    requires s.isTakingPhoto
    ensures SelectLayout(s, choice) == s && SelectPhotoCount(s, count) == s && SelectCountdown(s, seconds) == s
    ensures !StartFires(s) && TogglesDisabled(s)
  {
  }

  /** Changing the layout leaves the photo count alone: a count other than
      four chosen under the strip layout survives a switch to the grid, where
      it could not have been chosen. */
  lemma StripCountSurvivesGrid(s: Settings, val: int)
    requires !s.isTakingPhoto && s.layout == Strip && val != 4
    ensures var r := SelectLayout(SelectPhotoCount(s, val), Grid);
            r.layout == Grid && r.photosPerSession == val && !PhotoCountAccepted(r, val)
  {
  }

  /** Once the panel is shown, thumbnails and placeholders fill exactly the
      count's slots while no more photos than the count have been captured;
      beyond it there are no placeholders. Before the first photo nothing is
      rendered. */
  lemma SlotsFillTheCount(photosPerSession: int, captured: nat)
    ensures RenderedSlots(photosPerSession, captured) == 0 <==> captured == 0
    ensures PanelShown(captured) && captured <= photosPerSession ==>
      RenderedSlots(photosPerSession, captured) == photosPerSession
    ensures captured >= photosPerSession ==> PlaceholderCount(photosPerSession, captured) == 0
  {
  }

  /** With no photo captured, the panel with its thumbnails and placeholders
      is not rendered at all. */
  lemma NoSlotsBeforeFirstPhoto(photosPerSession: int)
    ensures !PanelShown(0) && RenderedSlots(photosPerSession, 0) == 0
  {
  }

  /** A full session of the booth's fixed PHOTOS_PER_SESSION photos, shown
      against a count of `n`, leaves `n - 4` empty slots when `n` exceeds four. */
  lemma SessionAgainstLargerCount(n: int)
    requires n > PHOTOS_PER_SESSION
    ensures PlaceholderCount(n, PHOTOS_PER_SESSION) == n - PHOTOS_PER_SESSION
    ensures Columns(n) == 4
  {
  }
}
