/** The horizontal scrolling of the level scene
    (src/game/scenes/level/scroll_controller.rs): the arrow keys set a scroll
    mode, and each tick moves the view by one pixel per 5 ms of the clock, three
    with shift, clamped to the level. */
module ScrollController {
  import Wrappers

  const MsecPerPixel: nat := 5
  const FastScrollSpeedup: nat := 3
  /** `LEVEL_WIDTH`, the width of a level in pixels. */
  const LevelWidth: nat := 1600
  const LevelXMax: nat := LevelWidth - 320 - 1

  datatype ScrollMode = Left | Right | None

  /** The keys and modifiers the controller tells apart. */
  datatype Keycode = ArrowLeft | ArrowRight | OtherKey
  datatype KeyMod = NoMod | LeftShift | RightShift | OtherMod
  datatype SceneEvent = KeyDown(keycode: Keycode, keymod: KeyMod) | KeyUp(keycode: Keycode)

  /** The two fields of the level scene's state the controller reads and writes. */
  class SceneStateLevel {
    var levelX: nat
    var currentClockMsec: nat

    constructor (levelX: nat, currentClockMsec: nat)
      ensures this.levelX == levelX && this.currentClockMsec == currentClockMsec
    {
      this.levelX := levelX;
      this.currentClockMsec := currentClockMsec;
    }
  }

  /** The view position after `ticks` ticks in `mode` at `speedup` pixels per tick:
      left stops at 0, right stops at `LEVEL_X_MAX`. */
  function Scrolled(mode: ScrollMode, levelX: nat, ticks: nat, speedup: nat): (x: nat)
    ensures mode == None ==> x == levelX
    ensures mode == Left ==> x <= levelX && (x == 0 || x == levelX - ticks * speedup)
    ensures mode == Left && ticks * speedup <= levelX ==> x == levelX - ticks * speedup
    ensures mode == Right ==> x <= LevelXMax && (x == LevelXMax || x == levelX + ticks * speedup)
    ensures mode == Right && levelX + ticks * speedup <= LevelXMax ==> x == levelX + ticks * speedup
  {
    match mode
    case Left => if levelX - ticks * speedup > 0 then levelX - ticks * speedup else 0
    case Right => if levelX + ticks * speedup < LevelXMax then levelX + ticks * speedup else LevelXMax
    case None => levelX
  }

  /** A view inside the level stays inside it, whatever the mode and the time. */
  lemma ScrolledInLevel(mode: ScrollMode, levelX: nat, ticks: nat, speedup: nat)
    requires levelX <= LevelXMax
    ensures Scrolled(mode, levelX, ticks, speedup) <= LevelXMax
  {
  }

  /** Scrolling by `a` ticks and then by `b` more ends where scrolling by
      `a + b` at once does, unless the first leg was stopped at an edge. */
  lemma ScrolledSplit(mode: ScrollMode, levelX: nat, a: nat, b: nat, speedup: nat)
    requires mode == Left ==> a * speedup <= levelX
    requires mode == Right ==> levelX + a * speedup <= LevelXMax
    ensures Scrolled(mode, Scrolled(mode, levelX, a, speedup), b, speedup) == Scrolled(mode, levelX, a + b, speedup)
  {
    assert (a + b) * speedup == a * speedup + b * speedup;
  }

  class ScrollController {
    var arrowLeftDown: bool
    var arrowRightDown: bool
    var fastScroll: bool
    var currentScrollMode: ScrollMode

    /** `ScrollController::new`: no arrow down, no scrolling. */
    constructor ()
      ensures !arrowLeftDown && !arrowRightDown && !fastScroll && currentScrollMode == None
      ensures Mode() == None
    {
      arrowLeftDown := false;
      arrowRightDown := false;
      fastScroll := false;
      currentScrollMode := None;
    }

    /** `scroll_mode`: no scrolling while both arrows or neither are down. */
    function Mode(): (m: ScrollMode)
      reads this
      ensures m == None <==> arrowLeftDown == arrowRightDown
      ensures m == Left <==> arrowLeftDown && !arrowRightDown
      ensures m == Right <==> arrowRightDown && !arrowLeftDown
    {
      if arrowLeftDown == arrowRightDown then None
      else if arrowLeftDown then Left
      else Right
    }

    /** `dispatch_event`: an arrow pressed without a modifier scrolls slowly, with
        exactly one shift key fast; a released arrow stops; nothing else matters. */
    method DispatchEvent(event: SceneEvent)
      modifies this
      ensures currentScrollMode == old(currentScrollMode)
      ensures event.KeyDown? && event.keymod == NoMod && event.keycode != OtherKey ==>
        !fastScroll
      ensures event.KeyDown? && (event.keymod == LeftShift || event.keymod == RightShift) && event.keycode != OtherKey ==>
        fastScroll
      ensures event.KeyDown? && event.keymod != OtherMod ==>
        && arrowLeftDown == (old(arrowLeftDown) || event.keycode == ArrowLeft)
        && arrowRightDown == (old(arrowRightDown) || event.keycode == ArrowRight)
      ensures event.KeyUp? ==>
        && arrowLeftDown == (old(arrowLeftDown) && event.keycode != ArrowLeft)
        && arrowRightDown == (old(arrowRightDown) && event.keycode != ArrowRight)
        && fastScroll == old(fastScroll)
      ensures event.keycode == OtherKey || (event.KeyDown? && event.keymod == OtherMod) ==>
        arrowLeftDown == old(arrowLeftDown) && arrowRightDown == old(arrowRightDown) && fastScroll == old(fastScroll)
    {
      match event {
        case KeyDown(keycode, keymod) =>
          if keymod == NoMod || keymod == LeftShift || keymod == RightShift {
            if keycode == ArrowLeft {
              arrowLeftDown := true;
              fastScroll := keymod != NoMod;
            } else if keycode == ArrowRight {
              arrowRightDown := true;
              fastScroll := keymod != NoMod;
            }
          }
        case KeyUp(keycode) =>
          if keycode == ArrowLeft {
            arrowLeftDown := false;
          } else if keycode == ArrowRight {
            arrowRightDown := false;
          }
      }
    }

    /** `tick`: moves the view in the mode saved at the previous tick, by the
        number of 5 ms steps between the scene clock and `clockMsec`, then saves
        the mode of the arrows. The clock of the scene is not advanced here. */
    method Tick(clockMsec: nat, state: SceneStateLevel) returns (dirty: bool)
      requires currentScrollMode != None ==> clockMsec / MsecPerPixel >= state.currentClockMsec / MsecPerPixel
      modifies this, state
      ensures dirty <==> old(currentScrollMode) != None
      ensures state.levelX == Scrolled(old(currentScrollMode), old(state.levelX),
        if old(currentScrollMode) == None then 0 else clockMsec / MsecPerPixel - old(state.currentClockMsec) / MsecPerPixel,
        if old(fastScroll) then FastScrollSpeedup else 1)
      ensures state.currentClockMsec == old(state.currentClockMsec)
      ensures arrowLeftDown == old(arrowLeftDown) && arrowRightDown == old(arrowRightDown) && fastScroll == old(fastScroll)
      ensures currentScrollMode == Mode()
    {
      var ticksCurrent := state.currentClockMsec / MsecPerPixel;
      var ticksNew := clockMsec / MsecPerPixel;
      var speedup := if fastScroll then FastScrollSpeedup else 1;
      match currentScrollMode {
        case Left =>
          var x: int := state.levelX - (ticksNew - ticksCurrent) * speedup;
          state.levelX := if x > 0 then x else 0;
          dirty := true;
        case Right =>
          var x := state.levelX + (ticksNew - ticksCurrent) * speedup;
          state.levelX := if LevelXMax < x then LevelXMax else x;
          dirty := true;
        case None =>
          dirty := false;
      }
      currentScrollMode := Mode();
    }

    /** `next_tick_at_msec`: while scrolling, the next multiple of 5 ms after the
        scene clock. */
    function NextTickAtMsec(state: SceneStateLevel): (r: Wrappers.Option<nat>)
      reads this, state
      ensures r.None? <==> Mode() == None
      ensures r.Some? ==> r.value % MsecPerPixel == 0 && state.currentClockMsec < r.value <= state.currentClockMsec + MsecPerPixel
    {
      if Mode() == None then Wrappers.None
      else Wrappers.Some((state.currentClockMsec / MsecPerPixel + 1) * MsecPerPixel)
    }
  }
}
