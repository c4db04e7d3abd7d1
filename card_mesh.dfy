/**
 * `CardMesh`: the show/hide transition of an info-card plane. `animIn` runs
 * from 0 (hidden) to 1 (shown) over the transition duration, after an
 * optional delay, and a 'hide-complete' event is emitted once the card has
 * faded out. The shader material, the easing curve and the mesh geometry are
 * not part of this model; the emitted event is the `Tick` method's result.
 */
module CardMeshes {
  import opened Wrappers
  import opened MathUtils

  /** How far one tick moves: `dt` is in milliseconds, `span` in seconds. */
  function Scaled(dt: real, span: real): real
    requires span != 0.0
  {
    (dt / 1000.0) * (1.0 / span)
  }

  /**
   * `animIn` after one undelayed tick of scaled length `step`: up while the
   * card is visible, down while it is hidden, clamped to `[0, 1]`.
   */
  function NextAnimIn(animIn: real, visible: bool, step: real): (r: real)
    ensures 0.0 <= r <= 1.0
    ensures step >= 0.0 && 0.0 <= animIn <= 1.0 ==> (visible ==> animIn <= r) && (!visible ==> r <= animIn)
    ensures visible && step >= 1.0 - animIn ==> r == 1.0
    ensures !visible && step >= animIn ==> r == 0.0
  {
    Clamp(if visible then animIn + step else animIn - step, 0.0, 1.0)
  }

  /** A positive tick of a positive span moves a positive distance. */
  lemma ScaledPositive(dt: real, span: real)
    requires dt > 0.0 && span > 0.0
    ensures Scaled(dt, span) > 0.0
  {
    assert 1.0 / span > 0.0;
    MulPositive(dt / 1000.0, 1.0 / span);
  }

  lemma MulPositive(x: real, y: real)
    requires x > 0.0 && y > 0.0
    ensures x * y > 0.0
  {
  }

  class CardMesh {
    var animIn: real
    var delay: real
    var delayCounter: real
    /** `transitionDuration`; `None` until the first `setTimings`. */
    var transitionDuration: Option<real>
    var visible: bool
    var hideComplete: bool

    /** `animIn` stays in `[0, 1]`, and a running delay has a non-zero length. */
    predicate Valid()
      reads this
    {
      && 0.0 <= animIn <= 1.0
      && (delayCounter > 0.0 ==> delay != 0.0)
    }

    /** The constructor, as far as the transition state goes. */
    constructor ()
      ensures Valid()
      ensures animIn == 0.0 && delay == 0.0 && delayCounter == 0.0
      ensures !visible && !hideComplete && transitionDuration == None
    {
      animIn := 0.0;
      delay := 0.0;
      delayCounter := 0.0;
      transitionDuration := None;
      visible := false;
      hideComplete := false;
    }

    /**
     * `setTimings`: an omitted duration is 0.25 s and an omitted delay is 0;
     * a delay countdown starts (at 1) exactly when the delay is non-zero.
     */
    method SetTimings(duration: Option<real>, delay0: Option<real>)
      requires Valid()
      modifies this`transitionDuration, this`delay, this`delayCounter
      ensures Valid()
      ensures transitionDuration == Some(duration.GetOr(0.25))
      ensures delay == delay0.GetOr(0.0)
      ensures delayCounter == (if delay != 0.0 then 1.0 else 0.0)
    {
      transitionDuration := Some(duration.GetOr(0.25));
      delay := delay0.GetOr(0.0);
      delayCounter := if delay != 0.0 then 1.0 else 0.0;
    }

    /** `show`: nothing when already visible; otherwise new timings and the fade-in restarts from 0. */
    method Show(duration: Option<real>, delay0: Option<real>)
      requires Valid()
      modifies this`transitionDuration, this`delay, this`delayCounter, this`animIn, this`visible
      ensures Valid()
      ensures old(visible) ==> unchanged(this)
      ensures !old(visible) ==>
        && transitionDuration == Some(duration.GetOr(0.25))
        && delay == delay0.GetOr(0.0)
        && delayCounter == (if delay != 0.0 then 1.0 else 0.0)
        && animIn == 0.0 && visible && hideComplete == old(hideComplete)
    {
      if visible {
        return;
      }
      SetTimings(duration, delay0);
      animIn := 0.0;
      visible := true;
    }

    /**
     * `hide`: nothing when not visible; otherwise new timings, the card is
     * hidden and a new 'hide-complete' is armed. `animIn` is left where it is.
     */
    method Hide(duration: Option<real>, delay0: Option<real>)
      requires Valid()
      modifies this`transitionDuration, this`delay, this`delayCounter, this`visible, this`hideComplete
      ensures Valid()
      ensures !old(visible) ==> unchanged(this)
      ensures old(visible) ==>
        && transitionDuration == Some(duration.GetOr(0.25))
        && delay == delay0.GetOr(0.0)
        && delayCounter == (if delay != 0.0 then 1.0 else 0.0)
        && animIn == old(animIn) && !visible && !hideComplete
    {
      if !visible {
        return;
      }
      SetTimings(duration, delay0);
      visible := false;
      hideComplete := false;
    }

    /**
     * `setVisibility`: `show(duration, delay)` or `hide(duration)`; the delay
     * is not passed on when hiding, so a hide through here never waits.
     */
    method SetVisibility(visibility: bool, duration: Option<real>, delay0: Option<real>)
      requires Valid()
      modifies this`transitionDuration, this`delay, this`delayCounter, this`animIn, this`visible, this`hideComplete
      ensures Valid()
      ensures old(visible) == visibility ==> unchanged(this)
      ensures old(visible) != visibility ==>
        && visible == visibility
        && transitionDuration == Some(duration.GetOr(0.25))
        && delay == (if visibility then delay0.GetOr(0.0) else 0.0)
        && delayCounter == (if delay != 0.0 then 1.0 else 0.0)
        && animIn == (if visibility then 0.0 else old(animIn))
        && hideComplete == (visibility && old(hideComplete))
    {
      if visibility {
        Show(duration, delay0);
      } else {
        Hide(duration, None);
      }
    }

    /**
     * `tick(dt)`. While a delay runs, only the countdown moves (by `dt`
     * scaled to the delay's length). Otherwise `animIn` moves by `dt` scaled
     * to the transition duration and is clamped to `[0, 1]`, and
     * 'hide-complete' is emitted when `animIn` has reached 0 and has not been
     * emitted since the last `hide`. The result says whether it was emitted.
     */
    method Tick(dt: real) returns (hideCompleteEmitted: bool)
      requires Valid()
      requires delayCounter <= 0.0 ==> transitionDuration.Some? && transitionDuration.value != 0.0
      modifies this`delayCounter, this`animIn, this`hideComplete
      ensures Valid()
      ensures old(delayCounter) > 0.0 ==>
        && delayCounter == old(delayCounter) - Scaled(dt, delay)
        && animIn == old(animIn) && hideComplete == old(hideComplete) && !hideCompleteEmitted
      ensures old(delayCounter) > 0.0 && dt > 0.0 && delay > 0.0 ==> delayCounter < old(delayCounter)
      ensures old(delayCounter) <= 0.0 ==>
        && delayCounter == old(delayCounter)
        && animIn == NextAnimIn(old(animIn), visible, Scaled(dt, transitionDuration.value))
        && (hideCompleteEmitted <==> !old(hideComplete) && animIn == 0.0)
        && hideComplete == (old(hideComplete) || animIn == 0.0)
      ensures old(hideComplete) ==> !hideCompleteEmitted && hideComplete
    {
      hideCompleteEmitted := false;
      if delayCounter > 0.0 {
        var step := Scaled(dt, delay);
        if dt > 0.0 && delay > 0.0 {
          ScaledPositive(dt, delay);
        }
        delayCounter := delayCounter - step;
        return;
      }
      var step := Scaled(dt, transitionDuration.value);
      if visible {
        animIn := animIn + step;
      } else {
        animIn := animIn - step;
      }
      animIn := Clamp(animIn, 0.0, 1.0);
      if !hideComplete && animIn <= 0.0 {
        hideComplete := true;
        hideCompleteEmitted := true;
      }
    }
  }

  /**
   * A hidden card that has faded out stays faded out under forward ticks, so
   * once 'hide-complete' is due it stays due until the card is shown again.
   */
  lemma HiddenStaysFadedOut(c: CardMesh, dt1: real, dt2: real)
    requires c.Valid() && !c.visible && c.delayCounter <= 0.0
    requires c.transitionDuration.Some? && c.transitionDuration.value > 0.0
    requires dt1 >= 0.0 && dt2 >= 0.0
    ensures var a1 := NextAnimIn(c.animIn, false, Scaled(dt1, c.transitionDuration.value));
      var a2 := NextAnimIn(a1, false, Scaled(dt2, c.transitionDuration.value));
      a1 == 0.0 ==> a2 == 0.0
  {
    var span := c.transitionDuration.value;
    if dt2 > 0.0 {
      ScaledPositive(dt2, span);
    } else {
      assert Scaled(dt2, span) == 0.0;
    }
  }
}
