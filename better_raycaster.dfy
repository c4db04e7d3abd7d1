/**
 * The parts of the `better-raycaster` component that decide who hears a
 * click: the priority order of the intersected elements, the cursor-down
 * and cursor-up propagation that stops after the first element with
 * `consume-click`, the visibility test up the parent chain and the tick
 * throttle. Ray casting itself, the camera and the DOM are not part of this
 * model; whether the raycaster is deactivated (its controller type differs
 * from the scene's) is a parameter.
 */
module BetterRaycaster {
  import opened Wrappers
  import opened Sorting

  /**
   * An intersected element: its `event-priority` attribute read as a number
   * (absent: `None`), whether it has `consume-click`, and whether it is still
   * attached (has a `parentNode`).
   */
  datatype El = El(id: string, priority: Option<real>, consumeClick: bool, attached: bool)

  datatype EventName = CursorDown | CursorUp

  /** Who an event is emitted on: the raycaster's own entity or an intersected element. */
  datatype Target = Self | Element(el: El)

  /** One `emit`: target, event and the `buttonHoldTime` it carries. */
  datatype Emission = Emission(target: Target, event: EventName, holdTime: real)

  /** The elements with a priority, in their original order (the first `filter`). */
  function Prioritized(s: seq<El>): (r: seq<El>)
    ensures forall e :: e in r ==> e.priority.Some?
  {
    if s == [] then []
    else (if s[0].priority.Some? then [s[0]] else []) + Prioritized(s[1..])
  }

  /** The elements without a priority, in their original order (the second `filter`). */
  function Unprioritized(s: seq<El>): (r: seq<El>)
    ensures forall e :: e in r ==> e.priority.None?
  {
    if s == [] then []
    else (if s[0].priority.None? then [s[0]] else []) + Unprioritized(s[1..])
  }

  /** The two filters split the list: together they hold every element exactly as often. */
  lemma {:induction false} FiltersPartition(s: seq<El>)
    ensures multiset(Prioritized(s)) + multiset(Unprioritized(s)) == multiset(s)
  {
    if s != [] {
      FiltersPartition(s[1..]);
      assert s == [s[0]] + s[1..];
    }
  }

  /** The sort key: `(a, b) => priorityB - priorityA` orders by descending priority. */
  function NegPriority(e: El): real {
    if e.priority.Some? then -e.priority.value else 0.0
  }

  /** Every element with a priority comes before every element without one. */
  predicate PriorityFirst(s: seq<El>) {
    forall i, j :: 0 <= i < j < |s| && s[i].priority.None? ==> s[j].priority.None?
  }

  /** The elements the cursor-down event reaches: in order, up to and including the first consumer. */
  function DownRecipients(s: seq<El>): seq<El> {
    if s == [] then []
    else if s[0].consumeClick then [s[0]]
    else [s[0]] + DownRecipients(s[1..])
  }

  /**
   * Cursor-down reaches a leading run of the list in which only the last
   * element may consume the click, and it stops early only at a consumer.
   */
  lemma {:induction false} DownRecipientsShape(s: seq<El>)
    ensures DownRecipients(s) <= s
    ensures forall i :: 0 <= i < |DownRecipients(s)| - 1 ==> !DownRecipients(s)[i].consumeClick
    ensures |DownRecipients(s)| < |s| ==> DownRecipients(s) != [] && DownRecipients(s)[|DownRecipients(s)| - 1].consumeClick
  {
    if s != [] && !s[0].consumeClick {
      DownRecipientsShape(s[1..]);
      var r := DownRecipients(s[1..]);
      assert DownRecipients(s) == [s[0]] + r;
      assert s == [s[0]] + s[1..];
      forall i | 1 <= i < |r| + 1 - 1 ensures !DownRecipients(s)[i].consumeClick {
        assert DownRecipients(s)[i] == r[i - 1];
      }
    }
  }

  /**
   * The elements the cursor-up event reaches: detached elements are skipped
   * (they neither receive the event nor consume it); the attached ones are
   * reached in order up to and including the first consumer.
   */
  function UpRecipients(s: seq<El>): seq<El> {
    if s == [] then []
    else if !s[0].attached then UpRecipients(s[1..])
    else if s[0].consumeClick then [s[0]]
    else [s[0]] + UpRecipients(s[1..])
  }

  /** The attached elements of the list, in their original order. */
  function Attached(s: seq<El>): (r: seq<El>)
    ensures forall e :: e in r <==> e in s && e.attached
  {
    if s == [] then []
    else
      assert s == [s[0]] + s[1..];
      (if s[0].attached then [s[0]] else []) + Attached(s[1..])
  }

  /**
   * Cursor-up is cursor-down's propagation run over the attached elements:
   * it reaches them in order up to and including the first attached
   * consumer (all of them when none consumes), and no element after that.
   */
  lemma {:induction false} UpRecipientsOfAttached(s: seq<El>)
    ensures UpRecipients(s) == DownRecipients(Attached(s))
  {
    if s != [] {
      UpRecipientsOfAttached(s[1..]);
      var a := Attached(s);
      if s[0].attached {
        assert a == [s[0]] + Attached(s[1..]);
        assert a[0] == s[0] && a[1..] == Attached(s[1..]);
      } else {
        assert a == Attached(s[1..]);
      }
    }
  }

  /** Cursor-up reaches only attached elements of the list, and only the last may consume the click. */
  lemma {:induction false} UpRecipientsShape(s: seq<El>)
    ensures forall e :: e in UpRecipients(s) ==> e in s && e.attached
    ensures forall i :: 0 <= i < |UpRecipients(s)| - 1 ==> !UpRecipients(s)[i].consumeClick
  {
    if s != [] {
      UpRecipientsShape(s[1..]);
      var r := UpRecipients(s[1..]);
      assert s == [s[0]] + s[1..];
      if s[0].attached && !s[0].consumeClick {
        assert UpRecipients(s) == [s[0]] + r;
        forall i | 1 <= i < |r| ensures !UpRecipients(s)[i].consumeClick {
          assert UpRecipients(s)[i] == r[i - 1];
        }
      }
    }
  }

  /** The per-element emissions of one propagation. */
  function EmitAll(els: seq<El>, event: EventName, holdTime: real): seq<Emission> {
    if els == [] then [] else [Emission(Element(els[0]), event, holdTime)] + EmitAll(els[1..], event, holdTime)
  }

  /** Emitting one more element appends its emission. */
  lemma {:induction false} EmitAllSnoc(els: seq<El>, e: El, event: EventName, holdTime: real)
    ensures EmitAll(els + [e], event, holdTime) == EmitAll(els, event, holdTime) + [Emission(Element(e), event, holdTime)]
  {
    if els != [] {
      assert (els + [e])[1..] == els[1..] + [e];
      EmitAllSnoc(els[1..], e, event, holdTime);
    }
  }

  /** An object of the scene graph as `isParentVisible` reads it. */
  datatype Obj = Obj(visible: bool, parent: Option<Obj>)

  /** The parents of `o`, nearest first. */
  function Ancestors(o: Obj): seq<Obj> {
    if o.parent.None? then [] else [o.parent.value] + Ancestors(o.parent.value)
  }

  /**
   * `isParentVisible`: an object without a parent answers with its own
   * flag; otherwise the answer is whether every ancestor is visible, and the
   * object's own flag is not read.
   */
  function IsParentVisible(o: Obj): (r: bool)
    ensures o.parent.None? ==> r == o.visible
    ensures o.parent.Some? ==> (r <==> forall a :: a in Ancestors(o) ==> a.visible)
  {
    if o.parent.None? then o.visible
    else if o.parent.value.visible then
      var r := IsParentVisible(o.parent.value);
      assert forall a :: a in Ancestors(o) ==> a == o.parent.value || a in Ancestors(o.parent.value);
      r
    else false
  }

  class Raycaster {
    var intersectedEls: seq<El>
    var isButtonDown: bool
    var buttonHoldTime: real
    var tickCount: int
    /** 3 on mobile, 1 elsewhere. */
    const tickIncrement: int
    /** Every event emitted so far, in order. */
    var emitted: seq<Emission>

    /** `init`, as far as these fields go. */
    constructor (isMobile: bool)
      ensures intersectedEls == [] && !isButtonDown && buttonHoldTime == 0.0 && tickCount == 0
      ensures tickIncrement == (if isMobile then 3 else 1) && emitted == []
    {
      intersectedEls := [];
      isButtonDown := false;
      buttonHoldTime := 0.0;
      tickCount := 0;
      tickIncrement := if isMobile then 3 else 1;
      emitted := [];
    }

    /** `sortIntersections`: the list is replaced by its priority order, which it also returns. */
    method SortIntersections() returns (r: seq<El>)
      modifies this`intersectedEls
      ensures r == intersectedEls == PriorityOrder(old(intersectedEls))
    {
      var elsWithoutPriority := Unprioritized(intersectedEls);
      var elsWithPriority := Prioritized(intersectedEls);
      elsWithPriority := SortBy(elsWithPriority, NegPriority);
      ghost var target := PriorityOrder(intersectedEls);
      assert target == elsWithPriority + elsWithoutPriority;
      intersectedEls := elsWithPriority;
      var i := 0;
      while i < |elsWithoutPriority|
        invariant 0 <= i <= |elsWithoutPriority|
        invariant intersectedEls == elsWithPriority + elsWithoutPriority[..i]
      {
        AppendStep(elsWithPriority, elsWithoutPriority, i);
        intersectedEls := intersectedEls + [elsWithoutPriority[i]];
        i := i + 1;
      }
      assert elsWithoutPriority[..i] == elsWithoutPriority;
      r := intersectedEls;
    }

    /**
     * `onMouseDown`: ignored while deactivated or while the button is held;
     * otherwise the hold time restarts, the own entity emits
     * `raycaster-cursor-down`, and the intersected elements receive it in
     * order up to and including the first one with `consume-click`.
     */
    method OnMouseDown(deactivated: bool)
      modifies this`isButtonDown, this`buttonHoldTime, this`emitted
      ensures deactivated || old(isButtonDown) ==>
        isButtonDown == old(isButtonDown) && buttonHoldTime == old(buttonHoldTime) && emitted == old(emitted)
      ensures !deactivated && !old(isButtonDown) ==>
        && isButtonDown && buttonHoldTime == 0.0
        && emitted == old(emitted) + [Emission(Self, CursorDown, 0.0)]
                      + EmitAll(DownRecipients(intersectedEls), CursorDown, 0.0)
    {
      if deactivated {
        return;
      }
      if isButtonDown {
        return;
      }
      var clickConsumed := false;
      buttonHoldTime := 0.0;
      isButtonDown := true;
      emitted := emitted + [Emission(Self, CursorDown, 0.0)];
      ghost var before := emitted;
      ghost var reached: seq<El> := [];
      var els := intersectedEls;
      var i := 0;
      while i < |els|
        modifies this`emitted
        invariant 0 <= i <= |els|
        invariant emitted == before + EmitAll(reached, CursorDown, 0.0)
        invariant !clickConsumed ==> DownRecipients(els) == reached + DownRecipients(els[i..])
        invariant clickConsumed ==> DownRecipients(els) == reached
      {
        var intersectedEl := els[i];
        if !clickConsumed {
          DownStep(els, i, reached);
          EmitAllSnoc(reached, intersectedEl, CursorDown, 0.0);
          emitted := emitted + [Emission(Element(intersectedEl), CursorDown, buttonHoldTime)];
          reached := reached + [intersectedEl];
          if intersectedEl.consumeClick {
            clickConsumed := true;
          }
        }
        i := i + 1;
      }
      if !clickConsumed {
        assert els[i..] == [];
        assert reached + [] == reached;
      }
      assert DownRecipients(els) == reached;
    }

    /**
     * `onMouseUp`: ignored while deactivated; otherwise the button is
     * released, the own entity emits `raycaster-cursor-up` with the hold
     * time, the attached intersected elements receive it in order up to and
     * including the first with `consume-click`, and the hold time is reset.
     */
    method OnMouseUp(deactivated: bool)
      modifies this`isButtonDown, this`buttonHoldTime, this`emitted
      ensures deactivated ==>
        isButtonDown == old(isButtonDown) && buttonHoldTime == old(buttonHoldTime) && emitted == old(emitted)
      ensures !deactivated ==>
        && !isButtonDown && buttonHoldTime == 0.0
        && emitted == old(emitted) + [Emission(Self, CursorUp, old(buttonHoldTime))]
                      + EmitAll(UpRecipients(intersectedEls), CursorUp, old(buttonHoldTime))
    {
      if deactivated {
        return;
      }
      var clickConsumed := false;
      isButtonDown := false;
      var holdTime := buttonHoldTime;
      emitted := emitted + [Emission(Self, CursorUp, buttonHoldTime)];
      ghost var before := emitted;
      ghost var reached: seq<El> := [];
      var els := intersectedEls;
      var i := 0;
      while i < |els|
        modifies this`emitted
        invariant 0 <= i <= |els|
        invariant emitted == before + EmitAll(reached, CursorUp, holdTime)
        invariant !clickConsumed ==> UpRecipients(els) == reached + UpRecipients(els[i..])
        invariant clickConsumed ==> UpRecipients(els) == reached
      {
        var intersectedEl := els[i];
        if !clickConsumed {
          UpStep(els, i, reached);
        }
        if !clickConsumed && intersectedEl.attached {
          EmitAllSnoc(reached, intersectedEl, CursorUp, holdTime);
          emitted := emitted + [Emission(Element(intersectedEl), CursorUp, buttonHoldTime)];
          reached := reached + [intersectedEl];
          if intersectedEl.consumeClick {
            clickConsumed := true;
          }
        }
        i := i + 1;
      }
      if !clickConsumed {
        assert els[i..] == [];
        assert reached + [] == reached;
      }
      assert UpRecipients(els) == reached;
      buttonHoldTime := 0.0;
    }

    /**
     * `isTickThrottled`: counts the call and lets it through exactly when the
     * new count is a multiple of the increment.
     */
    method IsTickThrottled() returns (throttled: bool)
      requires tickIncrement > 0
      modifies this`tickCount
      ensures tickCount == old(tickCount) + 1
      ensures throttled <==> tickCount % tickIncrement != 0
      ensures tickIncrement == 1 ==> !throttled
    {
      tickCount := tickCount + 1;
      throttled := tickCount % tickIncrement != 0;
    }
  }

  /** After the sort, the prioritized elements are exactly the leading block. */
  lemma {:induction false} PrioritizedOfSplit(a: seq<El>, b: seq<El>)
    requires forall e :: e in a ==> e.priority.Some?
    requires forall e :: e in b ==> e.priority.None?
    ensures Prioritized(a + b) == a && Unprioritized(a + b) == b
    ensures PriorityFirst(a + b)
  {
    if a == [] {
      assert a + b == b;
      NoneArePrioritized(b);
    } else {
      assert (a + b)[1..] == a[1..] + b;
      PrioritizedOfSplit(a[1..], b);
    }
  }

  lemma {:induction false} NoneArePrioritized(b: seq<El>)
    requires forall e :: e in b ==> e.priority.None?
    ensures Prioritized(b) == [] && Unprioritized(b) == b
  {
    if b != [] {
      NoneArePrioritized(b[1..]);
    }
  }

  /**
   * The order `sortIntersections` produces: the elements with a priority,
   * by descending priority, then those without, in their original order.
   */
  function PriorityOrder(s: seq<El>): (r: seq<El>)
    ensures multiset(r) == multiset(s)
    ensures PriorityFirst(r)
    ensures SortedBy(Prioritized(r), NegPriority)
    ensures multiset(Prioritized(r)) == multiset(Prioritized(s))
    ensures Unprioritized(r) == Unprioritized(s)
  {
    var sorted := SortBy(Prioritized(s), NegPriority);
    FiltersPartition(s);
    assert forall e :: e in sorted ==> e.priority.Some? by {
      forall e | e in sorted ensures e.priority.Some? {
        assert e in multiset(sorted);
      }
    }
    PrioritizedOfSplit(sorted, Unprioritized(s));
    sorted + Unprioritized(s)
  }

  /** One step of the cursor-down walk, before any consumer was reached. */
  lemma DownStep(els: seq<El>, i: nat, reached: seq<El>)
    requires i < |els|
    requires DownRecipients(els) == reached + DownRecipients(els[i..])
    ensures els[i].consumeClick ==> DownRecipients(els) == reached + [els[i]]
    ensures !els[i].consumeClick ==> DownRecipients(els) == (reached + [els[i]]) + DownRecipients(els[i + 1..])
  {
    var rest := els[i..];
    assert rest[0] == els[i] && rest[1..] == els[i + 1..];
    if !els[i].consumeClick {
      assert DownRecipients(rest) == [els[i]] + DownRecipients(els[i + 1..]);
      ConcatAssoc(reached, [els[i]], DownRecipients(els[i + 1..]));
    }
  }

  lemma ConcatAssoc(a: seq<El>, b: seq<El>, c: seq<El>)
    ensures a + (b + c) == (a + b) + c
  {
  }

  /** One step of the cursor-up walk, before any consumer was reached. */
  lemma UpStep(els: seq<El>, i: nat, reached: seq<El>)
    requires i < |els|
    requires UpRecipients(els) == reached + UpRecipients(els[i..])
    ensures !els[i].attached ==> UpRecipients(els) == reached + UpRecipients(els[i + 1..])
    ensures els[i].attached && els[i].consumeClick ==> UpRecipients(els) == reached + [els[i]]
    ensures els[i].attached && !els[i].consumeClick ==>
      UpRecipients(els) == (reached + [els[i]]) + UpRecipients(els[i + 1..])
  {
    var rest := els[i..];
    assert rest[0] == els[i] && rest[1..] == els[i + 1..];
    if els[i].attached && !els[i].consumeClick {
      assert UpRecipients(rest) == [els[i]] + UpRecipients(els[i + 1..]);
      ConcatAssoc(reached, [els[i]], UpRecipients(els[i + 1..]));
    }
  }

  /** Appending the next element of `b` extends the copied prefix by one. */
  lemma AppendStep(a: seq<El>, b: seq<El>, i: nat)
    requires i < |b|
    ensures a + b[..i + 1] == (a + b[..i]) + [b[i]]
  {
    assert b[..i + 1] == b[..i] + [b[i]];
  }
}
