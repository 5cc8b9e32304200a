/** The helpers that act on a single control: tap, segment selection,
    slide, increment, decrement and toggle; plus bar-button taps and typing.
    Each `UIControl` helper first asks whether the control is tappable and
    silently returns when it is not. */
module Controls {
  import opened ArmoryErrors
  import opened Locator

  /** The control events the helpers send. */
  datatype ControlEvent = TouchUpInside | ValueChanged

  /** The normalised slider position a revision computes from: the current
      revision uses the value as given; the earlier one clamps it to [0, 1]
      after it has already rejected every value outside [0, 1]. */
  function NormalizedPosition(rev: Revision, v: real): (p: real)
    ensures rev == Current ==> p == v
    ensures rev == Earlier ==> 0.0 <= p <= 1.0
    ensures rev == Earlier && v > 1.0 ==> p == 1.0
    ensures rev == Earlier && v < 0.0 ==> p == 0.0
  {
    match rev
    case Current => v
    case Earlier => if v > 0.0 then (if v < 1.0 then v else 1.0) else (if v > 0.0 then v else 0.0)
  }

  /** The earlier revision's clamp is dead code: on every value that passes
      its range check, the clamped value is the value itself. */
  lemma EarlierClampIsDead(v: real)
    requires 0.0 <= v <= 1.0
    ensures NormalizedPosition(Earlier, v) == v
    ensures NormalizedPosition(Earlier, v) == NormalizedPosition(Current, v)
  {
  }

  /** The value a slide to normalised position `v` sets: `v` of the way from
      the minimum to the maximum, so exactly the minimum at 0 and exactly the
      maximum at 1, and never outside the slider's range. */
  function SlideTarget(rev: Revision, v: real, lo: real, hi: real): (t: real)
    requires 0.0 <= v <= 1.0
    ensures t == v * (hi - lo) + lo
    ensures lo <= hi ==> lo <= t <= hi
    ensures v == 0.0 ==> t == lo
    ensures v == 1.0 ==> t == hi
  {
    var position, distance := NormalizedPosition(rev, v), hi - lo;
    EarlierClampIsDead(v);
    ScaleWithin(v, distance);
    assert v == 0.0 ==> v * distance == 0.0;
    assert v == 1.0 ==> v * distance == distance;
    position * distance + lo
  }

  /** A fraction in [0, 1] of a non-negative distance lies within it. */
  lemma ScaleWithin(v: real, d: real)
    requires 0.0 <= v <= 1.0
    ensures 0.0 <= d ==> 0.0 <= v * d <= d
  {
    if 0.0 <= d {
      assert d - v * d == (1.0 - v) * d;
      assert (1.0 - v) * d >= 0.0;
    }
  }

  /** The value setter of a stepper keeps its value within [lo, hi]. */
  function Clamp(x: real, lo: real, hi: real): (r: real)
    requires lo <= hi
    ensures lo <= r <= hi
    ensures lo <= x <= hi ==> r == x
    ensures x > hi ==> r == hi
    ensures x < lo ==> r == lo
  {
    if x < lo then lo else if x > hi then hi else x
  }

  /** A control: the fields of `UIControl` the helpers read, the fields of
      segmented controls, sliders, steppers and switches they update, and the
      events sent to the control's targets, oldest first. */
  class Control {
    var isEnabled: bool
    /** Whether the superview's hit test at the control's centre finds a view. */
    var hitTestable: bool
    var sent: seq<ControlEvent>

    var segments: seq<Item>
    /** -1 when no segment is selected. */
    var selectedSegmentIndex: int

    var value: real
    var minimumValue: real
    var maximumValue: real
    var stepValue: real

    var isOn: bool

    /** What UIKit keeps true of these fields. */
    ghost predicate Valid()
      reads this
    {
      && minimumValue <= value <= maximumValue
      && stepValue > 0.0
      && -1 <= selectedSegmentIndex < |segments|
    }

    /** The control is enabled and the hit test at its centre finds a view. */
    predicate Tappable()
      reads this
      ensures !isEnabled ==> !Tappable()
      ensures !hitTestable ==> !Tappable()
      ensures isEnabled && hitTestable ==> Tappable()
    {
      isEnabled && hitTestable
    }

    /** tap(_:) on a control: one touch-up-inside when tappable, else nothing. */
    method Tap()
      modifies this`sent
      ensures sent == if Tappable() then old(sent) + [TouchUpInside] else old(sent)
    {
      if !Tappable() {
        return;
      }
      sent := sent + [TouchUpInside];
    }

    /** selectSegment(atIndex:): a control that is not tappable, or whose
        selected segment already is `index`, is left alone without error, even
        for an out-of-range index; otherwise an index outside the segments is
        out of bounds; otherwise the segment is selected and one value-changed
        event is sent. */
    method SelectSegmentAt(index: int) returns (r: Outcome)
      requires Valid()
      modifies this`selectedSegmentIndex, this`sent
      ensures Valid()
      ensures !Tappable() || old(selectedSegmentIndex) == index ==>
                r == Pass && selectedSegmentIndex == old(selectedSegmentIndex) && sent == old(sent)
      ensures Tappable() && old(selectedSegmentIndex) != index && !(0 <= index < |segments|) ==>
                r == Fail(IndexOutOfBounds) && selectedSegmentIndex == old(selectedSegmentIndex) && sent == old(sent)
      ensures Tappable() && old(selectedSegmentIndex) != index && 0 <= index < |segments| ==>
                r == Pass && selectedSegmentIndex == index && sent == old(sent) + [ValueChanged]
    {
      if !Tappable() || selectedSegmentIndex == index {
        return Pass;
      }
      var checked := CheckIndex(index, |segments|);
      if checked.Err? {
        return Fail(checked.error);
      }
      selectedSegmentIndex := checked.value;
      sent := sent + [ValueChanged];
      r := Pass;
    }

    /** selectSegment(withTitle:) and selectSegment(withImage:): the lookup's
        error when the key is absent or borne by several segments; otherwise
        the unique matching segment is selected as selectSegment(atIndex:)
        does, which then never reports an out-of-bounds index. */
    method SelectSegmentMatching(key: Key) returns (r: Outcome)
      requires Valid()
      modifies this`selectedSegmentIndex, this`sent
      ensures Valid()
      ensures Locate(segments, key).Err? ==>
                r == Fail(Locate(segments, key).error) &&
                selectedSegmentIndex == old(selectedSegmentIndex) && sent == old(sent)
      ensures Locate(segments, key).Ok? ==> r == Pass
      ensures Locate(segments, key).Ok? && Tappable() ==> selectedSegmentIndex == Locate(segments, key).value
      ensures Locate(segments, key).Ok? && (!Tappable() || old(selectedSegmentIndex) == Locate(segments, key).value) ==>
                selectedSegmentIndex == old(selectedSegmentIndex) && sent == old(sent)
      ensures Locate(segments, key).Ok? && Tappable() && old(selectedSegmentIndex) != Locate(segments, key).value ==>
                sent == old(sent) + [ValueChanged]
    {
      var found := Locate(segments, key);
      if found.Err? {
        return Fail(found.error);
      }
      r := SelectSegmentAt(found.value);
    }

    /** slide(_:toNormalizedValue:): a slider that is not tappable is left
        alone without error; a position outside [0, 1] is an invalid value and
        changes nothing; otherwise the slider takes the target value, with one
        value-changed event when that differs from its old value and none when
        it does not. */
    method Slide(v: real, rev: Revision) returns (r: Outcome)
      requires Valid()
      modifies this`value, this`sent
      ensures Valid()
      ensures !Tappable() ==> r == Pass && value == old(value) && sent == old(sent)
      ensures Tappable() && !(0.0 <= v <= 1.0) ==>
                r == Fail(InvalidValue) && value == old(value) && sent == old(sent)
      ensures Tappable() && 0.0 <= v <= 1.0 ==>
                r == Pass && value == minimumValue + v * (maximumValue - minimumValue)
      ensures Tappable() && 0.0 <= v <= 1.0 ==>
                sent == if value == old(value) then old(sent) else old(sent) + [ValueChanged]
    {
      if !Tappable() {
        return Pass;
      }
      if !(0.0 <= v <= 1.0) {
        return Fail(InvalidValue);
      }
      var target := SlideTarget(rev, v, minimumValue, maximumValue);
      if value == target {
        return Pass;
      }
      value := target;
      sent := sent + [ValueChanged];
      r := Pass;
    }

    /** increment(_:): nothing when the stepper is not tappable or already at
        its maximum; otherwise its value goes up by the step (the stepper's
        setter stops it at the maximum) and one value-changed event is sent. */
    method Increment()
      requires Valid()
      modifies this`value, this`sent
      ensures Valid()
      ensures !Tappable() || old(value) >= maximumValue ==> value == old(value) && sent == old(sent)
      ensures Tappable() && old(value) < maximumValue ==> value > old(value) && sent == old(sent) + [ValueChanged]
      ensures Tappable() && old(value) + stepValue <= maximumValue ==> value == old(value) + stepValue
      ensures Tappable() && old(value) + stepValue > maximumValue ==> value == maximumValue
    {
      if !(Tappable() && value < maximumValue) {
        return;
      }
      value := Clamp(value + stepValue, minimumValue, maximumValue);
      sent := sent + [ValueChanged];
    }

    /** decrement(_:): nothing when the stepper is not tappable or already at
        its minimum; otherwise its value goes down by the step (the stepper's
        setter stops it at the minimum) and one value-changed event is sent. */
    method Decrement()
      requires Valid()
      modifies this`value, this`sent
      ensures Valid()
      ensures !Tappable() || old(value) <= minimumValue ==> value == old(value) && sent == old(sent)
      ensures Tappable() && old(value) > minimumValue ==> value < old(value) && sent == old(sent) + [ValueChanged]
      ensures Tappable() && old(value) - stepValue >= minimumValue ==> value == old(value) - stepValue
      ensures Tappable() && old(value) - stepValue < minimumValue ==> value == minimumValue
    {
      if !(Tappable() && value > minimumValue) {
        return;
      }
      value := Clamp(value - stepValue, minimumValue, maximumValue);
      sent := sent + [ValueChanged];
    }

    /** toggle(_:animated:): nothing when the switch is not tappable; otherwise
        it flips and one value-changed event is sent. */
    method Toggle()
      modifies this`isOn, this`sent
      ensures Tappable() ==> isOn == !old(isOn) && sent == old(sent) + [ValueChanged]
      ensures !Tappable() ==> isOn == old(isOn) && sent == old(sent)
    {
      if !Tappable() {
        return;
      }
      isOn := !isOn;
      sent := sent + [ValueChanged];
    }
  }

  /** Toggling a switch twice restores its state; a tappable switch sends
      two value-changed events, one that is not tappable sends none. */
  method ToggleTwice(s: Control)
    modifies s`isOn, s`sent
    ensures s.isOn == old(s.isOn)
    ensures s.sent == if s.Tappable() then old(s.sent) + [ValueChanged, ValueChanged] else old(s.sent)
  {
    s.Toggle();
    s.Toggle();
  }

  /** A slider over [-5, 5] slid to the middle reads 0 and sends one event;
      slid to 0 it reads exactly its minimum; slid to 0 again it sends nothing;
      a position of 1.5 is rejected in both revisions and changes nothing;
      a disabled slider ignores the slide. */
  method SlideExample()
  {
    var s := new Control;
    s.isEnabled, s.hitTestable, s.sent := true, true, [];
    s.minimumValue, s.maximumValue, s.value, s.stepValue := -5.0, 5.0, 1.0, 1.0;
    s.segments, s.selectedSegmentIndex := [], -1;
    var r := s.Slide(0.5, Current);
    assert r == Pass && s.value == 0.0 && s.sent == [ValueChanged];
    r := s.Slide(0.0, Earlier);
    assert r == Pass && s.value == -5.0 && s.sent == [ValueChanged, ValueChanged];
    r := s.Slide(0.0, Current);
    assert r == Pass && s.value == -5.0 && s.sent == [ValueChanged, ValueChanged];
    r := s.Slide(1.5, Current);
    assert r == Fail(InvalidValue) && s.value == -5.0;
    r := s.Slide(1.5, Earlier);
    assert r == Fail(InvalidValue) && s.value == -5.0;
    s.isEnabled := false;
    r := s.Slide(1.0, Current);
    assert r == Pass && s.value == -5.0 && |s.sent| == 2;
  }

  /** A stepper over [0, 100] with step 10 at 95: one increment stops at
      100 and sends one event; a second increment at the maximum sends none;
      a decrement then goes down by exactly one step. */
  method StepperExample()
  {
    var s := new Control;
    s.isEnabled, s.hitTestable, s.sent := true, true, [];
    s.minimumValue, s.maximumValue, s.value, s.stepValue := 0.0, 100.0, 95.0, 10.0;
    s.segments, s.selectedSegmentIndex := [], -1;
    s.Increment();
    assert s.value == 100.0 && s.sent == [ValueChanged];
    s.Increment();
    assert s.value == 100.0 && s.sent == [ValueChanged];
    s.Decrement();
    assert s.value == 90.0 && s.sent == [ValueChanged, ValueChanged];
  }

  /** A segmented control with segments "First", "Second" and "Second",
      the second selected: selecting the selected index, or any index while
      disabled, does nothing even out of range; an index past the end is out
      of bounds. */
  method SegmentIndexExample()
  {
    var c := new Control;
    c.isEnabled, c.hitTestable, c.sent := true, true, [];
    c.minimumValue, c.maximumValue, c.value, c.stepValue := 0.0, 1.0, 0.0, 1.0;
    c.segments := [Item(Some("First"), None), Item(Some("Second"), None), Item(Some("Second"), None)];
    c.selectedSegmentIndex := 1;
    var r := c.SelectSegmentAt(1);
    assert r == Pass && c.sent == [];
    r := c.SelectSegmentAt(7);
    assert r == Fail(IndexOutOfBounds) && c.selectedSegmentIndex == 1;
    c.isEnabled := false;
    r := c.SelectSegmentAt(7);
    assert r == Pass && c.selectedSegmentIndex == 1 && c.sent == [];
  }

  /** The same control: "First" is selected by title with one event; the
      duplicated "Second" is ambiguous and changes nothing. */
  method SegmentTitleExample()
  {
    var c := new Control;
    c.isEnabled, c.hitTestable, c.sent := true, true, [];
    c.minimumValue, c.maximumValue, c.value, c.stepValue := 0.0, 1.0, 0.0, 1.0;
    c.segments := [Item(Some("First"), None), Item(Some("Second"), None), Item(Some("Second"), None)];
    c.selectedSegmentIndex := 1;
    assert Matches(c.segments[0], ByTitle("First"));
    assert !Matches(c.segments[1], ByTitle("First")) && !Matches(c.segments[2], ByTitle("First"));
    var r := c.SelectSegmentMatching(ByTitle("First"));
    assert r == Pass && c.selectedSegmentIndex == 0 && c.sent == [ValueChanged];
    assert Matches(c.segments[1], ByTitle("Second")) && Matches(c.segments[2], ByTitle("Second"));
    r := c.SelectSegmentMatching(ByTitle("Second"));
    assert r == Fail(MultipleMatchesFound) && c.selectedSegmentIndex == 0;
  }

  /** Whether tapping a bar-button item performs its action: never without a
      target or an action; in the current revision also never when the item
      is disabled, in the earlier revision regardless of `isEnabled`. */
  function TapPerforms(rev: Revision, hasTarget: bool, hasAction: bool, isEnabled: bool): (performs: bool)
    ensures performs ==> hasTarget && hasAction
    ensures hasTarget && hasAction && isEnabled ==> performs
    ensures !isEnabled && performs ==> rev == Earlier
  {
    hasTarget && hasAction && (rev == Earlier || isEnabled)
  }

  /** The two revisions disagree on a bar-button tap exactly when the item has
      a target and an action but is disabled: only the earlier one performs it. */
  lemma BarButtonRevisionsDiffer(hasTarget: bool, hasAction: bool, isEnabled: bool)
    ensures (TapPerforms(Current, hasTarget, hasAction, isEnabled) != TapPerforms(Earlier, hasTarget, hasAction, isEnabled))
            <==> hasTarget && hasAction && !isEnabled
    ensures TapPerforms(Current, hasTarget, hasAction, isEnabled) ==> TapPerforms(Earlier, hasTarget, hasAction, isEnabled)
  {
  }

  /** A bar-button item: whether its target (a weak reference) is still set,
      its optional action selector, and the selectors performed on the
      target, oldest first. */
  class BarButtonItem {
    var hasTarget: bool
    var action: Option<string>
    var isEnabled: bool
    var performed: seq<string>

    /** tap(_:) on a bar-button item: the action is performed once on the
        target when the revision's guard lets it through, else nothing. */
    method Tap(rev: Revision)
      modifies this`performed
      ensures TapPerforms(rev, hasTarget, action.Some?, isEnabled) ==> performed == old(performed) + [action.value]
      ensures !TapPerforms(rev, hasTarget, action.Some?, isEnabled) ==> performed == old(performed)
    {
      if !hasTarget || action.None? {
        return;
      }
      if rev == Current && !isEnabled {
        return;
      }
      performed := performed + [action.value];
    }
  }

  /** A text field: its text, and whether it is the first responder. */
  class TextField {
    var text: string
    var isFirstResponder: bool

    /** type(_:text:): the field becomes first responder and each character of
        `input` is inserted in turn, so the field ends with `input` appended. */
    method Type(input: string)
      modifies this`text, this`isFirstResponder
      ensures isFirstResponder
      ensures text == old(text) + input
    {
      isFirstResponder := true;
      var i := 0;
      while i < |input|
        invariant 0 <= i <= |input|
        invariant text == old(text) + input[..i]
        invariant isFirstResponder
      {
        text := text + [input[i]];
        i := i + 1;
      }
      assert input[..|input|] == input;
    }
  }
}
