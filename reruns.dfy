/** Streamlit's run model for a confirmation nested under a button, as the
    clear-all buttons of app.py and the single-row deletes of the DPP logger
    and study planner pages are written: `if st.button(...)` and, inside
    it, a checkbox or a second button that confirms.

    Every user action starts a new run of the page script. `st.button`
    reads True only in the run its own click starts. A widget that a run
    does not render loses its stored value at the end of that run. */
module Reruns {

  /** The action that started a run. */
  datatype Event = ClickOuter | ActInner | Elsewhere

  /** The confirming widget: a checkbox keeps its value across runs while it
      stays on the page; a button is True only in the run its click starts. */
  datatype InnerKind = Checkbox | Button

  /** Widget state kept between runs as written: whether the inner widget
      was on the page after the last run, and the value it holds. */
  datatype Widgets = Widgets(innerShown: bool, innerValue: bool)

  const FreshWidgets := Widgets(false, false)

  /** The state after a run and whether that run reached the DELETE. */
  datatype Outcome<S> = Outcome(after: S, confirmed: bool)

  /** The value the inner widget reads in a run that renders it. Acting on
      a widget that is not on the page is not possible, so it changes
      nothing. */
  function InnerValue(kind: InnerKind, held: bool, shown: bool, e: Event): bool {
    match kind
    case Checkbox => if shown && e == ActInner then !held else shown && held
    case Button => shown && e == ActInner
  }

  /** One run as written: the inner widget is rendered, and read, only when
      the outer button is True. */
  function NestedRun(kind: InnerKind, w: Widgets, e: Event): Outcome<Widgets> {
    if e == ClickOuter then
      var value := InnerValue(kind, w.innerValue, w.innerShown, e);
      Outcome(Widgets(true, value), value)
    else
      Outcome(FreshWidgets, false)
  }

  /** Some run of the sequence, started from w, reaches the DELETE. */
  predicate NestedConfirmsSome(kind: InnerKind, w: Widgets, events: seq<Event>)
    decreases |events|
  {
    events != [] &&
    (NestedRun(kind, w, events[0]).confirmed ||
     NestedConfirmsSome(kind, NestedRun(kind, w, events[0]).after, events[1..]))
  }

  /** As written, no sequence of actions reaches the DELETE: the run in
      which the outer button is True was started by the outer click, so the
      confirmation reads its held value, which is never True, and every
      other run drops the confirmation from the page. */
  lemma {:induction false} NestedNeverConfirms(kind: InnerKind, w: Widgets, events: seq<Event>)
    requires !w.innerValue
    ensures !NestedConfirmsSome(kind, w, events)
    decreases |events|
  {
    if events != [] {
      var o := NestedRun(kind, w, events[0]);
      assert !o.confirmed && !o.after.innerValue;
      NestedNeverConfirms(kind, o.after, events[1..]);
    }
  }

  /** The page as a user meets it: press the outer button, then tick the
      box or press Confirm. Neither run reaches the DELETE. */
  lemma AsWrittenConfirmIsLost(kind: InnerKind)
    ensures !NestedRun(kind, FreshWidgets, ClickOuter).confirmed
    ensures var w := NestedRun(kind, FreshWidgets, ClickOuter).after;
      w.innerShown && !NestedRun(kind, w, ActInner).confirmed
    ensures !NestedConfirmsSome(kind, FreshWidgets, [ClickOuter, ActInner])
  {
    NestedNeverConfirms(kind, FreshWidgets, [ClickOuter, ActInner]);
  }

  /** The intended flow: the outer click arms a session-state flag, the
      confirmation is rendered while the flag is set, and confirming runs
      the DELETE and disarms. */
  datatype Armed = Armed(armed: bool, innerValue: bool)

  const Disarmed := Armed(false, false)

  function ArmedRun(kind: InnerKind, s: Armed, e: Event): Outcome<Armed> {
    var value := InnerValue(kind, s.innerValue, s.armed, e);
    if s.armed && value then Outcome(Disarmed, true)
    else if s.armed || e == ClickOuter then Outcome(Armed(true, value), false)
    else Outcome(Disarmed, false)
  }

  /** Some run of the sequence, started from s, reaches the DELETE. */
  predicate ArmedConfirmsSome(kind: InnerKind, s: Armed, events: seq<Event>)
    decreases |events|
  {
    events != [] &&
    (ArmedRun(kind, s, events[0]).confirmed ||
     ArmedConfirmsSome(kind, ArmedRun(kind, s, events[0]).after, events[1..]))
  }

  /** With the flag held in session state, a run reaches the DELETE exactly
      when the outer button was pressed in an earlier run and the
      confirmation is given in this one: the box ticked, or Confirm
      pressed. */
  lemma ArmedRunSpec(kind: InnerKind, s: Armed, e: Event)
    requires kind == Button ==> !s.innerValue
    ensures ArmedRun(kind, s, e).confirmed <==>
      s.armed && (match kind
                  case Checkbox => (e == ActInner) != s.innerValue
                  case Button => e == ActInner)
    ensures e == ClickOuter && !s.armed ==> ArmedRun(kind, s, e).after.armed
    ensures kind == Button ==> !ArmedRun(kind, s, e).after.innerValue
  {
  }

  /** Pressing the outer button and then confirming reaches the DELETE in
      the second run, for either kind of confirmation. */
  lemma ArmedConfirmClears(kind: InnerKind)
    ensures !ArmedRun(kind, Disarmed, ClickOuter).confirmed
    ensures ArmedRun(kind, ArmedRun(kind, Disarmed, ClickOuter).after, ActInner).confirmed
    ensures ArmedConfirmsSome(kind, Disarmed, [ClickOuter, ActInner])
  {
    var s := ArmedRun(kind, Disarmed, ClickOuter).after;
    assert s == Armed(true, false);
    assert ArmedRun(kind, s, ActInner).confirmed;
  }

  /** Without a press of the outer button nothing is deleted, however the
      user acts elsewhere. */
  lemma {:induction false} ArmedNeedsOuterClick(kind: InnerKind, events: seq<Event>)
    requires forall i :: 0 <= i < |events| ==> events[i] != ClickOuter
    ensures !ArmedConfirmsSome(kind, Disarmed, events)
    decreases |events|
  {
    if events != [] {
      assert ArmedRun(kind, Disarmed, events[0]) == Outcome(Disarmed, false);
      ArmedNeedsOuterClick(kind, events[1..]);
    }
  }
}
