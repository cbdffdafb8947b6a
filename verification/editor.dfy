/**
 The two components wired together as the editor runs them: dispatches made
 by a translator are delivered, in order, to the view stack's subscriptions.
 */
module Editor {
  import opened Dom
  import opened EventBus
  import opened EventTranslation
  import opened ViewStack

  /** Deliver the dispatches among `steps` to the view stack one after the
      other; `preventDefault` does not reach it. */
  function Feed(s: seq<View>, steps: seq<Step>, custom: (View, Node) -> bool): Outcome
    decreases |steps|
  {
    if steps == [] then Outcome(s, [])
    else if steps[0].Publish? then
      var o := OnBusEvent(s, steps[0].dispatch, custom);
      var rest := Feed(o.stack, steps[1..], custom);
      Outcome(rest.stack, o.effects + rest.effects)
    else Feed(s, steps[1..], custom)
  }

  /** Pressing Esc, with or without Ctrl, pops the top view; on an empty stack
      it dispatches `onTopLevelEscape` instead. */
  lemma EscapeKeyPopsTopView(s: seq<View>, e: RawEvent, custom: (View, Node) -> bool)
    requires e.keyCode == KeyEsc
    ensures Feed(s, Run(KeyDownHandler, e), custom) == PopView(s)
  {
    var d := Dispatch(OnEscape, None);
    var o := PopView(s);
    assert Run(KeyDownHandler, e) == [PreventDefault, Step.Publish(d)];
    assert [PreventDefault, Step.Publish(d)][1..] == [Step.Publish(d)];
    assert Feed(o.stack, [], custom) == Outcome(o.stack, []);
    assert Feed(s, [Step.Publish(d)], custom) == Outcome(o.stack, o.effects + []);
    assert o.effects + [] == o.effects;
  }

  /** A mouse-down runs the hit test on the view stack with the event's
      target. */
  lemma PointerDownRunsHitTest(s: seq<View>, e: RawEvent, custom: (View, Node) -> bool)
    ensures Feed(s, Run(PointerDownHandler, e), custom) == RunHitTest(s, HitsOf(e, custom))
  {
    var o := RunHitTest(s, HitsOf(e, custom));
    assert o.effects + [] == o.effects;
  }

  /** Ctrl+S, Ctrl+P and keys that are no chord leave the view stack alone. */
  lemma ChordLeavesStack(s: seq<View>, e: RawEvent, custom: (View, Node) -> bool)
    requires e.keyCode != KeyEsc
    ensures Feed(s, Run(KeyDownHandler, e), custom) == Outcome(s, [])
  {
    match KeyChord(e.ctrlKey, e.keyCode) {
      case Some(t) =>
        var d := Dispatch(t, None);
        assert t == OnSaveChanges || t == OnPublish;
        assert Run(KeyDownHandler, e) == [PreventDefault, Step.Publish(d)];
        assert [PreventDefault, Step.Publish(d)][1..] == [Step.Publish(d)];
        assert OnBusEvent(s, d, custom) == Outcome(s, []);
        assert Feed(s, [], custom) == Outcome(s, []);
        assert Feed(s, [Step.Publish(d)], custom) == Outcome(s, [] + []);
      case None =>
        assert Run(KeyDownHandler, e) == [];
    }
  }

  /** No other translator changes the view stack or causes any of its
      effects: Ctrl+S, Ctrl+P, other keys, drags, paste, pointer move and up,
      and errors. */
  lemma OtherInputLeavesStack(s: seq<View>, h: Handler, e: RawEvent, custom: (View, Node) -> bool)
    requires h != PointerDownHandler
    requires h == KeyDownHandler ==> e.keyCode != KeyEsc
    ensures Feed(s, Run(h, e), custom) == Outcome(s, [])
  {
    RunProjections(h, e);
    var r := Run(h, e);
    match h {
      case KeyDownHandler =>
        ChordLeavesStack(s, e, custom);
      case DragEnterHandler =>
        assert r == [Step.Publish(Dispatch(OnDragEnter, None)), PreventDefault];
        assert r[1..] == [PreventDefault];
        assert Feed(s, r[1..], custom) == Outcome(s, []);
        assert OnBusEvent(s, r[0].dispatch, custom) == Outcome(s, []);
      case DragOverHandler =>
        assert r[1..] == [r[1]];
      case DragLeaveHandler =>
        if |r| == 2 {
          assert r[1..] == [r[1]];
        }
      case DropHandler =>
        assert r == [Step.Publish(Dispatch(OnDragDrop, Some(e))), PreventDefault];
        assert r[1..] == [PreventDefault];
        assert Feed(s, r[1..], custom) == Outcome(s, []);
        assert OnBusEvent(s, r[0].dispatch, custom) == Outcome(s, []);
      case _ =>
    }
  }
}
