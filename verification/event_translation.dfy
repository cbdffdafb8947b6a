/**
 The translators of the global event handler: each turns one raw browser
 event into dispatches on the event manager, and some also call
 `preventDefault`. A translator's result is the ordered list of those steps.
 */
module EventTranslation {
  import opened Dom
  import opened EventBus

  /** One observable step: a dispatch, or `event.preventDefault()`. */
  datatype Step = Publish(dispatch: Dispatch) | PreventDefault

  /** The handler's private translators, one per registered listener. */
  datatype Handler =
    | KeyDownHandler
    | DragEnterHandler | DragStartHandler | DragOverHandler | DragLeaveHandler
    | DropHandler | DragEndHandler
    | PasteHandler
    | PointerMoveHandler | PointerDownHandler | PointerUpHandler
    | ErrorHandler

  // Projections of a step list

  /** The dispatches made, in order. */
  function Dispatched(steps: seq<Step>): seq<Dispatch>
  {
    if steps == [] then []
    else (if steps[0].Publish? then [steps[0].dispatch] else []) + Dispatched(steps[1..])
  }

  /** How many times `preventDefault` was called. */
  function Suppressions(steps: seq<Step>): nat
  {
    if steps == [] then 0
    else (if steps[0].PreventDefault? then 1 else 0) + Suppressions(steps[1..])
  }

  /** The topics dispatched, in order. */
  function Topics(steps: seq<Step>): seq<Topic>
  {
    var ds := Dispatched(steps);
    seq(|ds|, i requires 0 <= i < |ds| => ds[i].topic)
  }

  lemma {:induction false} DispatchedAppend(a: seq<Step>, b: seq<Step>)
    ensures Dispatched(a + b) == Dispatched(a) + Dispatched(b)
  {
    if a == [] {
      assert a + b == b;
    } else {
      assert (a + b)[0] == a[0] && (a + b)[1..] == a[1..] + b;
      DispatchedAppend(a[1..], b);
    }
  }

  lemma {:induction false} SuppressionsAppend(a: seq<Step>, b: seq<Step>)
    ensures Suppressions(a + b) == Suppressions(a) + Suppressions(b)
  {
    if a == [] {
      assert a + b == b;
    } else {
      assert (a + b)[0] == a[0] && (a + b)[1..] == a[1..] + b;
      SuppressionsAppend(a[1..], b);
    }
  }

  lemma ProjectionsAppend(a: seq<Step>, b: seq<Step>)
    ensures Dispatched(a + b) == Dispatched(a) + Dispatched(b)
    ensures Suppressions(a + b) == Suppressions(a) + Suppressions(b)
  {
    DispatchedAppend(a, b);
    SuppressionsAppend(a, b);
  }

  // The decision tables, stated independently of the translators

  /** The keyboard chords: Ctrl+S saves, Ctrl+P publishes, Esc escapes with or
      without Ctrl. Every other key, and S or P without Ctrl, is no chord. */
  function KeyChord(ctrl: bool, key: KeyCode): Option<Topic>
  {
    match key
    case KeyEsc => Some(OnEscape)
    case KeyS => if ctrl then Some(OnSaveChanges) else None
    case KeyP => if ctrl then Some(OnPublish) else None
    case OtherKey(_) => None
  }

  /** The translator that may dispatch each topic. `onTopLevelEscape` comes from
      the view stack, not from a translator. */
  function Origin(t: Topic): Option<Handler>
  {
    match t
    case OnSaveChanges => Some(KeyDownHandler)
    case OnPublish => Some(KeyDownHandler)
    case OnEscape => Some(KeyDownHandler)
    case OnTopLevelEscape => None
    case OnPointerMove => Some(PointerMoveHandler)
    case OnPointerDown => Some(PointerDownHandler)
    case OnPointerUp => Some(PointerUpHandler)
    case OnDragStart => Some(DragStartHandler)
    case OnDragEnter => Some(DragEnterHandler)
    case OnDragOver => Some(DragOverHandler)
    case OnDragLeave => Some(DragLeaveHandler)
    case OnDragLeaveScreen => Some(DragLeaveHandler)
    case OnDragDrop => Some(DropHandler)
    case OnDragEnd => Some(DragEndHandler)
    case OnPaste => Some(PasteHandler)
    case OnError => Some(ErrorHandler)
  }

  /** The topic each translator other than keydown dispatches first. Keydown
      has no fixed topic: it depends on the chord (`KeyChord`). */
  function Primary(h: Handler): Topic
    requires h != KeyDownHandler
  {
    match h
    case DragEnterHandler => OnDragEnter
    case DragStartHandler => OnDragStart
    case DragOverHandler => OnDragOver
    case DragLeaveHandler => OnDragLeave
    case DropHandler => OnDragDrop
    case DragEndHandler => OnDragEnd
    case PasteHandler => OnPaste
    case PointerMoveHandler => OnPointerMove
    case PointerDownHandler => OnPointerDown
    case PointerUpHandler => OnPointerUp
    case ErrorHandler => OnError
  }

  /** Where each translator places `preventDefault` relative to its dispatch. */
  datatype Placement = SuppressFirst | SuppressAfter | NeverSuppress

  function SuppressionPlacement(h: Handler): Placement
  {
    match h
    case KeyDownHandler => SuppressFirst
    case DragOverHandler => SuppressFirst
    case DragEnterHandler => SuppressAfter
    case DropHandler => SuppressAfter
    case _ => NeverSuppress
  }

  // The translators

  /** `onKeyDown`: three independent checks, each calling `preventDefault`
      before dispatching. At most one can fire, since the key codes differ. */
  function OnKeyDown(e: RawEvent): (r: seq<Step>)
    ensures r == match KeyChord(e.ctrlKey, e.keyCode)
                 case Some(t) => [PreventDefault, Publish(Dispatch(t, None))]
                 case None => []
  {
    (if e.ctrlKey && e.keyCode == KeyS then [PreventDefault, Publish(Dispatch(OnSaveChanges, None))] else [])
    + (if e.ctrlKey && e.keyCode == KeyP then [PreventDefault, Publish(Dispatch(OnPublish, None))] else [])
    + (if e.keyCode == KeyEsc then [PreventDefault, Publish(Dispatch(OnEscape, None))] else [])
  }

  function Pass(t: Topic, payload: Option<RawEvent>): seq<Step>
  {
    [Publish(Dispatch(t, payload))]
  }

  /** Translator `h` run on event `e`, as registered by `appendDocument`. */
  function Run(h: Handler, e: RawEvent): seq<Step>
  {
    match h
    case KeyDownHandler => OnKeyDown(e)
    case PointerMoveHandler => Pass(OnPointerMove, Some(e))
    case PointerDownHandler => Pass(OnPointerDown, Some(e))
    case PointerUpHandler => Pass(OnPointerUp, Some(e))
    case DragStartHandler => Pass(OnDragStart, None)
    case DragEnterHandler => Pass(OnDragEnter, None) + [PreventDefault]
    case DragOverHandler => [PreventDefault] + Pass(OnDragOver, None)
    case DragLeaveHandler =>
      Pass(OnDragLeave, None)
      + (if e.screenX == 0 && e.screenY == 0 then Pass(OnDragLeaveScreen, None) else [])
    case DropHandler => Pass(OnDragDrop, Some(e)) + [PreventDefault]
    case DragEndHandler => Pass(OnDragEnd, None)
    case PasteHandler => Pass(OnPaste, Some(e))
    case ErrorHandler => Pass(OnError, Some(e))
  }

  /** The projections of the four step shapes the translators produce. */
  lemma ShapeProjections(d: Dispatch, d': Dispatch)
    ensures Dispatched([Publish(d)]) == [d] && Suppressions([Publish(d)]) == 0
    ensures Dispatched([PreventDefault, Publish(d)]) == [d]
    ensures Suppressions([PreventDefault, Publish(d)]) == 1
    ensures Dispatched([Publish(d), PreventDefault]) == [d]
    ensures Suppressions([Publish(d), PreventDefault]) == 1
    ensures Dispatched([Publish(d), Publish(d')]) == [d, d']
    ensures Suppressions([Publish(d), Publish(d')]) == 0
  {
    assert [PreventDefault, Publish(d)][1..] == [Publish(d)];
    assert [Publish(d), PreventDefault][1..] == [PreventDefault];
    assert [Publish(d), Publish(d')][1..] == [Publish(d')];
    assert Dispatched([Publish(d')]) == [d'];
    assert Suppressions([Publish(d')]) == 0;
  }

  /** The translators that only pass the event on: one dispatch of their
      fixed topic, carrying the event exactly when the topic does, and no
      `preventDefault`. */
  lemma PassThroughShape(h: Handler, e: RawEvent)
    requires h !in {KeyDownHandler, DragLeaveHandler, DragEnterHandler, DragOverHandler, DropHandler}
    ensures Run(h, e) == [Publish(Dispatch(Primary(h), if CarriesEvent(Primary(h)) then Some(e) else None))]
    ensures SuppressionPlacement(h) == NeverSuppress
  {
  }

  /** The dispatches of each translator, read off its steps: each
      translator's steps are one of the four shapes of `ShapeProjections`. */
  lemma {:induction false} RunDispatched(h: Handler, e: RawEvent)
    ensures Dispatched(Run(h, e)) ==
      match h
      case KeyDownHandler =>
        (match KeyChord(e.ctrlKey, e.keyCode) case Some(t) => [Dispatch(t, None)] case None => [])
      case DragLeaveHandler =>
        [Dispatch(OnDragLeave, None)]
        + (if e.screenX == 0 && e.screenY == 0 then [Dispatch(OnDragLeaveScreen, None)] else [])
      case _ => [Dispatch(Primary(h), if CarriesEvent(Primary(h)) then Some(e) else None)]
  {
    match h {
      case KeyDownHandler =>
        match KeyChord(e.ctrlKey, e.keyCode) {
          case Some(t) => ShapeProjections(Dispatch(t, None), Dispatch(t, None));
          case None =>
        }
      case DragLeaveHandler =>
        var d := Dispatch(OnDragLeave, None);
        var d' := Dispatch(OnDragLeaveScreen, None);
        ShapeProjections(d, d');
        if e.screenX == 0 && e.screenY == 0 {
          assert Run(h, e) == [Publish(d), Publish(d')];
        } else {
          assert Run(h, e) == [Publish(d)];
        }
      case DragEnterHandler =>
        ShapeProjections(Dispatch(OnDragEnter, None), Dispatch(OnDragEnter, None));
        assert Run(h, e) == [Publish(Dispatch(OnDragEnter, None)), PreventDefault];
      case DragOverHandler =>
        ShapeProjections(Dispatch(OnDragOver, None), Dispatch(OnDragOver, None));
        assert Run(h, e) == [PreventDefault, Publish(Dispatch(OnDragOver, None))];
      case DropHandler =>
        ShapeProjections(Dispatch(OnDragDrop, Some(e)), Dispatch(OnDragDrop, Some(e)));
        assert Run(h, e) == [Publish(Dispatch(OnDragDrop, Some(e))), PreventDefault];
      case _ =>
        var d := Dispatch(Primary(h), if CarriesEvent(Primary(h)) then Some(e) else None);
        ShapeProjections(d, d);
        PassThroughShape(h, e);
    }
  }

  /** The `preventDefault` calls of each translator: one for the
      suppressing translators (keydown only on a chord), none otherwise. */
  lemma {:induction false} RunSuppressions(h: Handler, e: RawEvent)
    ensures Suppressions(Run(h, e)) ==
      if h == KeyDownHandler then (if KeyChord(e.ctrlKey, e.keyCode).Some? then 1 else 0)
      else if SuppressionPlacement(h) == NeverSuppress then 0
      else 1
  {
    match h {
      case KeyDownHandler =>
        match KeyChord(e.ctrlKey, e.keyCode) {
          case Some(t) => ShapeProjections(Dispatch(t, None), Dispatch(t, None));
          case None =>
        }
      case DragLeaveHandler =>
        var d := Dispatch(OnDragLeave, None);
        var d' := Dispatch(OnDragLeaveScreen, None);
        ShapeProjections(d, d');
        if e.screenX == 0 && e.screenY == 0 {
          assert Run(h, e) == [Publish(d), Publish(d')];
        } else {
          assert Run(h, e) == [Publish(d)];
        }
      case DragEnterHandler =>
        ShapeProjections(Dispatch(OnDragEnter, None), Dispatch(OnDragEnter, None));
        assert Run(h, e) == [Publish(Dispatch(OnDragEnter, None)), PreventDefault];
      case DragOverHandler =>
        ShapeProjections(Dispatch(OnDragOver, None), Dispatch(OnDragOver, None));
        assert Run(h, e) == [PreventDefault, Publish(Dispatch(OnDragOver, None))];
      case DropHandler =>
        ShapeProjections(Dispatch(OnDragDrop, Some(e)), Dispatch(OnDragDrop, Some(e)));
        assert Run(h, e) == [Publish(Dispatch(OnDragDrop, Some(e))), PreventDefault];
      case _ =>
        var d := Dispatch(Primary(h), if CarriesEvent(Primary(h)) then Some(e) else None);
        ShapeProjections(d, d);
        PassThroughShape(h, e);
    }
  }

  /** The dispatches and `preventDefault` calls of each translator. */
  lemma RunProjections(h: Handler, e: RawEvent)
    ensures Dispatched(Run(h, e)) ==
      match h
      case KeyDownHandler =>
        (match KeyChord(e.ctrlKey, e.keyCode) case Some(t) => [Dispatch(t, None)] case None => [])
      case DragLeaveHandler =>
        [Dispatch(OnDragLeave, None)]
        + (if e.screenX == 0 && e.screenY == 0 then [Dispatch(OnDragLeaveScreen, None)] else [])
      case _ => [Dispatch(Primary(h), if CarriesEvent(Primary(h)) then Some(e) else None)]
    ensures Suppressions(Run(h, e)) ==
      if h == KeyDownHandler then (if KeyChord(e.ctrlKey, e.keyCode).Some? then 1 else 0)
      else if SuppressionPlacement(h) == NeverSuppress then 0
      else 1
  {
    RunDispatched(h, e);
    RunSuppressions(h, e);
  }

  /** The origin table agrees with the translators' fixed topics. */
  lemma PrimaryOrigin(h: Handler)
    requires h != KeyDownHandler
    ensures Origin(Primary(h)) == Some(h)
  {
  }

  /** Every chord topic comes from keydown and carries no event. */
  lemma ChordOrigin(ctrl: bool, key: KeyCode)
    requires KeyChord(ctrl, key).Some?
    ensures Origin(KeyChord(ctrl, key).value) == Some(KeyDownHandler)
    ensures !CarriesEvent(KeyChord(ctrl, key).value)
  {
  }

  /** Every topic a translator dispatches is one of its own, and it carries
      the raw event exactly when the event manager's topic table says so. */
  lemma TranslatorTopics(h: Handler, e: RawEvent)
    ensures forall d :: d in Dispatched(Run(h, e)) ==> Origin(d.topic) == Some(h)
    ensures forall d :: d in Dispatched(Run(h, e)) ==>
      d.payload == if CarriesEvent(d.topic) then Some(e) else None
  {
    RunProjections(h, e);
    var ds := Dispatched(Run(h, e));
    if h == KeyDownHandler {
      if KeyChord(e.ctrlKey, e.keyCode).Some? {
        ChordOrigin(e.ctrlKey, e.keyCode);
        assert ds == [Dispatch(KeyChord(e.ctrlKey, e.keyCode).value, None)];
      } else {
        assert ds == [];
      }
    } else if h == DragLeaveHandler {
      assert forall d :: d in ds ==> d == Dispatch(OnDragLeave, None) || d == Dispatch(OnDragLeaveScreen, None);
    } else {
      PrimaryOrigin(h);
      assert ds == [Dispatch(Primary(h), if CarriesEvent(Primary(h)) then Some(e) else None)];
    }
  }

  /** Every translator but keydown dispatches at least once, and only
      dragleave at screen position (0, 0) dispatches twice. `preventDefault`
      is called at most once: by the suppressing translators, and by keydown
      only on a chord. */
  lemma TranslatorCounts(h: Handler, e: RawEvent)
    ensures h != KeyDownHandler ==> 1 <= |Dispatched(Run(h, e))| <= 2
    ensures |Dispatched(Run(h, e))| == 2 <==> h == DragLeaveHandler && e.screenX == 0 && e.screenY == 0
    ensures Suppressions(Run(h, e)) <= 1
    ensures Suppressions(Run(h, e)) == 1 <==>
      SuppressionPlacement(h) != NeverSuppress
      && (h == KeyDownHandler ==> KeyChord(e.ctrlKey, e.keyCode).Some?)
  {
    RunProjections(h, e);
  }

  /** `preventDefault` comes before the dispatch for keydown and dragover, and
      after it for dragenter and drop. */
  lemma SuppressionOrder(h: Handler, e: RawEvent)
    ensures SuppressionPlacement(h) == SuppressFirst && Suppressions(Run(h, e)) == 1 ==>
      |Run(h, e)| == 2 && Run(h, e)[0] == PreventDefault && Run(h, e)[1].Publish?
    ensures SuppressionPlacement(h) == SuppressAfter ==>
      |Run(h, e)| == 2 && Run(h, e)[0].Publish? && Run(h, e)[1] == PreventDefault
  {
    RunProjections(h, e);
  }

  /** dragleave always dispatches `onDragLeave` first, and `onDragLeaveScreen`
      after it exactly when the screen position is (0, 0). */
  lemma DragLeaveScreenExactlyAtOrigin(e: RawEvent)
    ensures Topics(Run(DragLeaveHandler, e))[0] == OnDragLeave
    ensures OnDragLeaveScreen in Topics(Run(DragLeaveHandler, e)) <==> e.screenX == 0 && e.screenY == 0
    ensures Suppressions(Run(DragLeaveHandler, e)) == 0
  {
    RunProjections(DragLeaveHandler, e);
    if e.screenX == 0 && e.screenY == 0 {
      assert Topics(Run(DragLeaveHandler, e)) == [OnDragLeave, OnDragLeaveScreen];
    } else {
      assert Topics(Run(DragLeaveHandler, e)) == [OnDragLeave];
    }
  }

  /** A keydown dispatches at most one topic and calls `preventDefault` exactly
      when it dispatches. Esc dispatches `onEscape` whether or not Ctrl is held;
      S and P dispatch only with Ctrl; no other key dispatches anything. */
  lemma KeyDownChords(e: RawEvent)
    ensures |Dispatched(Run(KeyDownHandler, e))| <= 1
    ensures Suppressions(Run(KeyDownHandler, e)) == |Dispatched(Run(KeyDownHandler, e))|
    ensures e.keyCode == KeyEsc ==> Topics(Run(KeyDownHandler, e)) == [OnEscape]
    ensures e.ctrlKey && e.keyCode == KeyS ==> Topics(Run(KeyDownHandler, e)) == [OnSaveChanges]
    ensures e.ctrlKey && e.keyCode == KeyP ==> Topics(Run(KeyDownHandler, e)) == [OnPublish]
    ensures !e.ctrlKey && e.keyCode != KeyEsc ==> Run(KeyDownHandler, e) == []
    ensures e.keyCode.OtherKey? ==> Run(KeyDownHandler, e) == []
  {
    RunProjections(KeyDownHandler, e);
  }
}
