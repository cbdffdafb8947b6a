/**
 The overlay view stack: an ordered list of open views, the last pushed on
 top. Each operation is a pure function from the current stack to an
 `Outcome`: the new stack and the trace of observable effects it caused
 (views closed, focus returned, topics dispatched), in order.
 */
module ViewStack {
  import opened Dom
  import opened EventBus

  /** Whether a view brings its own `hitTest` or relies on the default
      "is the target inside `element`" test. */
  datatype HitTest = DefaultHitTest | CustomHitTest

  /** An open overlay. `id` stands for object identity: two views are the same
      view exactly when they are the same object. */
  datatype View = View(id: nat, element: Node, hitTest: HitTest, returnFocusTo: Option<Node>)

  /** One observable effect: `view.close()`, `node.focus()` or a dispatch. */
  datatype Effect = Close(view: View) | Focus(node: Node) | Publish(dispatch: Dispatch)

  datatype Outcome = Outcome(stack: seq<View>, effects: seq<Effect>)

  /** The view on top of a non-empty stack: the one pushed last. */
  function Top(s: seq<View>): View
    requires |s| > 0
  {
    s[|s| - 1]
  }

  /** The close effects of popping all of `u` one by one, top first. */
  function ClosedTopDown(u: seq<View>): seq<Effect>
  {
    seq(|u|, i requires 0 <= i < |u| => Close(u[|u| - 1 - i]))
  }

  /** The focus effect of a view's `returnFocusTo`, if it has one. */
  function FocusReturn(v: View): seq<Effect>
  {
    if v.returnFocusTo.Some? then [Focus(v.returnFocusTo.value)] else []
  }

  const TopLevelEscape := Dispatch(OnTopLevelEscape, None)

  // Projections of an effect trace

  /** The views closed, in the order they were closed. */
  function ClosedViews(es: seq<Effect>): seq<View>
  {
    if es == [] then []
    else (if es[0].Close? then [es[0].view] else []) + ClosedViews(es[1..])
  }

  /** The nodes focused, in order. */
  function Focused(es: seq<Effect>): seq<Node>
  {
    if es == [] then []
    else (if es[0].Focus? then [es[0].node] else []) + Focused(es[1..])
  }

  /** The dispatches made, in order. */
  function Published(es: seq<Effect>): seq<Dispatch>
  {
    if es == [] then []
    else (if es[0].Publish? then [es[0].dispatch] else []) + Published(es[1..])
  }

  lemma {:induction false} ClosedViewsAppend(a: seq<Effect>, b: seq<Effect>)
    ensures ClosedViews(a + b) == ClosedViews(a) + ClosedViews(b)
    decreases |a|
  {
    if a == [] {
      assert a + b == b;
    } else {
      assert (a + b)[0] == a[0] && (a + b)[1..] == a[1..] + b;
      ClosedViewsAppend(a[1..], b);
    }
  }

  lemma {:induction false} FocusedAppend(a: seq<Effect>, b: seq<Effect>)
    ensures Focused(a + b) == Focused(a) + Focused(b)
    decreases |a|
  {
    if a == [] {
      assert a + b == b;
    } else {
      assert (a + b)[0] == a[0] && (a + b)[1..] == a[1..] + b;
      FocusedAppend(a[1..], b);
    }
  }

  lemma {:induction false} PublishedAppend(a: seq<Effect>, b: seq<Effect>)
    ensures Published(a + b) == Published(a) + Published(b)
    decreases |a|
  {
    if a == [] {
      assert a + b == b;
    } else {
      assert (a + b)[0] == a[0] && (a + b)[1..] == a[1..] + b;
      PublishedAppend(a[1..], b);
    }
  }

  /** Each projection of a concatenated trace is the concatenation of the
      projections. */
  lemma ProjectionsAppend(a: seq<Effect>, b: seq<Effect>)
    ensures ClosedViews(a + b) == ClosedViews(a) + ClosedViews(b)
    ensures Focused(a + b) == Focused(a) + Focused(b)
    ensures Published(a + b) == Published(a) + Published(b)
  {
    ClosedViewsAppend(a, b);
    FocusedAppend(a, b);
    PublishedAppend(a, b);
  }

  /** Closing `u + [x]` from the top closes `x` first, then `u` from the top. */
  lemma ClosedTopDownSnoc(u: seq<View>, x: View)
    ensures ClosedTopDown(u + [x]) == [Close(x)] + ClosedTopDown(u)
  {
    var l, r := ClosedTopDown(u + [x]), [Close(x)] + ClosedTopDown(u);
    assert |l| == |r|;
    forall i | 0 <= i < |l|
      ensures l[i] == r[i]
    {
      if i > 0 {
        assert r[i] == ClosedTopDown(u)[i - 1];
      }
    }
  }

  /** Closing `u` from the top closes exactly the views of `u`, top first, and
      does nothing else. */
  lemma {:induction false} ClosedTopDownProjections(u: seq<View>)
    ensures ClosedViews(ClosedTopDown(u)) == seq(|u|, i requires 0 <= i < |u| => u[|u| - 1 - i])
    ensures Focused(ClosedTopDown(u)) == []
    ensures Published(ClosedTopDown(u)) == []
    decreases |u|
  {
    if u != [] {
      var rest := u[..|u| - 1];
      assert u == rest + [Top(u)];
      ClosedTopDownSnoc(rest, Top(u));
      ProjectionsAppend([Close(Top(u))], ClosedTopDown(rest));
      ClosedTopDownProjections(rest);
    }
  }

  // pushView

  /** `pushView`: the view becomes the new top. There is no duplicate check, so
      a view already on the stack gains a second entry. */
  function PushView(s: seq<View>, v: View): (o: Outcome)
    ensures |o.stack| == |s| + 1 && Top(o.stack) == v
    ensures o.stack[..|s|] == s
    ensures multiset(o.stack)[v] == multiset(s)[v] + 1
    ensures o.effects == []
  {
    Outcome(s + [v], [])
  }

  /** Push each of `vs` in turn; one push appends the view, as in
      `PushView`. */
  function PushAll(s: seq<View>, vs: seq<View>): seq<View>
    decreases |vs|
  {
    if vs == [] then s else PushAll(s + [vs[0]], vs[1..])
  }

  /** `getViews`: a copy of the stack, bottom first. */
  function GetViews(s: seq<View>): seq<View>
  {
    s
  }

  /** The stack as the hit test walks it: top first. */
  function TopToBottom(s: seq<View>): seq<View>
  {
    seq(|s|, i requires 0 <= i < |s| => s[|s| - 1 - i])
  }

  /** Pushing `vs` one by one appends them in order. */
  lemma {:induction false} PushAllAppends(s: seq<View>, vs: seq<View>)
    ensures PushAll(s, vs) == s + vs
    decreases |vs|
  {
    if vs == [] {
      assert s + vs == s;
    } else {
      var s' := s + [vs[0]];
      PushAllAppends(s', vs[1..]);
      assert s' + vs[1..] == s + vs;
    }
  }

  /** `PushAll` pushes with `PushView`: pushing `[v] + vs` is pushing `v`,
      then `vs`. */
  lemma PushAllIsPushView(s: seq<View>, v: View, vs: seq<View>)
    ensures PushAll(s, [v] + vs) == PushAll(PushView(s, v).stack, vs)
  {
    assert ([v] + vs)[0] == v && ([v] + vs)[1..] == vs;
  }

  /** Walking `s + vs` from the top visits `vs` from the top, then `s`. */
  lemma TopToBottomAppend(s: seq<View>, vs: seq<View>)
    ensures TopToBottom(s + vs) == TopToBottom(vs) + TopToBottom(s)
  {
    var l, r := TopToBottom(s + vs), TopToBottom(vs) + TopToBottom(s);
    assert |l| == |r|;
    forall i | 0 <= i < |l|
      ensures l[i] == r[i]
    {
      if i < |vs| {
        assert r[i] == TopToBottom(vs)[i];
      } else {
        assert r[i] == TopToBottom(s)[i - |vs|];
      }
    }
  }

  /** After any sequence of pushes, `getViews` lists the views in push order
      and the top-to-bottom walk visits the pushed views first, in reverse
      push order. */
  lemma PushOrder(s: seq<View>, vs: seq<View>)
    ensures GetViews(PushAll(s, vs)) == s + vs
    ensures TopToBottom(PushAll(s, vs))[..|vs|] == TopToBottom(vs)
  {
    PushAllAppends(s, vs);
    TopToBottomAppend(s, vs);
  }

  // popView

  /** `popView`. On an empty stack it dispatches `onTopLevelEscape` and closes
      nothing. Otherwise it removes the top view, closes it and then returns
      focus to its `returnFocusTo`, if set. */
  function PopView(s: seq<View>): (o: Outcome)
    ensures |s| == 0 ==>
      && o.stack == []
      && ClosedViews(o.effects) == []
      && Focused(o.effects) == []
      && Published(o.effects) == [TopLevelEscape]
    ensures |s| > 0 ==>
      && o.stack == s[..|s| - 1]
      && |o.effects| > 0 && o.effects[0] == Close(Top(s))
      && ClosedViews(o.effects) == [Top(s)]
      && Focused(o.effects) == (if Top(s).returnFocusTo.Some? then [Top(s).returnFocusTo.value] else [])
      && Published(o.effects) == []
  {
    if |s| == 0 then
      Outcome([], [Publish(TopLevelEscape)])
    else
      var es := [Close(Top(s))] + FocusReturn(Top(s));
      ProjectionsAppend([Close(Top(s))], FocusReturn(Top(s)));
      Outcome(s[..|s| - 1], es)
  }

  /** Popping right after a push undoes it and closes the pushed view. */
  lemma PopUndoesPush(s: seq<View>, v: View)
    ensures PopView(PushView(s, v).stack).stack == s
    ensures ClosedViews(PopView(PushView(s, v).stack).effects) == [v]
  {
    assert (s + [v])[..|s|] == s;
  }

  // removeView

  /** The do-while loop of `removeView`: pop and close until the popped view is
      `v`. Since `v` is on the stack, the loop stops at its topmost occurrence
      at index `|o.stack|`. */
  function PopThrough(s: seq<View>, v: View): (o: Outcome)
    requires v in s
    ensures |o.stack| < |s| && o.stack == s[..|o.stack|]
    ensures s[|o.stack|] == v
    ensures forall j :: |o.stack| < j < |s| ==> s[j] != v
    ensures o.effects == ClosedTopDown(s[|o.stack|..])
    decreases |s|
  {
    var rest := s[..|s| - 1];
    if Top(s) == v then
      Outcome(rest, [Close(Top(s))])
    else
      assert s == rest + [Top(s)];
      var o := PopThrough(rest, v);
      assert s[|o.stack|..] == rest[|o.stack|..] + [Top(s)];
      Outcome(o.stack, [Close(Top(s))] + o.effects)
  }

  /** `removeView`. A view not on the stack leaves everything unchanged.
      Otherwise every view above the topmost occurrence of `v` is popped and
      closed, then `v` itself, and focus returns to `v.returnFocusTo` if set.
      The `onTopLevelEscape` branch after the loop cannot be reached. */
  function RemoveView(s: seq<View>, v: View): (o: Outcome)
    ensures v !in s ==> o == Outcome(s, [])
    ensures Published(o.effects) == []
  {
    if v !in s then
      Outcome(s, [])
    else
      var p := PopThrough(s, v);
      ClosedTopDownProjections(s[|p.stack|..]);
      ProjectionsAppend(p.effects, FocusReturn(v));
      Outcome(p.stack, p.effects + FocusReturn(v))
  }

  /** If `k` is the index of the topmost occurrence of `v`, `removeView(v)`
      keeps exactly the views below `k`, closes the views from the top down to
      and including index `k`, in that order, and then returns focus. */
  lemma {:induction false} RemoveViewClosesThroughTopmost(s: seq<View>, v: View, k: nat)
    requires k < |s| && s[k] == v
    requires forall j :: k < j < |s| ==> s[j] != v
    ensures RemoveView(s, v).stack == s[..k]
    ensures RemoveView(s, v).effects == ClosedTopDown(s[k..]) + FocusReturn(v)
    ensures ClosedViews(RemoveView(s, v).effects) == TopToBottom(s[k..])
  {
    var p := PopThrough(s, v);
    assert |p.stack| == k;
    ClosedTopDownProjections(s[k..]);
    ProjectionsAppend(p.effects, FocusReturn(v));
  }

  /** A view pushed twice needs two removals: `removeView` stops at its
      topmost entry and leaves the lower one in place. */
  lemma DuplicateNeedsTwoRemovals(v: View)
    ensures RemoveView([v, v], v).stack == [v]
    ensures ClosedViews(RemoveView([v, v], v).effects) == [v]
    ensures RemoveView(RemoveView([v, v], v).stack, v).stack == []
  {
    RemoveViewClosesThroughTopmost([v, v], v, 1);
    RemoveViewClosesThroughTopmost([v], v, 0);
    assert [v, v][1..] == [v];
  }

  /** With views A, B, C pushed in that order, removing A closes C, then B,
      then A, and empties the stack. */
  lemma RemoveBottomClosesAll(a: View, b: View, c: View)
    requires a != b && a != c
    ensures RemoveView([a, b, c], a).stack == []
    ensures ClosedViews(RemoveView([a, b, c], a).effects) == [c, b, a]
  {
    RemoveViewClosesThroughTopmost([a, b, c], a, 0);
    assert [a, b, c][0..] == [a, b, c];
  }

  // runHitTest

  /** `runHitTest` with the hit outcome of each view already decided: walk
      from the top, stop at the first view that is hit, and pop and close
      every view passed before it. */
  function RunHitTest(s: seq<View>, hit: View -> bool): (o: Outcome)
    ensures |o.stack| <= |s| && o.stack == s[..|o.stack|]
    ensures |o.stack| > 0 ==> hit(Top(o.stack))
    ensures forall j :: |o.stack| <= j < |s| ==> !hit(s[j])
    ensures o.effects == ClosedTopDown(s[|o.stack|..])
    decreases |s|
  {
    if |s| == 0 then
      Outcome([], [])
    else if hit(Top(s)) then
      Outcome(s, [])
    else
      var rest := s[..|s| - 1];
      var o := RunHitTest(rest, hit);
      var k := |o.stack|;
      assert s == rest + [Top(s)];
      assert o.stack == s[..k];
      assert s[k..] == rest[k..] + [Top(s)];
      ClosedTopDownSnoc(rest[k..], Top(s));
      assert forall j :: k <= j < |s| - 1 ==> !hit(s[j]) by {
        forall j | k <= j < |s| - 1
          ensures !hit(s[j])
        {
          assert s[j] == rest[j];
        }
      }
      Outcome(o.stack, [Close(Top(s))] + o.effects)
  }

  /** The hit test only closes views: it never moves focus and never
      dispatches. */
  lemma RunHitTestQuiet(s: seq<View>, hit: View -> bool)
    ensures Focused(RunHitTest(s, hit).effects) == []
    ensures Published(RunHitTest(s, hit).effects) == []
  {
    ClosedTopDownProjections(s[|RunHitTest(s, hit).stack|..]);
  }

  /** If the view at depth `d` from the top is the first one hit, the `d` views
      above it are closed top first and it and everything below it stay, in
      order. No focus changes and nothing is dispatched. */
  lemma {:induction false} RunHitTestStopsAtFirstHit(s: seq<View>, hit: View -> bool, d: nat)
    requires d < |s| && hit(s[|s| - 1 - d])
    requires forall j :: |s| - d <= j < |s| ==> !hit(s[j])
    ensures RunHitTest(s, hit).stack == s[..|s| - d]
    ensures ClosedViews(RunHitTest(s, hit).effects) == TopToBottom(s[|s| - d..])
  {
    HitDepthKept(s, hit, d);
    ClosedTopDownProjections(s[|s| - d..]);
  }

  lemma {:induction false} HitDepthKept(s: seq<View>, hit: View -> bool, d: nat)
    requires d < |s| && hit(s[|s| - 1 - d])
    requires forall j :: |s| - d <= j < |s| ==> !hit(s[j])
    ensures |RunHitTest(s, hit).stack| == |s| - d
    decreases d
  {
    if d > 0 {
      var rest := s[..|s| - 1];
      assert !hit(Top(s));
      HitDepthKept(rest, hit, d - 1);
    }
  }

  /** With A pushed and then B on top, a pointer-down that misses B but hits
      A closes B and leaves the stack as [A]. */
  lemma OutsideClickClosesUpperView(a: View, b: View, hit: View -> bool)
    requires hit(a) && !hit(b)
    ensures RunHitTest([a, b], hit).stack == [a]
    ensures ClosedViews(RunHitTest([a, b], hit).effects) == [b]
  {
    RunHitTestStopsAtFirstHit([a, b], hit, 1);
    assert [a, b][..1] == [a];
    assert [a, b][1..] == [b];
  }

  /** If no view is hit the stack is drained, and every entry of the stack is
      closed exactly once, top first. */
  lemma {:induction false} RunHitTestMissDrains(s: seq<View>, hit: View -> bool)
    requires forall j :: 0 <= j < |s| ==> !hit(s[j])
    ensures RunHitTest(s, hit).stack == []
    ensures ClosedViews(RunHitTest(s, hit).effects) == TopToBottom(s)
    ensures multiset(ClosedViews(RunHitTest(s, hit).effects)) == multiset(s)
    ensures Focused(RunHitTest(s, hit).effects) == []
    ensures Published(RunHitTest(s, hit).effects) == []
  {
    var o := RunHitTest(s, hit);
    assert s[0..] == s;
    ClosedTopDownProjections(s);
    ReverseMultiset(s);
  }

  lemma {:induction false} ReverseMultiset(s: seq<View>)
    ensures multiset(TopToBottom(s)) == multiset(s)
    decreases |s|
  {
    if s != [] {
      var rest := s[..|s| - 1];
      assert TopToBottom(s) == [Top(s)] + TopToBottom(rest);
      assert s == rest + [Top(s)];
      ReverseMultiset(rest);
    }
  }

  // clear

  /** The `forEach` of `clear`: close every view, bottom first. */
  function CloseAll(s: seq<View>): (es: seq<Effect>)
    ensures ClosedViews(es) == s
    ensures Focused(es) == []
    ensures Published(es) == []
    decreases |s|
  {
    if s == [] then []
    else
      var es := CloseAll(s[1..]);
      ProjectionsAppend([Close(s[0])], es);
      [Close(s[0])] + es
  }

  /** `clear`: close every entry once, bottom to top, then empty the stack. No
      `onTopLevelEscape` and no focus return. */
  function Clear(s: seq<View>): (o: Outcome)
    ensures o.stack == []
    ensures ClosedViews(o.effects) == s
    ensures Focused(o.effects) == [] && Published(o.effects) == []
  {
    Outcome([], CloseAll(s))
  }

  // Wiring done by the constructor

  /** Whether a pointer event hits a view: the view's own `hitTest` (whose
      outcome is the parameter `custom`), or else whether the view's element
      is the event target or one of its ancestors. */
  predicate Hits(v: View, e: RawEvent, custom: (View, Node) -> bool)
  {
    match v.hitTest
    case CustomHitTest => custom(v, e.target)
    case DefaultHitTest => v.element in [e.target] + e.ancestors
  }

  /** The hit outcome of every view for pointer event `e`. */
  function HitsOf(e: RawEvent, custom: (View, Node) -> bool): View -> bool
  {
    v => Hits(v, e, custom)
  }

  /** The stack's subscriptions: `onEscape` runs `popView` and `onPointerDown`
      runs `runHitTest` on the event's target. Other topics do not reach it. */
  function OnBusEvent(s: seq<View>, d: Dispatch, custom: (View, Node) -> bool): (o: Outcome)
    ensures d.topic == OnEscape ==> o == PopView(s)
    ensures d.topic == OnPointerDown && d.payload.Some? ==> o == RunHitTest(s, HitsOf(d.payload.value, custom))
    ensures d.topic !in {OnEscape, OnPointerDown} ==> o == Outcome(s, [])
  {
    match d.topic
    case OnEscape => PopView(s)
    case OnPointerDown =>
      if d.payload.Some? then RunHitTest(s, HitsOf(d.payload.value, custom))
      else Outcome(s, [])
    case _ => Outcome(s, [])
  }
}
