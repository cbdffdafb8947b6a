/**
 The document registry of the global event handler: the list of attached
 documents and the DOM listeners that `appendDocument` and `removeDocument`
 add and remove. `addEventListener` and `removeEventListener` are modelled on
 an explicit list of registrations, with the DOM's rule that a listener is
 identified by its target, event type, capture flag and function reference.
 */
module DocumentRegistry {
  import opened Dom
  import opened EventBus
  import opened EventTranslation

  /** Where a listener is attached: a document, or the window of a document. */
  datatype Target = OnDocument(doc: Doc) | OnWindow(doc: Doc)

  /** The identity of a registered function reference. `BoundOnce` is a
      function bound a single time and reused; `BoundPerCall(n)` is the result
      of the n-th fresh `.bind(this)` call, equal to no other reference. */
  datatype Binding = BoundOnce | BoundPerCall(serial: nat)

  datatype Registration = Registration(
    target: Target, kind: EventKind, capture: bool, handler: Handler, binding: Binding)

  /** A row of the registration table: which translator `appendDocument`
      attaches for an event type, in which phase, and on which target. */
  datatype Entry = Entry(kind: EventKind, capture: bool, onWindow: bool, handler: Handler)

  /** The registration table, in the order `appendDocument` registers. */
  const Table: seq<Entry> := [
    Entry(KeyDown, false, false, KeyDownHandler),
    Entry(DragEnter, true, false, DragEnterHandler),
    Entry(DragStart, true, false, DragStartHandler),
    Entry(DragOver, true, false, DragOverHandler),
    Entry(DragLeave, false, false, DragLeaveHandler),
    Entry(Drop, true, false, DropHandler),
    Entry(DragEnd, true, false, DragEndHandler),
    Entry(Paste, true, false, PasteHandler),
    Entry(MouseMove, true, false, PointerMoveHandler),
    Entry(MouseDown, true, false, PointerDownHandler),
    Entry(MouseUp, true, false, PointerUpHandler),
    Entry(Error, true, true, ErrorHandler)
  ]

  /** The row of `Table` for event type `k`. */
  function KindIndex(k: EventKind): (i: nat)
    ensures i < |Table| && Table[i].kind == k
  {
    match k
    case KeyDown => 0
    case DragEnter => 1
    case DragStart => 2
    case DragOver => 3
    case DragLeave => 4
    case Drop => 5
    case DragEnd => 6
    case Paste => 7
    case MouseMove => 8
    case MouseDown => 9
    case MouseUp => 10
    case Error => 11
  }

  /** Each event type has one row, so the rows are told apart by event type. */
  lemma TableKindsDistinct()
    ensures forall i :: 0 <= i < |Table| ==> KindIndex(Table[i].kind) == i
  {
  }

  /** The registration of event type `k`: keydown and dragleave listen in the
      default (bubbling) phase, every other type in the capturing phase, and
      only `error` listens on the window rather than on the document. */
  function EntryFor(k: EventKind): (en: Entry)
    ensures en in Table && en.kind == k
    ensures en.capture <==> k !in {KeyDown, DragLeave}
    ensures en.onWindow <==> k == Error
  {
    Table[KindIndex(k)]
  }

  function TargetOf(doc: Doc, en: Entry): Target
  {
    if en.onWindow then OnWindow(doc) else OnDocument(doc)
  }

  /** The listeners attached for `doc`, one per table row, with the given
      function references. */
  function Registrations(doc: Doc, bs: seq<Binding>): seq<Registration>
    requires |bs| == |Table|
  {
    seq(|Table|, i requires 0 <= i < |Table| =>
      Registration(TargetOf(doc, Table[i]), Table[i].kind, Table[i].capture, Table[i].handler, bs[i]))
  }

  /** The references `appendDocument` and `removeDocument` pass as written:
      `onKeyDown` was bound once in the constructor, every other translator is
      bound afresh on each call. */
  function FreshBindings(next: nat): seq<Binding>
  {
    seq(|Table|, i requires 0 <= i < |Table| =>
      if Table[i].handler == KeyDownHandler then BoundOnce else BoundPerCall(next + i))
  }

  /** The references of the corrected router: every translator bound once and
      the same reference reused for removal. */
  function StoredBindings(): seq<Binding>
  {
    seq(|Table|, i requires 0 <= i < |Table| => BoundOnce)
  }

  ghost predicate NoDup<T>(s: seq<T>)
  {
    forall i, j :: 0 <= i < j < |s| ==> s[i] != s[j]
  }

  lemma RegistrationsDistinct(doc: Doc, bs: seq<Binding>)
    requires |bs| == |Table|
    ensures NoDup(Registrations(doc, bs))
  {
    TableKindsDistinct();
  }

  /** The listeners of `doc` are attached to `doc` or its window. */
  lemma RegistrationsBelongTo(doc: Doc, bs: seq<Binding>)
    requires |bs| == |Table|
    ensures forall x :: x in Registrations(doc, bs) ==> x.target.doc == doc
  {
  }

  // The list operations

  /** `Array.prototype.remove`: drop the first occurrence of `x`, if any. */
  function RemoveFirst<T(==)>(s: seq<T>, x: T): (r: seq<T>)
    ensures x !in s ==> r == s
    ensures x in s ==> |r| == |s| - 1
    ensures x in s && s[0] == x ==> r == s[1..]
    ensures forall y :: y in r ==> y in s
  {
    if s == [] then []
    else if s[0] == x then s[1..]
    else
      assert s == [s[0]] + s[1..];
      [s[0]] + RemoveFirst(s[1..], x)
  }

  /** Removing a present `x` takes away exactly one copy of it and nothing
      else. */
  lemma {:induction false} RemoveFirstDropsOne<T>(s: seq<T>, x: T)
    requires x in s
    ensures multiset(RemoveFirst(s, x)) == multiset(s) - multiset{x}
    decreases |s|
  {
    assert s == [s[0]] + s[1..];
    if s[0] != x {
      RemoveFirstDropsOne(s[1..], x);
    }
  }

  /** The tail of a list without repeats has no repeats and does not hold
      the head. */
  lemma NoDupTail<T>(s: seq<T>)
    requires NoDup(s) && s != []
    ensures NoDup(s[1..]) && s[0] !in s[1..]
  {
    var t := s[1..];
    forall i, j | 0 <= i < j < |t|
      ensures t[i] != t[j]
    {
      assert t[i] == s[i + 1] && t[j] == s[j + 1];
    }
    forall i | 0 <= i < |t|
      ensures t[i] != s[0]
    {
      assert t[i] == s[i + 1];
    }
  }

  /** Appending the head of `s` and then its tail appends `s`. */
  lemma AppendHead<T>(a: seq<T>, s: seq<T>)
    requires s != []
    ensures a + [s[0]] + s[1..] == a + s
  {
  }

  /** Joining two lists without repeats and without common elements gives a
      list without repeats. */
  lemma NoDupAppend<T>(a: seq<T>, b: seq<T>)
    requires NoDup(a) && NoDup(b)
    requires forall x :: x in b ==> x !in a
    ensures NoDup(a + b)
  {
    var c := a + b;
    forall i, j | 0 <= i < j < |c|
      ensures c[i] != c[j]
    {
      if j < |a| {
        assert c[i] == a[i] && c[j] == a[j];
      } else if i >= |a| {
        assert c[i] == b[i - |a|] && c[j] == b[j - |a|];
      } else {
        assert c[i] == a[i] && c[j] == b[j - |a|];
        assert c[j] in b;
      }
    }
  }

  /** On a list without repeats, removing `x` leaves a list without repeats
      that no longer holds `x` and still holds every other element. */
  lemma {:induction false} RemoveFirstNoDup<T>(s: seq<T>, x: T)
    ensures NoDup(s) ==> NoDup(RemoveFirst(s, x)) && x !in RemoveFirst(s, x)
    ensures forall y :: y in s && y != x ==> y in RemoveFirst(s, x)
    decreases |s|
  {
    if s != [] {
      var t := s[1..];
      assert s == [s[0]] + t;
      if NoDup(s) {
        NoDupTail(s);
      }
      if s[0] != x {
        RemoveFirstNoDup(t, x);
        if NoDup(s) {
          NoDupAppend([s[0]], RemoveFirst(t, x));
        }
      }
    }
  }

  lemma {:induction false} RemoveFirstAfter<T>(a: seq<T>, b: seq<T>, x: T)
    requires x !in a
    ensures RemoveFirst(a + b, x) == a + RemoveFirst(b, x)
  {
    if a != [] {
      assert (a + b)[1..] == a[1..] + b;
      RemoveFirstAfter(a[1..], b, x);
    } else {
      assert a + b == b;
    }
  }

  /** `addEventListener`: a registration equal to one already present is not
      added again. */
  function AddListener(ls: seq<Registration>, reg: Registration): seq<Registration>
  {
    if reg in ls then ls else ls + [reg]
  }

  function AddEach(ls: seq<Registration>, regs: seq<Registration>): (r: seq<Registration>)
    ensures forall x :: x in ls ==> x in r
    ensures forall x :: x in regs ==> x in r
    ensures forall x :: x in r ==> x in ls || x in regs
    decreases |regs|
  {
    if regs == [] then ls
    else AddEach(AddListener(ls, regs[0]), regs[1..])
  }

  /** `removeEventListener` for each registration in turn: a registration is
      removed only if an equal one is present. */
  function RemoveEach(ls: seq<Registration>, regs: seq<Registration>): (r: seq<Registration>)
    ensures forall x :: x in r ==> x in ls
    decreases |regs|
  {
    if regs == [] then ls
    else RemoveEach(RemoveFirst(ls, regs[0]), regs[1..])
  }

  lemma {:induction false} AddEachFresh(ls: seq<Registration>, regs: seq<Registration>)
    requires forall x :: x in regs ==> x !in ls
    requires NoDup(regs)
    ensures AddEach(ls, regs) == ls + regs
    decreases |regs|
  {
    if regs != [] {
      var x, t := regs[0], regs[1..];
      NoDupTail(regs);
      forall y | y in t
        ensures y !in ls + [x]
      {
        assert y in regs;
      }
      AddEachFresh(ls + [x], t);
      AppendHead(ls, regs);
    }
  }

  lemma {:induction false} RemoveEachAbsent(ls: seq<Registration>, regs: seq<Registration>)
    requires forall x :: x in regs ==> x !in ls
    ensures RemoveEach(ls, regs) == ls
    decreases |regs|
  {
    if regs != [] {
      RemoveEachAbsent(ls, regs[1..]);
    }
  }

  /** Removing, one by one, a block of distinct registrations that sits after
      every other copy of them removes exactly that block. */
  lemma {:induction false} RemoveEachBlock(a: seq<Registration>, b: seq<Registration>, c: seq<Registration>)
    requires forall x :: x in b ==> x !in a
    requires NoDup(b)
    ensures RemoveEach(a + b + c, b) == a + c
    decreases |b|
  {
    if b == [] {
      assert a + b + c == a + c;
    } else {
      var x := b[0];
      var tail := b[1..] + c;
      assert a + b + c == a + ([x] + tail);
      RemoveFirstAfter(a, [x] + tail, x);
      assert RemoveFirst([x] + tail, x) == tail;
      assert a + tail == a + b[1..] + c;
      assert forall y :: y in b[1..] ==> y in b;
      assert NoDup(b[1..]) by {
        assert forall i :: 0 <= i < |b[1..]| ==> b[1..][i] == b[i + 1];
      }
      RemoveEachBlock(a, b[1..], c);
    }
  }

  // Delivery of a raw event

  predicate Matches(reg: Registration, t: Target, k: EventKind)
  {
    reg.target == t && reg.kind == k
  }

  /** The steps caused by firing `e` at `t`: every listener on `t` for the
      event's type runs its translator, in registration order. */
  function Deliver(ls: seq<Registration>, t: Target, e: RawEvent): seq<Step>
  {
    if ls == [] then []
    else (if Matches(ls[0], t, e.kind) then Run(ls[0].handler, e) else []) + Deliver(ls[1..], t, e)
  }

  lemma {:induction false} DeliverAppend(a: seq<Registration>, b: seq<Registration>, t: Target, e: RawEvent)
    ensures Deliver(a + b, t, e) == Deliver(a, t, e) + Deliver(b, t, e)
  {
    if a == [] {
      assert a + b == b;
    } else {
      assert (a + b)[1..] == a[1..] + b;
      DeliverAppend(a[1..], b, t, e);
    }
  }

  lemma {:induction false} DeliverNone(ls: seq<Registration>, t: Target, e: RawEvent)
    requires forall i :: 0 <= i < |ls| ==> !Matches(ls[i], t, e.kind)
    ensures Deliver(ls, t, e) == []
  {
    if ls != [] {
      DeliverNone(ls[1..], t, e);
    }
  }

  lemma DeliverOne(ls: seq<Registration>, t: Target, e: RawEvent, k: nat)
    requires k < |ls| && Matches(ls[k], t, e.kind)
    requires forall i :: 0 <= i < |ls| && i != k ==> !Matches(ls[i], t, e.kind)
    ensures Deliver(ls, t, e) == Run(ls[k].handler, e)
  {
    var a, b := ls[..k], ls[k + 1..];
    assert ls == a + ([ls[k]] + b);
    DeliverAppend(a, [ls[k]] + b, t, e);
    DeliverAppend([ls[k]], b, t, e);
    DeliverNone(a, t, e);
    assert forall i :: 0 <= i < |b| ==> b[i] == ls[k + 1 + i];
    DeliverNone(b, t, e);
    assert ([ls[k]])[1..] == [];
  }

  /** Whether a listener for event type `k` is ever attached to a target of
      this kind (document or window). */
  predicate Listens(t: Target, k: EventKind)
  {
    EntryFor(k).onWindow == t.OnWindow?
  }

  /** Firing `e` at `t` reaches the listeners attached for one document
      exactly when `t` belongs to that document and its type is listened for
      on a target of that kind, and then runs the table's translator once. */
  lemma DeliverToDocument(x: Doc, bs: seq<Binding>, t: Target, e: RawEvent)
    requires |bs| == |Table|
    ensures Deliver(Registrations(x, bs), t, e) ==
      if x == t.doc && Listens(t, e.kind) then Run(EntryFor(e.kind).handler, e) else []
  {
    var regs := Registrations(x, bs);
    var k := KindIndex(e.kind);
    TableKindsDistinct();
    assert forall i :: 0 <= i < |regs| && i != k ==> !Matches(regs[i], t, e.kind);
    if x == t.doc && Listens(t, e.kind) {
      DeliverOne(regs, t, e, k);
    } else {
      DeliverNone(regs, t, e);
    }
  }

  // The router as written

  datatype Router = Router(documents: seq<Doc>, listeners: seq<Registration>, bindings: nat)

  /** A call of `appendDocument` or `removeDocument`. */
  datatype Call = Append(doc: Doc) | Remove(doc: Doc)

  /** A new handler: no documents, no listeners, no fresh bindings yet. */
  const Initial := Router([], [], 0)

  /** Every fresh binding in use was made before the next serial. */
  ghost predicate WellFormed(r: Router)
  {
    forall reg :: reg in r.listeners && reg.binding.BoundPerCall? ==> reg.binding.serial < r.bindings
  }

  function KeyDownRegistration(doc: Doc): Registration
  {
    Registration(OnDocument(doc), KeyDown, false, KeyDownHandler, BoundOnce)
  }

  /** `appendDocument`. A document already in the list is left alone, with no
      listener added; any other document is appended once and gets a listener
      for every row of the registration table. */
  function AppendDocument(r: Router, doc: Doc): (a: Router)
    ensures doc in r.documents ==> a == r
    ensures doc !in r.documents ==> a.documents == r.documents + [doc]
    ensures doc !in r.documents ==>
      forall i :: 0 <= i < |Table| ==> Registrations(doc, FreshBindings(r.bindings))[i] in a.listeners
    ensures Consistent(r) && doc !in r.documents ==>
      a.listeners == r.listeners + Registrations(doc, FreshBindings(r.bindings))
  {
    if doc in r.documents then r
    else
      AppendAddsFreshSet(r, doc);
      Router(
      r.documents + [doc],
      AddEach(r.listeners, Registrations(doc, FreshBindings(r.bindings))),
      r.bindings + |Table|)
  }

  /** `removeDocument`, as written: the document leaves the list, and each
      listener is removed by a reference that is fresh for every translator
      but keydown. */
  function RemoveDocument(r: Router, doc: Doc): (a: Router)
    ensures a.documents == RemoveFirst(r.documents, doc)
    ensures doc in r.documents ==> |a.documents| == |r.documents| - 1
    ensures NoDup(r.documents) ==> doc !in a.documents && NoDup(a.documents)
  {
    RemoveFirstNoDup(r.documents, doc);
    Router(
      RemoveFirst(r.documents, doc),
      RemoveEach(r.listeners, Registrations(doc, FreshBindings(r.bindings))),
      r.bindings + |Table|)
  }

  /** Every listener of a fresh set but the keydown one carries a serial of
      at least `n`. */
  lemma FreshTailIsNew(doc: Doc, n: nat)
    ensures forall x :: x in Registrations(doc, FreshBindings(n))[1..] ==>
      x.binding.BoundPerCall? && x.binding.serial >= n
  {
    var regs := Registrations(doc, FreshBindings(n));
    forall i | 1 <= i < |Table|
      ensures regs[i].binding == BoundPerCall(n + i)
    {
    }
    assert forall x :: x in regs[1..] ==> exists i :: 1 <= i < |Table| && x == regs[i];
  }

  /** Of the listeners of a document, `removeDocument` as written detaches only
      the keydown listener; every other one stays attached. */
  lemma RemoveDocumentDetachesOnlyKeyDown(r: Router, doc: Doc)
    requires WellFormed(r)
    ensures RemoveDocument(r, doc).listeners == RemoveFirst(r.listeners, KeyDownRegistration(doc))
  {
    var regs := Registrations(doc, FreshBindings(r.bindings));
    var rest := RemoveFirst(r.listeners, regs[0]);
    FreshTailIsNew(doc, r.bindings);
    assert regs[0] == KeyDownRegistration(doc);
    RemoveEachAbsent(rest, regs[1..]);
  }

  /** The invariant of the handler as written: neither the document list nor
      the listener list has repeats, every fresh binding in use was made
      before the next serial, and a document's keydown listener is attached
      only while the document is listed. */
  ghost predicate Consistent(r: Router)
  {
    && NoDup(r.documents)
    && NoDup(r.listeners)
    && WellFormed(r)
    && (forall d :: KeyDownRegistration(d) in r.listeners ==> d in r.documents)
  }

  /** A fresh set of listeners for `doc` starts with the keydown listener
      bound in the constructor; every other one carries a serial in
      `n .. n + |Table|`. */
  lemma FreshRegistrationsShape(doc: Doc, n: nat)
    ensures Registrations(doc, FreshBindings(n))[0] == KeyDownRegistration(doc)
    ensures forall x :: x in Registrations(doc, FreshBindings(n)) ==>
      x == KeyDownRegistration(doc) || (x.binding.BoundPerCall? && n <= x.binding.serial < n + |Table|)
  {
    var regs := Registrations(doc, FreshBindings(n));
    forall i | 0 <= i < |Table|
      ensures regs[i] == KeyDownRegistration(doc) || (regs[i].binding.BoundPerCall? && n <= regs[i].binding.serial < n + |Table|)
    {
      if i > 0 {
        assert regs[i].binding == BoundPerCall(n + i);
      }
    }
  }

  /** The listeners a new document gets are all absent beforehand: the keydown
      one because the document is not listed, the others because their
      bindings are new. */
  lemma NewListenersAbsent(r: Router, doc: Doc)
    requires Consistent(r) && doc !in r.documents
    ensures forall x :: x in Registrations(doc, FreshBindings(r.bindings)) ==> x !in r.listeners
  {
    FreshRegistrationsShape(doc, r.bindings);
  }

  lemma AppendAddsFreshSet(r: Router, doc: Doc)
    ensures Consistent(r) && doc !in r.documents ==>
      AddEach(r.listeners, Registrations(doc, FreshBindings(r.bindings))) ==
        r.listeners + Registrations(doc, FreshBindings(r.bindings))
  {
    if Consistent(r) && doc !in r.documents {
      NewListenersAbsent(r, doc);
      RegistrationsDistinct(doc, FreshBindings(r.bindings));
      AddEachFresh(r.listeners, Registrations(doc, FreshBindings(r.bindings)));
    }
  }

  /** `appendDocument` as written keeps the invariant. */
  lemma AppendDocumentConsistent(r: Router, doc: Doc)
    requires Consistent(r)
    ensures Consistent(AppendDocument(r, doc))
  {
    if doc !in r.documents {
      var a := AppendDocument(r, doc);
      var regs := Registrations(doc, FreshBindings(r.bindings));
      NewListenersAbsent(r, doc);
      RegistrationsDistinct(doc, FreshBindings(r.bindings));
      NoDupAppend(r.listeners, regs);
      NoDupAppend(r.documents, [doc]);
      FreshRegistrationsShape(doc, r.bindings);
      RegistrationsBelongTo(doc, FreshBindings(r.bindings));
      forall d | KeyDownRegistration(d) in a.listeners
        ensures d in a.documents
      {
        if KeyDownRegistration(d) !in r.listeners {
          assert d == doc;
        }
      }
    }
  }

  /** `removeDocument` as written keeps the invariant: the document leaves the
      list together with its keydown listener. */
  lemma RemoveDocumentConsistent(r: Router, doc: Doc)
    requires Consistent(r)
    ensures Consistent(RemoveDocument(r, doc))
  {
    var a := RemoveDocument(r, doc);
    RemoveDocumentDetachesOnlyKeyDown(r, doc);
    RemoveFirstNoDup(r.documents, doc);
    RemoveFirstNoDup(r.listeners, KeyDownRegistration(doc));
    forall d | KeyDownRegistration(d) in a.listeners
      ensures d in a.documents
    {
      assert KeyDownRegistration(d) in r.listeners;
    }
  }

  /** The handler as written after a sequence of calls, in order. */
  function ApplyAsWritten(r: Router, calls: seq<Call>): Router
    decreases |calls|
  {
    if calls == [] then r
    else
      var r' := match calls[0]
        case Append(d) => AppendDocument(r, d)
        case Remove(d) => RemoveDocument(r, d);
      ApplyAsWritten(r', calls[1..])
  }

  /** Every handler reached from a new one by calls to `appendDocument` and
      `removeDocument` as written satisfies the invariant. */
  lemma {:induction false} AsWrittenRouterConsistent(r: Router, calls: seq<Call>)
    requires Consistent(r)
    ensures Consistent(ApplyAsWritten(r, calls))
    decreases |calls|
  {
    if calls != [] {
      match calls[0] {
        case Append(d) => AppendDocumentConsistent(r, d);
        case Remove(d) => RemoveDocumentConsistent(r, d);
      }
      var r' := match calls[0]
        case Append(d) => AppendDocument(r, d)
        case Remove(d) => RemoveDocument(r, d);
      AsWrittenRouterConsistent(r', calls[1..]);
    }
  }

  /** A new handler satisfies the invariant. */
  lemma InitialConsistent()
    ensures Consistent(Initial)
  {
  }

  /** The listeners after attaching a first document. */
  lemma FirstAttachment(doc: Doc)
    ensures AppendDocument(Initial, doc).listeners == Registrations(doc, FreshBindings(0))
    ensures WellFormed(AppendDocument(Initial, doc))
  {
    InitialConsistent();
    AppendDocumentConsistent(Initial, doc);
    assert [] + Registrations(doc, FreshBindings(0)) == Registrations(doc, FreshBindings(0));
  }

  /** Dragover is listened for on documents, by the dragover translator. */
  lemma DragOverRow(doc: Doc)
    ensures Listens(OnDocument(doc), DragOver) && EntryFor(DragOver).handler == DragOverHandler
  {
  }

  /** Attaching a first document and detaching it empties the document list
      but leaves every listener except keydown attached. */
  lemma AttachDetachLeavesListeners(doc: Doc)
    ensures var detached := RemoveDocument(AppendDocument(Initial, doc), doc);
      && detached.documents == []
      && detached.listeners == Registrations(doc, FreshBindings(0))[1..]
  {
    var r1 := AppendDocument(Initial, doc);
    var first := Registrations(doc, FreshBindings(0));
    FirstAttachment(doc);
    RemoveDocumentDetachesOnlyKeyDown(r1, doc);
    assert first[0] == KeyDownRegistration(doc);
  }

  /** The listeners of a first attachment other than keydown translate a
      dragover once. */
  lemma DragOverAfterKeyDown(doc: Doc, e: RawEvent)
    requires e.kind == DragOver
    ensures Deliver(Registrations(doc, FreshBindings(0))[1..], OnDocument(doc), e) == Run(DragOverHandler, e)
  {
    var t := OnDocument(doc);
    var first := Registrations(doc, FreshBindings(0));
    FreshRegistrationsShape(doc, 0);
    assert !Matches(first[0], t, e.kind);
    assert Deliver(first, t, e) == Deliver(first[1..], t, e);
    DeliverToDocument(doc, FreshBindings(0), t, e);
    DragOverRow(doc);
  }

  /** A dragover fired at a document that was attached and then detached is
      still translated. */
  lemma DetachedDocumentStillTranslates(doc: Doc, e: RawEvent)
    requires e.kind == DragOver
    ensures var detached := RemoveDocument(AppendDocument(Initial, doc), doc);
      && doc !in detached.documents
      && detached.listeners == Registrations(doc, FreshBindings(0))[1..]
      && Deliver(detached.listeners, OnDocument(doc), e) == Run(DragOverHandler, e)
  {
    AttachDetachLeavesListeners(doc);
    DragOverAfterKeyDown(doc, e);
  }

  /** The references of a later attachment differ from those left behind by
      a first attach and detach. */
  lemma LaterAttachmentIsFresh(doc: Doc, n: nat)
    requires n >= |Table|
    ensures forall x :: x in Registrations(doc, FreshBindings(n)) ==>
      x !in Registrations(doc, FreshBindings(0))[1..]
  {
    var first := Registrations(doc, FreshBindings(0));
    var second := Registrations(doc, FreshBindings(n));
    TableKindsDistinct();
    forall i, j | 0 <= i < |Table| && 1 <= j < |Table|
      ensures second[i] != first[j]
    {
      if i == 0 {
        assert first[j].kind != KeyDown;
      } else {
        assert second[i].binding == BoundPerCall(n + i);
      }
    }
    assert forall y :: y in first[1..] ==> exists j :: 1 <= j < |Table| && y == first[j];
  }

  /** Attaching a document again after an attach and detach adds a second
      full set of listeners after the ones left behind. */
  lemma ReattachAddsSecondSet(r: Router, doc: Doc)
    requires doc !in r.documents && r.bindings >= |Table|
    requires r.listeners == Registrations(doc, FreshBindings(0))[1..]
    ensures AppendDocument(r, doc).listeners == r.listeners + Registrations(doc, FreshBindings(r.bindings))
  {
    LaterAttachmentIsFresh(doc, r.bindings);
    RegistrationsDistinct(doc, FreshBindings(r.bindings));
    AddEachFresh(r.listeners, Registrations(doc, FreshBindings(r.bindings)));
  }

  /** After attaching, detaching and attaching a document again, every
      dragover fired at it is translated twice: two `preventDefault` calls and
      two `onDragOver` dispatches. */
  lemma {:induction false} ReattachDoublesDragOver(doc: Doc, e: RawEvent)
    requires e.kind == DragOver
    ensures var again := AppendDocument(RemoveDocument(AppendDocument(Initial, doc), doc), doc);
      && doc in again.documents
      && Deliver(again.listeners, OnDocument(doc), e) == Run(DragOverHandler, e) + Run(DragOverHandler, e)
  {
    var t := OnDocument(doc);
    DetachedDocumentStillTranslates(doc, e);
    var r := RemoveDocument(AppendDocument(Initial, doc), doc);
    ReattachAddsSecondSet(r, doc);
    DeliverAppend(r.listeners, Registrations(doc, FreshBindings(r.bindings)), t, e);
    DeliverToDocument(doc, FreshBindings(r.bindings), t, e);
    DragOverRow(doc);
  }

  // The corrected router: every translator bound once and that same
  // reference passed to removeEventListener.

  /** `appendDocument` registering the stored references. */
  function AppendDocumentFixed(r: Router, doc: Doc): (a: Router)
    ensures doc in r.documents ==> a == r
    ensures doc !in r.documents ==> a.documents == r.documents + [doc]
  {
    if doc in r.documents then r
    else Router(r.documents + [doc], AddEach(r.listeners, Registrations(doc, StoredBindings())), r.bindings)
  }

  /** `removeDocument` passing the same stored references. */
  function RemoveDocumentFixed(r: Router, doc: Doc): (a: Router)
    ensures a.documents == RemoveFirst(r.documents, doc)
    ensures NoDup(r.documents) ==> doc !in a.documents && NoDup(a.documents)
  {
    RemoveFirstNoDup(r.documents, doc);
    Router(RemoveFirst(r.documents, doc), RemoveEach(r.listeners, Registrations(doc, StoredBindings())), r.bindings)
  }

  /** The listeners of the documents `ds`, attached in that order. */
  function AllRegistrations(ds: seq<Doc>): seq<Registration>
  {
    if ds == [] then []
    else AllRegistrations(ds[..|ds| - 1]) + Registrations(ds[|ds| - 1], StoredBindings())
  }

  /** The corrected router's invariant: each document is listed once and the
      listeners are exactly those of the listed documents. */
  ghost predicate Valid(r: Router)
  {
    NoDup(r.documents) && r.listeners == AllRegistrations(r.documents)
  }

  lemma {:induction false} AllRegistrationsAppend(a: seq<Doc>, b: seq<Doc>)
    ensures AllRegistrations(a + b) == AllRegistrations(a) + AllRegistrations(b)
    decreases |b|
  {
    if b == [] {
      assert a + b == a;
    } else {
      var b' := b[..|b| - 1];
      assert (a + b)[..|a + b| - 1] == a + b' && (a + b)[|a + b| - 1] == b[|b| - 1];
      AllRegistrationsAppend(a, b');
      assert AllRegistrations(a + b) == AllRegistrations(a + b') + Registrations(b[|b| - 1], StoredBindings());
    }
  }

  lemma {:induction false} AllRegistrationsTargets(ds: seq<Doc>)
    ensures forall x :: x in AllRegistrations(ds) ==> x.target.doc in ds
    decreases |ds|
  {
    if ds != [] {
      AllRegistrationsTargets(ds[..|ds| - 1]);
    }
  }

  lemma {:induction false} AppendFixedValid(r: Router, doc: Doc)
    requires Valid(r)
    ensures Valid(AppendDocumentFixed(r, doc))
  {
    if doc !in r.documents {
      var regs := Registrations(doc, StoredBindings());
      AllRegistrationsTargets(r.documents);
      RegistrationsDistinct(doc, StoredBindings());
      AddEachFresh(r.listeners, regs);
      assert (r.documents + [doc])[..|r.documents|] == r.documents;
    }
  }

  /** A sequence is the part before index `k`, the element at `k`, and the
      part after it. */
  lemma SplitAt<T>(s: seq<T>, k: nat)
    requires k < |s|
    ensures s == s[..k] + ([s[k]] + s[k + 1..])
  {
  }

  /** Removing an attached document from a list without repeats removes it
      at its own index. */
  lemma RemoveAttachedDocument(ds: seq<Doc>, k: nat)
    requires NoDup(ds) && k < |ds|
    ensures RemoveFirst(ds, ds[k]) == ds[..k] + ds[k + 1..]
  {
    var x, before, after := ds[k], ds[..k], ds[k + 1..];
    SplitAt(ds, k);
    forall i | 0 <= i < |before|
      ensures before[i] != x
    {
      assert before[i] == ds[i];
    }
    RemoveFirstAfter(before, [x] + after, x);
    assert ([x] + after)[0] == x && ([x] + after)[1..] == after;
  }

  /** The stored listeners of all documents are those of the documents before
      `doc`, then those of `doc`, then those of the documents after it. */
  lemma AllRegistrationsSplit(before: seq<Doc>, doc: Doc, after: seq<Doc>)
    ensures AllRegistrations(before + ([doc] + after)) ==
      AllRegistrations(before) + Registrations(doc, StoredBindings()) + AllRegistrations(after)
  {
    assert AllRegistrations([doc]) == Registrations(doc, StoredBindings()) by {
      assert ([doc])[..0] == [];
    }
    AllRegistrationsAppend(before, [doc] + after);
    AllRegistrationsAppend([doc], after);
  }

  /** The listeners of a document that is not among `ds` are none of the
      listeners of `ds`. */
  lemma OtherDocumentApart(ds: seq<Doc>, doc: Doc)
    requires doc !in ds
    ensures forall x :: x in Registrations(doc, StoredBindings()) ==> x !in AllRegistrations(ds)
  {
    AllRegistrationsTargets(ds);
    assert forall x :: x in Registrations(doc, StoredBindings()) ==> x.target.doc == doc;
  }

  /** Removing the stored listeners of an attached document leaves exactly the
      stored listeners of the other documents. */
  lemma RemoveAttachedBlock(ds: seq<Doc>, k: nat)
    requires NoDup(ds) && k < |ds|
    ensures RemoveEach(AllRegistrations(ds), Registrations(ds[k], StoredBindings())) ==
      AllRegistrations(ds[..k] + ds[k + 1..])
  {
    var doc, before, after := ds[k], ds[..k], ds[k + 1..];
    SplitAt(ds, k);
    AllRegistrationsSplit(before, doc, after);
    forall i | 0 <= i < |before|
      ensures before[i] != doc
    {
      assert before[i] == ds[i];
    }
    OtherDocumentApart(before, doc);
    RegistrationsDistinct(doc, StoredBindings());
    RemoveEachBlock(AllRegistrations(before), Registrations(doc, StoredBindings()), AllRegistrations(after));
    AllRegistrationsAppend(before, after);
  }

  lemma {:induction false} RemoveFixedValid(r: Router, doc: Doc)
    requires Valid(r)
    ensures Valid(RemoveDocumentFixed(r, doc))
  {
    var ds := r.documents;
    if doc !in ds {
      AllRegistrationsTargets(ds);
      RemoveEachAbsent(r.listeners, Registrations(doc, StoredBindings()));
    } else {
      var k :| 0 <= k < |ds| && ds[k] == doc;
      RemoveAttachedDocument(ds, k);
      RemoveAttachedBlock(ds, k);
      NoDupWithout(ds, k);
    }
  }

  lemma NoDupWithout<T>(s: seq<T>, k: nat)
    requires NoDup(s) && k < |s|
    ensures NoDup(s[..k] + s[k + 1..])
  {
    var rest := s[..k] + s[k + 1..];
    assert forall i :: 0 <= i < |rest| ==> rest[i] == if i < k then s[i] else s[i + 1];
  }


  /** The corrected router after a sequence of calls, in order. */
  function ApplyFixed(r: Router, calls: seq<Call>): Router
    decreases |calls|
  {
    if calls == [] then r
    else
      var r' := match calls[0]
        case Append(d) => AppendDocumentFixed(r, d)
        case Remove(d) => RemoveDocumentFixed(r, d);
      ApplyFixed(r', calls[1..])
  }

  lemma {:induction false} ApplyFixedValid(r: Router, calls: seq<Call>)
    requires Valid(r)
    ensures Valid(ApplyFixed(r, calls))
    decreases |calls|
  {
    if calls != [] {
      match calls[0] {
        case Append(d) => AppendFixedValid(r, d);
        case Remove(d) => RemoveFixedValid(r, d);
      }
      var r' := match calls[0]
        case Append(d) => AppendDocumentFixed(r, d)
        case Remove(d) => RemoveDocumentFixed(r, d);
      ApplyFixedValid(r', calls[1..]);
    }
  }

  /** With each document listed once, firing an event at a target runs the
      table's translator once if the target's document is listed and listens
      for that type there, and runs nothing otherwise. */
  lemma {:induction false} DeliverAll(ds: seq<Doc>, t: Target, e: RawEvent)
    requires NoDup(ds)
    ensures Deliver(AllRegistrations(ds), t, e) ==
      if t.doc in ds && Listens(t, e.kind) then Run(EntryFor(e.kind).handler, e) else []
    decreases |ds|
  {
    if ds != [] {
      var ds' := ds[..|ds| - 1];
      var last := ds[|ds| - 1];
      assert ds == ds' + [last];
      assert NoDup(ds');
      assert last !in ds';
      DeliverAll(ds', t, e);
      DeliverAppend(AllRegistrations(ds'), Registrations(last, StoredBindings()), t, e);
      DeliverToDocument(last, StoredBindings(), t, e);
    }
  }

  /** Whatever sequence of `appendDocument` and `removeDocument` calls the
      corrected router has seen, a raw event fired at an attached document (or
      its window) is translated exactly once, and one fired at a detached
      document is not translated at all. */
  lemma FixedRouterTranslatesOnce(calls: seq<Call>, t: Target, e: RawEvent)
    ensures var r := ApplyFixed(Initial, calls);
      Deliver(r.listeners, t, e) ==
        if t.doc in r.documents && Listens(t, e.kind) then Run(EntryFor(e.kind).handler, e) else []
  {
    ApplyFixedValid(Initial, calls);
    DeliverAll(ApplyFixed(Initial, calls).documents, t, e);
  }

  /** On the corrected router, appending twice is appending once, and removing
      a document that is not attached changes nothing. */
  lemma FixedAttachDetachIdempotent(r: Router, doc: Doc)
    requires Valid(r)
    ensures AppendDocumentFixed(AppendDocumentFixed(r, doc), doc) == AppendDocumentFixed(r, doc)
    ensures doc !in r.documents ==> RemoveDocumentFixed(r, doc) == r
  {
    if doc !in r.documents {
      AllRegistrationsTargets(r.documents);
      RemoveEachAbsent(r.listeners, Registrations(doc, StoredBindings()));
    }
  }
}
