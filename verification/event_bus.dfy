/**
 The vocabulary of the editor's event manager: the named topics this core
 publishes or consumes, and a dispatch (a topic with an optional payload).
 Delivery to subscribers belongs to the event manager and is not modelled;
 a dispatch is recorded as a value in a trace.
 */
module EventBus {
  import opened Dom

  datatype Topic =
    | OnSaveChanges | OnPublish | OnEscape | OnTopLevelEscape
    | OnPointerMove | OnPointerDown | OnPointerUp
    | OnDragStart | OnDragEnter | OnDragOver | OnDragLeave | OnDragLeaveScreen
    | OnDragDrop | OnDragEnd
    | OnPaste | OnError

  /** `dispatchEvent(topic)` or `dispatchEvent(topic, event)`. */
  datatype Dispatch = Dispatch(topic: Topic, payload: Option<RawEvent>)

  /** The topics whose payload is the raw browser event that caused them; every
      other topic is published without a payload. */
  predicate CarriesEvent(t: Topic)
  {
    t in {OnPointerMove, OnPointerDown, OnPointerUp, OnDragDrop, OnPaste, OnError}
  }
}
