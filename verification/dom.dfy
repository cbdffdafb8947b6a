/**
 The browser-side values the editor's interaction core reads: documents, DOM
 nodes and the raw input events it translates. Only the fields the core
 inspects are kept; everything else about a DOM event is left out.
 */
module Dom {

  /** An optional value, standing in for a property that may be `undefined`. */
  datatype Option<+T> = None | Some(value: T)

  /** A DOM node, compared by reference as the source compares elements. */
  datatype Node = Node(id: nat)

  /** A document the router can attach to. Each document has its own window. */
  datatype Doc = Doc(id: nat)

  /** The key codes the keydown translator distinguishes. `Keys.S`, `Keys.P` and
      `Keys.Esc` are three distinct codes; every other key is `OtherKey`. */
  datatype KeyCode = KeyS | KeyP | KeyEsc | OtherKey(code: nat)

  /** The DOM event types the router listens to. */
  datatype EventKind =
    | KeyDown
    | DragEnter | DragStart | DragOver | DragLeave | Drop | DragEnd
    | Paste
    | MouseMove | MouseDown | MouseUp
    | Error

  /** A raw browser event. `target` is the node the event was fired at and
      `ancestors` its parent chain, nearest first, up to the root. */
  datatype RawEvent = RawEvent(
    kind: EventKind,
    ctrlKey: bool,
    keyCode: KeyCode,
    screenX: int,
    screenY: int,
    target: Node,
    ancestors: seq<Node>)
}
