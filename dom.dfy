/** The parts of the host application and its DOM that the link-annotation
    engine reads, and the calls it makes into the rendering code. */
module Dom {
  import opened Wrappers

  /** A node's `className` as the observers read it: missing (text and
      comment nodes), a string (HTML elements), or some other value (SVG
      elements expose an object there). */
  datatype ClassName = NoClassName | ClassString(s: string) | ClassObject

  /** A DOM node: an identity, whether it is an HTMLElement, its className,
      and the `data-path` attribute of its parent element (`None` when it
      has no parent element or the parent has no such attribute). */
  datatype Node = Node(id: nat, isHtmlElement: bool, className: ClassName, parentDataPath: Option<string>)

  /** A MutationRecord: whether its type is 'childList', and the nodes it
      reports as added, in order. */
  datatype MutationRecord = MutationRecord(isChildList: bool, addedNodes: seq<Node>)

  /** The host at one moment, as the engine queries it:
      - the container element of each open leaf of a view type
        (`workspace.getLeavesOfType(type)`, then `leaf.view.containerEl`);
      - the elements under a node that match a selector, in document order
        (`findAll`);
      - the descendants of a node that carry a class (`getElementsByClassName`). */
  datatype Host = Host(
    leavesOfType: string -> seq<Node>,
    findAll: (Node, string) -> seq<Node>,
    elementsByClass: (Node, string) -> seq<Node>)

  /** A call from the engine into the rendering code:
      `updateDivExtraAttributes(el, viewType, "")`, `clearExtraAttributes(el)`,
      or `updateVisibleLinks()`. */
  datatype Effect = Render(node: Node, viewType: Option<string>) | ClearAttrs(node: Node) | RefreshVisible
}
