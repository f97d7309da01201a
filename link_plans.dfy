/** The pure rules of the link-annotation engine (src/components/ExtraButton.ts):
    which matched elements a rescan renders, how an inserted overlay is
    classified, which inserted nodes a dynamic watcher queues, the table of
    watched view types, the keys watchers are registered under, and the
    calls a global refresh or a teardown makes. */
module LinkPlans {
  import opened Wrappers
  import opened JsText
  import opened Dom

  /** Items handled per frame by the overlay drain and by a dynamic drain. */
  const OverlayChunkSize: nat := 10
  const DynamicChunkSize: nat := 20

  /** From this many matches on, updateContainer collects the elements first
      and renders them in a second pass. */
  const CollectThreshold: nat := 50

  /** What is rescanned inside an inserted modal, and inside an inserted
      suggestion popup (the first two selectors of the modal list). */
  const SuggestionSelector: string := ".suggestion-title, .suggestion-note"
  const ModalSelector: string :=
    SuggestionSelector + ", .another-quick-switcher__item__title, .omnisearch-result__title"

  const ModalMarker: string := "modal-container"
  const SuggestionMarker: string := "suggestion-container"

  /** The classes a dynamic watcher looks for when none are given. */
  const DefaultOwnClass: string := "tree-item-inner"
  const DefaultParentClass: string := "tree-item"

  // ---------------------------------------------------------------------
  // updateContainer and removeFromContainer

  /** A link to a canvas file: its parent's `data-path` includes ".canvas". */
  predicate IsCanvasFileLink(n: Node) {
    n.parentDataPath.Some? && Contains(n.parentDataPath.value, ".canvas")
  }

  /** The matched elements updateContainer renders, in document order. */
  function LinkTargets(nodes: seq<Node>): (r: seq<Node>)
    ensures |r| <= |nodes|
  {
    if nodes == [] then []
    else
      var last := nodes[|nodes| - 1];
      LinkTargets(nodes[..|nodes| - 1]) + (if IsCanvasFileLink(last) then [] else [last])
  }

  /** The targets are exactly the matches that are not canvas file links. */
  lemma {:induction false} LinkTargetsMembers(nodes: seq<Node>)
    ensures forall n :: n in LinkTargets(nodes) <==> n in nodes && !IsCanvasFileLink(n)
  {
    if nodes != [] {
      var front := nodes[..|nodes| - 1];
      LinkTargetsMembers(front);
      assert nodes == front + [nodes[|nodes| - 1]];
    }
  }

  /** One more match extends the targets by that match unless it is a canvas
      file link. */
  lemma LinkTargetsSnoc(nodes: seq<Node>, i: nat)
    requires i < |nodes|
    ensures LinkTargets(nodes[..i + 1])
      == LinkTargets(nodes[..i]) + (if IsCanvasFileLink(nodes[i]) then [] else [nodes[i]])
  {
    assert nodes[..i + 1][..i] == nodes[..i];
  }

  /** Selecting the targets commutes with concatenation, so the rendered
      elements keep the document order of the matches. */
  lemma {:induction false} LinkTargetsConcat(a: seq<Node>, b: seq<Node>)
    ensures LinkTargets(a + b) == LinkTargets(a) + LinkTargets(b)
  {
    if b != [] {
      var b' := b[..|b| - 1];
      assert (a + b)[..|a + b| - 1] == a + b';
      assert (a + b)[|a + b| - 1] == b[|b| - 1];
      LinkTargetsConcat(a, b');
    } else {
      assert a + b == a;
    }
  }

  /** One render call per element, in order. */
  function Renders(els: seq<Node>, viewType: Option<string>): (r: seq<Effect>)
    ensures |r| == |els|
  {
    if els == [] then [] else Renders(els[..|els| - 1], viewType) + [Render(els[|els| - 1], viewType)]
  }

  lemma {:induction false} RendersAt(els: seq<Node>, viewType: Option<string>)
    ensures forall k :: 0 <= k < |els| ==> Renders(els, viewType)[k] == Render(els[k], viewType)
  {
    if els != [] {
      RendersAt(els[..|els| - 1], viewType);
    }
  }

  lemma RendersSnoc(els: seq<Node>, el: Node, viewType: Option<string>)
    ensures Renders(els + [el], viewType) == Renders(els, viewType) + [Render(el, viewType)]
  {
    assert (els + [el])[..|els|] == els;
  }

  /** The calls updateContainer(container, selector, viewType) makes. */
  function ContainerRenders(host: Host, container: Node, selector: string, viewType: Option<string>): seq<Effect> {
    Renders(LinkTargets(host.findAll(container, selector)), viewType)
  }

  /** updateContainer renders, under the given view type, exactly the matched
      elements that are not canvas file links, and nothing when the selector
      matches nothing. Their order and number (one render per element, in
      document order) follow from RendersAt and LinkTargetsConcat. */
  lemma ContainerRendersSpec(host: Host, container: Node, selector: string, viewType: Option<string>)
    ensures var nodes := host.findAll(container, selector);
      var r := ContainerRenders(host, container, selector, viewType);
      && (nodes == [] ==> r == [])
      && |r| <= |nodes|
      && (forall e :: e in r ==> e.Render? && e.viewType == viewType && e.node in nodes && !IsCanvasFileLink(e.node))
      && (forall n :: n in nodes && !IsCanvasFileLink(n) ==> Render(n, viewType) in r)
  {
    var nodes := host.findAll(container, selector);
    var t := LinkTargets(nodes);
    var r := ContainerRenders(host, container, selector, viewType);
    LinkTargetsMembers(nodes);
    RendersAt(t, viewType);
    forall e | e in r
      ensures e.Render? && e.viewType == viewType && e.node in nodes && !IsCanvasFileLink(e.node)
    {
      var k :| 0 <= k < |r| && r[k] == e;
      assert t[k] in t;
    }
    forall n | n in nodes && !IsCanvasFileLink(n) ensures Render(n, viewType) in r {
      assert n in t;
      var k :| 0 <= k < |t| && t[k] == n;
      assert r[k] == Render(n, viewType);
    }
  }

  /** One clear call per element, in order. */
  function Clears(els: seq<Node>): (r: seq<Effect>)
    ensures |r| == |els|
  {
    if els == [] then [] else Clears(els[..|els| - 1]) + [ClearAttrs(els[|els| - 1])]
  }

  lemma {:induction false} ClearsAt(els: seq<Node>)
    ensures forall k :: 0 <= k < |els| ==> Clears(els)[k] == ClearAttrs(els[k])
  {
    if els != [] {
      ClearsAt(els[..|els| - 1]);
    }
  }

  lemma ClearsSnoc(els: seq<Node>, el: Node)
    ensures Clears(els + [el]) == Clears(els) + [ClearAttrs(el)]
  {
    assert (els + [el])[..|els|] == els;
  }

  // ---------------------------------------------------------------------
  // The overlay watcher (initModalObservers)

  /** A queued rescan of an inserted overlay. */
  datatype PendingUpdate = PendingUpdate(node: Node, selector: string)

  /** The selector an inserted top-level node is queued with, if any: only
      HTML elements whose className is a string and names a modal or a
      suggestion container are queued, and a suggestion container gets the
      narrower list even when it is also a modal container. */
  function ClassifyOverlay(n: Node): (r: Option<string>)
    ensures r.Some? <==>
      n.isHtmlElement && n.className.ClassString?
      && (Contains(n.className.s, ModalMarker) || Contains(n.className.s, SuggestionMarker))
    ensures r.Some? && Contains(n.className.s, SuggestionMarker) ==> r.value == SuggestionSelector
    ensures r.Some? && !Contains(n.className.s, SuggestionMarker) ==> r.value == ModalSelector
  {
    if !n.isHtmlElement then None
    else match n.className
      case ClassString(s) =>
        var isModal := Contains(s, ModalMarker);
        var isSuggestion := Contains(s, SuggestionMarker);
        if isModal || isSuggestion then Some(if isSuggestion then SuggestionSelector else ModalSelector)
        else None
      case _ => None
  }

  /** What one record's added nodes put on the overlay queue, in order. */
  function OverlayUpdates(nodes: seq<Node>): (r: seq<PendingUpdate>)
    ensures |r| <= |nodes|
  {
    if nodes == [] then []
    else
      var last := nodes[|nodes| - 1];
      var c := ClassifyOverlay(last);
      OverlayUpdates(nodes[..|nodes| - 1]) + (if c.Some? then [PendingUpdate(last, c.value)] else [])
  }

  /** A record queues exactly its added nodes that ClassifyOverlay accepts,
      each with the selector it chose. */
  lemma {:induction false} OverlayUpdatesMembers(nodes: seq<Node>)
    ensures forall u :: u in OverlayUpdates(nodes) ==> u.node in nodes && ClassifyOverlay(u.node) == Some(u.selector)
    ensures forall n :: n in nodes && ClassifyOverlay(n).Some? ==> PendingUpdate(n, ClassifyOverlay(n).value) in OverlayUpdates(nodes)
  {
    if nodes != [] {
      var front := nodes[..|nodes| - 1];
      OverlayUpdatesMembers(front);
      assert nodes == front + [nodes[|nodes| - 1]];
    }
  }

  lemma OverlayUpdatesSnoc(nodes: seq<Node>, j: nat)
    requires j < |nodes|
    ensures OverlayUpdates(nodes[..j + 1]) == OverlayUpdates(nodes[..j])
      + (if ClassifyOverlay(nodes[j]).Some? then [PendingUpdate(nodes[j], ClassifyOverlay(nodes[j]).value)] else [])
  {
    assert nodes[..j + 1][..j] == nodes[..j];
  }

  /** What one batch of records puts on the overlay queue; records that are
      not of type 'childList' are skipped. */
  function OverlayBatch(records: seq<MutationRecord>): seq<PendingUpdate> {
    if records == [] then []
    else
      var last := records[|records| - 1];
      OverlayBatch(records[..|records| - 1]) + (if last.isChildList then OverlayUpdates(last.addedNodes) else [])
  }

  /** A batch queues only accepted overlays, and every accepted node added
      by a 'childList' record of the batch. */
  lemma {:induction false} OverlayBatchMembers(records: seq<MutationRecord>)
    ensures forall u :: u in OverlayBatch(records) ==> ClassifyOverlay(u.node) == Some(u.selector)
    ensures forall j, n ::
      (0 <= j < |records| && records[j].isChildList && n in records[j].addedNodes && ClassifyOverlay(n).Some?)
      ==> PendingUpdate(n, ClassifyOverlay(n).value) in OverlayBatch(records)
  {
    if records != [] {
      var last := records[|records| - 1];
      var front := records[..|records| - 1];
      OverlayBatchMembers(front);
      OverlayUpdatesMembers(last.addedNodes);
      assert forall j :: 0 <= j < |front| ==> front[j] == records[j];
    }
  }

  lemma OverlayBatchSnoc(records: seq<MutationRecord>, i: nat)
    requires i < |records|
    ensures OverlayBatch(records[..i + 1]) == OverlayBatch(records[..i])
      + (if records[i].isChildList then OverlayUpdates(records[i].addedNodes) else [])
  {
    assert records[..i + 1][..i] == records[..i];
  }

  // ---------------------------------------------------------------------
  // The dynamic watcher (_watchContainerDynamic)

  /** An added node a dynamic watcher looks inside: its className is a string
      that includes the parent class. */
  predicate HoldsParentClass(n: Node, parentClass: string) {
    n.className.ClassString? && Contains(n.className.s, parentClass)
  }

  /** What one record's added nodes put on a dynamic watcher's queue: the
      elements carrying the own class inside each added node that holds the
      parent class, in order. */
  function AddedTargets(host: Host, nodes: seq<Node>, ownClass: string, parentClass: string): seq<Node> {
    if nodes == [] then []
    else
      var last := nodes[|nodes| - 1];
      AddedTargets(host, nodes[..|nodes| - 1], ownClass, parentClass)
        + (if HoldsParentClass(last, parentClass) then host.elementsByClass(last, ownClass) else [])
  }

  /** Every queued element lies in an added node that holds the parent class
      and carries the own class there. */
  lemma {:induction false} AddedTargetsOrigin(host: Host, nodes: seq<Node>, ownClass: string, parentClass: string)
    ensures forall t :: t in AddedTargets(host, nodes, ownClass, parentClass) ==>
      exists n :: n in nodes && HoldsParentClass(n, parentClass) && t in host.elementsByClass(n, ownClass)
  {
    if nodes != [] {
      var front := nodes[..|nodes| - 1];
      AddedTargetsOrigin(host, front, ownClass, parentClass);
      assert nodes == front + [nodes[|nodes| - 1]];
    }
  }

  /** Every element carrying the own class inside an added node that holds
      the parent class is queued. */
  lemma {:induction false} AddedTargetsComplete(host: Host, nodes: seq<Node>, ownClass: string, parentClass: string)
    ensures forall n, t :: n in nodes && HoldsParentClass(n, parentClass) && t in host.elementsByClass(n, ownClass) ==>
      t in AddedTargets(host, nodes, ownClass, parentClass)
  {
    if nodes != [] {
      var front := nodes[..|nodes| - 1];
      AddedTargetsComplete(host, front, ownClass, parentClass);
      assert nodes == front + [nodes[|nodes| - 1]];
    }
  }

  /** A batch queues exactly the own-class elements of the added nodes that
      hold the parent class, over its 'childList' records. */
  lemma {:induction false} BatchTargetsMembers(host: Host, records: seq<MutationRecord>, ownClass: string, parentClass: string)
    ensures forall t :: t in BatchTargets(host, records, ownClass, parentClass) ==>
      exists j, n :: 0 <= j < |records| && records[j].isChildList && n in records[j].addedNodes
        && HoldsParentClass(n, parentClass) && t in host.elementsByClass(n, ownClass)
    ensures forall j, n, t ::
      (0 <= j < |records| && records[j].isChildList && n in records[j].addedNodes
        && HoldsParentClass(n, parentClass) && t in host.elementsByClass(n, ownClass))
      ==> t in BatchTargets(host, records, ownClass, parentClass)
  {
    if records != [] {
      var last := records[|records| - 1];
      var front := records[..|records| - 1];
      BatchTargetsMembers(host, front, ownClass, parentClass);
      AddedTargetsOrigin(host, last.addedNodes, ownClass, parentClass);
      AddedTargetsComplete(host, last.addedNodes, ownClass, parentClass);
      assert forall j :: 0 <= j < |front| ==> front[j] == records[j];
      forall t | t in BatchTargets(host, records, ownClass, parentClass)
        ensures exists j, n ::
                  && 0 <= j < |records| && records[j].isChildList && n in records[j].addedNodes
                  && HoldsParentClass(n, parentClass) && t in host.elementsByClass(n, ownClass)
      {
        if t !in BatchTargets(host, front, ownClass, parentClass) {
          var n :| n in last.addedNodes && HoldsParentClass(n, parentClass) && t in host.elementsByClass(n, ownClass);
          assert records[|records| - 1] == last;
        }
      }
    }
  }

  lemma AddedTargetsSnoc(host: Host, nodes: seq<Node>, j: nat, ownClass: string, parentClass: string)
    requires j < |nodes|
    ensures AddedTargets(host, nodes[..j + 1], ownClass, parentClass) == AddedTargets(host, nodes[..j], ownClass, parentClass)
      + (if HoldsParentClass(nodes[j], parentClass) then host.elementsByClass(nodes[j], ownClass) else [])
  {
    assert nodes[..j + 1][..j] == nodes[..j];
  }

  lemma BatchTargetsSnoc(host: Host, records: seq<MutationRecord>, i: nat, ownClass: string, parentClass: string)
    requires i < |records|
    ensures BatchTargets(host, records[..i + 1], ownClass, parentClass) == BatchTargets(host, records[..i], ownClass, parentClass)
      + (if records[i].isChildList then AddedTargets(host, records[i].addedNodes, ownClass, parentClass) else [])
  {
    assert records[..i + 1][..i] == records[..i];
  }

  /** What one batch of records puts on a dynamic watcher's queue. */
  function BatchTargets(host: Host, records: seq<MutationRecord>, ownClass: string, parentClass: string): seq<Node> {
    if records == [] then []
    else
      var last := records[|records| - 1];
      BatchTargets(host, records[..|records| - 1], ownClass, parentClass)
        + (if last.isChildList then AddedTargets(host, last.addedNodes, ownClass, parentClass) else [])
  }

  /** Batches concatenate: two batches queue what one batch of both records
      queues. */
  lemma {:induction false} BatchTargetsConcat(host: Host, a: seq<MutationRecord>, b: seq<MutationRecord>, ownClass: string, parentClass: string)
    ensures BatchTargets(host, a + b, ownClass, parentClass)
      == BatchTargets(host, a, ownClass, parentClass) + BatchTargets(host, b, ownClass, parentClass)
  {
    if b != [] {
      var b' := b[..|b| - 1];
      assert (a + b)[..|a + b| - 1] == a + b';
      assert (a + b)[|a + b| - 1] == b[|b| - 1];
      BatchTargetsConcat(host, a, b', ownClass, parentClass);
    } else {
      assert a + b == a;
    }
  }

  /** Inserting one node that holds the parent class and contains one element
      of the own class queues exactly that element. */
  lemma SingleInsertQueuesOne(host: Host, n: Node, t: Node, ownClass: string, parentClass: string)
    requires HoldsParentClass(n, parentClass) && host.elementsByClass(n, ownClass) == [t]
    ensures BatchTargets(host, [MutationRecord(true, [n])], ownClass, parentClass) == [t]
  {
    var records := [MutationRecord(true, [n])];
    assert records[..0] == [];
    assert [n][..0] == [];
    assert AddedTargets(host, [n], ownClass, parentClass) == [t];
  }

  // ---------------------------------------------------------------------
  // The table of watched view types (initViewObservers)

  /** One registerViewType call: the view type, the selector of its link
      elements, whether it is watched for inserted items, and the own and
      parent classes it is watched with. */
  datatype ViewTypeRow = ViewTypeRow(name: string, selector: string, dynamic: bool, ownClass: string, parentClass: string)

  function PlainRow(name: string, selector: string): ViewTypeRow {
    ViewTypeRow(name, selector, false, DefaultOwnClass, DefaultParentClass)
  }

  function IncrementalRow(name: string, selector: string): ViewTypeRow {
    ViewTypeRow(name, selector, true, DefaultOwnClass, DefaultParentClass)
  }

  /** Row `i` of the table of registerViewType calls initViewObservers
      makes; row 13 is made only when backlinks are shown inside documents.
      Every row names a view type. */
  function RegistryRow(i: nat): (row: ViewTypeRow)
    requires i < 14
    ensures row.name != ""
  {
    match i
    case 0 => IncrementalRow("backlink", ".tree-item-inner")
    case 1 => ViewTypeRow("bases", ".internal-link", true, "internal-link", "bases-tr")
    case 2 => ViewTypeRow("bases", ".internal-link", true, "internal-link", "bases-cards-item")
    case 3 => PlainRow("BC-ducks", ".internal-link")
    case 4 => PlainRow("BC-matrix", ".BC-Link")
    case 5 => PlainRow("BC-tree", "a.internal-link")
    case 6 => IncrementalRow("file-explorer", ".nav-file-title-content")
    case 7 => PlainRow("graph-analysis", ".internal-link")
    case 8 => IncrementalRow("markdown", ".internal-link")
    case 9 => IncrementalRow("outgoing-link", ".tree-item-inner")
    case 10 => IncrementalRow("recent-files", ".nav-file-title-content")
    case 11 => IncrementalRow("search", ".tree-item-inner")
    case 12 => IncrementalRow("starred", ".nav-file-title-content")
    case _ => IncrementalRow("markdown", ".tree-item-inner")
  }

  /** The first `n` rows of the table, in order. */
  function RegistryPrefix(n: nat): (rows: seq<ViewTypeRow>)
    requires n <= 14
    ensures |rows| == n
  {
    if n == 0 then [] else RegistryPrefix(n - 1) + [RegistryRow(n - 1)]
  }

  /** Row `k` of a prefix is row `k` of the table. */
  lemma {:induction false} RegistryPrefixAt(n: nat, k: nat)
    requires k < n <= 14
    ensures RegistryPrefix(n)[k] == RegistryRow(k)
  {
    if k < n - 1 {
      RegistryPrefixAt(n - 1, k);
    }
  }

  /** The registerViewType calls of initViewObservers, in order: 13 rows,
      and the last one as well when backlinks are shown inside documents. */
  function Registry(backlinkInDocument: bool): (rows: seq<ViewTypeRow>)
    ensures |rows| == if backlinkInDocument then 14 else 13
  {
    RegistryPrefix(if backlinkInDocument then 14 else 13)
  }

  /** The key of the watcher for leaf `k` of `leafCount` open leaves: the view
      type itself for a single leaf, the view type followed by the leaf's
      index when there are several. */
  function WatchKey(name: string, leafCount: nat, k: nat): string {
    if leafCount > 1 then name + DecimalString(k) else name
  }

  /** The leaves of one view type get pairwise distinct keys. */
  lemma WatchKeysDistinct(name: string, leafCount: nat, i: nat, j: nat)
    requires i < leafCount && j < leafCount && i != j
    ensures WatchKey(name, leafCount, i) != WatchKey(name, leafCount, j)
  {
    DecimalInjective(i, j);
    assert (name + DecimalString(i))[|name|..] == DecimalString(i);
  }

  /** Each row registers one watcher per open leaf of its view type. */
  function WatcherCount(host: Host, rows: seq<ViewTypeRow>): nat {
    if rows == [] then 0
    else WatcherCount(host, rows[..|rows| - 1]) + |host.leavesOfType(rows[|rows| - 1].name)|
  }

  /** The immediate rescan registerViewType makes: only when exactly one leaf
      of the type is open. */
  function RegisterRenders(host: Host, row: ViewTypeRow): seq<Effect> {
    var leaves := host.leavesOfType(row.name);
    if |leaves| == 1 then ContainerRenders(host, leaves[0], row.selector, Some(row.name)) else []
  }

  function RegistryRenders(host: Host, rows: seq<ViewTypeRow>): seq<Effect> {
    if rows == [] then []
    else RegistryRenders(host, rows[..|rows| - 1]) + RegisterRenders(host, rows[|rows| - 1])
  }

  // ---------------------------------------------------------------------
  // updateLinks and disconnectObservers

  /** An entry of the `observers` list: the observer (a watcher id), the key
      it was registered under, and its selector. */
  datatype WatchEntry = WatchEntry(id: nat, key: string, selector: string)

  /** The entries registerViewType appends for the first `count` of the
      row's `leafCount` leaves, the watchers taking ids from `base` on. A
      watcher made without dynamic updates is listed only when its key is
      not the empty string (`if (viewType)` in _watchContainer). */
  function NewEntries(row: ViewTypeRow, leafCount: nat, base: nat, count: nat): (r: seq<WatchEntry>)
    requires count <= leafCount
    ensures |r| <= count
  {
    if count == 0 then []
    else
      var key := WatchKey(row.name, leafCount, count - 1);
      NewEntries(row, leafCount, base, count - 1)
        + (if row.dynamic || key != "" then [WatchEntry(base + count - 1, key, row.selector)] else [])
  }

  /** Every entry carries the row's selector and an id among the ones
      handed out for the row. */
  lemma {:induction false} NewEntriesRange(row: ViewTypeRow, leafCount: nat, base: nat, count: nat)
    requires count <= leafCount
    ensures forall e :: e in NewEntries(row, leafCount, base, count) ==>
      base <= e.id < base + count && e.selector == row.selector
  {
    if count > 0 {
      NewEntriesRange(row, leafCount, base, count - 1);
    }
  }

  /** A row with a non-empty view type lists one entry per leaf, numbered
      from `base`, under the keys WatchKey gives. */
  lemma {:induction false} NewEntriesExact(row: ViewTypeRow, leafCount: nat, base: nat, count: nat)
    requires count <= leafCount && row.name != ""
    ensures var r := NewEntries(row, leafCount, base, count);
      |r| == count && forall k :: 0 <= k < count ==> r[k] == WatchEntry(base + k, WatchKey(row.name, leafCount, k), row.selector)
  {
    if count > 0 {
      NewEntriesExact(row, leafCount, base, count - 1);
    }
  }

  /** The entries initViewObservers lists, row after row, ids from `base` on. */
  function RegistryEntries(host: Host, rows: seq<ViewTypeRow>, base: nat): seq<WatchEntry> {
    if rows == [] then []
    else
      var front := rows[..|rows| - 1];
      var row := rows[|rows| - 1];
      var n := |host.leavesOfType(row.name)|;
      RegistryEntries(host, front, base) + NewEntries(row, n, base + WatcherCount(host, front), n)
  }

  /** Every view type in the table has a non-empty name, so every leaf gets
      an entry. */
  lemma {:induction false} RegistryEntriesCount(host: Host, rows: seq<ViewTypeRow>, base: nat)
    requires forall k :: 0 <= k < |rows| ==> rows[k].name != ""
    ensures |RegistryEntries(host, rows, base)| == WatcherCount(host, rows)
  {
    if rows != [] {
      var row := rows[|rows| - 1];
      var n := |host.leavesOfType(row.name)|;
      RegistryEntriesCount(host, rows[..|rows| - 1], base);
      NewEntriesExact(row, n, base + WatcherCount(host, rows[..|rows| - 1]), n);
    }
  }

  /** Every view type of the table has a non-empty name, so initViewObservers
      lists one entry per open leaf. */
  lemma RegistryListsEveryLeaf(host: Host, backlinkInDocument: bool, base: nat)
    ensures var rows := Registry(backlinkInDocument);
      |RegistryEntries(host, rows, base)| == WatcherCount(host, rows)
  {
    var rows := Registry(backlinkInDocument);
    forall k | 0 <= k < |rows|
      ensures rows[k].name != ""
    {
      RegistryPrefixAt(|rows|, k);
    }
    RegistryEntriesCount(host, rows, base);
  }

  /** Rescans of the given containers under one key. */
  function LeafRenders(host: Host, leaves: seq<Node>, selector: string, key: string): seq<Effect> {
    if leaves == [] then []
    else
      var front := LeafRenders(host, leaves[..|leaves| - 1], selector, key);
      front + ContainerRenders(host, leaves[|leaves| - 1], selector, Some(key))
  }

  /** The rescans updateLinks makes after the global refresh: for every entry,
      every open leaf whose view type equals the entry's key. */
  function RefreshPlan(host: Host, entries: seq<WatchEntry>): seq<Effect> {
    if entries == [] then []
    else
      var e := entries[|entries| - 1];
      RefreshPlan(host, entries[..|entries| - 1]) + LeafRenders(host, host.leavesOfType(e.key), e.selector, e.key)
  }

  /** A refresh only renders: it never clears an annotation. */
  lemma {:induction false} RefreshPlanOnlyRenders(host: Host, entries: seq<WatchEntry>)
    ensures forall e :: e in RefreshPlan(host, entries) ==> e.Render? && e.viewType.Some?
  {
    if entries != [] {
      var e := entries[|entries| - 1];
      RefreshPlanOnlyRenders(host, entries[..|entries| - 1]);
      LeafRendersOnlyRender(host, host.leavesOfType(e.key), e.selector, e.key);
    }
  }

  lemma {:induction false} LeafRendersOnlyRender(host: Host, leaves: seq<Node>, selector: string, key: string)
    ensures forall e :: e in LeafRenders(host, leaves, selector, key) ==> e.Render? && e.viewType == Some(key)
  {
    if leaves != [] {
      LeafRendersOnlyRender(host, leaves[..|leaves| - 1], selector, key);
      ContainerRendersSpec(host, leaves[|leaves| - 1], selector, Some(key));
    }
  }

  /** An entry whose key names no open view type (the numbered keys of a view
      type with several leaves, unless the host has view types of those
      names) contributes no rescan to updateLinks. */
  lemma UnmatchedKeyNotRescanned(host: Host, entries: seq<WatchEntry>, e: WatchEntry)
    requires host.leavesOfType(e.key) == []
    ensures RefreshPlan(host, entries + [e]) == RefreshPlan(host, entries)
  {
    assert (entries + [e])[..|entries|] == entries;
  }

  /** Clears of the given containers' matches. */
  function LeafClears(host: Host, leaves: seq<Node>, selector: string): seq<Effect> {
    if leaves == [] then []
    else
      var front := LeafClears(host, leaves[..|leaves| - 1], selector);
      front + Clears(host.findAll(leaves[|leaves| - 1], selector))
  }

  /** The clears disconnectObservers makes: for every entry, every match of
      its selector in every open leaf whose view type equals its key. */
  function ClearPlan(host: Host, entries: seq<WatchEntry>): seq<Effect> {
    if entries == [] then []
    else
      var e := entries[|entries| - 1];
      ClearPlan(host, entries[..|entries| - 1]) + LeafClears(host, host.leavesOfType(e.key), e.selector)
  }

  /** Teardown only clears: it never renders. */
  lemma {:induction false} ClearPlanOnlyClears(host: Host, entries: seq<WatchEntry>)
    ensures forall e :: e in ClearPlan(host, entries) ==> e.ClearAttrs?
  {
    if entries != [] {
      var e := entries[|entries| - 1];
      ClearPlanOnlyClears(host, entries[..|entries| - 1]);
      LeafClearsOnlyClear(host, host.leavesOfType(e.key), e.selector);
    }
  }

  lemma {:induction false} LeafClearsOnlyClear(host: Host, leaves: seq<Node>, selector: string)
    ensures forall e :: e in LeafClears(host, leaves, selector) ==> e.ClearAttrs?
  {
    if leaves != [] {
      LeafClearsOnlyClear(host, leaves[..|leaves| - 1], selector);
      ClearsAt(host.findAll(leaves[|leaves| - 1], selector));
    }
  }

  // ---------------------------------------------------------------------
  // One step of the loops that compute the plans above

  lemma LeafRendersSnoc(host: Host, leaves: seq<Node>, j: nat, selector: string, key: string)
    requires j < |leaves|
    ensures LeafRenders(host, leaves[..j + 1], selector, key)
      == LeafRenders(host, leaves[..j], selector, key) + ContainerRenders(host, leaves[j], selector, Some(key))
  {
    assert leaves[..j + 1][..j] == leaves[..j];
  }

  lemma RefreshPlanSnoc(host: Host, entries: seq<WatchEntry>, k: nat)
    requires k < |entries|
    ensures RefreshPlan(host, entries[..k + 1])
      == RefreshPlan(host, entries[..k]) + LeafRenders(host, host.leavesOfType(entries[k].key), entries[k].selector, entries[k].key)
  {
    assert entries[..k + 1][..k] == entries[..k];
  }

  lemma LeafClearsSnoc(host: Host, leaves: seq<Node>, j: nat, selector: string)
    requires j < |leaves|
    ensures LeafClears(host, leaves[..j + 1], selector)
      == LeafClears(host, leaves[..j], selector) + Clears(host.findAll(leaves[j], selector))
  {
    assert leaves[..j + 1][..j] == leaves[..j];
  }

  lemma ClearPlanSnoc(host: Host, entries: seq<WatchEntry>, k: nat)
    requires k < |entries|
    ensures ClearPlan(host, entries[..k + 1])
      == ClearPlan(host, entries[..k]) + LeafClears(host, host.leavesOfType(entries[k].key), entries[k].selector)
  {
    assert entries[..k + 1][..k] == entries[..k];
  }

  lemma RegistrySnoc(host: Host, rows: seq<ViewTypeRow>, r: nat, base: nat)
    requires r < |rows|
    ensures var n := |host.leavesOfType(rows[r].name)|;
      && WatcherCount(host, rows[..r + 1]) == WatcherCount(host, rows[..r]) + n
      && RegistryRenders(host, rows[..r + 1]) == RegistryRenders(host, rows[..r]) + RegisterRenders(host, rows[r])
      && RegistryEntries(host, rows[..r + 1], base)
        == RegistryEntries(host, rows[..r], base) + NewEntries(rows[r], n, base + WatcherCount(host, rows[..r]), n)
  {
    var s := rows[..r + 1];
    assert s[..|s| - 1] == rows[..r] && s[|s| - 1] == rows[r];
    RegistrySnocCount(host, s, rows[..r], rows[r]);
    RegistrySnocRenders(host, s, rows[..r], rows[r]);
    RegistrySnocEntries(host, s, rows[..r], rows[r], base);
  }

  lemma RegistrySnocCount(host: Host, s: seq<ViewTypeRow>, front: seq<ViewTypeRow>, row: ViewTypeRow)
    requires s != [] && s[..|s| - 1] == front && s[|s| - 1] == row
    ensures WatcherCount(host, s) == WatcherCount(host, front) + |host.leavesOfType(row.name)|
  {
  }

  lemma RegistrySnocRenders(host: Host, s: seq<ViewTypeRow>, front: seq<ViewTypeRow>, row: ViewTypeRow)
    requires s != [] && s[..|s| - 1] == front && s[|s| - 1] == row
    ensures RegistryRenders(host, s) == RegistryRenders(host, front) + RegisterRenders(host, row)
  {
  }

  lemma RegistrySnocEntries(host: Host, s: seq<ViewTypeRow>, front: seq<ViewTypeRow>, row: ViewTypeRow, base: nat)
    requires s != [] && s[..|s| - 1] == front && s[|s| - 1] == row
    ensures var n := |host.leavesOfType(row.name)|;
      RegistryEntries(host, s, base) == RegistryEntries(host, front, base) + NewEntries(row, n, base + WatcherCount(host, front), n)
  {
  }

  /** The rows before `j` register no more watchers than all the rows. */
  lemma {:induction false} WatcherCountPrefix(host: Host, rows: seq<ViewTypeRow>, j: nat)
    requires j <= |rows|
    ensures WatcherCount(host, rows[..j]) <= WatcherCount(host, rows)
    decreases |rows|
  {
    if j < |rows| {
      var front := rows[..|rows| - 1];
      WatcherCountPrefix(host, front, j);
      assert front[..j] == rows[..j];
    } else {
      assert rows[..j] == rows;
    }
  }
}
