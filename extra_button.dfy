/** The link-annotation engine (src/components/ExtraButton.ts): the
    MutationObservers it keeps on view containers and on the document body,
    the state their callbacks share, the animation frames they schedule, and
    the rescans, clears and refreshes they make. */
module ExtraButtonModel {
  import opened Wrappers
  import opened JsText
  import opened Dom
  import opened Chunking
  import opened LinkPlans

  /** The state captured by one MutationObserver and its callbacks:
      - `Plain`: _watchContainer, a rescan coalesced into one frame;
      - `Dynamic`: _watchContainerDynamic, a queue of inserted link
        elements drained 20 per frame;
      - `Overlay`: initModalObservers, a queue of inserted modals and
        suggestion popups drained 10 per frame.
      `connected` is false once `disconnect()` was called; `scheduled` is the
      closure's `updateScheduled` (or `modalUpdateScheduled`) flag. */
  datatype Watcher =
    | Plain(container: Node, selector: string, viewType: Option<string>, connected: bool, scheduled: bool)
    | Dynamic(container: Node, selector: string, key: string, ownClass: string, parentClass: string,
              connected: bool, scheduled: bool, links: Drain<Node>)
    | Overlay(root: Node, connected: bool, scheduled: bool, updates: Drain<PendingUpdate>)

  /** A drain under way keeps its flag set. */
  predicate WatcherOk(w: Watcher) {
    && (w.Dynamic? ==> DrainOk(w.links) && (w.links.draining ==> w.scheduled))
    && (w.Overlay? ==> DrainOk(w.updates) && (w.updates.draining ==> w.scheduled))
  }

  /** The watcher an entry of `observers` was listed for. */
  predicate Serves(w: Watcher, e: WatchEntry) {
    || (w.Plain? && w.viewType == Some(e.key) && w.selector == e.selector)
    || (w.Dynamic? && w.key == e.key && w.selector == e.selector)
  }

  /** The watcher after `disconnect()` when `hit`, unchanged otherwise. */
  function Disconnected(w: Watcher, hit: bool): Watcher {
    if !hit then w
    else match w
      case Plain(c, s, v, _, f) => Plain(c, s, v, false, f)
      case Dynamic(c, s, k, o, p, _, f, l) => Dynamic(c, s, k, o, p, false, f, l)
      case Overlay(r, _, f, u) => Overlay(r, false, f, u)
  }

  /** The watcher with its flag set to `scheduled`. */
  function WithScheduled(w: Watcher, scheduled: bool): Watcher {
    match w
    case Plain(c, s, v, conn, _) => Plain(c, s, v, conn, scheduled)
    case Dynamic(c, s, k, o, p, conn, _, l) => Dynamic(c, s, k, o, p, conn, scheduled, l)
    case Overlay(r, conn, _, u) => Overlay(r, conn, scheduled, u)
  }

  function WithLinks(w: Watcher, links: Drain<Node>, scheduled: bool): Watcher
    requires w.Dynamic?
  {
    Dynamic(w.container, w.selector, w.key, w.ownClass, w.parentClass, w.connected, scheduled, links)
  }

  function WithUpdates(w: Watcher, updates: Drain<PendingUpdate>, scheduled: bool): Watcher
    requires w.Overlay?
  {
    Overlay(w.root, w.connected, scheduled, updates)
  }

  /** The ids of the listed watchers, and no other. */
  function IdsOf(es: seq<WatchEntry>): (r: set<nat>)
    ensures forall k :: 0 <= k < |es| ==> es[k].id in r
  {
    if es == [] then {} else IdsOf(es[..|es| - 1]) + {es[|es| - 1].id}
  }

  /** An id is in the set exactly when some entry lists it. */
  lemma {:induction false} IdsOfMembers(es: seq<WatchEntry>)
    ensures forall x :: x in IdsOf(es) <==> exists k :: 0 <= k < |es| && es[k].id == x
  {
    if es != [] {
      var front := es[..|es| - 1];
      IdsOfMembers(front);
      assert forall k :: 0 <= k < |front| ==> front[k] == es[k];
    }
  }

  lemma {:induction false} IdsOfBound(es: seq<WatchEntry>, n: nat)
    requires forall k :: 0 <= k < |es| ==> es[k].id < n
    ensures forall x :: x in IdsOf(es) ==> x < n
  {
    if es != [] {
      IdsOfBound(es[..|es| - 1], n);
    }
  }

  lemma IdsOfSnoc(es: seq<WatchEntry>, k: nat)
    requires k < |es|
    ensures IdsOf(es[..k + 1]) == IdsOf(es[..k]) + {es[k].id}
  {
    assert es[..k + 1][..k] == es[..k];
  }

  /** Disconnecting twice is disconnecting once. */
  lemma DisconnectedTwice(w: Watcher, a: bool, b: bool)
    ensures Disconnected(Disconnected(w, a), b) == Disconnected(w, a || b)
  {
  }

  /** The watchers after `disconnect()` was called on each id in `ids`. */
  function DisconnectAll(ws: map<nat, Watcher>, ids: set<nat>): map<nat, Watcher> {
    map i | i in ws :: Disconnected(ws[i], i in ids)
  }

  lemma DisconnectNone(ws: map<nat, Watcher>)
    ensures DisconnectAll(ws, {}) == ws
  {
  }

  /** One more disconnect extends the set of disconnected ids by one. */
  lemma DisconnectAllStep(ws: map<nat, Watcher>, ids: set<nat>, id: nat)
    requires id in ws
    ensures var before := DisconnectAll(ws, ids);
      before[id := Disconnected(before[id], true)] == DisconnectAll(ws, ids + {id})
  {
    DisconnectedTwice(ws[id], id in ids, true);
  }

  /** Disconnecting one set of ids after another disconnects their union. */
  lemma DisconnectAllTwice(ws: map<nat, Watcher>, a: set<nat>, b: set<nat>)
    ensures DisconnectAll(DisconnectAll(ws, a), b) == DisconnectAll(ws, a + b)
  {
    forall i | i in ws
      ensures DisconnectAll(DisconnectAll(ws, a), b)[i] == DisconnectAll(ws, a + b)[i]
    {
      DisconnectedTwice(ws[i], i in a, i in b);
    }
  }

  /** The ids listed in a sequence. */
  function Elements(s: seq<nat>): set<nat> {
    set x | x in s
  }

  lemma ElementsSnoc(s: seq<nat>, m: nat)
    requires m < |s|
    ensures Elements(s[..m + 1]) == Elements(s[..m]) + {s[m]}
  {
    assert s[..m + 1] == s[..m] + [s[m]];
  }

  /** What registerViewType creates for leaf `k`: with several leaves the
      row's own and parent classes are passed on, with one leaf they are not
      and the defaults apply. */
  function NewWatcher(row: ViewTypeRow, leaves: seq<Node>, k: nat): Watcher
    requires k < |leaves|
  {
    var n := |leaves|;
    var key := WatchKey(row.name, n, k);
    if row.dynamic then
      Dynamic(leaves[k], row.selector, key,
        if n > 1 then row.ownClass else DefaultOwnClass,
        if n > 1 then row.parentClass else DefaultParentClass,
        true, false, Drain([], false, [], 0))
    else Plain(leaves[k], row.selector, Some(key), true, false)
  }

  /** The rescans an overlay frame makes, one per overlay it handles. */
  function OverlayRenders(host: Host, us: seq<PendingUpdate>): seq<Effect> {
    if us == [] then []
    else
      var u := us[|us| - 1];
      OverlayRenders(host, us[..|us| - 1]) + ContainerRenders(host, u.node, u.selector, None)
  }

  /** `w` with the watchers registerViewType creates for the first `count`
      leaves added, by id from `base` on. */
  function WithRegistered(w: map<nat, Watcher>, row: ViewTypeRow, leaves: seq<Node>, base: nat, count: nat): map<nat, Watcher>
    requires count <= |leaves|
  {
    if count == 0 then w
    else WithRegistered(w, row, leaves, base, count - 1)[base + count - 1 := NewWatcher(row, leaves, count - 1)]
  }

  /** Registration uses exactly the ids from `base` to `base + count` and
      leaves the earlier watchers alone when their ids are below `base`. */
  lemma {:induction false} WithRegisteredExtends(w: map<nat, Watcher>, row: ViewTypeRow, leaves: seq<Node>, base: nat, count: nat)
    requires count <= |leaves|
    requires forall j :: j in w ==> j < base
    ensures Extends(WithRegistered(w, row, leaves, base, count), w, base, base + count)
  {
    if count > 0 {
      var m := WithRegistered(w, row, leaves, base, count - 1);
      WithRegisteredExtends(w, row, leaves, base, count - 1);
      ExtendsAdd(m, w, base, base + count - 1, NewWatcher(row, leaves, count - 1));
    }
  }

  /** Registration gives leaf `k`'s watcher the id `base + k`. */
  lemma {:induction false} WithRegisteredAt(w: map<nat, Watcher>, row: ViewTypeRow, leaves: seq<Node>, base: nat, count: nat, k: nat)
    requires k < count <= |leaves|
    ensures base + k in WithRegistered(w, row, leaves, base, count)
    ensures WithRegistered(w, row, leaves, base, count)[base + k] == NewWatcher(row, leaves, k)
  {
    if k < count - 1 {
      WithRegisteredAt(w, row, leaves, base, count - 1, k);
    }
  }

  /** A watcher as its observer was just created: connected, with no frame
      requested and nothing queued. */
  predicate Idle(w: Watcher) {
    && w.connected && !w.scheduled
    && (w.Dynamic? ==> w.links == Drain([], false, [], 0))
    && (w.Overlay? ==> w.updates == Drain([], false, [], 0))
  }

  /** Every watcher registerViewType creates starts idle. */
  lemma {:induction false} WithRegisteredIdle(w: map<nat, Watcher>, row: ViewTypeRow, leaves: seq<Node>, base: nat, count: nat)
    requires count <= |leaves|
    ensures forall i :: base <= i < base + count ==>
      i in WithRegistered(w, row, leaves, base, count) && Idle(WithRegistered(w, row, leaves, base, count)[i])
  {
    if count > 0 {
      WithRegisteredIdle(w, row, leaves, base, count - 1);
    }
  }

  /** `w` with the watchers initViewObservers registers for `rows`, row
      after row, ids from `base` on. */
  function RegistryWatchers(w: map<nat, Watcher>, host: Host, rows: seq<ViewTypeRow>, base: nat): map<nat, Watcher> {
    if rows == [] then w
    else
      var front := rows[..|rows| - 1];
      var leaves := host.leavesOfType(rows[|rows| - 1].name);
      WithRegistered(RegistryWatchers(w, host, front, base), rows[|rows| - 1], leaves, base + WatcherCount(host, front), |leaves|)
  }

  /** Registering row `r` after the rows before it. */
  lemma RegistryWatchersSnoc(w: map<nat, Watcher>, host: Host, rows: seq<ViewTypeRow>, r: nat, base: nat)
    requires r < |rows|
    ensures var leaves := host.leavesOfType(rows[r].name);
      RegistryWatchers(w, host, rows[..r + 1], base)
        == WithRegistered(RegistryWatchers(w, host, rows[..r], base), rows[r], leaves, base + WatcherCount(host, rows[..r]), |leaves|)
  {
    assert rows[..r + 1][..r] == rows[..r];
  }

  /** The table's watchers take exactly the ids from `base` to `base` plus
      the number of open leaves, leave the earlier watchers alone, and all
      start idle. */
  lemma {:induction false} RegistryWatchersIdle(w: map<nat, Watcher>, host: Host, rows: seq<ViewTypeRow>, base: nat)
    requires forall j :: j in w ==> j < base
    ensures var after := RegistryWatchers(w, host, rows, base);
      && Extends(after, w, base, base + WatcherCount(host, rows))
      && forall i :: base <= i < base + WatcherCount(host, rows) ==> Idle(after[i])
  {
    if rows != [] {
      var front := rows[..|rows| - 1];
      var leaves := host.leavesOfType(rows[|rows| - 1].name);
      var mid := base + WatcherCount(host, front);
      var m := RegistryWatchers(w, host, front, base);
      RegistryWatchersIdle(w, host, front, base);
      WithRegisteredExtends(m, rows[|rows| - 1], leaves, mid, |leaves|);
      WithRegisteredIdle(m, rows[|rows| - 1], leaves, mid, |leaves|);
      ExtendsTrans(w, m, RegistryWatchers(w, host, rows, base), base, mid, mid + |leaves|);
    }
  }

  /** Registration leaves a watcher under an earlier id as it was. */
  lemma {:induction false} WithRegisteredKeeps(w: map<nat, Watcher>, row: ViewTypeRow, leaves: seq<Node>, base: nat, count: nat, id: nat)
    requires count <= |leaves| && id in w && id < base
    ensures id in WithRegistered(w, row, leaves, base, count)
    ensures WithRegistered(w, row, leaves, base, count)[id] == w[id]
  {
    if count > 0 {
      WithRegisteredKeeps(w, row, leaves, base, count - 1, id);
    }
  }

  /** Leaf `k` of row `r` is numbered below the table's watcher count. */
  lemma RowIdBelow(host: Host, rows: seq<ViewTypeRow>, r: nat, k: nat)
    requires r < |rows| && k < |host.leavesOfType(rows[r].name)|
    ensures WatcherCount(host, rows[..r]) + k < WatcherCount(host, rows)
  {
    var s := rows[..r + 1];
    assert s[..|s| - 1] == rows[..r] && s[|s| - 1] == rows[r];
    RegistrySnocCount(host, s, rows[..r], rows[r]);
    WatcherCountPrefix(host, rows, r + 1);
  }

  /** Leaf `k` of row `r` is watched, under the id that follows the rows
      before it, by the watcher registerViewType makes for it. */
  lemma {:induction false} RegistryWatchersAt(w: map<nat, Watcher>, host: Host, rows: seq<ViewTypeRow>, base: nat, r: nat, k: nat)
    requires r < |rows| && k < |host.leavesOfType(rows[r].name)|
    ensures var id := base + WatcherCount(host, rows[..r]) + k;
      && id in RegistryWatchers(w, host, rows, base)
      && RegistryWatchers(w, host, rows, base)[id] == NewWatcher(rows[r], host.leavesOfType(rows[r].name), k)
    decreases |rows|, 1
  {
    if r == |rows| - 1 {
      RegistryWatchersLast(w, host, rows, base, k);
    } else {
      RegistryWatchersEarlier(w, host, rows, base, r, k);
    }
  }

  /** A row before the last: its watchers are in place before the last row
      is registered, and the last row leaves them alone. */
  lemma {:induction false} RegistryWatchersEarlier(w: map<nat, Watcher>, host: Host, rows: seq<ViewTypeRow>, base: nat, r: nat, k: nat)
    requires r < |rows| - 1 && k < |host.leavesOfType(rows[r].name)|
    ensures var id := base + WatcherCount(host, rows[..r]) + k;
      && id in RegistryWatchers(w, host, rows, base)
      && RegistryWatchers(w, host, rows, base)[id] == NewWatcher(rows[r], host.leavesOfType(rows[r].name), k)
    decreases |rows|, 0
  {
    var front := rows[..|rows| - 1];
    assert front[..r] == rows[..r] && front[r] == rows[r];
    RegistryWatchersAt(w, host, front, base, r, k);
    RowIdBelow(host, front, r, k);
    RegistryWatchersKeeps(w, host, rows, base, base + WatcherCount(host, rows[..r]) + k);
  }

  /** The last row's leaves are watched under the ids that follow the rows
      before it. */
  lemma RegistryWatchersLast(w: map<nat, Watcher>, host: Host, rows: seq<ViewTypeRow>, base: nat, k: nat)
    requires rows != [] && k < |host.leavesOfType(rows[|rows| - 1].name)|
    ensures var id := base + WatcherCount(host, rows[..|rows| - 1]) + k;
      && id in RegistryWatchers(w, host, rows, base)
      && RegistryWatchers(w, host, rows, base)[id] == NewWatcher(rows[|rows| - 1], host.leavesOfType(rows[|rows| - 1].name), k)
  {
    var front := rows[..|rows| - 1];
    var leaves := host.leavesOfType(rows[|rows| - 1].name);
    WithRegisteredAt(RegistryWatchers(w, host, front, base), rows[|rows| - 1], leaves, base + WatcherCount(host, front), |leaves|, k);
  }

  /** The last row leaves the watchers of the rows before it alone. */
  lemma RegistryWatchersKeeps(w: map<nat, Watcher>, host: Host, rows: seq<ViewTypeRow>, base: nat, id: nat)
    requires rows != []
    requires id in RegistryWatchers(w, host, rows[..|rows| - 1], base)
    requires id < base + WatcherCount(host, rows[..|rows| - 1])
    ensures id in RegistryWatchers(w, host, rows, base)
    ensures RegistryWatchers(w, host, rows, base)[id] == RegistryWatchers(w, host, rows[..|rows| - 1], base)[id]
  {
    var front := rows[..|rows| - 1];
    var leaves := host.leavesOfType(rows[|rows| - 1].name);
    WithRegisteredKeeps(RegistryWatchers(w, host, front, base), rows[|rows| - 1], leaves, base + WatcherCount(host, front), |leaves|, id);
  }

  /** registerViewType's entry for leaf `i` after the ones before it. */
  lemma NewEntriesStep(listed: seq<WatchEntry>, row: ViewTypeRow, n: nat, base: nat, i: nat)
    requires i < n
    ensures var key := WatchKey(row.name, n, i);
      listed + NewEntries(row, n, base, i) + (if row.dynamic || key != "" then [WatchEntry(base + i, key, row.selector)] else [])
        == listed + NewEntries(row, n, base, i + 1)
  {
  }

  /** `b` is `a` with at most its queue and its flag changed: the same kind
      of observer, listed under the same key and selector. */
  predicate SameRole(a: Watcher, b: Watcher) {
    && a.Plain? == b.Plain? && a.Dynamic? == b.Dynamic? && a.Overlay? == b.Overlay?
    && (a.Plain? ==> a.viewType == b.viewType && a.selector == b.selector)
    && (a.Dynamic? ==> a.key == b.key && a.selector == b.selector)
  }

  /** `w` with the Plain watchers an overlay frame puts on the first `count`
      overlays it handles, by id from `base` on. */
  function WithOverlayWatchers(w: map<nat, Watcher>, us: seq<PendingUpdate>, base: nat, count: nat): map<nat, Watcher>
    requires count <= |us|
  {
    if count == 0 then w
    else
      var u := us[count - 1];
      WithOverlayWatchers(w, us, base, count - 1)[base + count - 1 := Plain(u.node, u.selector, None, true, false)]
  }

  /** The overlay watchers use exactly the ids from `base` to `base + count`
      and leave the earlier watchers alone when their ids are below `base`. */
  lemma {:induction false} WithOverlayWatchersExtends(w: map<nat, Watcher>, us: seq<PendingUpdate>, base: nat, count: nat)
    requires count <= |us|
    requires forall j :: j in w ==> j < base
    ensures Extends(WithOverlayWatchers(w, us, base, count), w, base, base + count)
  {
    if count > 0 {
      var m := WithOverlayWatchers(w, us, base, count - 1);
      WithOverlayWatchersExtends(w, us, base, count - 1);
      ExtendsAdd(m, w, base, base + count - 1, Plain(us[count - 1].node, us[count - 1].selector, None, true, false));
    }
  }

  /** Overlay `k` gets a connected, unlisted Plain watcher under the id
      `base + k`. */
  lemma {:induction false} WithOverlayWatchersAt(w: map<nat, Watcher>, us: seq<PendingUpdate>, base: nat, count: nat, k: nat)
    requires k < count <= |us|
    ensures base + k in WithOverlayWatchers(w, us, base, count)
    ensures WithOverlayWatchers(w, us, base, count)[base + k] == Plain(us[k].node, us[k].selector, None, true, false)
  {
    if k < count - 1 {
      WithOverlayWatchersAt(w, us, base, count - 1, k);
    }
  }

  /** `after` keeps every watcher of `before` as it was and adds watchers
      under exactly the ids in [lo, hi). */
  ghost predicate Extends(after: map<nat, Watcher>, before: map<nat, Watcher>, lo: nat, hi: nat)
  {
    && (forall i :: i in after <==> i in before || lo <= i < hi)
    && (forall i :: i in before ==> after[i] == before[i])
  }

  /** A watcher added under the next id extends the range by one. */
  lemma ExtendsAdd(after: map<nat, Watcher>, before: map<nat, Watcher>, lo: nat, hi: nat, v: Watcher)
    requires Extends(after, before, lo, hi) && lo <= hi && hi !in before
    ensures Extends(after[hi := v], before, lo, hi + 1)
  {
  }

  /** Two extensions over adjacent id ranges make one. */
  lemma ExtendsTrans(a: map<nat, Watcher>, b: map<nat, Watcher>, c: map<nat, Watcher>, lo: nat, mid: nat, hi: nat)
    requires lo <= mid <= hi
    requires Extends(b, a, lo, mid) && Extends(c, b, mid, hi)
    ensures Extends(c, a, lo, hi)
  {
  }

  /** After the teardown, disconnecting the listed view watchers again
      changes nothing: they are already disconnected, and the new overlay
      watcher is not among them. */
  lemma TornDown(w0: map<nat, Watcher>, gone: set<nat>, ids: set<nat>, n0: nat, o: Watcher)
    requires ids <= gone && n0 !in ids
    ensures var torn := DisconnectAll(w0, gone)[n0 := o];
      DisconnectAll(torn, ids) == torn
  {
    var torn := DisconnectAll(w0, gone)[n0 := o];
    forall i | i in torn
      ensures DisconnectAll(torn, ids)[i] == torn[i]
    {
      if i != n0 {
        DisconnectedTwice(w0[i], i in gone, i in ids);
      }
    }
  }

  /** What registering row `r` appends to the list, the id counter and the
      calls made, following the rows before it. */
  lemma RegisterRowStep(host: Host, rows: seq<ViewTypeRow>, r: nat, base: nat,
                        listed: seq<WatchEntry>, made: seq<Effect>,
                        entries: seq<WatchEntry>, next: nat, calls: seq<Effect>)
    requires r < |rows|
    requires entries == listed + RegistryEntries(host, rows[..r], base)
    requires next == base + WatcherCount(host, rows[..r])
    requires calls == made + RegistryRenders(host, rows[..r])
    ensures var n := |host.leavesOfType(rows[r].name)|;
      && entries + NewEntries(rows[r], n, next, n) == listed + RegistryEntries(host, rows[..r + 1], base)
      && next + n == base + WatcherCount(host, rows[..r + 1])
      && calls + RegisterRenders(host, rows[r]) == made + RegistryRenders(host, rows[..r + 1])
  {
    RegistrySnoc(host, rows, r, base);
    var n := |host.leavesOfType(rows[r].name)|;
    var front, added := RegistryEntries(host, rows[..r], base), NewEntries(rows[r], n, next, n);
    assert RegistryEntries(host, rows[..r + 1], base) == front + added;
    AppendAssoc(listed, front, added);
    AppendAssoc(made, RegistryRenders(host, rows[..r]), RegisterRenders(host, rows[r]));
  }

  lemma AppendAssoc<T>(a: seq<T>, b: seq<T>, c: seq<T>)
    ensures a + b + c == a + (b + c)
  {
  }

  lemma DropFirst(s: seq<nat>)
    requires |s| > 0
    ensures multiset(s[1..]) == multiset(s) - multiset{s[0]}
  {
    assert s == [s[0]] + s[1..];
  }

  /** Every listed id names a watcher of the right kind and key, every
      waiting frame belongs to a watcher, and a watcher has exactly one
      waiting frame while its flag is set and none otherwise. */
  ghost predicate Coherent(observers: seq<WatchEntry>, modalObservers: seq<nat>, watchers: map<nat, Watcher>,
                           nextId: nat, frames: seq<nat>)
  {
    && (forall i :: i in watchers ==> i < nextId && WatcherOk(watchers[i]))
    && (forall k :: 0 <= k < |observers| ==>
          observers[k].id in watchers && Serves(watchers[observers[k].id], observers[k]))
    && (forall k :: 0 <= k < |modalObservers| ==>
          modalObservers[k] in watchers && watchers[modalObservers[k]].Overlay?)
    && (forall k :: 0 <= k < |frames| ==> frames[k] in watchers)
    && (forall i {:trigger multiset(frames)[i]} :: i in watchers ==> multiset(frames)[i] == if watchers[i].scheduled then 1 else 0)
  }

  /** Requesting a frame for a watcher whose flag is newly set keeps the
      state coherent. */
  lemma RequeueCoherent(observers: seq<WatchEntry>, modalObservers: seq<nat>, watchers: map<nat, Watcher>,
                        nextId: nat, frames: seq<nat>, id: nat, w: Watcher)
    requires Coherent(observers, modalObservers, watchers, nextId, frames) && id in watchers
    requires SameRole(watchers[id], w) && WatcherOk(w)
    requires watchers[id].scheduled ==> w.scheduled
    ensures Coherent(observers, modalObservers, watchers[id := w], nextId,
                     frames + (if w.scheduled && !watchers[id].scheduled then [id] else []))
  {
    assert id !in multiset(frames) <== !watchers[id].scheduled;
  }

  /** Ending the oldest frame keeps the state coherent. */
  lemma EndFrameCoherent(observers: seq<WatchEntry>, modalObservers: seq<nat>, watchers: map<nat, Watcher>,
                         nextId: nat, frames: seq<nat>, w: Watcher)
    requires Coherent(observers, modalObservers, watchers, nextId, frames) && |frames| > 0
    requires SameRole(watchers[frames[0]], w) && WatcherOk(w)
    ensures Coherent(observers, modalObservers, watchers[frames[0] := w], nextId,
                     frames[1..] + (if w.scheduled then [frames[0]] else []))
  {
    assert frames[0] in multiset(frames);
    DropFirst(frames);
  }

  class ExtraButton {
    /** `observers`: the listed view watchers with their key and selector. */
    var observers: seq<WatchEntry>
    /** `modalObservers`: the overlay watchers, one per initModalObservers call. */
    var modalObservers: seq<nat>
    /** Every watcher ever created, by id; the closures' captured state. */
    var watchers: map<nat, Watcher>
    var nextId: nat
    /** The requestAnimationFrame callbacks waiting to run, oldest first, by
        the id of the watcher whose closure they belong to. */
    var frames: seq<nat>
    /** The calls made into the rendering code, in order. */
    var effects: seq<Effect>

    /** The shared state is Coherent. */
    ghost predicate Valid()
      reads this`observers, this`modalObservers, this`watchers, this`nextId, this`frames
    {
      Coherent(observers, modalObservers, watchers, nextId, frames)
    }

    /** The component as onload leaves it before the layout is ready. */
    constructor ()
      ensures observers == [] && modalObservers == [] && watchers == map[] && nextId == 0
      ensures frames == [] && effects == []
      ensures Valid()
    {
      observers := [];
      modalObservers := [];
      watchers := map[];
      nextId := 0;
      frames := [];
      effects := [];
    }

    /** updateContainer: renders every match of `selector` under `container`
        that is not a canvas file link, directly below 50 matches and after
        collecting them from 50 on. */
    method UpdateContainer(host: Host, container: Node, selector: string, viewType: Option<string>)
      modifies this`effects
      ensures effects == old(effects) + ContainerRenders(host, container, selector, viewType)
    {
      var nodes := host.findAll(container, selector);
      if |nodes| == 0 {
        return;
      }
      if |nodes| < CollectThreshold {
        RenderEach(nodes, viewType);
        return;
      }
      var validElements := CollectTargets(nodes);
      RenderAll(validElements, viewType);
    }

    /** The loop of updateContainer below 50 matches: each match that is not
        a canvas file link is rendered as it is met. */
    method RenderEach(nodes: seq<Node>, viewType: Option<string>)
      modifies this`effects
      ensures effects == old(effects) + Renders(LinkTargets(nodes), viewType)
    {
      var i := 0;
      ghost var targets: seq<Node> := [];
      while i < |nodes|
        invariant 0 <= i <= |nodes|
        invariant targets == LinkTargets(nodes[..i])
        invariant effects == old(effects) + Renders(targets, viewType)
      {
        var el := nodes[i];
        if !IsCanvasFileLink(el) {
          RendersSnoc(targets, el, viewType);
          effects := effects + [Render(el, viewType)];
          targets := targets + [el];
        }
        assert targets == LinkTargets(nodes[..i + 1]) by {
          LinkTargetsSnoc(nodes, i);
        }
        i := i + 1;
      }
      assert nodes[..i] == nodes;
    }

    /** The first loop of updateContainer from 50 matches on: the matches
        that are not canvas file links. */
    static method CollectTargets(nodes: seq<Node>) returns (validElements: seq<Node>)
      ensures validElements == LinkTargets(nodes)
    {
      validElements := [];
      var i := 0;
      while i < |nodes|
        invariant 0 <= i <= |nodes|
        invariant validElements == LinkTargets(nodes[..i])
      {
        var el := nodes[i];
        LinkTargetsSnoc(nodes, i);
        if !IsCanvasFileLink(el) {
          validElements := validElements + [el];
        }
        i := i + 1;
      }
      assert nodes[..i] == nodes;
    }

    /** The second loop of updateContainer from 50 matches on. */
    method RenderAll(els: seq<Node>, viewType: Option<string>)
      modifies this`effects
      ensures effects == old(effects) + Renders(els, viewType)
    {
      var j := 0;
      while j < |els|
        invariant 0 <= j <= |els|
        invariant effects == old(effects) + Renders(els[..j], viewType)
      {
        assert els[..j + 1] == els[..j] + [els[j]];
        RendersSnoc(els[..j], els[j], viewType);
        effects := effects + [Render(els[j], viewType)];
        j := j + 1;
      }
      assert els[..j] == els;
    }

    /** removeFromContainer: clears every match of `selector` under
        `container`, canvas file links included. */
    method RemoveFromContainer(host: Host, container: Node, selector: string)
      modifies this`effects
      ensures effects == old(effects) + Clears(host.findAll(container, selector))
    {
      var nodes := host.findAll(container, selector);
      var i := 0;
      while i < |nodes|
        invariant 0 <= i <= |nodes|
        invariant effects == old(effects) + Clears(nodes[..i])
      {
        assert nodes[..i + 1] == nodes[..i] + [nodes[i]];
        ClearsSnoc(nodes[..i], nodes[i]);
        effects := effects + [ClearAttrs(nodes[i])];
        i := i + 1;
      }
      assert nodes[..i] == nodes;
    }

    /** A new observer with a fresh id, its flag clear. */
    method AddWatcher(w: Watcher) returns (id: nat)
      requires Valid() && !w.scheduled && WatcherOk(w)
      modifies this`watchers, this`nextId
      ensures Valid()
      ensures id == old(nextId) && nextId == id + 1
      ensures watchers == old(watchers)[id := w]
    {
      id := nextId;
      assert forall k :: 0 <= k < |frames| ==> frames[k] != id;
      assert id !in multiset(frames);
      watchers := watchers[id := w];
      nextId := nextId + 1;
    }

    /** _watchContainer: a connected observer on `container`; it is listed
        only when the view type is a non-empty string. */
    method WatchContainer(viewType: Option<string>, container: Node, selector: string) returns (id: nat)
      requires Valid()
      modifies this`watchers, this`nextId, this`observers
      ensures Valid()
      ensures id == old(nextId) && nextId == id + 1
      ensures watchers == old(watchers)[id := Plain(container, selector, viewType, true, false)]
      ensures observers == old(observers)
        + (if viewType.Some? && viewType.value != "" then [WatchEntry(id, viewType.value, selector)] else [])
    {
      id := AddWatcher(Plain(container, selector, viewType, true, false));
      if viewType.Some? && viewType.value != "" {
        observers := observers + [WatchEntry(id, viewType.value, selector)];
      }
    }

    /** _watchContainerDynamic: a connected observer on `container` with an
        empty queue; it is always listed. */
    method WatchContainerDynamic(key: string, container: Node, selector: string, ownClass: string, parentClass: string)
      returns (id: nat)
      requires Valid()
      modifies this`watchers, this`nextId, this`observers
      ensures Valid()
      ensures id == old(nextId) && nextId == id + 1
      ensures watchers == old(watchers)[id := Dynamic(container, selector, key, ownClass, parentClass, true, false, Drain([], false, [], 0))]
      ensures observers == old(observers) + [WatchEntry(id, key, selector)]
    {
      id := AddWatcher(Dynamic(container, selector, key, ownClass, parentClass, true, false, Drain([], false, [], 0)));
      observers := observers + [WatchEntry(id, key, selector)];
    }

    /** registerViewType: one watcher per open leaf of the view type, keyed by
        WatchKey; with exactly one leaf its container is rescanned first. */
    method RegisterViewType(host: Host, row: ViewTypeRow)
      requires Valid()
      modifies this`watchers, this`nextId, this`observers, this`effects
      ensures Valid()
      ensures var leaves := host.leavesOfType(row.name);
        && nextId == old(nextId) + |leaves|
        && observers == old(observers) + NewEntries(row, |leaves|, old(nextId), |leaves|)
        && effects == old(effects) + RegisterRenders(host, row)
        && watchers == WithRegistered(old(watchers), row, leaves, old(nextId), |leaves|)
    {
      var leaves := host.leavesOfType(row.name);
      var n := |leaves|;
      if n > 1 {
        WatchLeaves(row, leaves);
      } else if n == 1 {
        UpdateContainer(host, leaves[0], row.selector, Some(row.name));
        WatchLeaf(row, leaves, 0);
      }
    }

    /** The loop of registerViewType over several leaves. */
    method WatchLeaves(row: ViewTypeRow, leaves: seq<Node>)
      requires Valid()
      modifies this`watchers, this`nextId, this`observers
      ensures Valid()
      ensures nextId == old(nextId) + |leaves|
      ensures observers == old(observers) + NewEntries(row, |leaves|, old(nextId), |leaves|)
      ensures watchers == WithRegistered(old(watchers), row, leaves, old(nextId), |leaves|)
    {
      var n := |leaves|;
      var i := 0;
      while i < n
        invariant 0 <= i <= n
        invariant Valid()
        invariant nextId == old(nextId) + i
        invariant observers == old(observers) + NewEntries(row, n, old(nextId), i)
        invariant watchers == WithRegistered(old(watchers), row, leaves, old(nextId), i)
      {
        WatchNextLeaf(row, leaves, i, old(watchers), old(observers), old(nextId));
        i := i + 1;
      }
    }

    /** One turn of registerViewType's loop: leaf `i` after the ones before it. */
    method WatchNextLeaf(row: ViewTypeRow, leaves: seq<Node>, i: nat,
                         ghost w0: map<nat, Watcher>, ghost o0: seq<WatchEntry>, ghost n0: nat)
      requires Valid() && i < |leaves|
      requires nextId == n0 + i
      requires observers == o0 + NewEntries(row, |leaves|, n0, i)
      requires watchers == WithRegistered(w0, row, leaves, n0, i)
      modifies this`watchers, this`nextId, this`observers
      ensures Valid()
      ensures nextId == n0 + i + 1
      ensures observers == o0 + NewEntries(row, |leaves|, n0, i + 1)
      ensures watchers == WithRegistered(w0, row, leaves, n0, i + 1)
    {
      NewEntriesStep(o0, row, |leaves|, n0, i);
      WatchLeaf(row, leaves, i);
    }

    /** One turn of registerViewType: the watcher for leaf `k`, listed unless
        it is a plain watcher under an empty key. */
    method WatchLeaf(row: ViewTypeRow, leaves: seq<Node>, k: nat)
      requires Valid() && k < |leaves|
      modifies this`watchers, this`nextId, this`observers
      ensures Valid()
      ensures nextId == old(nextId) + 1
      ensures watchers == old(watchers)[old(nextId) := NewWatcher(row, leaves, k)]
      ensures var key := WatchKey(row.name, |leaves|, k);
        observers == old(observers) + (if row.dynamic || key != "" then [WatchEntry(old(nextId), key, row.selector)] else [])
    {
      var n := |leaves|;
      var key := if n > 1 then row.name + DecimalString(k) else row.name;
      var watcherId;
      if row.dynamic {
        if n > 1 {
          watcherId := WatchContainerDynamic(key, leaves[k], row.selector, row.ownClass, row.parentClass);
        } else {
          watcherId := WatchContainerDynamic(key, leaves[k], row.selector, DefaultOwnClass, DefaultParentClass);
        }
      } else {
        watcherId := WatchContainer(Some(key), leaves[k], row.selector);
      }
    }

    /** `observer.disconnect()`: the watcher stops reacting to mutations. */
    method Disconnect(id: nat)
      requires Valid() && id in watchers
      modifies this`watchers
      ensures Valid()
      ensures watchers == old(watchers)[id := Disconnected(old(watchers)[id], true)]
    {
      watchers := watchers[id := Disconnected(watchers[id], true)];
    }

    /** The first loop of initViewObservers: disconnects every listed watcher. */
    method DisconnectListed()
      requires Valid()
      modifies this`watchers
      ensures Valid()
      ensures watchers == DisconnectAll(old(watchers), IdsOf(observers))
    {
      DisconnectNone(watchers);
      var k := 0;
      while k < |observers|
        invariant 0 <= k <= |observers|
        invariant Valid()
        invariant watchers == DisconnectAll(old(watchers), IdsOf(observers[..k]))
      {
        IdsOfSnoc(observers, k);
        DisconnectAllStep(old(watchers), IdsOf(observers[..k]), observers[k].id);
        Disconnect(observers[k].id);
        k := k + 1;
      }
      assert observers[..k] == observers;
    }

    /** initViewObservers: disconnects the listed watchers, empties the list
        and registers the table of view types afresh. */
    method InitViewObservers(host: Host, backlinkInDocument: bool)
      requires Valid()
      modifies this`watchers, this`nextId, this`observers, this`effects
      ensures Valid()
      ensures var rows := Registry(backlinkInDocument);
        && observers == RegistryEntries(host, rows, old(nextId))
        && nextId == old(nextId) + WatcherCount(host, rows)
        && effects == old(effects) + RegistryRenders(host, rows)
        && watchers == RegistryWatchers(DisconnectAll(old(watchers), IdsOf(old(observers))), host, rows, old(nextId))
      ensures Extends(watchers, DisconnectAll(old(watchers), IdsOf(old(observers))), old(nextId), nextId)
      ensures forall i :: old(nextId) <= i < nextId ==> Idle(watchers[i])
    {
      RegisterTable(host, Registry(backlinkInDocument));
    }

    /** initViewObservers with the table `rows`: the listed watchers are
        disconnected and every row registered afresh, each new watcher idle. */
    method RegisterTable(host: Host, rows: seq<ViewTypeRow>)
      requires Valid()
      modifies this`watchers, this`nextId, this`observers, this`effects
      ensures Valid()
      ensures observers == RegistryEntries(host, rows, old(nextId))
      ensures nextId == old(nextId) + WatcherCount(host, rows)
      ensures effects == old(effects) + RegistryRenders(host, rows)
      ensures watchers == RegistryWatchers(DisconnectAll(old(watchers), IdsOf(old(observers))), host, rows, old(nextId))
      ensures Extends(watchers, DisconnectAll(old(watchers), IdsOf(old(observers))), old(nextId), nextId)
      ensures forall i :: old(nextId) <= i < nextId ==> Idle(watchers[i])
    {
      DisconnectListed();
      observers := [];
      RegistryWatchersIdle(watchers, host, rows, nextId);
      RegisterRows(host, rows);
    }

    /** The registerViewType calls of initViewObservers, row by row. */
    method RegisterRows(host: Host, rows: seq<ViewTypeRow>)
      requires Valid()
      modifies this`watchers, this`nextId, this`observers, this`effects
      ensures Valid()
      ensures observers == old(observers) + RegistryEntries(host, rows, old(nextId))
      ensures nextId == old(nextId) + WatcherCount(host, rows)
      ensures effects == old(effects) + RegistryRenders(host, rows)
      ensures watchers == RegistryWatchers(old(watchers), host, rows, old(nextId))
      ensures Extends(watchers, old(watchers), old(nextId), nextId)
    {
      var r := 0;
      while r < |rows|
        invariant 0 <= r <= |rows|
        invariant Valid()
        invariant observers == old(observers) + RegistryEntries(host, rows[..r], old(nextId))
        invariant nextId == old(nextId) + WatcherCount(host, rows[..r])
        invariant effects == old(effects) + RegistryRenders(host, rows[..r])
        invariant nextId >= old(nextId)
        invariant watchers == RegistryWatchers(old(watchers), host, rows[..r], old(nextId))
        invariant Extends(watchers, old(watchers), old(nextId), nextId)
      {
        ghost var before, mid := watchers, nextId;
        RegisterRow(host, rows, r, old(nextId), old(observers), old(effects), old(watchers));
        ExtendsTrans(old(watchers), before, watchers, old(nextId), mid, nextId);
        r := r + 1;
      }
      assert rows[..r] == rows;
    }

    /** One turn of initViewObservers' registrations: row `r` after rows[..r]. */
    method RegisterRow(host: Host, rows: seq<ViewTypeRow>, r: nat, ghost base: nat,
                       ghost listed: seq<WatchEntry>, ghost made: seq<Effect>, ghost w0: map<nat, Watcher>)
      requires Valid() && r < |rows|
      requires watchers == RegistryWatchers(w0, host, rows[..r], base)
      requires observers == listed + RegistryEntries(host, rows[..r], base)
      requires nextId == base + WatcherCount(host, rows[..r])
      requires effects == made + RegistryRenders(host, rows[..r])
      modifies this`watchers, this`nextId, this`observers, this`effects
      ensures Valid()
      ensures observers == listed + RegistryEntries(host, rows[..r + 1], base)
      ensures nextId == base + WatcherCount(host, rows[..r + 1])
      ensures effects == made + RegistryRenders(host, rows[..r + 1])
      ensures nextId >= old(nextId)
      ensures watchers == RegistryWatchers(w0, host, rows[..r + 1], base)
      ensures Extends(watchers, old(watchers), old(nextId), nextId)
    {
      var leaves := host.leavesOfType(rows[r].name);
      var n := |leaves|;
      RegisterRowStep(host, rows, r, base, listed, made, observers, nextId, effects);
      RegistryWatchersSnoc(w0, host, rows, r, base);
      WithRegisteredExtends(watchers, rows[r], leaves, nextId, n);
      RegisterViewType(host, rows[r]);
    }

    /** initModalObservers (also what a new window gets): a connected overlay
        watcher on the document body, appended to `modalObservers`. */
    method InitModalObservers(root: Node) returns (id: nat)
      requires Valid()
      modifies this`watchers, this`nextId, this`modalObservers
      ensures Valid()
      ensures id == old(nextId) && nextId == id + 1
      ensures watchers == old(watchers)[id := Overlay(root, true, false, Drain([], false, [], 0))]
      ensures modalObservers == old(modalObservers) + [id]
    {
      id := AddWatcher(Overlay(root, true, false, Drain([], false, [], 0)));
      modalObservers := modalObservers + [id];
    }

    /** initModalObservers after registered watchers: the new overlay watcher
        extends the range of new ids by one. */
    method AddOverlayExtending(root: Node, ghost before: map<nat, Watcher>, ghost lo: nat)
      requires Valid() && Extends(watchers, before, lo, nextId) && lo <= nextId
      modifies this`watchers, this`nextId, this`modalObservers
      ensures Valid()
      ensures nextId == old(nextId) + 1 && modalObservers == old(modalObservers) + [old(nextId)]
      ensures Extends(watchers, before, lo, nextId)
      ensures watchers == old(watchers)[old(nextId) := Overlay(root, true, false, Drain([], false, [], 0))]
    {
      ExtendsAdd(watchers, before, lo, nextId, Overlay(root, true, false, Drain([], false, [], 0)));
      var id := InitModalObservers(root);
    }

    /** disconnectObservers: disconnects every listed watcher and clears the
        matches of its selector in the leaves of its key, then disconnects
        every overlay watcher; neither list is emptied. */
    method DisconnectObservers(host: Host)
      requires Valid()
      modifies this`watchers, this`effects
      ensures Valid()
      ensures effects == old(effects) + ClearPlan(host, observers)
      ensures watchers == DisconnectAll(old(watchers), IdsOf(observers) + Elements(modalObservers))
    {
      DisconnectAllTwice(watchers, IdsOf(observers), Elements(modalObservers));
      DisconnectAndClear(host);
      DisconnectOverlays();
    }

    /** The first loop of disconnectObservers. */
    method DisconnectAndClear(host: Host)
      requires Valid()
      modifies this`watchers, this`effects
      ensures Valid()
      ensures effects == old(effects) + ClearPlan(host, observers)
      ensures watchers == DisconnectAll(old(watchers), IdsOf(observers))
    {
      DisconnectNone(watchers);
      var k := 0;
      while k < |observers|
        invariant 0 <= k <= |observers|
        invariant Valid()
        invariant effects == old(effects) + ClearPlan(host, observers[..k])
        invariant watchers == DisconnectAll(old(watchers), IdsOf(observers[..k]))
      {
        DisconnectNextEntry(host, k, old(watchers), old(effects));
        k := k + 1;
      }
      assert observers[..k] == observers;
    }

    /** One turn of the first loop of disconnectObservers: entry `k` after
        the ones before it. */
    method DisconnectNextEntry(host: Host, k: nat, ghost w0: map<nat, Watcher>, ghost e0: seq<Effect>)
      requires Valid() && k < |observers|
      requires effects == e0 + ClearPlan(host, observers[..k])
      requires watchers == DisconnectAll(w0, IdsOf(observers[..k]))
      modifies this`watchers, this`effects
      ensures Valid()
      ensures effects == e0 + ClearPlan(host, observers[..k + 1])
      ensures watchers == DisconnectAll(w0, IdsOf(observers[..k + 1]))
    {
      IdsOfSnoc(observers, k);
      ClearPlanSnoc(host, observers, k);
      DisconnectAllStep(w0, IdsOf(observers[..k]), observers[k].id);
      DisconnectEntry(host, observers[k]);
    }

    /** One turn of the first loop of disconnectObservers. */
    method DisconnectEntry(host: Host, e: WatchEntry)
      requires Valid() && e.id in watchers
      modifies this`watchers, this`effects
      ensures Valid()
      ensures watchers == old(watchers)[e.id := Disconnected(old(watchers)[e.id], true)]
      ensures effects == old(effects) + LeafClears(host, host.leavesOfType(e.key), e.selector)
    {
      Disconnect(e.id);
      ClearLeaves(host, host.leavesOfType(e.key), e.selector);
    }

    /** The inner loop of disconnectObservers: clears the matches in the
        container of each leaf. */
    method ClearLeaves(host: Host, leaves: seq<Node>, selector: string)
      modifies this`effects
      ensures effects == old(effects) + LeafClears(host, leaves, selector)
    {
      var j := 0;
      while j < |leaves|
        invariant 0 <= j <= |leaves|
        invariant effects == old(effects) + LeafClears(host, leaves[..j], selector)
      {
        RemoveFromContainer(host, leaves[j], selector);
        LeafClearsSnoc(host, leaves, j, selector);
        j := j + 1;
      }
      assert leaves[..j] == leaves;
    }

    /** The last loop of disconnectObservers: disconnects every overlay watcher. */
    method DisconnectOverlays()
      requires Valid()
      modifies this`watchers
      ensures Valid()
      ensures watchers == DisconnectAll(old(watchers), Elements(modalObservers))
    {
      DisconnectNone(watchers);
      var m := 0;
      while m < |modalObservers|
        invariant 0 <= m <= |modalObservers|
        invariant Valid()
        invariant watchers == DisconnectAll(old(watchers), Elements(modalObservers[..m]))
      {
        ElementsSnoc(modalObservers, m);
        DisconnectAllStep(old(watchers), Elements(modalObservers[..m]), modalObservers[m]);
        Disconnect(modalObservers[m]);
        m := m + 1;
      }
      assert modalObservers[..m] == modalObservers;
    }

    /** onunload: disconnectObservers. The listed and the overlay watchers
        are disconnected; every other watcher, such as the Plain watchers an
        overlay frame puts on the modals it handles, is left as it was and
        stays connected if it was. */
    method OnUnload(host: Host)
      requires Valid()
      modifies this`watchers, this`effects
      ensures Valid()
      ensures effects == old(effects) + ClearPlan(host, observers)
      ensures watchers == DisconnectAll(old(watchers), IdsOf(observers) + Elements(modalObservers))
      ensures forall k :: 0 <= k < |observers| ==> !watchers[observers[k].id].connected
      ensures forall k :: 0 <= k < |modalObservers| ==> !watchers[modalObservers[k]].connected
      ensures forall i :: i in old(watchers) && i !in IdsOf(observers) && i !in Elements(modalObservers) ==>
        watchers[i] == old(watchers)[i]
    {
      DisconnectObservers(host);
    }

    /** updateLinks: the global refresh, then a rescan of every leaf whose view
        type equals a listed key, with that entry's selector. */
    method UpdateLinks(host: Host)
      modifies this`effects
      ensures effects == old(effects) + [RefreshVisible] + RefreshPlan(host, observers)
    {
      if |observers| == 0 {
        effects := effects + [RefreshVisible];
        return;
      }
      effects := effects + [RefreshVisible];
      ghost var start := effects;
      var k := 0;
      while k < |observers|
        invariant 0 <= k <= |observers|
        invariant effects == start + RefreshPlan(host, observers[..k])
      {
        var e := observers[k];
        RescanLeaves(host, host.leavesOfType(e.key), e.selector, e.key);
        RefreshPlanSnoc(host, observers, k);
        k := k + 1;
      }
      assert observers[..k] == observers;
    }

    /** The inner loop of updateLinks: rescans the container of each leaf. */
    method RescanLeaves(host: Host, leaves: seq<Node>, selector: string, key: string)
      modifies this`effects
      ensures effects == old(effects) + LeafRenders(host, leaves, selector, key)
    {
      var j := 0;
      while j < |leaves|
        invariant 0 <= j <= |leaves|
        invariant effects == old(effects) + LeafRenders(host, leaves[..j], selector, key)
      {
        UpdateContainer(host, leaves[j], selector, Some(key));
        LeafRendersSnoc(host, leaves, j, selector, key);
        j := j + 1;
      }
      assert leaves[..j] == leaves;
    }

    /** The layout-ready callback of onload. */
    method OnLayoutReady(host: Host, backlinkInDocument: bool, root: Node)
      requires Valid()
      modifies this`watchers, this`nextId, this`observers, this`modalObservers, this`effects
      ensures Valid()
      ensures var rows := Registry(backlinkInDocument);
        && observers == RegistryEntries(host, rows, old(nextId))
        && nextId == old(nextId) + WatcherCount(host, rows) + 1
        && effects == old(effects) + RegistryRenders(host, rows) + [RefreshVisible]
        && watchers == RegistryWatchers(DisconnectAll(old(watchers), IdsOf(old(observers))), host, rows, old(nextId))
                         [nextId - 1 := Overlay(root, true, false, Drain([], false, [], 0))]
      ensures modalObservers == old(modalObservers) + [nextId - 1]
      ensures Extends(watchers, DisconnectAll(old(watchers), IdsOf(old(observers))), old(nextId), nextId)
      ensures watchers[nextId - 1] == Overlay(root, true, false, Drain([], false, [], 0))
      ensures forall i :: old(nextId) <= i < nextId ==> Idle(watchers[i])
    {
      LayoutReadyWith(host, Registry(backlinkInDocument), root);
    }

    /** The layout-ready callback with the table `rows`: initViewObservers,
        initModalObservers, then the global refresh. */
    method LayoutReadyWith(host: Host, rows: seq<ViewTypeRow>, root: Node)
      requires Valid()
      modifies this`watchers, this`nextId, this`observers, this`modalObservers, this`effects
      ensures Valid()
      ensures observers == RegistryEntries(host, rows, old(nextId))
      ensures nextId == old(nextId) + WatcherCount(host, rows) + 1
      ensures effects == old(effects) + RegistryRenders(host, rows) + [RefreshVisible]
      ensures watchers == RegistryWatchers(DisconnectAll(old(watchers), IdsOf(old(observers))), host, rows, old(nextId))
                            [nextId - 1 := Overlay(root, true, false, Drain([], false, [], 0))]
      ensures modalObservers == old(modalObservers) + [nextId - 1]
      ensures Extends(watchers, DisconnectAll(old(watchers), IdsOf(old(observers))), old(nextId), nextId)
      ensures watchers[nextId - 1] == Overlay(root, true, false, Drain([], false, [], 0))
      ensures forall i :: old(nextId) <= i < nextId ==> Idle(watchers[i])
    {
      ghost var torn := DisconnectAll(watchers, IdsOf(observers));
      RegisterTable(host, rows);
      AddOverlayExtending(root, torn, old(nextId));
      effects := effects + [RefreshVisible];
    }

    /** reloadObservers: tears everything down, adds an overlay watcher
        (the earlier ones stay listed), registers the view types afresh and
        refreshes. Every earlier watcher ends up disconnected, the new overlay
        watcher connected. */
    method ReloadObservers(host: Host, backlinkInDocument: bool, root: Node)
      requires Valid()
      modifies this`watchers, this`nextId, this`observers, this`modalObservers, this`effects
      ensures Valid()
      ensures var rows := Registry(backlinkInDocument);
        && effects == old(effects) + ClearPlan(host, old(observers)) + RegistryRenders(host, rows) + [RefreshVisible]
        && modalObservers == old(modalObservers) + [old(nextId)]
        && observers == RegistryEntries(host, rows, old(nextId) + 1)
        && nextId == old(nextId) + 1 + WatcherCount(host, rows)
      ensures Extends(watchers, DisconnectAll(old(watchers), IdsOf(old(observers)) + Elements(old(modalObservers)))
                                  [old(nextId) := Overlay(root, true, false, Drain([], false, [], 0))],
                      old(nextId) + 1, nextId)
      ensures watchers == RegistryWatchers(DisconnectAll(old(watchers), IdsOf(old(observers)) + Elements(old(modalObservers)))
                                             [old(nextId) := Overlay(root, true, false, Drain([], false, [], 0))],
                                           host, Registry(backlinkInDocument), old(nextId) + 1)
      ensures forall i :: old(nextId) <= i < nextId ==> Idle(watchers[i])
    {
      ReloadWith(host, Registry(backlinkInDocument), root);
    }

    /** reloadObservers with the table `rows`: disconnectObservers, a new
        overlay watcher, initViewObservers, then the global refresh. */
    method ReloadWith(host: Host, rows: seq<ViewTypeRow>, root: Node)
      requires Valid()
      modifies this`watchers, this`nextId, this`observers, this`modalObservers, this`effects
      ensures Valid()
      ensures effects == old(effects) + ClearPlan(host, old(observers)) + RegistryRenders(host, rows) + [RefreshVisible]
      ensures modalObservers == old(modalObservers) + [old(nextId)]
      ensures observers == RegistryEntries(host, rows, old(nextId) + 1)
      ensures nextId == old(nextId) + 1 + WatcherCount(host, rows)
      ensures Extends(watchers, DisconnectAll(old(watchers), IdsOf(old(observers)) + Elements(old(modalObservers)))
                                  [old(nextId) := Overlay(root, true, false, Drain([], false, [], 0))],
                      old(nextId) + 1, nextId)
      ensures watchers == RegistryWatchers(DisconnectAll(old(watchers), IdsOf(old(observers)) + Elements(old(modalObservers)))
                                             [old(nextId) := Overlay(root, true, false, Drain([], false, [], 0))],
                                           host, rows, old(nextId) + 1)
      ensures forall i :: old(nextId) <= i < nextId ==> Idle(watchers[i])
    {
      Teardown(host, root);
      RegisterTable(host, rows);
      effects := effects + [RefreshVisible];
    }

    /** The first two steps of reloadObservers: disconnectObservers, then a
        new overlay watcher. */
    method Teardown(host: Host, root: Node)
      requires Valid()
      modifies this`watchers, this`nextId, this`modalObservers, this`effects
      ensures Valid()
      ensures effects == old(effects) + ClearPlan(host, observers)
      ensures modalObservers == old(modalObservers) + [old(nextId)]
      ensures nextId == old(nextId) + 1
      ensures watchers == DisconnectAll(old(watchers), IdsOf(observers) + Elements(old(modalObservers)))
        [old(nextId) := Overlay(root, true, false, Drain([], false, [], 0))]
      ensures DisconnectAll(watchers, IdsOf(observers)) == watchers
    {
      IdsOfBound(observers, nextId);
      TornDown(watchers, IdsOf(observers) + Elements(modalObservers), IdsOf(observers), nextId,
               Overlay(root, true, false, Drain([], false, [], 0)));
      DisconnectObservers(host);
      var overlayId := InitModalObservers(root);
    }

    /** The Dynamic observer's callback body: pushes, record by record and
        node by node, the own-class elements of every added node that holds
        the parent class. */
    static method CollectLinks(host: Host, records: seq<MutationRecord>, ownClass: string, parentClass: string,
                               pending: seq<Node>) returns (queue: seq<Node>)
      ensures queue == pending + BatchTargets(host, records, ownClass, parentClass)
    {
      queue := pending;
      var i := 0;
      while i < |records|
        invariant 0 <= i <= |records|
        invariant queue == pending + BatchTargets(host, records[..i], ownClass, parentClass)
      {
        var mutation := records[i];
        assert records[..i + 1][..i] == records[..i];
        if mutation.isChildList {
          queue := CollectAddedLinks(host, mutation.addedNodes, ownClass, parentClass, queue);
        }
        i := i + 1;
      }
      assert records[..i] == records;
    }

    /** The callback's loop over the nodes one 'childList' record added. */
    static method CollectAddedLinks(host: Host, nodes: seq<Node>, ownClass: string, parentClass: string,
                                    pending: seq<Node>) returns (queue: seq<Node>)
      ensures queue == pending + AddedTargets(host, nodes, ownClass, parentClass)
    {
      queue := pending;
      var j := 0;
      while j < |nodes|
        invariant 0 <= j <= |nodes|
        invariant queue == pending + AddedTargets(host, nodes[..j], ownClass, parentClass)
      {
        var n := nodes[j];
        assert nodes[..j + 1][..j] == nodes[..j];
        if HoldsParentClass(n, parentClass) {
          var fileDivs := host.elementsByClass(n, ownClass);
          queue := PushAll(queue, fileDivs);
        }
        j := j + 1;
      }
      assert nodes[..j] == nodes;
    }

    /** `queue.push(...fileDivs)`, one element at a time. */
    static method PushAll(pending: seq<Node>, items: seq<Node>) returns (queue: seq<Node>)
      ensures queue == pending + items
    {
      queue := pending;
      var k := 0;
      while k < |items|
        invariant 0 <= k <= |items|
        invariant queue == pending + items[..k]
      {
        assert items[..k + 1] == items[..k] + [items[k]];
        queue := queue + [items[k]];
        k := k + 1;
      }
      assert items[..k] == items;
    }

    /** The Overlay observer's callback body: queues every added node that
        ClassifyOverlay accepts, and says whether it queued any. */
    static method CollectOverlays(records: seq<MutationRecord>, pending: seq<PendingUpdate>)
      returns (queue: seq<PendingUpdate>, hasUpdates: bool)
      ensures queue == pending + OverlayBatch(records)
      ensures hasUpdates <==> |OverlayBatch(records)| > 0
    {
      queue := pending;
      hasUpdates := false;
      var i := 0;
      while i < |records|
        invariant 0 <= i <= |records|
        invariant queue == pending + OverlayBatch(records[..i])
        invariant hasUpdates <==> |OverlayBatch(records[..i])| > 0
      {
        var mutation := records[i];
        assert records[..i + 1][..i] == records[..i];
        if mutation.isChildList {
          queue, hasUpdates := CollectAddedOverlays(mutation.addedNodes, queue, hasUpdates);
        }
        i := i + 1;
      }
      assert records[..i] == records;
    }

    /** The callback's loop over the nodes one 'childList' record added. */
    static method CollectAddedOverlays(nodes: seq<Node>, pending: seq<PendingUpdate>, wasSet: bool)
      returns (queue: seq<PendingUpdate>, hasUpdates: bool)
      ensures queue == pending + OverlayUpdates(nodes)
      ensures hasUpdates <==> wasSet || |OverlayUpdates(nodes)| > 0
    {
      queue := pending;
      hasUpdates := wasSet;
      var j := 0;
      while j < |nodes|
        invariant 0 <= j <= |nodes|
        invariant queue == pending + OverlayUpdates(nodes[..j])
        invariant hasUpdates <==> wasSet || |OverlayUpdates(nodes[..j])| > 0
      {
        var n := nodes[j];
        assert nodes[..j + 1][..j] == nodes[..j];
        var selector := ClassifyOverlay(n);
        if selector.Some? {
          queue := queue + [PendingUpdate(n, selector.value)];
          hasUpdates := true;
        }
        j := j + 1;
      }
      assert nodes[..j] == nodes;
    }

    /** A mutation batch reached watcher `id`, which becomes `w`; a frame is
        requested when `w`'s flag is newly set. */
    method Requeue(id: nat, w: Watcher)
      requires Valid() && id in watchers
      requires SameRole(watchers[id], w) && WatcherOk(w)
      requires watchers[id].scheduled ==> w.scheduled
      modifies this`watchers, this`frames
      ensures Valid()
      ensures watchers == old(watchers)[id := w]
      ensures frames == old(frames) + (if w.scheduled && !old(watchers[id].scheduled) then [id] else [])
    {
      RequeueCoherent(observers, modalObservers, watchers, nextId, frames, id, w);
      if w.scheduled && !watchers[id].scheduled {
        frames := frames + [id];
      }
      watchers := watchers[id := w];
    }

    /** The end of the oldest waiting frame: its watcher becomes `w`, which
        waits for another frame exactly when its flag stays set. */
    method EndFrame(w: Watcher) returns (id: nat)
      requires Valid() && |frames| > 0
      requires SameRole(watchers[frames[0]], w) && WatcherOk(w)
      modifies this`watchers, this`frames
      ensures Valid()
      ensures id == old(frames[0])
      ensures watchers == old(watchers)[id := w]
      ensures frames == old(frames[1..]) + (if w.scheduled then [id] else [])
    {
      id := frames[0];
      EndFrameCoherent(observers, modalObservers, watchers, nextId, frames, w);
      frames := frames[1..] + (if w.scheduled then [id] else []);
      watchers := watchers[id := w];
    }

    /** A MutationObserver callback with the records of one batch: a
        disconnected observer gets none; a Plain one requests a frame unless
        one is pending; a Dynamic one queues the own-class elements of the
        added nodes and an Overlay one the added overlays, each requesting a
        frame when its queue grew and none is pending. */
    method DeliverMutations(host: Host, id: nat, records: seq<MutationRecord>)
      requires Valid() && id in watchers
      modifies this`watchers, this`frames
      ensures Valid()
      ensures var w := old(watchers[id]);
        !w.connected ==> watchers == old(watchers) && frames == old(frames)
      ensures var w := old(watchers[id]);
        w.connected && w.Plain? ==>
          && watchers == old(watchers)[id := WithScheduled(w, true)]
          && frames == old(frames) + (if w.scheduled then [] else [id])
      ensures var w := old(watchers[id]);
        w.connected && w.Dynamic? ==>
          var links := w.links.(pending := w.links.pending + BatchTargets(host, records, w.ownClass, w.parentClass));
          var go := !w.scheduled && |links.pending| > 0;
          && watchers == old(watchers)[id := WithLinks(w, links, w.scheduled || go)]
          && frames == old(frames) + (if go then [id] else [])
      ensures var w := old(watchers[id]);
        w.connected && w.Overlay? ==>
          var added := OverlayBatch(records);
          var go := |added| > 0 && !w.scheduled;
          && watchers == old(watchers)[id := WithUpdates(w, w.updates.(pending := w.updates.pending + added), w.scheduled || go)]
          && frames == old(frames) + (if go then [id] else [])
    {
      var w := watchers[id];
      if !w.connected {
        return;
      }
      match w
      case Plain(_, _, _, _, _) =>
        Requeue(id, WithScheduled(w, true));
      case Dynamic(_, _, _, _, _, _, _, _) =>
        var queue := CollectLinks(host, records, w.ownClass, w.parentClass, w.links.pending);
        Requeue(id, WithLinks(w, w.links.(pending := queue), w.scheduled || |queue| > 0));
      case Overlay(_, _, _, _) =>
        var queue, hasUpdates := CollectOverlays(records, w.updates.pending);
        Requeue(id, WithUpdates(w, w.updates.(pending := queue), w.scheduled || hasUpdates));
    }

    /** The oldest waiting frame of a Plain watcher: rescans its container
        under its view type and clears its flag. */
    method FirePlain(host: Host)
      requires Valid() && |frames| > 0 && watchers[frames[0]].Plain?
      modifies this`watchers, this`frames, this`effects
      ensures Valid()
      ensures var id := old(frames[0]); var w := old(watchers[id]);
        && watchers == old(watchers)[id := WithScheduled(w, false)]
        && frames == old(frames[1..])
        && effects == old(effects) + ContainerRenders(host, w.container, w.selector, w.viewType)
    {
      var w := watchers[frames[0]];
      UpdateContainer(host, w.container, w.selector, w.viewType);
      var id := EndFrame(WithScheduled(w, false));
    }

    /** The oldest waiting frame of a Dynamic watcher: takes the queue over
        unless a drain is under way, renders the next 20 elements under the
        watcher's key, and waits for another frame while elements remain. */
    method FireDynamic(host: Host)
      requires Valid() && |frames| > 0 && watchers[frames[0]].Dynamic?
      modifies this`watchers, this`frames, this`effects
      ensures Valid()
      ensures var id := old(frames[0]); var w := old(watchers[id]);
        var d := Step(w.links, DynamicChunkSize);
        && watchers == old(watchers)[id := WithLinks(w, d, d.draining)]
        && frames == old(frames[1..]) + (if d.draining then [id] else [])
        && effects == old(effects) + Renders(NextChunk(w.links, DynamicChunkSize), Some(w.key))
    {
      var w := watchers[frames[0]];
      RenderAll(NextChunk(w.links, DynamicChunkSize), Some(w.key));
      var d := Step(w.links, DynamicChunkSize);
      var id := EndFrame(WithLinks(w, d, d.draining));
    }

    /** The oldest waiting frame of an Overlay watcher: takes the queue over
        unless a drain is under way and waits for another frame while
        overlays remain after the next 10, which it then handles. */
    method FireOverlay(host: Host)
      requires Valid() && |frames| > 0 && watchers[frames[0]].Overlay?
      modifies this`watchers, this`nextId, this`observers, this`frames, this`effects
      ensures Valid()
      ensures var id := old(frames[0]); var w := old(watchers[id]);
        var d := Step(w.updates, OverlayChunkSize);
        var c := NextChunk(w.updates, OverlayChunkSize);
        && observers == old(observers)
        && frames == old(frames[1..]) + (if d.draining then [id] else [])
        && effects == old(effects) + OverlayRenders(host, c)
        && nextId == old(nextId) + |c|
        && watchers == WithOverlayWatchers(old(watchers)[id := WithUpdates(w, d, d.draining)], c, old(nextId), |c|)
      ensures forall i :: old(nextId) <= i < nextId ==> i !in IdsOf(observers) && i !in Elements(modalObservers)
    {
      IdsOfMembers(observers);
      var w := watchers[frames[0]];
      var chunk := NextChunk(w.updates, OverlayChunkSize);
      var d := Step(w.updates, OverlayChunkSize);
      var id := EndFrame(WithUpdates(w, d, d.draining));
      WatchOverlays(host, chunk);
    }

    /** The body of an overlay frame for each overlay it handles: rescans it
        with no view type and puts an unlisted Plain watcher on it. */
    method WatchOverlays(host: Host, chunk: seq<PendingUpdate>)
      requires Valid()
      modifies this`watchers, this`nextId, this`observers, this`effects
      ensures Valid()
      ensures observers == old(observers) && nextId == old(nextId) + |chunk|
      ensures effects == old(effects) + OverlayRenders(host, chunk)
      ensures watchers == WithOverlayWatchers(old(watchers), chunk, old(nextId), |chunk|)
    {
      var i := 0;
      while i < |chunk|
        invariant 0 <= i <= |chunk|
        invariant Valid()
        invariant observers == old(observers) && nextId == old(nextId) + i
        invariant effects == old(effects) + OverlayRenders(host, chunk[..i])
        invariant watchers == WithOverlayWatchers(old(watchers), chunk, old(nextId), i)
      {
        WatchNextOverlay(host, chunk, i, old(watchers), old(observers), old(nextId), old(effects));
        i := i + 1;
      }
      assert chunk[..i] == chunk;
    }

    /** One turn of the overlay frame's loop: overlay `i` after the ones
        before it. */
    method WatchNextOverlay(host: Host, chunk: seq<PendingUpdate>, i: nat, ghost w0: map<nat, Watcher>,
                            ghost o0: seq<WatchEntry>, ghost n0: nat, ghost e0: seq<Effect>)
      requires Valid() && i < |chunk|
      requires observers == o0 && nextId == n0 + i
      requires effects == e0 + OverlayRenders(host, chunk[..i])
      requires watchers == WithOverlayWatchers(w0, chunk, n0, i)
      modifies this`watchers, this`nextId, this`observers, this`effects
      ensures Valid()
      ensures observers == o0 && nextId == n0 + i + 1
      ensures effects == e0 + OverlayRenders(host, chunk[..i + 1])
      ensures watchers == WithOverlayWatchers(w0, chunk, n0, i + 1)
    {
      var u := chunk[i];
      assert chunk[..i + 1][..i] == chunk[..i];
      UpdateContainer(host, u.node, u.selector, None);
      var watcherId := WatchContainer(None, u.node, u.selector);
    }

    /** The browser runs the oldest waiting animation frame callback. */
    method FireFrame(host: Host)
      requires Valid() && |frames| > 0
      modifies this`watchers, this`nextId, this`observers, this`frames, this`effects
      ensures Valid()
      ensures observers == old(observers)
      ensures var id := old(frames[0]); var w := old(watchers[id]);
        w.Plain? ==>
          && watchers == old(watchers)[id := WithScheduled(w, false)]
          && frames == old(frames[1..]) && nextId == old(nextId)
          && effects == old(effects) + ContainerRenders(host, w.container, w.selector, w.viewType)
      ensures var id := old(frames[0]); var w := old(watchers[id]);
        w.Dynamic? ==>
          var d := Step(w.links, DynamicChunkSize);
          && watchers == old(watchers)[id := WithLinks(w, d, d.draining)]
          && frames == old(frames[1..]) + (if d.draining then [id] else []) && nextId == old(nextId)
          && effects == old(effects) + Renders(NextChunk(w.links, DynamicChunkSize), Some(w.key))
      ensures var id := old(frames[0]); var w := old(watchers[id]);
        w.Overlay? ==>
          var d := Step(w.updates, OverlayChunkSize);
          var c := NextChunk(w.updates, OverlayChunkSize);
          && frames == old(frames[1..]) + (if d.draining then [id] else [])
          && effects == old(effects) + OverlayRenders(host, c)
          && nextId == old(nextId) + |c|
          && watchers == WithOverlayWatchers(old(watchers)[id := WithUpdates(w, d, d.draining)], c, old(nextId), |c|)
    {
      var w := watchers[frames[0]];
      match w
      case Plain(_, _, _, _, _) => FirePlain(host);
      case Dynamic(_, _, _, _, _, _, _, _) => FireDynamic(host);
      case Overlay(_, _, _, _) => FireOverlay(host);
    }
  }
}
