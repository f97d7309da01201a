# metadatamenu core, modelled in Dafny

This project models four pieces of the Obsidian plugin *metadatamenu* and
proves properties of them:

- **The link-annotation engine** (`src/components/ExtraButton.ts`), in
  `extra_button.dfy`, with its pure rules in `link_plans.dfy`, `chunking.dfy`
  and `dom.dfy`. The component keeps MutationObservers on the containers of
  open views and on the document body. Their callbacks share flags and
  queues, and they schedule animation frames that rescan containers, drain
  queued elements in chunks of 20 (inserted list items) or 10 (inserted
  modals and suggestion popups), or clear annotations on teardown. The model
  is a class `ExtraButton`:
  - every observer's captured state is a `Watcher` value in the map
    `watchers`, under an id;
  - the frames waiting to run are the queue `frames`;
  - `observers` and `modalObservers` are the component's two lists;
  - every call into the rendering code is recorded in `effects`.

  "A batch of mutations reaches observer `id`" (`DeliverMutations`) and "the
  browser runs the oldest frame" (`FireFrame`) are step methods. The class
  invariant `Valid` says three things:
  - every listed id names a watcher of the right kind;
  - a watcher waits for exactly one frame while its flag is set, and for
    none otherwise;
  - a drain under way has items left.
- **The bulk-edit value** (`src/fields/base/BaseModal.ts`), in
  `bulk_edit.dfy`, with the JavaScript string operations it relies on in
  `js_text.dfy`: `parseListValue`, the mode labels, and `computeFinalValue`
  under overwrite, append, remove and clear.
- **The file-class query** (`src/fileClass/FileClassQuery.ts`), in
  `file_class_query.dfy`: a one-slot cache of the paths a Dataview query
  matched.
- **The note cache** (`src/note/NoteCache.ts`), in `note_cache.dfy`: a map
  from path to a note and the modification time it was built at.

The host is a `Dom.Host` value passed to each step. It stands for the open
leaves of each view type, `findAll` and `getElementsByClassName` at that
moment. The rendering calls `updateDivExtraAttributes`,
`clearExtraAttributes` and `updateVisibleLinks` become `Dom.Effect` values.
Two things are parameters of the steps that consult them:
- the result of evaluating a Dataview query (`FileClassQuery.matchFile`);
- the note a fresh `Note.build` yields (`NoteCache.get`).

Where the intended design of the engine and its code differ, the model
follows the code:
- Frames that were requested before a teardown still run after it. No
  liveness flag is checked, so a disconnected watcher's drain goes on to its
  end (`FireFrame` does not look at `connected`).
- `updateLinks` and `disconnectObservers` look up `getLeavesOfType(key)`. A
  view type with several open leaves registers its watchers under the keys
  `name0`, `name1` and so on, so those leaves are neither rescanned by
  `updateLinks` nor cleared on teardown (`LinkPlans.UnmatchedKeyNotRescanned`,
  `LinkPlans.ClearPlan`).
- The watchers an overlay frame puts on each modal are never listed, so no
  teardown disconnects them. `reloadObservers` appends a new overlay watcher
  without removing the earlier ones, which stay disconnected.
- With a single open leaf, a dynamic view type is watched with the default
  classes `tree-item-inner` and `tree-item`, not the row's own. Only the two
  `bases` rows have classes of their own.
- A dynamic watcher requests a drain when none is pending and its queue is
  non-empty, not only when the queue was empty before the batch. Items queued
  while a drain runs wait in the queue for the next drain
  (`Chunking.QueuedDuringDrain`).
- A link is skipped as a canvas file link when its direct parent's
  `data-path` includes ".canvas". No other ancestor is consulted.
- The same container can carry two watchers: the two `bases` rows, and the
  second `markdown` row when backlinks are shown in documents.
- Teardown is not best effort. `disconnectObservers` walks the list with
  `forEach` (`src/components/ExtraButton.ts:314-320`), so a throw from
  `clearExtraAttributes` stops the walk. The remaining listed watchers and
  every overlay watcher stay connected. The model assumes the collaborator
  returns normally; see "## Left out".

## Model

| member | source | states |
|---|---|---|
| ExtraButtonModel.ExtraButton.constructor | src/components/ExtraButton.ts:27 | the component starts with both lists empty, no observer, no frame and no call made |
| ExtraButtonModel.ExtraButton.UpdateContainer | src/components/ExtraButton.ts:194-223 | both branches, below 50 matches and from 50 on, append exactly ContainerRenders: the non-canvas matches in document order (nothing when nothing matches) |
| ExtraButtonModel.ExtraButton.RenderEach | src/components/ExtraButton.ts:199-207 | the loop below 50 matches renders LinkTargets(nodes) in order |
| ExtraButtonModel.ExtraButton.CollectTargets | src/components/ExtraButton.ts:210-218 | the collecting loop returns exactly the matches that are not canvas file links, in order |
| ExtraButtonModel.ExtraButton.RenderAll | src/components/ExtraButton.ts:220-222 | the second loop renders every collected element once, in order |
| ExtraButtonModel.ExtraButton.RemoveFromContainer | src/components/ExtraButton.ts:225-232 | clears every match of the selector, canvas links included, in order |
| ExtraButtonModel.ExtraButton.AddWatcher | src/components/ExtraButton.ts:237-246 | a new observer gets a fresh id, no frame, and leaves the invariant intact |
| ExtraButtonModel.ExtraButton.WatchContainer | src/components/ExtraButton.ts:234-250 | adds a connected, unscheduled Plain watcher, listed only when the view type is a non-empty string |
| ExtraButtonModel.ExtraButton.WatchContainerDynamic | src/components/ExtraButton.ts:252-304 | adds a connected Dynamic watcher with an empty, idle queue, always listed under its key and selector |
| ExtraButtonModel.ExtraButton.RegisterViewType | src/components/ExtraButton.ts:162-192 | one watcher per open leaf under fresh ids, listed as NewEntries; a rescan only with exactly one leaf; nothing with none |
| ExtraButtonModel.ExtraButton.WatchLeaves | src/components/ExtraButton.ts:170-180 | the loop over several leaves registers leaf i under id base + i and key name + i |
| ExtraButtonModel.ExtraButton.WatchNextLeaf | src/components/ExtraButton.ts:171-179 | one turn of that loop extends the registered watchers and entries by leaf i |
| ExtraButtonModel.ExtraButton.WatchLeaf | src/components/ExtraButton.ts:172-190 | leaf k gets NewWatcher(row, leaves, k), dynamic or plain, with the row's classes only when several leaves are open |
| ExtraButtonModel.ExtraButton.Disconnect | src/components/ExtraButton.ts:66 | observer.disconnect() marks that watcher disconnected and changes no other |
| ExtraButtonModel.ExtraButton.DisconnectListed | src/components/ExtraButton.ts:65-67 | every listed watcher, and no other, is disconnected |
| ExtraButtonModel.ExtraButton.InitViewObservers | src/components/ExtraButton.ts:64-90 | the list becomes exactly the table's entries; the watchers become exactly RegistryWatchers over the old ones with the listed ones disconnected, so the old watchers are kept but disconnected and the new ones take the ids from nextId on, each a connected, idle watcher |
| ExtraButtonModel.ExtraButton.RegisterTable | src/components/ExtraButton.ts:64-90 | initViewObservers with a given table: the same entries, ids, rescans and exact watchers, each new one idle |
| ExtraButtonModel.ExtraButton.RegisterRows | src/components/ExtraButton.ts:73-89 | the rows are registered in table order; the watchers become exactly RegistryWatchers over the rows, growing by the ids handed out |
| ExtraButtonModel.ExtraButton.RegisterRow | src/components/ExtraButton.ts:73-89 | registering row r extends the entries, ids, rescans and watchers of rows[..r] to those of rows[..r + 1] |
| ExtraButtonModel.ExtraButton.InitModalObservers | src/components/ExtraButton.ts:92-160 | one connected overlay watcher with an empty, idle queue, appended to modalObservers |
| ExtraButtonModel.ExtraButton.DisconnectObservers | src/components/ExtraButton.ts:313-324 | disconnects exactly the listed and the overlay watchers, clears ClearPlan, and empties neither list |
| ExtraButtonModel.ExtraButton.DisconnectAndClear | src/components/ExtraButton.ts:314-320 | the first loop disconnects every listed watcher and clears the leaves of each entry's key |
| ExtraButtonModel.ExtraButton.DisconnectNextEntry | src/components/ExtraButton.ts:314-320 | one turn of that loop extends the disconnected ids and the clears by entry k |
| ExtraButtonModel.ExtraButton.DisconnectEntry | src/components/ExtraButton.ts:315-319 | one entry: its watcher is disconnected and the matches in the leaves of its key are cleared |
| ExtraButtonModel.ExtraButton.ClearLeaves | src/components/ExtraButton.ts:317-319 | the inner loop clears the matches of each leaf in turn |
| ExtraButtonModel.ExtraButton.DisconnectOverlays | src/components/ExtraButton.ts:321-323 | every overlay watcher, and no other, is disconnected |
| ExtraButtonModel.ExtraButton.OnUnload | src/components/ExtraButton.ts:326-328 | the watchers become DisconnectAll over the listed and the overlay ids: none of those stays connected, every other watcher (such as an overlay's content watcher) keeps its state, and only clears were made |
| ExtraButtonModel.ExtraButton.UpdateLinks | src/components/ExtraButton.ts:47-61 | one global refresh, then RefreshPlan: every leaf whose view type equals a listed key is rescanned; with an empty list only the refresh |
| ExtraButtonModel.ExtraButton.RescanLeaves | src/components/ExtraButton.ts:57-59 | the inner loop rescans each leaf under the entry's key |
| ExtraButtonModel.ExtraButton.OnLayoutReady | src/components/ExtraButton.ts:29-33 | the table is registered, then one overlay watcher is added, then one global refresh; the watchers become exactly RegistryWatchers over the old ones with the listed ones disconnected, plus the overlay watcher last; the other old watchers are kept, and every new watcher is connected and idle |
| ExtraButtonModel.ExtraButton.LayoutReadyWith | src/components/ExtraButton.ts:29-33 | the layout-ready callback with a given table, with the same exact entries, ids, rescans and watchers |
| ExtraButtonModel.ExtraButton.AddOverlayExtending | src/components/ExtraButton.ts:31 | the overlay watcher of initModalObservers takes the next fresh id, so the new watchers still lie in one range of fresh ids |
| ExtraButtonModel.ExtraButton.ReloadObservers | src/components/ExtraButton.ts:306-311 | clears by the old list, adds an overlay watcher, re-registers the table and refreshes; the watchers become exactly RegistryWatchers over the torn-down ones plus the new overlay watcher, so every earlier watcher it disconnected stays so and every new one is connected and idle |
| ExtraButtonModel.ExtraButton.ReloadWith | src/components/ExtraButton.ts:306-311 | reloadObservers with a given table, with the same exact effects, lists, ids and watchers |
| ExtraButtonModel.ExtraButton.Teardown | src/components/ExtraButton.ts:307-308 | disconnectObservers and a new overlay watcher; disconnecting the listed ones again would change nothing |
| ExtraButtonModel.ExtraButton.CollectLinks | src/components/ExtraButton.ts:280-295 | the dynamic callback queues BatchTargets: own-class elements of added nodes holding the parent class, from 'childList' records only |
| ExtraButtonModel.ExtraButton.CollectAddedLinks | src/components/ExtraButton.ts:282-293 | the loop over one record's added nodes queues AddedTargets in order |
| ExtraButtonModel.ExtraButton.PushAll | src/components/ExtraButton.ts:287-290 | pushing the elements one by one appends them all, in order |
| ExtraButtonModel.ExtraButton.CollectOverlays | src/components/ExtraButton.ts:130-151 | the overlay callback queues OverlayBatch and reports whether it queued anything |
| ExtraButtonModel.ExtraButton.CollectAddedOverlays | src/components/ExtraButton.ts:133-150 | the loop over one record's added nodes queues the accepted overlays with their selectors |
| ExtraButtonModel.ExtraButton.Requeue | src/components/ExtraButton.ts:297-300 | a frame is requested exactly when the flag becomes set, so no watcher ever has two pending frames |
| ExtraButtonModel.ExtraButton.EndFrame | src/components/ExtraButton.ts:269-273 | the oldest frame ends; its watcher waits for another frame exactly when its flag stays set |
| ExtraButtonModel.ExtraButton.DeliverMutations | src/components/ExtraButton.ts:127-301 | the observer callbacks (overlay 127-157, plain 237-245, dynamic 279-301): a disconnected watcher ignores the batch; a plain one coalesces to at most one frame; dynamic and overlay ones extend their queue and request a frame only when none is pending and there is work |
| ExtraButtonModel.ExtraButton.FirePlain | src/components/ExtraButton.ts:240-243 | the frame does exactly one rescan of the watched container and clears the flag |
| ExtraButtonModel.ExtraButton.FireDynamic | src/components/ExtraButton.ts:256-277 | splice(0) at a drain's start, the next 20 rendered under the key, the flag kept exactly while items remain |
| ExtraButtonModel.ExtraButton.FireOverlay | src/components/ExtraButton.ts:102-125 | the next 10 overlays are rescanned and watched, and the drain goes on exactly while overlays remain; the watchers it adds are in neither list |
| ExtraButtonModel.ExtraButton.WatchOverlays | src/components/ExtraButton.ts:110-114 | each handled overlay is rescanned with no view type and gets an unlisted Plain watcher |
| ExtraButtonModel.ExtraButton.WatchNextOverlay | src/components/ExtraButton.ts:111-113 | one turn of that loop handles overlay i |
| ExtraButtonModel.ExtraButton.FireFrame | src/components/ExtraButton.ts:102-277 | the oldest frame runs the step of its watcher's kind (a plain rescan 240-243, the next 10 overlays rescanned and watched 102-125, the next 20 links rendered 256-277) and keeps the invariant |
| ExtraButtonModel.IdsOf | src/components/ExtraButton.ts:65 | every listed id is among the ids disconnected |
| ExtraButtonModel.IdsOfMembers | src/components/ExtraButton.ts:65-66 | an id is among the ids disconnected exactly when some entry of the list holds it |
| ExtraButtonModel.DisconnectedTwice | src/components/ExtraButton.ts:66 | disconnecting twice is disconnecting once |
| ExtraButtonModel.DisconnectAllTwice | src/components/ExtraButton.ts:313-324 | disconnecting one set of ids after another disconnects their union |
| ExtraButtonModel.TornDown | src/components/ExtraButton.ts:306-309 | after the teardown the listed watchers are already disconnected and the new overlay watcher is untouched |
| ExtraButtonModel.WithRegisteredExtends | src/components/ExtraButton.ts:169-191 | registration adds watchers under exactly the fresh ids and changes no existing watcher |
| ExtraButtonModel.WithRegisteredAt | src/components/ExtraButton.ts:171-179 | leaf k's watcher is NewWatcher(row, leaves, k) under id base + k |
| ExtraButtonModel.WithRegisteredIdle | src/components/ExtraButton.ts:172-190 | every watcher registerViewType creates starts connected, unscheduled and with an empty queue |
| ExtraButtonModel.WithRegisteredKeeps | src/components/ExtraButton.ts:169-191 | registration leaves every watcher under an earlier id as it was |
| ExtraButtonModel.RegistryWatchers | src/components/ExtraButton.ts:73-89 | the watchers initViewObservers registers, row after row; RegistryWatchersIdle and RegistryWatchersAt state what they are |
| ExtraButtonModel.RegistryWatchersSnoc | src/components/ExtraButton.ts:73-89 | registering row r follows the rows before it, from the next free id |
| ExtraButtonModel.RegistryWatchersIdle | src/components/ExtraButton.ts:73-89 | the table's watchers take exactly the ids from base on, one per open leaf, keep the earlier watchers, and all start idle |
| ExtraButtonModel.RegistryWatchersAt | src/components/ExtraButton.ts:169-191 | leaf k of row r is watched by registerViewType's watcher for it (its container, selector, key and classes) under the id after the rows before it |
| ExtraButtonModel.RegistryWatchersLast | src/components/ExtraButton.ts:73-89 | the last row's leaves are watched under the ids after the rows before it |
| ExtraButtonModel.RegistryWatchersEarlier | src/components/ExtraButton.ts:73-89 | a row before the last keeps its watchers when the last row registers |
| ExtraButtonModel.RegistryWatchersKeeps | src/components/ExtraButton.ts:73-89 | the last row leaves every watcher of the rows before it alone |
| ExtraButtonModel.RowIdBelow | src/components/ExtraButton.ts:73-89 | a leaf's id lies below the number of watchers the table registers |
| ExtraButtonModel.NewWatcher | src/components/ExtraButton.ts:172-190 | the watcher registerViewType creates for leaf k: dynamic or plain by the row, key WatchKey, the row's classes only with several leaves; WithRegisteredAt and RegistryWatchersAt place it |
| ExtraButtonModel.WithRegistered | src/components/ExtraButton.ts:169-191 | the watchers registerViewType adds for the first count leaves; WithRegisteredExtends, WithRegisteredAt and WithRegisteredIdle state what they are |
| ExtraButtonModel.DisconnectAll | src/components/ExtraButton.ts:313-324 | the watchers after disconnect() on each id of a set; DisconnectAllTwice and DisconnectListed state its properties |
| ExtraButtonModel.OverlayRenders | src/components/ExtraButton.ts:110-112 | the rescans an overlay frame makes, one updateContainer per overlay, in order; WatchOverlays is proved against it |
| ExtraButtonModel.Coherent | src/components/ExtraButton.ts:234-301 | the class invariant: every id is below nextId, listed ids name watchers of the right kind and key, and a watcher has exactly one waiting frame while its flag is set and none otherwise; RequeueCoherent and EndFrameCoherent show the callbacks keep it |
| ExtraButtonModel.ExtraButton.Valid | src/components/ExtraButton.ts:234-301 | Coherent over the object's fields, required and ensured by every method that changes watchers |
| ExtraButtonModel.Idle | src/components/ExtraButton.ts:235-254 | a watcher as its observer was just created: connected, no frame requested, nothing queued |
| ExtraButtonModel.WithOverlayWatchersExtends | src/components/ExtraButton.ts:110-114 | an overlay frame adds watchers under exactly the fresh ids and changes no existing watcher |
| ExtraButtonModel.WithOverlayWatchersAt | src/components/ExtraButton.ts:113 | overlay k gets a connected, unlisted Plain watcher with its selector |
| ExtraButtonModel.NewEntriesStep | src/components/ExtraButton.ts:171-179 | leaf i's entry follows the entries of the leaves before it |
| ExtraButtonModel.RegisterRowStep | src/components/ExtraButton.ts:73-89 | row r's entries, ids and rescans follow those of the rows before it |
| ExtraButtonModel.RequeueCoherent | src/components/ExtraButton.ts:238-239 | setting a flag together with requesting one frame keeps one frame per set flag |
| ExtraButtonModel.EndFrameCoherent | src/components/ExtraButton.ts:269-273 | ending a frame and re-requesting it exactly while the flag stays set keeps one frame per set flag |
| LinkPlans.LinkTargets | src/components/ExtraButton.ts:202-203 | the rendered elements are no more than the matches |
| LinkPlans.LinkTargetsMembers | src/components/ExtraButton.ts:202-205 | an element is rendered if and only if it matched and is not a canvas file link |
| LinkPlans.LinkTargetsConcat | src/components/ExtraButton.ts:212-218 | filtering commutes with concatenation, so document order is kept |
| LinkPlans.IsCanvasFileLink | src/components/ExtraButton.ts:202 | a link is skipped when its direct parent's data-path includes ".canvas" |
| LinkPlans.Renders | src/components/ExtraButton.ts:220-222 | one render call per element |
| LinkPlans.ContainerRendersSpec | src/components/ExtraButton.ts:194-223 | nothing for no match; each non-canvas match rendered under the view type; nothing else |
| LinkPlans.ContainerRenders | src/components/ExtraButton.ts:194-223 | the calls updateContainer makes: one render per non-canvas match, in document order; ContainerRendersSpec, RendersAt and LinkTargetsConcat state it |
| LinkPlans.Clears | src/components/ExtraButton.ts:228-231 | one clear call per match |
| LinkPlans.ClassifyOverlay | src/components/ExtraButton.ts:134-148 | accepted if and only if an HTML element with a string className naming a modal or suggestion container; suggestion wins |
| LinkPlans.OverlayUpdates | src/components/ExtraButton.ts:133-150 | a record queues no more overlays than it added nodes |
| LinkPlans.OverlayUpdatesMembers | src/components/ExtraButton.ts:133-150 | a record queues exactly its accepted nodes, each with the selector ClassifyOverlay chose |
| LinkPlans.OverlayBatchMembers | src/components/ExtraButton.ts:130-151 | a batch queues only accepted overlays, and every accepted node of every 'childList' record |
| LinkPlans.OverlayBatch | src/components/ExtraButton.ts:130-151 | what one batch puts on the overlay queue, record by record; its members are given by OverlayBatchMembers |
| LinkPlans.AddedTargetsOrigin | src/components/ExtraButton.ts:282-291 | every queued element carries the own class inside an added node holding the parent class |
| LinkPlans.AddedTargetsComplete | src/components/ExtraButton.ts:282-291 | every own-class element of every added node holding the parent class is queued |
| LinkPlans.BatchTargetsMembers | src/components/ExtraButton.ts:280-295 | a batch queues an element if and only if it carries the own class inside a node added by one of its 'childList' records that holds the parent class |
| LinkPlans.AddedTargets | src/components/ExtraButton.ts:282-291 | what one record's added nodes queue, node by node in order; its members are given by AddedTargetsOrigin and AddedTargetsComplete |
| LinkPlans.BatchTargets | src/components/ExtraButton.ts:280-295 | what one batch queues, record by record; its members are given by BatchTargetsMembers |
| LinkPlans.HoldsParentClass | src/components/ExtraButton.ts:283-285 | an added node is looked inside when it has a className string that includes the parent class |
| LinkPlans.BatchTargetsConcat | src/components/ExtraButton.ts:280-295 | two batches queue what one batch of both records queues |
| LinkPlans.SingleInsertQueuesOne | src/components/ExtraButton.ts:282-290 | one inserted parent holding one own-class element queues exactly that element |
| LinkPlans.Registry | src/components/ExtraButton.ts:73-89 | the table has 13 rows, and a 14th when backlinks are shown in documents |
| LinkPlans.RegistryRow | src/components/ExtraButton.ts:73-88 | the registerViewType calls in order, with their view type, selector, dynamic flag and classes; every row names a view type |
| LinkPlans.RegistryPrefix | src/components/ExtraButton.ts:73-88 | the first n calls, in order |
| LinkPlans.RegistryPrefixAt | src/components/ExtraButton.ts:73-88 | row k of a prefix is call k of the table |
| LinkPlans.RegistryListsEveryLeaf | src/components/ExtraButton.ts:73-89 | initViewObservers lists exactly one entry per open leaf of the table's view types |
| LinkPlans.WatchKeysDistinct | src/components/ExtraButton.ts:171-177 | the leaves of one view type get pairwise distinct keys |
| LinkPlans.WatchKey | src/components/ExtraButton.ts:174-189 | the key registerViewType passes: the view type followed by the leaf index with several leaves, the view type alone with one; WatchKeysDistinct states its property |
| LinkPlans.RegisterRenders | src/components/ExtraButton.ts:181-184 | the immediate rescan registerViewType makes, only when exactly one leaf is open |
| LinkPlans.RegistryEntries | src/components/ExtraButton.ts:73-89 | the list initViewObservers builds, row after row; RegistryEntriesCount and NewEntriesExact state its contents |
| LinkPlans.WatcherCount | src/components/ExtraButton.ts:73-89 | the number of watchers the rows register, one per open leaf of each row |
| LinkPlans.WatcherCountPrefix | src/components/ExtraButton.ts:73-89 | the rows before j register no more watchers than all the rows |
| LinkPlans.NewEntries | src/components/ExtraButton.ts:247-249 | a row lists at most one entry per leaf |
| LinkPlans.NewEntriesRange | src/components/ExtraButton.ts:170-190 | every entry of a row has the row's selector and one of the ids handed out for it |
| LinkPlans.NewEntriesExact | src/components/ExtraButton.ts:170-190 | a named row lists leaf k as (base + k, WatchKey, selector) |
| LinkPlans.RegistryEntriesCount | src/components/ExtraButton.ts:73-89 | with non-empty names the list has one entry per registered watcher |
| LinkPlans.RefreshPlanOnlyRenders | src/components/ExtraButton.ts:55-60 | updateLinks only renders, each under a view type, and never clears |
| LinkPlans.LeafRendersOnlyRender | src/components/ExtraButton.ts:57-59 | the rescans of an entry's leaves render under that entry's key |
| LinkPlans.UnmatchedKeyNotRescanned | src/components/ExtraButton.ts:56 | an entry whose key names no open view type adds no rescan |
| LinkPlans.RefreshPlan | src/components/ExtraButton.ts:55-60 | the rescans of updateLinks, entry by entry, of the leaves whose view type equals the entry's key; RefreshPlanOnlyRenders and UnmatchedKeyNotRescanned state its properties |
| LinkPlans.ClearPlan | src/components/ExtraButton.ts:314-320 | the clears of disconnectObservers, entry by entry, over the leaves of the entry's key; ClearPlanOnlyClears states its property |
| LinkPlans.ClearPlanOnlyClears | src/components/ExtraButton.ts:314-320 | teardown only clears and never renders |
| LinkPlans.LeafClearsOnlyClear | src/components/ExtraButton.ts:317-319 | the clears of an entry's leaves are clears |
| Chunking.ChunkEnd | src/components/ExtraButton.ts:263 | Math.min(index + size, len) stays in the snapshot and spans at most one chunk |
| Chunking.Chunks | src/components/ExtraButton.ts:262-276 | the chunks processChunk works through from an index; ChunksCoverOnce and ChunkSizes state their properties |
| Chunking.ChunksCoverOnce | src/components/ExtraButton.ts:262-276 | the chunks laid end to end are the snapshot from the start index: each item once, in order |
| Chunking.ChunkSizes | src/components/ExtraButton.ts:262-270 | every chunk but the last is full, none exceeds the size, and the last is non-empty |
| Chunking.ChunkCallCount | src/components/ExtraButton.ts:262-276 | K > 0 items take ceil(K / C) calls of processChunk |
| Chunking.Start | src/components/ExtraButton.ts:260 | a drain resumes inside its source |
| Chunking.NextChunk | src/components/ExtraButton.ts:263-266 | the items the next frame handles, from the index to Math.min(index + size, length); StepAdvances states that it is the first remaining chunk |
| Chunking.Step | src/components/ExtraButton.ts:256-277 | one frame keeps the drain well formed; a drain that starts takes over the whole queue and leaves it empty (splice(0)), a drain under way leaves the queue and its snapshot alone |
| Chunking.StepAdvances | src/components/ExtraButton.ts:262-273 | a frame handles the first remaining chunk, and stays under way exactly while chunks remain |
| Chunking.QueuedDuringDrain | src/components/ExtraButton.ts:257 | items queued during a drain do not join it and wait in the queue |
| Chunking.DrainCoversQueue | src/components/ExtraButton.ts:256-277 | run to its end, a drain handles every snapshotted item exactly once, in order |
| JsText.SpaceFrom | src/fields/base/BaseModal.ts:28 | counts exactly the leading whitespace from an index |
| JsText.IsWhitespace | src/fields/base/BaseModal.ts:28 | the WhiteSpace and LineTerminator characters String.prototype.trim removes |
| JsText.SpaceBefore | src/fields/base/BaseModal.ts:28 | counts exactly the trailing whitespace before an index |
| JsText.TrimStart | src/fields/base/BaseModal.ts:28 | drops exactly the leading whitespace |
| JsText.TrimEnd | src/fields/base/BaseModal.ts:28 | drops exactly the trailing whitespace |
| JsText.Trim | src/fields/base/BaseModal.ts:28 | the result has no whitespace at either end, and a trimmed string is kept |
| JsText.TrimKeepsMiddle | src/fields/base/BaseModal.ts:28 | trim removes a whitespace prefix and suffix and nothing else |
| JsText.TrimSubset | src/fields/base/BaseModal.ts:28 | trim adds no character |
| JsText.ContainsAt | src/components/ExtraButton.ts:139 | a string includes every string it is built around |
| JsText.ContainsOccurs | src/components/ExtraButton.ts:139-140 | the converse of ContainsAt: a string that includes t is built around it |
| JsText.Contains | src/components/ExtraButton.ts:139-140 | `indexOf(t) !== -1`, and `includes(t)`: the text occurs at some position; ContainsAt states that it holds of every string built around it |
| JsText.IndexOf | src/fields/base/BaseModal.ts:28 | the first position of the character, or the length when it is absent |
| JsText.Split | src/fields/base/BaseModal.ts:28 | split on "," gives at least one comma-free piece, and joining the pieces gives the string back |
| JsText.SplitJoin | src/fields/base/BaseModal.ts:28 | splitting inverts joining comma-free pieces |
| JsText.Join | src/fields/base/BaseModal.ts:163-165 | Array.prototype.join; SplitJoin and BulkEdit.ParseJoinRoundTrip state that parsing undoes it |
| JsText.DecimalString | src/components/ExtraButton.ts:174 | viewTypeName + i appends a non-empty run of decimal digits |
| JsText.DecimalRoundTrip | src/components/ExtraButton.ts:174 | the numeral reads back as the number |
| JsText.DecimalInjective | src/components/ExtraButton.ts:174 | distinct leaf indices give distinct numerals |
| BulkEdit.ModeLabel | src/fields/base/BaseModal.ts:18-23 | every mode has a non-empty label |
| BulkEdit.ModeLabelInjective | src/fields/base/BaseModal.ts:18-23 | distinct modes have distinct labels |
| BulkEdit.TrimAll | src/fields/base/BaseModal.ts:27-28 | map(trim) keeps the length |
| BulkEdit.TrimAllAt | src/fields/base/BaseModal.ts:27-28 | element k of map(trim) is element k trimmed |
| BulkEdit.TrimAllConcat | src/fields/base/BaseModal.ts:27-28 | map(trim) distributes over concatenation |
| BulkEdit.Without | src/fields/base/BaseModal.ts:165 | a value is kept if and only if it is present and not among the values to drop |
| BulkEdit.WithoutCounts | src/fields/base/BaseModal.ts:165 | kept values keep their multiplicity, dropped ones are gone |
| BulkEdit.WithoutConcat | src/fields/base/BaseModal.ts:165 | filtering keeps the original order |
| BulkEdit.ParseListValue | src/fields/base/BaseModal.ts:25-29 | falsy gives []; otherwise no empty or untrimmed value, and no comma when parsed from text |
| BulkEdit.IsFalsy | src/fields/base/BaseModal.ts:26 | `!value`: missing or the empty string |
| BulkEdit.Pieces | src/fields/base/BaseModal.ts:27-28 | the array's elements, or the string split at commas; ParseListMembers states the parse in terms of them |
| BulkEdit.ParseListMembers | src/fields/base/BaseModal.ts:25-29 | a value comes out exactly when the input is truthy and the value is a non-empty trimmed piece of it |
| BulkEdit.ParseItemsConcat | src/fields/base/BaseModal.ts:27 | parsing an array distributes over concatenation, so the values keep the order of the elements |
| BulkEdit.ParseItemsSingle | src/fields/base/BaseModal.ts:27 | one element gives its trimmed form, or nothing when that is empty |
| BulkEdit.ParseTextItems | src/fields/base/BaseModal.ts:28 | a non-empty string parses as the array of its comma-separated pieces |
| BulkEdit.TrimAllClean | src/fields/base/BaseModal.ts:27-28 | trim then filter(Boolean) leaves only non-empty trimmed values |
| BulkEdit.FirstIndex | src/fields/base/BaseModal.ts:163 | the first occurrence of a value |
| BulkEdit.DedupMembers | src/fields/base/BaseModal.ts:163 | the Set spread keeps every value and adds none |
| BulkEdit.DedupUnique | src/fields/base/BaseModal.ts:163 | the Set spread holds each value once |
| BulkEdit.DedupOrder | src/fields/base/BaseModal.ts:163 | the Set spread keeps the order of first occurrences |
| BulkEdit.DedupPrefix | src/fields/base/BaseModal.ts:163 | after append, the distinct current values come first, unchanged |
| BulkEdit.Dedup | src/fields/base/BaseModal.ts:163 | the Set spread is no longer than its input; DedupMembers, DedupUnique and DedupOrder give its contents |
| BulkEdit.ParseJoinRoundTrip | src/fields/base/BaseModal.ts:25-29 | parsing a ", "-joined clean, comma-free list gives the list back |
| BulkEdit.SplitJoined | src/fields/base/BaseModal.ts:25-29 | splitting a ", "-joined comma-free list at commas yields exactly one piece per item, each item after the first prefixed by the separator's space |
| BulkEdit.FinalValueReadBack | src/fields/base/BaseModal.ts:156-169 | for comma-free values, read back: append gives the deduplicated concatenation, remove the difference in order, clear nothing |
| BulkEdit.AppendReadBack | src/fields/base/BaseModal.ts:162-163 | for comma-free values, append writes current then new values without repeats |
| BulkEdit.RemoveReadBack | src/fields/base/BaseModal.ts:164-165 | for comma-free current values, remove writes the current values not among the new ones, in order |
| BulkEdit.OverwriteIgnoresCurrent | src/fields/base/BaseModal.ts:160-161 | overwrite writes the entered value, whatever the note held |
| BulkEdit.AppendIdempotent | src/fields/base/BaseModal.ts:162-163 | for comma-free values, appending the same values twice equals appending once |
| BulkEdit.RemoveLeavesNone | src/fields/base/BaseModal.ts:164-165 | for comma-free values, no value asked to be removed is left |
| BulkEdit.DedupAbsorbs | src/fields/base/BaseModal.ts:163 | adding values already present to a repeat-free list leaves it as it is |
| BulkEdit.KeepNonEmpty | src/fields/base/BaseModal.ts:28 | filter(Boolean) keeps a list of non-empty values whole |
| BulkEdit.ComputeFinalValue | src/fields/base/BaseModal.ts:156-169 | overwrite returns the entered value; the other modes return text, and clear the empty text; FinalValueReadBack states what append and remove write |
| FileClassQueryModel.PathSet | src/fileClass/FileClassQuery.ts:31-32 | the cached set holds exactly the result rows' paths |
| FileClassQueryModel.QueryEnabled | src/fileClass/FileClassQuery.ts:27 | the guard of matchFile: a non-empty query and both Dataview JavaScript settings on |
| FileClassQueryModel.FileClassQuery.constructor | src/fileClass/FileClassQuery.ts:6-11 | the four fields as given, and an empty cache |
| FileClassQueryModel.FileClassQuery.Default | src/fileClass/FileClassQuery.ts:6-11 | with no arguments every field is the empty string, and the cache is empty |
| FileClassQueryModel.FileClassQuery.MatchFile | src/fileClass/FileClassQuery.ts:23-41 | disabled: false with the cache untouched; a filled cache reused; an empty one filled by one evaluation, or left empty when it throws; the answer is membership in the cache |
| FileClassQueryModel.FileClassQuery.InvalidateCache | src/fileClass/FileClassQuery.ts:43-45 | the cache is emptied and nothing else changes |
| FileClassQueryModel.FileClassQuery.CopyProperty | src/fileClass/FileClassQuery.ts:47-52 | the four descriptive fields are copied; the target's cache is untouched |
| NoteCacheModel.CachedNote | src/note/NoteCache.ts:18-23 | a hit if and only if an entry for the path has the file's current mtime |
| NoteCacheModel.StoreGrowsByAtMostOne | src/note/NoteCache.ts:30 | storing one key grows the map by at most one, and not at all when the key was present |
| NoteCacheModel.NoteCache.constructor | src/note/NoteCache.ts:10 | a new cache is empty and has built nothing |
| NoteCacheModel.NoteCache.Get | src/note/NoteCache.ts:17-33 | get run to its end with nothing in between. hit: the cached note, nothing built or changed; miss: one build, stored under the path at the current mtime; other paths unchanged; size grows by at most one |
| NoteCacheModel.NoteCache.StartGet | src/note/NoteCache.ts:18-27 | up to the await: a hit exactly when the entry has the file's current mtime; a miss starts one build; the cache is not changed, so an overlapping get of the same file misses too |
| NoteCacheModel.NoteCache.FinishGet | src/note/NoteCache.ts:29-32 | after the await: the built note is stored under the mtime read at that moment, whatever the cache holds, so an invalidate or clear during the build is undone for that path |
| NoteCacheModel.NoteCache.Invalidate | src/note/NoteCache.ts:38-40 | removes that path's entry and no other |
| NoteCacheModel.NoteCache.Clear | src/note/NoteCache.ts:45-47 | the cache is empty and its size is 0 |
| NoteCacheModel.NoteCache.Size | src/note/NoteCache.ts:52-54 | size(): the number of cached paths, zero exactly when nothing is cached; Get, Invalidate and Clear state how it changes |

## Left out

- The post-processor hook, the editor extension, and the debounced event subscriptions of `onload` (`src/components/ExtraButton.ts:18-44`): these are host plumbing and wall-clock rate limiting. Their targets (`updateLinks`, `initViewObservers`, `initModalObservers`) are modelled as operations anyone may call in any order.
- The rendering collaborators `updateDivExtraAttributes`, `clearExtraAttributes` and `updateVisibleLinks`: foreign code, recorded as `Dom.Effect` calls and not modelled further.
- ExtraButtonModel.ExtraButton.FirePlain, FireDynamic, FireOverlay, DisconnectObservers, OnUnload, UpdateLinks, RegisterViewType and NoteCacheModel.NoteCache.Get assume that the collaborators they call return normally. The model has no path on which they throw. In the source, such a throw changes the engine's state for good:
  - If `updateContainer` throws in a plain watcher's frame, the flag is never cleared (`src/components/ExtraButton.ts:241-242`), so that container is never rescanned again.
  - If `updateDivExtraAttributes` throws in a dynamic drain, the flag stays set (lines 265 and 272). Later batches queue forever and are never drained.
  - If either call throws in an overlay drain, `modalUpdateScheduled` stays set (lines 112 and 120). No later modal in that window is handled.
  - If `clearExtraAttributes` throws inside `disconnectObservers`' `forEach`, the walk stops (lines 314-323). The remaining listed watchers and every overlay watcher stay connected, which affects `onunload` and `reloadObservers`.
  - If `updateContainer` throws for a single open leaf (line 184), the rest of the table in `initViewObservers` is not registered, after `observers` was already emptied (line 68).
  - If `note.build()` rejects (`src/note/NoteCache.ts:27`), nothing is stored. That is `StartGet` with no `FinishGet`.
- The DOM and the workspace: `findAll`, `getElementsByClassName`, `getLeavesOfType` and `leaf.view.containerEl` are functions of a `Dom.Host` snapshot passed to each step, so the model does not capture the DOM changing between two queries inside one step.
- MutationObserver delivery and requestAnimationFrame scheduling are explicit steps (`DeliverMutations`, `FireFrame`). Which batches arrive, and when, is left to the caller, and frames run first in, first out.
- ExtraButtonModel.ExtraButton.InitModalObservers: the observer's `observe(doc.body, { childList: true })` option, which limits delivery to the body's direct children, is not modelled. Which nodes a batch reports is the caller's input.
- FileClassQueryModel.FileClassQuery.MatchFile: `getResults` evaluates arbitrary code through `new Function` against the Dataview API, which cannot be modelled. Its outcome is a parameter, `evaluation`: the paths of the result rows, or `None` when evaluating or reading the rows throws. The error notice it shows is not modelled.
- NoteCacheModel.NoteCache.Get: `Note.build` parses the file asynchronously and is not part of this model. The note it yields is the parameter `built`, and the ghost counter `builds` records how often it is called. `Get` runs a get with nothing in between. A get interleaved with other calls at its `await` is `StartGet`, then whatever runs meanwhile, then `FinishGet` with the file as it is then. The model does not schedule these steps; the caller orders them.
- NoteCache.size is the function `Size`, which reads the map's cardinality. Its value is stated by the contracts of `Get`, `Invalidate` and `Clear`.
- The modal UI of `src/fields/base/BaseModal.ts` (onOpen, keyboard handlers, the preview and `postValues`) is left out: it is UI and file I/O. `computeFinalValue`'s string result is modelled as a `RawValue.Text`, and overwrite returns the entered value unchanged.
- BulkEdit.ParseListValue: an array element that is `null` or `undefined` (a YAML list with an empty item) makes `v.toString()` throw. `computeFinalValue` parses both values before it looks at the mode, so it then throws in every mode, overwrite and clear included. `RawValue.Items` holds strings only, so this error path is not modelled. A non-string value's `toString()` is taken as given. `RawValue` holds the string forms, and the falsy values `undefined`, `null`, `false`, `0` and `""` are `Missing` or the empty text. `NaN` and `-0` are not distinguished.
- BulkEdit.FinalValueReadBack, AppendReadBack, RemoveReadBack, AppendIdempotent and RemoveLeavesNone hold for comma-free values only. An array element that holds a comma is written as one value joined with ", ". Read back, it is split apart at the comma. For example, with current `["a, b"]` and `["a"]` to remove, the result "a, b" parses back as ["a", "b"] and still holds "a".
- JavaScript strings are sequences of UTF-16 code units, and the model's are sequences of Dafny characters, so a lone surrogate cannot be represented. `stat.mtime` is a JavaScript number, and the model uses `int`, so fractional and non-finite times are not represented.
- `src/components/FileClassCodeBlockManager.ts` is not part of this model.
