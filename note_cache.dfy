/** The per-file cache of parsed notes (src/note/NoteCache.ts): a map from
    file path to the note built for it and the modification time it was
    built at. A cached note is served only while that time still matches. */
module NoteCacheModel {
  import opened Wrappers

  /** The parts of a file get() reads: its path and `stat.mtime`. */
  datatype File = File(path: string, mtime: int)

  datatype Entry<Note> = Entry(note: Note, mtime: int)

  /** The note a lookup may serve: one cached under the file's path at the
      file's current modification time. */
  function CachedNote<Note>(cache: map<string, Entry<Note>>, file: File): (r: Option<Note>)
    ensures r.Some? <==> file.path in cache && cache[file.path].mtime == file.mtime
  {
    if file.path in cache && cache[file.path].mtime == file.mtime then Some(cache[file.path].note) else None
  }

  /** A write of one key grows a map by at most one entry. */
  lemma StoreGrowsByAtMostOne<Note>(cache: map<string, Entry<Note>>, key: string, e: Entry<Note>)
    ensures |cache[key := e]| <= |cache| + 1
    ensures key in cache ==> |cache[key := e]| == |cache|
  {
    var after := cache[key := e];
    assert after.Keys == cache.Keys + {key};
    if key in cache {
      assert after.Keys == cache.Keys;
    }
  }

  class NoteCache<Note> {
    var cache: map<string, Entry<Note>>
    /** How many notes have been built (calls to Note.build). */
    ghost var builds: nat

    constructor ()
      ensures cache == map[] && builds == 0
    {
      cache := map[];
      builds := 0;
    }

    /** size(): the number of cached paths, zero exactly when nothing is
        cached. */
    function Size(): (n: nat)
      reads this
      ensures n == 0 <==> cache == map[]
      ensures forall p :: p in cache ==> n > 0
    {
      |cache|
    }

    /** get(file) run to its end with nothing else in between: the cached
        note when it was built at the file's current modification time;
        otherwise `built`, the note a fresh build gives, which is stored for
        the file. Entries for other paths do not change. */
    method Get(file: File, built: Note) returns (note: Note)
      modifies this
      // hit: served from the cache, nothing built, nothing changed
      ensures CachedNote(old(cache), file).Some? ==>
        note == CachedNote(old(cache), file).value && cache == old(cache) && builds == old(builds)
      // miss (absent or stale): one build, stored under the path with the current mtime
      ensures CachedNote(old(cache), file).None? ==>
        note == built && builds == old(builds) + 1 &&
        cache == old(cache)[file.path := Entry(built, file.mtime)]
      // either way the file is now cached at its current time, and what is served
      // is what a later get at the same time will serve
      ensures CachedNote(cache, file) == Some(note)
      ensures forall p :: p != file.path ==> (p in cache <==> p in old(cache))
      ensures forall p :: p != file.path && p in cache ==> cache[p] == old(cache)[p]
      ensures Size() <= old(Size()) + 1
      ensures CachedNote(old(cache), file).Some? ==> Size() == old(Size())
    {
      var cached := StartGet(file);
      if cached.Some? {
        return cached.value;
      }
      note := FinishGet(file, built);
    }

    /** The part of get(file) before `await note.build()`: a hit returns the
        cached note; a miss starts a build and returns None. Neither changes
        the cache, so a second get of the same file started before the first
        one finishes misses as well and builds the note again. */
    method StartGet(file: File) returns (hit: Option<Note>)
      modifies this`builds
      ensures hit == CachedNote(cache, file)
      ensures builds == old(builds) + (if hit.None? then 1 else 0)
    {
      hit := CachedNote(cache, file);
      if hit.None? {
        builds := builds + 1;
      }
    }

    /** The part of get(file) after the build: `file` is the file as it is
        when the build completes, so its `stat.mtime` is read afresh and the
        note is stored under that time, whatever the cache holds by then. An
        invalidate(path) or clear() that ran during the build is undone for
        that path, and a note built from older content is stored under the
        newer time. */
    method FinishGet(file: File, built: Note) returns (note: Note)
      modifies this`cache
      ensures note == built
      ensures cache == old(cache)[file.path := Entry(built, file.mtime)]
      ensures CachedNote(cache, file) == Some(built)
      ensures Size() <= old(Size()) + 1
    {
      note := built;
      StoreGrowsByAtMostOne(cache, file.path, Entry(note, file.mtime));
      cache := cache[file.path := Entry(note, file.mtime)];
    }

    /** invalidate(path): removes that path's entry and no other. */
    method Invalidate(path: string)
      modifies this`cache
      ensures cache == old(cache) - {path}
      ensures path !in cache
      ensures forall p :: p != path ==> (p in cache <==> p in old(cache))
      ensures Size() == if path in old(cache) then old(Size()) - 1 else old(Size())
    {
      cache := cache - {path};
    }

    /** clear(): empties the cache. */
    method Clear()
      modifies this`cache
      ensures cache == map[] && Size() == 0
    {
      cache := map[];
    }
  }
}
