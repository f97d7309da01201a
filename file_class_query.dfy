/** A file class's Dataview query with its memoised result
    (src/fileClass/FileClassQuery.ts): a one-slot cache of the paths the
    query matched, filled on first use and emptied on demand. */
module FileClassQueryModel {
  import opened Wrappers

  /** The Dataview plugin as matchFile finds it: installed with its two
      JavaScript settings, or absent (`None`). */
  datatype Dataview = Dataview(enableDataviewJs: bool, enableInlineDataviewJs: bool)

  /** The guard of matchFile: a non-empty query and both JavaScript settings on. */
  predicate QueryEnabled(query: string, dataview: Option<Dataview>) {
    query != "" && dataview.Some? && dataview.value.enableDataviewJs
    && dataview.value.enableInlineDataviewJs
  }

  function PathSet(paths: seq<string>): (s: set<string>)
    ensures forall p :: p in s <==> p in paths
  {
    set p | p in paths
  }

  class FileClassQuery {
    var name: string
    var id: string
    var query: string
    var fileClassName: string
    /** `null` is `None`; a set, even an empty one, is a filled cache. */
    var cachedResults: Option<set<string>>
    /** How many times the query has been evaluated (calls to getResults). */
    ghost var evaluations: nat

    /** `new FileClassQuery(name, id, query, fileClassName)`. */
    constructor (name: string, id: string, query: string, fileClassName: string)
      ensures this.name == name && this.id == id && this.query == query
      ensures this.fileClassName == fileClassName
      ensures cachedResults == None && evaluations == 0
    {
      this.name := name;
      this.id := id;
      this.query := query;
      this.fileClassName := fileClassName;
      cachedResults := None;
      evaluations := 0;
    }

    /** `new FileClassQuery()`: every parameter takes its default. */
    constructor Default()
      ensures name == "" && id == "" && query == "" && fileClassName == ""
      ensures cachedResults == None && evaluations == 0
    {
      name, id, query, fileClassName := "", "", "", "";
      cachedResults := None;
      evaluations := 0;
    }

    /** matchFile: whether the file at `path` is among the query's results.
        `evaluation` is what evaluating the query would give now: the paths of
        its result rows, or `None` when evaluating it or reading its rows
        throws. It is only consulted when the cache is empty. */
    method MatchFile(path: string, dataview: Option<Dataview>, evaluation: Option<seq<string>>)
      returns (matched: bool)
      modifies this`cachedResults, this`evaluations
      // disabled: false, nothing evaluated, cache untouched
      ensures !QueryEnabled(query, dataview) ==>
        !matched && cachedResults == old(cachedResults) && evaluations == old(evaluations)
      // a filled cache is reused as it is
      ensures QueryEnabled(query, dataview) && old(cachedResults).Some? ==>
        cachedResults == old(cachedResults) && evaluations == old(evaluations)
      // an empty cache is filled by exactly one evaluation, or stays empty if it throws
      ensures QueryEnabled(query, dataview) && old(cachedResults).None? ==>
        evaluations == old(evaluations) + 1 &&
        cachedResults == (if evaluation.Some? then Some(PathSet(evaluation.value)) else None)
      // the answer is membership in the cache, and false when there is none
      ensures matched <==> QueryEnabled(query, dataview) && cachedResults.Some? && path in cachedResults.value
    {
      if QueryEnabled(query, dataview) {
        if cachedResults.None? {
          evaluations := evaluations + 1;
          if evaluation.None? {
            return false;
          }
          cachedResults := Some(PathSet(evaluation.value));
        }
        matched := path in cachedResults.value;
      } else {
        matched := false;
      }
    }

    /** invalidateCache: empties the cache slot and nothing else. */
    method InvalidateCache()
      modifies this`cachedResults
      ensures cachedResults == None
    {
      cachedResults := None;
    }

    /** copyProperty: the target takes the source's four descriptive fields;
        its cache is left as it was. */
    static method CopyProperty(target: FileClassQuery, source: FileClassQuery)
      modifies target
      ensures target.id == old(source.id) && target.name == old(source.name)
      ensures target.query == old(source.query) && target.fileClassName == old(source.fileClassName)
      ensures target.cachedResults == old(target.cachedResults)
      ensures target.evaluations == old(target.evaluations)
    {
      target.id := source.id;
      target.name := source.name;
      target.query := source.query;
      target.fileClassName := source.fileClassName;
    }
  }

}
