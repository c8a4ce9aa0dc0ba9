/** The `cache_query` decorator: a module-level dictionary from query text to
    the rows a wrapped fetch returned.  The wrapped function is a parameter: any
    computation from a connection, the query and the remaining arguments to rows
    or an error. */
module QueryCache {
  import opened Wrappers

  type Query = string
  type Rows = seq<seq<string>>

  /** An open database connection; only its identity matters here. */
  datatype Connection = Connection(handle: int)

  datatype FetchError = DatabaseError(message: string) | TypeError(message: string)

  /** Which branch a call took: a hit (reported as "Fetching from cache"), or
      a miss. */
  datatype Path = FromCache | Computed

  /** The wrapped function `func(con, query, *args)`. */
  type Fetch = (Connection, Query, seq<string>) -> Result<Rows, FetchError>

  /** Python's `str * tuple`. */
  const MultiplyError: string := "can't multiply sequence by non-int of type 'tuple'"

  class QueryCache {
    /** `query_cache`. */
    var entries: map<Query, Rows>

    constructor ()
      ensures entries == map[]
    {
      entries := map[];
    }

    /** The wrapper, read as intended (`func(con, query, *args)`): a hit returns
        the stored rows and leaves the cache alone; a miss calls `func` and,
        if it returns, stores its rows under the query text alone. */
    method Call(fetch: Fetch, con: Connection, query: Query, args: seq<string>)
      returns (r: Result<Rows, FetchError>, path: Path)
      modifies this
      ensures query in old(entries) ==>
                path == FromCache && r == Success(old(entries)[query]) && entries == old(entries)
      ensures query !in old(entries) ==> path == Computed && r == fetch(con, query, args)
      ensures query !in old(entries) && r.Success? ==> entries == old(entries)[query := r.value]
      ensures r.Failure? ==> entries == old(entries)
      ensures old(entries).Keys <= entries.Keys
      ensures forall q | q in old(entries) :: q in entries && entries[q] == old(entries)[q]
    {
      if query in entries {
        return Success(entries[query]), FromCache;
      }
      r := fetch(con, query, args);
      path := Computed;
      if r.Failure? {
        return;
      }
      entries := entries[query := r.value];
    }

    /** The wrapper as written: on a miss it evaluates `query * args` before
        calling `func`, which raises TypeError, so nothing is stored. */
    method CallAsWritten(fetch: Fetch, con: Connection, query: Query, args: seq<string>)
      returns (r: Result<Rows, FetchError>, path: Path)
      modifies this
      ensures query in old(entries) ==> path == FromCache && r == Success(old(entries)[query])
      ensures query !in old(entries) ==> path == Computed && r == Failure(TypeError(MultiplyError))
      ensures entries == old(entries)
    {
      if query in entries {
        return Success(entries[query]), FromCache;
      }
      path := Computed;
      r := Failure(TypeError(MultiplyError));
    }
  }

  /** The module's own use: the same query twice through a fresh cache.  The
      first call computes; when it succeeds the second is served from the
      cache with the same rows, whatever connection and arguments it brings. */
  method FetchTwice(fetch: Fetch, con1: Connection, con2: Connection, query: Query,
                    args1: seq<string>, args2: seq<string>)
    returns (first: Result<Rows, FetchError>, second: Result<Rows, FetchError>, path: Path)
    ensures first == fetch(con1, query, args1)
    ensures first.Success? ==> second == first && path == FromCache
    ensures first.Failure? ==> second == fetch(con2, query, args2) && path == Computed
  {
    var cache := new QueryCache();
    var p1;
    first, p1 := cache.Call(fetch, con1, query, args1);
    second, path := cache.Call(fetch, con2, query, args2);
  }

  /** As written the cache never fills: from a fresh cache the first call
      raises TypeError (which ends the module's script), and a repeated call
      would raise again, since nothing was stored. */
  method FetchTwiceAsWritten(fetch: Fetch, con: Connection, query: Query, args: seq<string>)
    returns (first: Result<Rows, FetchError>, second: Result<Rows, FetchError>)
    ensures first == Failure(TypeError(MultiplyError))
    ensures second == Failure(TypeError(MultiplyError))
  {
    var cache := new QueryCache();
    var p1, p2;
    first, p1 := cache.CallAsWritten(fetch, con, query, args);
    second, p2 := cache.CallAsWritten(fetch, con, query, args);
  }
}
