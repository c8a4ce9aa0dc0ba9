/** `access_nested_map` and `memoize` as their unit tests pin them down: a walk
    down nested dictionaries one key per path element, and a property computed
    on first access and read back afterwards. */
module NestedMap {
  import opened Wrappers

  /** A value in a nested map: a plain value or another dictionary. */
  datatype Value = Leaf(n: int) | Dict(entries: map<string, Value>)

  datatype KeyError = KeyError(key: string)

  /** One step down fails on `key` when the current value is not a dictionary or
      has no such key. */
  predicate StepFails(v: Value, key: string)
  {
    v.Leaf? || key !in v.entries
  }

  /** The walk from `v` along `path`: each key selects the entry of the current
      dictionary; the first key that cannot be followed is the one raised. */
  function Walk(v: Value, path: seq<string>): (r: Result<Value, KeyError>)
    decreases |path|
    ensures r.Failure? ==> r.error.key in path
  {
    if path == [] then Success(v)
    else if StepFails(v, path[0]) then Failure(KeyError(path[0]))
    else
      var r := Walk(v.entries[path[0]], path[1..]);
      assert r.Failure? ==> r.error.key in path by {
        if r.Failure? {
          assert r.error.key in path[1..];
        }
      }
      r
  }

  /** `access_nested_map(nested_map, path)`. */
  function AccessNestedMap(nestedMap: map<string, Value>, path: seq<string>): (r: Result<Value, KeyError>)
    ensures path == [] ==> r == Success(Dict(nestedMap))
    ensures path != [] && path[0] !in nestedMap ==> r == Failure(KeyError(path[0]))
    ensures path != [] && path[0] in nestedMap ==> r == Walk(nestedMap[path[0]], path[1..])
    ensures r.Failure? ==> r.error.key in path
  {
    Walk(Dict(nestedMap), path)
  }

  /** Walking `p + q` is walking `p` and then, from where it ends, `q`; a failure
      along `p` is the failure of the whole walk. */
  lemma {:induction false} WalkConcat(v: Value, p: seq<string>, q: seq<string>)
    decreases |p|
    ensures Walk(v, p + q) == match Walk(v, p)
                              case Success(w) => Walk(w, q)
                              case Failure(e) => Failure(e)
  {
    if p == [] {
      assert p + q == q;
    } else {
      assert (p + q)[0] == p[0];
      assert (p + q)[1..] == p[1..] + q;
      if !StepFails(v, p[0]) {
        WalkConcat(v.entries[p[0]], p[1..], q);
      }
    }
  }

  /** A failed walk names the first key it could not follow: the walk up to that
      key succeeds and the step on it fails. */
  lemma {:induction false} WalkFailsAt(v: Value, path: seq<string>)
    requires Walk(v, path).Failure?
    decreases |path|
    ensures exists i | 0 <= i < |path| :: Walk(v, path[..i]).Success?
              && StepFails(Walk(v, path[..i]).value, path[i])
              && Walk(v, path).error == KeyError(path[i])
  {
    assert path[..0] == [];
    if !StepFails(v, path[0]) {
      var w := v.entries[path[0]];
      WalkFailsAt(w, path[1..]);
      var j :| 0 <= j < |path[1..]| && Walk(w, path[1..][..j]).Success?
               && StepFails(Walk(w, path[1..][..j]).value, path[1..][j])
               && Walk(w, path[1..]).error == KeyError(path[1..][j]);
      var pre := path[..j + 1];
      assert pre[0] == path[0] && pre[1..] == path[1..][..j];
      assert Walk(v, pre) == Walk(w, path[1..][..j]);
      assert path[j + 1] == path[1..][j];
    }
  }

  /** The error carries the last key of the path exactly when the walk reaches
      the last step and that step fails. */
  lemma LastKeyError(v: Value, path: seq<string>)
    requires path != []
    ensures var init := path[..|path| - 1];
            var last := path[|path| - 1];
            Walk(v, init).Success? && StepFails(Walk(v, init).value, last)
            <==> Walk(v, path) == Failure(KeyError(last)) && Walk(v, init).Success?
  {
    var init := path[..|path| - 1];
    var last := path[|path| - 1];
    assert path == init + [last];
    WalkConcat(v, init, [last]);
  }

  /** The data of `TestAccessNestedMap`. */
  lemma AccessNestedMapTests()
    ensures AccessNestedMap(map["a" := Leaf(1)], ["a"]) == Success(Leaf(1))
    ensures AccessNestedMap(map["a" := Dict(map["b" := Leaf(2)])], ["a"]) == Success(Dict(map["b" := Leaf(2)]))
    ensures AccessNestedMap(map["a" := Dict(map["b" := Leaf(2)])], ["a", "b"]) == Success(Leaf(2))
    ensures AccessNestedMap(map[], ["a"]) == Failure(KeyError("a"))
    ensures AccessNestedMap(map["a" := Leaf(1)], ["a", "b"]) == Failure(KeyError("b"))
  {
    var path: seq<string> := ["a", "b"];
    assert path[1..] == ["b"];
    assert Walk(Leaf(1), ["b"]) == Failure(KeyError("b"));
    assert Walk(Dict(map["b" := Leaf(2)]), ["b"]) == Walk(Leaf(2), []);
  }

  // ---------------------------------------------------------------------------
  // memoize

  /** A property made with `@memoize` on one instance: `compute` is the
      decorated method, `cached` the value stored on the instance, `calls` how
      many times the method ran. */
  class MemoizedProperty {
    const compute: () -> int
    var cached: Option<int>
    var calls: nat

    /** Either nothing is stored and the method never ran, or it ran once and
        its value is stored. */
    ghost predicate Valid()
      reads this
    {
      match cached
      case None => calls == 0
      case Some(x) => x == compute() && calls == 1
    }

    constructor (compute: () -> int)
      ensures this.compute == compute && cached == None && calls == 0
      ensures Valid()
    {
      this.compute := compute;
      cached := None;
      calls := 0;
    }

    /** An access: the first one runs the method and stores the value, later
        ones return the stored value. */
    method Get() returns (v: int)
      requires Valid()
      modifies this
      ensures Valid()
      ensures v == compute() && cached == Some(v) && calls == 1
      ensures old(cached).Some? ==> v == old(cached).value && calls == old(calls)
      ensures old(cached).None? ==> calls == old(calls) + 1
    {
      if cached.Some? {
        return cached.value;
      }
      v := compute();
      calls := calls + 1;
      cached := Some(v);
    }
  }

  /** `TestMemoize`: two accesses to a property whose method returns 42 both
      give 42, and the method runs once. */
  method MemoizeTwice() returns (result1: int, result2: int, calls: nat)
    ensures result1 == 42 && result2 == 42 && calls == 1
  {
    var p := new MemoizedProperty(() => 42);
    result1 := p.Get();
    result2 := p.Get();
    calls := p.calls;
  }
}
