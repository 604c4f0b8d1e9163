/**
 * `get_model`: a process-wide memo table from a
 * model name to the loaded pipeline, filled lazily on first use.
 */
module ModelRegistry {
  import opened Wrappers

  /**
   * The `_models` dictionary together with the loader it memoises. `load`
   * stands for `spacy.load`: the pipeline for a name, or `None` when loading
   * raises. `loads` records, in order, every name the loader was called for.
   */
  class ModelCache<Model> {
    const load: string -> Option<Model>
    var models: map<string, Model>
    ghost var loads: seq<string>

    /**
     * Every cached pipeline is what the loader gives for its name, every
     * cached name was loaded, a loaded name that is not cached is one the
     * loader fails on, and once a load has succeeded the name is never
     * loaded again.
     */
    ghost predicate Valid()
      reads this
    {
      && (forall n :: n in models ==> load(n) == Some(models[n]) && n in loads)
      && (forall a :: 0 <= a < |loads| && loads[a] !in models ==> load(loads[a]).None?)
      && (forall a, b :: 0 <= a < b < |loads| && loads[a] in models ==> loads[a] != loads[b])
    }

    /** The empty table of a freshly imported module. */
    constructor (load: string -> Option<Model>)
      ensures Valid()
      ensures this.load == load && models == map[] && loads == []
    {
      this.load := load;
      models := map[];
      loads := [];
    }

    /**
     * A cached name returns its stored pipeline and neither loads nor
     * changes anything; an uncached name calls the loader exactly once and,
     * when that succeeds, adds only that entry. Either way the result is
     * what the loader gives for the name.
     */
    method GetModel(name: string) returns (r: Option<Model>)
      requires Valid()
      modifies this
      ensures Valid()
      ensures r == load(name)
      ensures r.Some? ==> name in models && models[name] == r.value
      ensures name in old(models) ==>
        r == Some(old(models)[name]) && models == old(models) && loads == old(loads)
      ensures name !in old(models) ==> loads == old(loads) + [name]
      ensures name !in old(models) ==>
        models == (if r.Some? then old(models)[name := r.value] else old(models))
    {
      if name !in models {
        loads := loads + [name];
        var loaded := load(name);
        if loaded.None? {
          return None;
        }
        models := models[name := loaded.value];
      }
      r := Some(models[name]);
    }
  }
}
