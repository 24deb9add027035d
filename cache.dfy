/**
 * The owning cache (include/khepri/utility/cache.hpp): items loaded on demand
 * through an injected loader and kept in a map whose keys compare without
 * regard to case.
 */
module Cache {
  import opened Errors
  import opened Strings

  /**
   * `get` as a step on the map of cached items, filed under their lower-cased
   * keys: a hit returns the stored item and changes nothing; a miss returns
   * what the loader gives and stores it unless that is none.
   */
  function GetSpec<V>(items: map<string, V>, loader: string -> Option<V>, id: string): (r: (Option<V>, map<string, V>))
    ensures Fold(id) in items ==> r == (Some(items[Fold(id)]), items)
    ensures Fold(id) !in items && loader(id).None? ==> r == (None, items)
    ensures Fold(id) !in items && loader(id).Some? ==> r == (loader(id), items[Fold(id) := loader(id).value])
  {
    if Fold(id) in items then (Some(items[Fold(id)]), items)
    else
      var item := loader(id);
      if item.None? then (None, items) else (item, items[Fold(id) := item.value])
  }

  class OwningCache<V> {
    const loader: string -> Option<V>
    var items: map<string, V>
    /** The ids the loader has been called with, in order. */
    ghost var loads: seq<string>

    constructor (loader: string -> Option<V>)
      ensures this.loader == loader && items == map[] && loads == []
    {
      this.loader := loader;
      items := map[];
      loads := [];
    }

    /** `get`: finds the item or loads it; the loader runs only on a miss. */
    method Get(id: string) returns (r: Option<V>)
      modifies this
      ensures (r, items) == GetSpec(old(items), loader, id)
      ensures loads == if Fold(id) in old(items) then old(loads) else old(loads) + [id]
    {
      var key := Fold(id);
      if key in items {
        return Some(items[key]);
      }
      var item := loader(id);
      loads := loads + [id];
      if item.None? {
        return None;
      }
      items := items[key := item.value];
      r := item;
    }

    /** A call of the callable `as_loader` returns: it forwards to `get`. */
    method AsLoader(id: string) returns (r: Option<V>)
      modifies this
      ensures (r, items) == GetSpec(old(items), loader, id)
      ensures loads == if Fold(id) in old(items) then old(loads) else old(loads) + [id]
    {
      r := Get(id);
    }

    /** `clear`: forgets every item. */
    method Clear()
      modifies this
      ensures items == map[] && loads == old(loads)
    {
      items := map[];
    }
  }

  // ----- properties

  /** After a successful `get`, a `get` of the same key in any case returns the same item without loading. */
  lemma {:induction false} GetAgainHits<V>(items: map<string, V>, loader: string -> Option<V>, id: string, again: string)
    requires GetSpec(items, loader, id).0.Some?
    requires CaseInsensitiveEquals(id, again)
    ensures var (r, after) := GetSpec(items, loader, id);
      Fold(again) in after && GetSpec(after, loader, again) == (r, after)
  {
    EquivalentIffSameFold(id, again);
    LessEquivalence(id, again);
  }

  /** A miss whose loader gives none caches nothing, so the next `get` calls the loader again. */
  lemma {:induction false} FailedLoadCachesNothing<V>(items: map<string, V>, loader: string -> Option<V>, id: string)
    requires Fold(id) !in items && loader(id).None?
    ensures GetSpec(items, loader, id) == (None, items) && Fold(id) !in GetSpec(items, loader, id).1
  {
  }

  /** `get` never forgets or replaces an item already cached. */
  lemma {:induction false} GetKeepsItems<V>(items: map<string, V>, loader: string -> Option<V>, id: string)
    ensures var after := GetSpec(items, loader, id).1;
      forall k :: k in items ==> k in after && after[k] == items[k]
  {
  }
}
