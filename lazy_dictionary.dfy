/**
 The `LazyDictionary` of flask_yurt.py: a dictionary that fires an `on_read`
 hook before its first read and an `on_update` hook after each mutation.

 The hooks are callbacks owned by whoever builds the dictionary. A Dafny class
 cannot hold a method, so each wrapped operation here performs the dictionary's
 own part and returns `fire`, which says whether the installed hook must run
 now; the owner then runs it (`Yurt.YurtSession` does exactly that). Ghost
 counters record how often each hook was due.

 The closed set of wrapped operations:
 - reads (`__getitem__`, `__len__`, `__iter__`, `items`, `get`): the prologue
   `EnterRead`, then the hook, then the plain lookup (`GetItem`, `Len`, `Keys`,
   `Items`, `Get`);
 - mutations (`__setitem__`, `__delitem__`, `clear`, `pop`, `popitem`,
   `setdefault`, `update`): the dictionary change, then `fire`;
 - `__update__`: the merge of `update` with no hook at all (`UpdateSilently`).
 */
module LazyDict {
  import opened Wrappers

  /** The outcome of a dictionary operation that raises `KeyError` on a missing key. */
  datatype Result<T> = Ok(value: T) | KeyError

  class LazyDictionary<K(==), V> {
    /** the underlying `dict` contents */
    var entries: map<K, V>
    /** set just before `on_read` first runs */
    var read: bool
    /** `on_read is not None` */
    const hasReadHook: bool
    /** `on_update is not None` */
    const hasUpdateHook: bool
    /** how many times `on_read` was due */
    ghost var readHookCalls: nat
    /** how many times `on_update` was due */
    ghost var updateHookCalls: nat

    /** `read` is only ever set together with the one firing of `on_read`. */
    ghost predicate Valid()
      reads this
    {
      && (read ==> hasReadHook)
      && readHookCalls == (if read then 1 else 0)
    }

    /** `LazyDictionary(dictionary, on_update, on_read)`: the hooks are installed or absent. */
    constructor (initial: map<K, V>, hasUpdateHook: bool, hasReadHook: bool)
      ensures Valid()
      ensures entries == initial && !read
      ensures this.hasUpdateHook == hasUpdateHook && this.hasReadHook == hasReadHook
      ensures readHookCalls == 0 && updateHookCalls == 0
    {
      entries := initial;
      read := false;
      this.hasUpdateHook := hasUpdateHook;
      this.hasReadHook := hasReadHook;
      readHookCalls := 0;
      updateHookCalls := 0;
    }

    /**
     The prologue of every wrapped read: when a read hook is installed and has
     not run yet, set `read` and let the hook run (`fire`). Afterwards the read
     hook has been due at most once in this dictionary's life.
     */
    method EnterRead() returns (fire: bool)
      requires Valid()
      modifies this`read, this`readHookCalls
      ensures Valid()
      ensures fire <==> hasReadHook && !old(read)
      ensures read == (old(read) || hasReadHook)
      ensures readHookCalls == old(readHookCalls) + (if fire then 1 else 0)
      ensures readHookCalls <= 1
    {
      fire := hasReadHook && !read;
      if fire {
        read := true;
        readHookCalls := readHookCalls + 1;
      }
    }

    // The plain dictionary reads that the wrapped reads serve once the hook is done.

    /** `dict.__getitem__` */
    function GetItem(k: K): (r: Result<V>)
      reads this
      ensures r.Ok? <==> k in entries
      ensures r.Ok? ==> r.value == entries[k]
    {
      if k in entries then Ok(entries[k]) else KeyError
    }

    /** `dict.__len__` */
    function Len(): (n: nat)
      reads this
      ensures n == 0 <==> entries == map[]
    {
      |entries|
    }

    /** `dict.__iter__`: the keys, in no particular order */
    function Keys(): (keys: set<K>)
      reads this
      ensures forall k :: k in keys ==> k in entries
      ensures forall k :: k in entries ==> k in keys
    {
      entries.Keys
    }

    /** `dict.items`: the key/value pairs, in no particular order */
    function Items(): (items: map<K, V>)
      reads this
      ensures forall k :: k in entries ==> k in items
      ensures forall k :: k in items ==> k in entries && items[k] == entries[k]
    {
      entries
    }

    /** `dict.get` */
    function Get(k: K, default: V): (v: V)
      reads this
      ensures k in entries ==> v == entries[k]
      ensures k !in entries ==> v == default
    {
      if k in entries then entries[k] else default
    }

    /** `__setitem__` */
    method SetItem(k: K, v: V) returns (fire: bool)
      requires Valid()
      modifies this`entries, this`updateHookCalls
      ensures Valid()
      ensures entries == old(entries)[k := v]
      ensures fire == hasUpdateHook
      ensures updateHookCalls == old(updateHookCalls) + (if fire then 1 else 0)
    {
      entries := entries[k := v];
      fire := AfterUpdate();
    }

    /** `__delitem__`: a missing key raises before the hook, so nothing fires. */
    method DelItem(k: K) returns (r: Result<()>, fire: bool)
      requires Valid()
      modifies this`entries, this`updateHookCalls
      ensures Valid()
      ensures r == (if k in old(entries) then Ok(()) else KeyError)
      ensures entries == old(entries) - {k}
      ensures r.KeyError? ==> entries == old(entries)
      ensures fire == (r.Ok? && hasUpdateHook)
      ensures updateHookCalls == old(updateHookCalls) + (if fire then 1 else 0)
    {
      if k !in entries {
        return KeyError, false;
      }
      entries := entries - {k};
      r := Ok(());
      fire := AfterUpdate();
    }

    /** `clear` */
    method Clear() returns (fire: bool)
      requires Valid()
      modifies this`entries, this`updateHookCalls
      ensures Valid()
      ensures entries == map[]
      ensures fire == hasUpdateHook
      ensures updateHookCalls == old(updateHookCalls) + (if fire then 1 else 0)
    {
      entries := map[];
      fire := AfterUpdate();
    }

    /**
     `pop(k[, default])`: the removed value, else the default (the dictionary
     is unchanged but the hook still fires), else `KeyError` with no hook.
     */
    method Pop(k: K, default: Option<V>) returns (r: Result<V>, fire: bool)
      requires Valid()
      modifies this`entries, this`updateHookCalls
      ensures Valid()
      ensures k in old(entries) ==> r == Ok(old(entries)[k])
      ensures k !in old(entries) ==> r == (if default.Some? then Ok(default.value) else KeyError)
      ensures entries == old(entries) - {k}
      ensures r.KeyError? ==> entries == old(entries)
      ensures fire == (r.Ok? && hasUpdateHook)
      ensures updateHookCalls == old(updateHookCalls) + (if fire then 1 else 0)
    {
      if k in entries {
        r := Ok(entries[k]);
        entries := entries - {k};
      } else if default.Some? {
        r := Ok(default.value);
      } else {
        return KeyError, false;
      }
      fire := AfterUpdate();
    }

    /** `popitem`: removes and returns some entry; `KeyError` on an empty dictionary. */
    method PopItem() returns (r: Result<(K, V)>, fire: bool)
      requires Valid()
      modifies this`entries, this`updateHookCalls
      ensures Valid()
      ensures old(entries) == map[] <==> r.KeyError?
      ensures r.Ok? ==> r.value.0 in old(entries) && old(entries)[r.value.0] == r.value.1
      ensures r.Ok? ==> entries == old(entries) - {r.value.0}
      ensures r.KeyError? ==> entries == old(entries)
      ensures fire == (r.Ok? && hasUpdateHook)
      ensures updateHookCalls == old(updateHookCalls) + (if fire then 1 else 0)
    {
      if entries == map[] {
        return KeyError, false;
      }
      var k :| k in entries;
      r := Ok((k, entries[k]));
      entries := entries - {k};
      fire := AfterUpdate();
    }

    /** `setdefault(k, default)`: the hook fires even when the key was present. */
    method SetDefault(k: K, default: V) returns (r: V, fire: bool)
      requires Valid()
      modifies this`entries, this`updateHookCalls
      ensures Valid()
      ensures r == (if k in old(entries) then old(entries)[k] else default)
      ensures entries == old(entries)[k := r]
      ensures fire == hasUpdateHook
      ensures updateHookCalls == old(updateHookCalls) + (if fire then 1 else 0)
    {
      if k !in entries {
        entries := entries[k := default];
      }
      r := entries[k];
      fire := AfterUpdate();
    }

    /** `update(other)`: entries of `other` win over existing ones. */
    method Update(other: map<K, V>) returns (fire: bool)
      requires Valid()
      modifies this`entries, this`updateHookCalls
      ensures Valid()
      ensures entries == old(entries) + other
      ensures fire == hasUpdateHook
      ensures updateHookCalls == old(updateHookCalls) + (if fire then 1 else 0)
    {
      entries := entries + other;
      fire := AfterUpdate();
    }

    /** `__update__`: the same merge as `Update`, with the hook skipped. */
    method UpdateSilently(other: map<K, V>)
      requires Valid()
      modifies this`entries
      ensures Valid()
      ensures entries == old(entries) + other
    {
      entries := entries + other;
    }

    /** The epilogue of every wrapped mutation: the update hook is due if installed. */
    method AfterUpdate() returns (fire: bool)
      requires Valid()
      modifies this`updateHookCalls
      ensures Valid()
      ensures fire == hasUpdateHook
      ensures updateHookCalls == old(updateHookCalls) + (if fire then 1 else 0)
    {
      fire := hasUpdateHook;
      if fire {
        updateHookCalls := updateHookCalls + 1;
      }
    }
  }
}
