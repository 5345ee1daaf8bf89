/**
 The session layer of flask_yurt.py: `YurtSession`, a `LazyDictionary` whose
 read hook lazily loads the stored variables of its session and whose update
 hook marks it modified, and `YurtSessionInterface`, which opens sessions from
 the request's cookie and saves them into the backing store at response time.

 The backing store (a MongoDB collection of `{session_id, variables}`
 documents) is the map `store` from session id to variables; the response's
 cookie instructions are the event log `cookies`; `queries` logs every
 `find_session` lookup. The 16 random bytes of `os.urandom(16)` are a parameter.
 */
module Yurt {
  import opened Wrappers
  import opened LazyDict
  import Hex

  /** What the response was told to do with the session cookie. */
  datatype CookieEvent = SetCookie(sessionId: string) | DeleteCookie

  /** `generate_session_id`: the 16 random bytes as 32 lowercase hex digits, which decode back to them. */
  function GenerateSessionId(random: seq<Hex.Byte>): (id: string)
    requires |random| == 16
    ensures |id| == 32 && Hex.IsHexString(id)
    ensures Hex.Decode(id) == Some(random)
  {
    Hex.DecodeEncode(random);
    Hex.Encode(random)
  }

  /**
   The session entries after the lazy load: the variables stored for `id`, if
   any, are merged in and win over entries written before the load.
   */
  function LazyLoad<V>(entries: map<string, V>, store: map<string, map<string, V>>, id: string): (loaded: map<string, V>)
  {
    if id in store then entries + store[id] else entries
  }

  /** The stored variables override what was there; every other entry is kept. */
  lemma LazyLoadEntries<V>(entries: map<string, V>, store: map<string, map<string, V>>, id: string, k: string)
    ensures k in LazyLoad(entries, store, id) <==> k in entries || (id in store && k in store[id])
    ensures id in store && k in store[id] ==> LazyLoad(entries, store, id)[k] == store[id][k]
    ensures (id !in store || k !in store[id]) && k in entries ==> LazyLoad(entries, store, id)[k] == entries[k]
  {
  }

  class YurtSession<V> {
    /** the dictionary this session is; both hooks are installed */
    const data: LazyDictionary<string, V>
    const iface: YurtSessionInterface<V>
    var sessionId: string
    /** Python's `new` */
    var isNew: bool
    var modified: bool

    ghost predicate Valid()
      reads this, data
    {
      data.hasReadHook && data.hasUpdateHook && data.Valid()
    }

    /** `YurtSession(session_id, new, session_interface)`: empty, unread, unmodified. */
    constructor (sessionId: string, isNew: bool, iface: YurtSessionInterface<V>)
      ensures Valid() && fresh(data)
      ensures this.sessionId == sessionId && this.isNew == isNew && this.iface == iface
      ensures !modified
      ensures data.entries == map[] && !data.read
      ensures data.readHookCalls == 0 && data.updateHookCalls == 0
    {
      this.iface := iface;
      this.sessionId := sessionId;
      this.isNew := isNew;
      modified := false;
      data := new LazyDictionary(map[], true, true);
    }

    /**
     The effect of a wrapped read before it is served. The read hook has now
     run exactly once in this session's life; if this was the first read of an
     existing session, the store was queried once and its record merged in,
     otherwise nothing changed. No update hook fires and `modified` is kept.
     */
    twostate predicate LoadedOnFirstRead()
      reads this, data, iface
    {
      && data.read && data.readHookCalls == 1
      && data.updateHookCalls == old(data.updateHookCalls)
      && modified == old(modified)
      && if old(data.read) || isNew then
           data.entries == old(data.entries) && iface.queries == old(iface.queries)
         else
           data.entries == LazyLoad(old(data.entries), old(iface.store), sessionId)
           && iface.queries == old(iface.queries) + [sessionId]
    }

    /**
     The effect of a successful wrapped mutation besides the change itself:
     the update hook fired once and the session is modified; no read hook.
     */
    twostate predicate MarkedModified()
      reads this, data
    {
      && modified
      && data.read == old(data.read) && data.readHookCalls == old(data.readHookCalls)
      && data.updateHookCalls == old(data.updateHookCalls) + 1
    }

    /**
     `on_read`, run once `read` is already set. The guard `not read or not new`
     therefore reduces to `not new`: only an existing session queries the store
     and merges its record, through the hook-free `__update__`.
     */
    method OnRead()
      requires Valid() && data.read
      modifies data`entries, data`read, iface`queries
      ensures Valid() && data.read
      ensures data.entries == if isNew then old(data.entries) else LazyLoad(old(data.entries), iface.store, sessionId)
      ensures iface.queries == if isNew then old(iface.queries) else old(iface.queries) + [sessionId]
    {
      if !data.read || !isNew {
        var stored := iface.FindSession(sessionId);
        if stored.Some? {
          data.UpdateSilently(stored.value);
        }
        data.read := true;
      }
    }

    /** `on_update`: mark the session modified. */
    method OnUpdate()
      modifies this`modified
      ensures modified
    {
      if !modified {
        modified := true;
      }
    }

    /** The read wrapper's prologue with this session's hook. */
    method BeforeRead()
      requires Valid()
      modifies data, iface`queries
      ensures Valid() && LoadedOnFirstRead()
    {
      var fire := data.EnterRead();
      if fire {
        OnRead();
      }
    }

    /** `session[k]`: served after the lazy load; a missing key raises after the hook. */
    method GetItem(k: string) returns (r: Result<V>)
      requires Valid()
      modifies data, iface`queries
      ensures Valid() && LoadedOnFirstRead()
      ensures r == if k in data.entries then Ok(data.entries[k]) else KeyError
    {
      BeforeRead();
      r := data.GetItem(k);
    }

    /** `len(session)`, also used by `if session:` */
    method Len() returns (n: nat)
      requires Valid()
      modifies data, iface`queries
      ensures Valid() && LoadedOnFirstRead()
      ensures n == |data.entries|
      ensures n == 0 <==> data.entries == map[]
    {
      BeforeRead();
      n := data.Len();
      if n == 0 {
        assert data.entries.Keys == {};
      }
    }

    /** `iter(session)`: the keys */
    method Iter() returns (keys: set<string>)
      requires Valid()
      modifies data, iface`queries
      ensures Valid() && LoadedOnFirstRead()
      ensures keys == data.entries.Keys
    {
      BeforeRead();
      keys := data.Keys();
    }

    /** `session.items()` */
    method Items() returns (items: map<string, V>)
      requires Valid()
      modifies data, iface`queries
      ensures Valid() && LoadedOnFirstRead()
      ensures items == data.entries
    {
      BeforeRead();
      items := data.Items();
    }

    /** `session.get(k, default)` */
    method Get(k: string, default: V) returns (r: V)
      requires Valid()
      modifies data, iface`queries
      ensures Valid() && LoadedOnFirstRead()
      ensures r == if k in data.entries then data.entries[k] else default
    {
      BeforeRead();
      r := data.Get(k, default);
    }

    /** `session[k] = v`: an update, so it does not trigger the lazy load. */
    method SetItem(k: string, v: V)
      requires Valid()
      modifies data, this`modified
      ensures Valid() && MarkedModified()
      ensures data.entries == old(data.entries)[k := v]
    {
      var fire := data.SetItem(k, v);
      if fire {
        OnUpdate();
      }
    }

    /** `del session[k]`: a missing key raises and leaves the session as it was. */
    method DelItem(k: string) returns (r: Result<()>)
      requires Valid()
      modifies data, this`modified
      ensures Valid()
      ensures r == (if k in old(data.entries) then Ok(()) else KeyError)
      ensures r.Ok? ==> MarkedModified() && data.entries == old(data.entries) - {k}
      ensures r.KeyError? ==> unchanged(this, data)
    {
      var fire;
      r, fire := data.DelItem(k);
      if fire {
        OnUpdate();
      }
    }

    /** `session.clear()` */
    method Clear()
      requires Valid()
      modifies data, this`modified
      ensures Valid() && MarkedModified()
      ensures data.entries == map[]
    {
      var fire := data.Clear();
      if fire {
        OnUpdate();
      }
    }

    /** `session.pop(k[, default])`: returning the default still marks the session modified. */
    method Pop(k: string, default: Option<V>) returns (r: Result<V>)
      requires Valid()
      modifies data, this`modified
      ensures Valid()
      ensures k in old(data.entries) ==> r == Ok(old(data.entries)[k])
      ensures k !in old(data.entries) ==> r == (if default.Some? then Ok(default.value) else KeyError)
      ensures r.Ok? ==> MarkedModified() && data.entries == old(data.entries) - {k}
      ensures r.KeyError? ==> unchanged(this, data)
    {
      var fire;
      r, fire := data.Pop(k, default);
      if fire {
        OnUpdate();
      }
    }

    /** `session.popitem()` */
    method PopItem() returns (r: Result<(string, V)>)
      requires Valid()
      modifies data, this`modified
      ensures Valid()
      ensures old(data.entries) == map[] <==> r.KeyError?
      ensures r.Ok? ==> r.value.0 in old(data.entries) && old(data.entries)[r.value.0] == r.value.1
      ensures r.Ok? ==> MarkedModified() && data.entries == old(data.entries) - {r.value.0}
      ensures r.KeyError? ==> unchanged(this, data)
    {
      var fire;
      r, fire := data.PopItem();
      if fire {
        OnUpdate();
      }
    }

    /** `session.setdefault(k, default)`: marks the session modified even when `k` was present. */
    method SetDefault(k: string, default: V) returns (r: V)
      requires Valid()
      modifies data, this`modified
      ensures Valid() && MarkedModified()
      ensures r == (if k in old(data.entries) then old(data.entries)[k] else default)
      ensures data.entries == old(data.entries)[k := r]
    {
      var fire;
      r, fire := data.SetDefault(k, default);
      if fire {
        OnUpdate();
      }
    }

    /** `session.update(other)` */
    method Update(other: map<string, V>)
      requires Valid()
      modifies data, this`modified
      ensures Valid() && MarkedModified()
      ensures data.entries == old(data.entries) + other
    {
      var fire := data.Update(other);
      if fire {
        OnUpdate();
      }
    }

    /**
     `delete`: empty the session, remove its stored record and raise the
     interface's pending-delete flag. Like every `clear`, it marks the session
     modified.
     */
    method Delete()
      requires Valid()
      modifies data, this`modified, iface`store, iface`deletePending
      ensures Valid() && MarkedModified()
      ensures data.entries == map[]
      ensures iface.store == old(iface.store) - {sessionId}
      ensures iface.deletePending
    {
      Clear();
      iface.ClearSession(sessionId);
      iface.deletePending := true;
    }

    /**
     `invalidate`: empty the session, remove the old id's record and continue
     as a new session under a freshly generated id. `read` is left as it was
     and `modified` is true, from the `clear`.
     */
    method Invalidate(random: seq<Hex.Byte>)
      requires Valid() && |random| == 16
      modifies data, this`modified, this`sessionId, this`isNew, iface`store
      ensures Valid() && MarkedModified()
      ensures data.entries == map[]
      ensures iface.store == old(iface.store) - {old(sessionId)}
      ensures sessionId == GenerateSessionId(random) && isNew
    {
      Clear();
      iface.ClearSession(sessionId);
      sessionId := GenerateSessionId(random);
      isNew := true;
    }
  }

  class YurtSessionInterface<V> {
    /** the session collection: session id to stored variables */
    var store: map<string, map<string, V>>
    /** `delete_session`: a `delete` is waiting for the next save */
    var deletePending: bool
    /** the cookie instructions given to responses, oldest first */
    var cookies: seq<CookieEvent>
    /** the session ids looked up by `find_session`, oldest first */
    ghost var queries: seq<string>

    constructor (store: map<string, map<string, V>>)
      ensures this.store == store && !deletePending && cookies == [] && queries == []
    {
      this.store := store;
      deletePending := false;
      cookies := [];
      queries := [];
    }

    /**
     `open_session`: an absent or empty cookie value opens a new session under
     a generated id, any other value the existing session of that id. Opening
     changes nothing here (no `modifies`): the store is not queried.
     */
    method OpenSession(cookie: Option<string>, random: seq<Hex.Byte>) returns (s: YurtSession<V>)
      requires |random| == 16
      ensures fresh(s) && fresh(s.data) && s.Valid() && s.iface == this
      ensures s.data.entries == map[] && !s.data.read && !s.modified
      ensures s.data.readHookCalls == 0 && s.data.updateHookCalls == 0
      ensures cookie == None || cookie == Some("") ==> s.isNew && s.sessionId == GenerateSessionId(random)
      ensures cookie.Some? && cookie.value != "" ==> !s.isNew && s.sessionId == cookie.value
    {
      if cookie == None || cookie.value == "" {
        var id := GenerateSessionId(random);
        s := new YurtSession(id, true, this);
      } else {
        s := new YurtSession(cookie.value, false, this);
      }
    }

    /**
     `save_session`. A pending delete only clears the cookie and lowers the
     flag. Otherwise the store is always queried; an unmodified session is then
     left alone, a modified one overwrites its stored record or, when there is
     none, is inserted (only if non-empty) and the cookie is set (always).
     */
    method SaveSession(s: YurtSession<V>)
      requires s.Valid() && s.iface == this
      modifies this, s`modified, s.data
      ensures s.Valid() && !deletePending
      ensures old(deletePending) ==>
        && cookies == old(cookies) + [DeleteCookie]
        && store == old(store) && queries == old(queries)
        && s.modified == old(s.modified) && unchanged(s.data)
      ensures !old(deletePending) ==> !s.modified
      ensures !old(deletePending) && !old(s.modified) ==>
        && store == old(store) && cookies == old(cookies)
        && queries == old(queries) + [s.sessionId] && unchanged(s.data)
      ensures !old(deletePending) && old(s.modified) && s.sessionId in old(store) ==>
        && store == old(store)[s.sessionId := old(s.data.entries)] && cookies == old(cookies)
        && queries == old(queries) + [s.sessionId] && unchanged(s.data)
      ensures !old(deletePending) && old(s.modified) && s.sessionId !in old(store) ==>
        && cookies == old(cookies) + [SetCookie(s.sessionId)]
        && store == (if old(s.data.entries) == map[] then old(store) else old(store)[s.sessionId := old(s.data.entries)])
        && s.data.read && s.data.entries == old(s.data.entries)
        && s.data.updateHookCalls == old(s.data.updateHookCalls)
        && queries == old(queries) + [s.sessionId] + (if old(s.data.read) || s.isNew then [] else [s.sessionId])
    {
      if deletePending {
        DeleteSessionCookie();
        deletePending := false;
        return;
      }
      var stored := FindSession(s.sessionId);
      if s.modified {
        if stored.Some? {
          store := store[s.sessionId := s.data.entries];
        } else {
          InsertSession(s);
          SetSessionCookie(s);
        }
        s.modified := false;
      }
    }

    /** `clear_session`: remove the record of `id`, if any. */
    method ClearSession(id: string)
      modifies this`store
      ensures store == old(store) - {id}
    {
      store := store - {id};
    }

    /** `delete_session_cookie`: tell the response to clear the cookie; sets `delete_session`. */
    method DeleteSessionCookie()
      modifies this`cookies, this`deletePending
      ensures cookies == old(cookies) + [DeleteCookie] && deletePending
    {
      cookies := cookies + [DeleteCookie];
      deletePending := true;
    }

    /** `set_session_cookie`: tell the response to set the cookie to the session's id. */
    method SetSessionCookie(s: YurtSession<V>)
      modifies this`cookies
      ensures cookies == old(cookies) + [SetCookie(s.sessionId)]
    {
      cookies := cookies + [SetCookie(s.sessionId)];
    }

    /** `find_session`: the stored variables of `id`, if any. */
    method FindSession(id: string) returns (r: Option<map<string, V>>)
      modifies this`queries
      ensures r == if id in store then Some(store[id]) else None
      ensures queries == old(queries) + [id]
    {
      queries := queries + [id];
      r := if id in store then Some(store[id]) else None;
    }

    /**
     `insert_session`: `if session:` goes through the wrapped `__len__`, so it
     performs the lazy load first; only a non-empty session is inserted.
     */
    method InsertSession(s: YurtSession<V>)
      requires s.Valid() && s.iface == this
      modifies this`store, this`queries, s.data
      ensures s.Valid() && s.LoadedOnFirstRead()
      ensures store == if s.data.entries == map[] then old(store) else old(store)[s.sessionId := s.data.entries]
    {
      var n := s.Len();
      if n > 0 {
        store := store[s.sessionId := s.data.entries];
      }
    }
  }
}
