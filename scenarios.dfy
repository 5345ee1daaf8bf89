/**
 Whole request cycles driven through the interface and the session as an
 application and Flask drive them: open, read and write, save. Each method
 starts from a fresh interface over a given store and reports what the store
 and the response's cookie instructions are at the end.
 */
module Scenarios {
  import opened Wrappers
  import opened LazyDict
  import opened Yurt

  /** The read hook of a dictionary fires on the first read only; mutations never fire it. */
  method ReadHookFiresOnce<K(==), V>(initial: map<K, V>, k: K, v: V) returns (first: bool, second: bool, len: nat)
    ensures first && !second
    ensures len == |initial[k := v]|
  {
    var d := new LazyDictionary(initial, true, true);
    var fired := d.SetItem(k, v);
    first := d.EnterRead();
    len := d.Len();
    second := d.EnterRead();
  }

  /** Without hooks the dictionary is a plain mapping: nothing is ever due. */
  method NoHooksNoFiring<K(==), V>(initial: map<K, V>, k: K, v: V) returns (readFired: bool, updateFired: bool, r: Result<V>)
    ensures !readFired && !updateFired
    ensures r == Ok(v)
  {
    var d := new LazyDictionary(initial, false, false);
    updateFired := d.SetItem(k, v);
    readFired := d.EnterRead();
    r := d.GetItem(k);
  }

  /** A new session written to and saved is inserted under its generated id, and the cookie is set. */
  method NewSessionInserted<V>(random: seq<Hex.Byte>, k: string, v: V)
    returns (id: string, store: map<string, map<string, V>>, cookies: seq<CookieEvent>)
    requires |random| == 16
    ensures id == GenerateSessionId(random) && |id| == 32
    ensures store == map[id := map[k := v]]
    ensures cookies == [SetCookie(id)]
  {
    var iface := new YurtSessionInterface<V>(map[]);
    var s := iface.OpenSession(None, random);
    s.SetItem(k, v);
    assert k in s.data.entries;
    iface.SaveSession(s);
    id, store, cookies := s.sessionId, iface.store, iface.cookies;
  }

  /** A new session saved without any write costs nothing: no insert, no cookie. */
  method NewSessionUntouched<V>(initial: map<string, map<string, V>>, random: seq<Hex.Byte>)
    returns (isNew: bool, store: map<string, map<string, V>>, cookies: seq<CookieEvent>)
    requires |random| == 16
    ensures isNew
    ensures store == initial && cookies == []
  {
    var iface := new YurtSessionInterface<V>(initial);
    var s := iface.OpenSession(Some(""), random);
    isNew := s.isNew;
    iface.SaveSession(s);
    store, cookies := iface.store, iface.cookies;
  }

  /** A modified but empty new session is not inserted, yet its cookie is set. */
  method EmptyModifiedSessionSetsCookieOnly<V>(initial: map<string, map<string, V>>, random: seq<Hex.Byte>, k: string, v: V)
    returns (id: string, store: map<string, map<string, V>>, cookies: seq<CookieEvent>)
    requires |random| == 16
    requires GenerateSessionId(random) !in initial
    ensures id == GenerateSessionId(random)
    ensures store == initial && cookies == [SetCookie(id)]
  {
    var iface := new YurtSessionInterface<V>(initial);
    var s := iface.OpenSession(None, random);
    s.SetItem(k, v);
    var _ := s.Pop(k, None);
    iface.SaveSession(s);
    id, store, cookies := s.sessionId, iface.store, iface.cookies;
  }

  /** Reading a missing key of a session that has no record, without writing: the save changes nothing. */
  method ReadOnlyUnknownSession<V>(initial: map<string, map<string, V>>, id: string, k: string, random: seq<Hex.Byte>)
    returns (r: Result<V>, store: map<string, map<string, V>>, cookies: seq<CookieEvent>)
    requires |random| == 16 && id != "" && id !in initial
    ensures r == KeyError
    ensures store == initial && cookies == []
  {
    var iface := new YurtSessionInterface<V>(initial);
    var s := iface.OpenSession(Some(id), random);
    r := s.GetItem(k);
    iface.SaveSession(s);
    store, cookies := iface.store, iface.cookies;
  }

  /** Read, then overwrite, a stored variable: the save updates the record and sets no cookie. */
  method ExistingSessionUpdated<V>(initial: map<string, map<string, V>>, id: string, k: string, v: V, random: seq<Hex.Byte>)
    returns (r: Result<V>, store: map<string, map<string, V>>, cookies: seq<CookieEvent>)
    requires |random| == 16 && id != "" && id in initial && k in initial[id]
    ensures r == Ok(initial[id][k])
    ensures store == initial[id := initial[id][k := v]]
    ensures cookies == []
  {
    var iface := new YurtSessionInterface<V>(initial);
    var s := iface.OpenSession(Some(id), random);
    r := s.GetItem(k);
    assert s.data.entries == map[] + initial[id] == initial[id];
    s.SetItem(k, v);
    iface.SaveSession(s);
    store, cookies := iface.store, iface.cookies;
  }

  /**
   A write before any read does not load the session, so the save replaces the
   stored record by the written entries alone: the other stored variables are lost.
   */
  method WriteBeforeReadReplacesRecord<V>(initial: map<string, map<string, V>>, id: string, k: string, v: V, random: seq<Hex.Byte>)
    returns (store: map<string, map<string, V>>, cookies: seq<CookieEvent>)
    requires |random| == 16 && id != "" && id in initial
    ensures store == initial[id := map[k := v]]
    ensures cookies == []
  {
    var iface := new YurtSessionInterface<V>(initial);
    var s := iface.OpenSession(Some(id), random);
    s.SetItem(k, v);
    iface.SaveSession(s);
    store, cookies := iface.store, iface.cookies;
  }

  /** A write before the first read is overridden by the stored value when the load happens. */
  method LoadOverridesEarlierWrite<V>(initial: map<string, map<string, V>>, id: string, k: string, v: V, random: seq<Hex.Byte>)
    returns (r: Result<V>)
    requires |random| == 16 && id != "" && id in initial && k in initial[id]
    ensures r == Ok(initial[id][k])
  {
    var iface := new YurtSessionInterface<V>(initial);
    var s := iface.OpenSession(Some(id), random);
    s.SetItem(k, v);
    r := s.GetItem(k);
  }

  /** What one request writes and saves, the next request with the same cookie reads back. */
  method WriteSaveReopenRead<V>(initial: map<string, map<string, V>>, id: string, k: string, v: V, random: seq<Hex.Byte>)
    returns (r: Result<V>)
    requires |random| == 16 && id != ""
    ensures r == Ok(v)
  {
    var iface := new YurtSessionInterface<V>(initial);
    var s := iface.OpenSession(Some(id), random);
    s.SetItem(k, v);
    iface.SaveSession(s);
    var t := iface.OpenSession(Some(id), random);
    r := t.GetItem(k);
  }

  /** Saving an unmodified session twice touches neither the store nor the cookie. */
  method UnmodifiedSavedTwice<V>(initial: map<string, map<string, V>>, cookie: Option<string>, k: string, random: seq<Hex.Byte>)
    returns (store: map<string, map<string, V>>, cookies: seq<CookieEvent>)
    requires |random| == 16
    ensures store == initial && cookies == []
  {
    var iface := new YurtSessionInterface<V>(initial);
    var s := iface.OpenSession(cookie, random);
    var _ := s.GetItem(k);
    iface.SaveSession(s);
    iface.SaveSession(s);
    store, cookies := iface.store, iface.cookies;
  }

  /** Delete a loaded session: its record goes, the save clears the cookie and lowers the flag. */
  method DeletedSessionSaved<V>(initial: map<string, map<string, V>>, id: string, k: string, random: seq<Hex.Byte>)
    returns (store: map<string, map<string, V>>, cookies: seq<CookieEvent>, pending: bool)
    requires |random| == 16 && id != ""
    ensures store == initial - {id}
    ensures cookies == [DeleteCookie]
    ensures !pending
  {
    var iface := new YurtSessionInterface<V>(initial);
    var s := iface.OpenSession(Some(id), random);
    var _ := s.GetItem(k);
    s.Delete();
    iface.SaveSession(s);
    store, cookies, pending := iface.store, iface.cookies, iface.deletePending;
  }

  /**
   A deleted session stays modified, so saving it a second time sets its
   cookie again (nothing is inserted, since it is empty).
   */
  method DeletedSessionSavedTwice<V>(initial: map<string, map<string, V>>, id: string, k: string, random: seq<Hex.Byte>)
    returns (store: map<string, map<string, V>>, cookies: seq<CookieEvent>)
    requires |random| == 16 && id != ""
    ensures store == initial - {id}
    ensures cookies == [DeleteCookie, SetCookie(id)]
  {
    var iface := new YurtSessionInterface<V>(initial);
    var s := iface.OpenSession(Some(id), random);
    var _ := s.GetItem(k);
    s.Delete();
    iface.SaveSession(s);
    iface.SaveSession(s);
    store, cookies := iface.store, iface.cookies;
  }

  /**
   Invalidate an existing session: the old record goes, the session is new,
   empty and modified under the generated id; saving it then sets the new
   cookie without inserting anything.
   */
  method InvalidatedSessionSaved<V>(initial: map<string, map<string, V>>, id: string, k: string, random: seq<Hex.Byte>, nextRandom: seq<Hex.Byte>)
    returns (newId: string, isNew: bool, store: map<string, map<string, V>>, cookies: seq<CookieEvent>)
    requires |random| == 16 && |nextRandom| == 16 && id != ""
    requires GenerateSessionId(nextRandom) !in initial - {id}
    ensures newId == GenerateSessionId(nextRandom) && isNew
    ensures store == initial - {id}
    ensures cookies == [SetCookie(newId)]
  {
    var iface := new YurtSessionInterface<V>(initial);
    var s := iface.OpenSession(Some(id), random);
    var _ := s.GetItem(k);
    s.Invalidate(nextRandom);
    newId, isNew := s.sessionId, s.isNew;
    iface.SaveSession(s);
    store, cookies := iface.store, iface.cookies;
  }
}
