# Flask-Yurt session core, modelled in Dafny

Flask-Yurt keeps Flask sessions on the server, in a MongoDB collection of
`{session_id, variables}` documents. This project models its core, `flask_yurt.py`,
in three layers. Each layer is a class with map fields and flags that its methods update.

- `LazyDict.LazyDictionary` (`lazy_dictionary.dfy`) is a key/value dictionary with two optional hooks.
  - The five wrapped reads (`__getitem__`, `__len__`, `__iter__`, `items`, `get`) fire `on_read`, but only before the first read. `read` is set just before the hook runs.
  - The seven wrapped mutations (`__setitem__`, `__delitem__`, `clear`, `pop`, `popitem`, `setdefault`, `update`) change the dictionary and then fire `on_update`.
  - `__update__` is the merge of `update` with no hook.
  - A Dafny class cannot store a method, so each wrapped operation returns `fire`, which tells the owner to run its hook now. Ghost counters record how often each hook was due.
  - A read has two steps: `EnterRead`, which is the wrapper's prologue, and the plain lookup (`GetItem`, `Len`, `Keys`, `Items`, `Get`). The owner runs its hook between them.
- `Yurt.YurtSession` (`yurt.dfy`) is the session. In Python it *is* a `LazyDictionary`. Here it owns one with both hooks installed (`data`) and runs its own hooks when `fire` comes back.
  - `OnRead` (`on_read`) is the lazy load. Only a session that is not `new` queries the store. It merges the stored variables without firing `on_update`.
  - `OnUpdate` (`on_update`) sets `modified`.
  - `Delete` and `Invalidate` model `delete` and `invalidate`.
- `Yurt.YurtSessionInterface` (`yurt.dfy`) makes the per-request decisions.
  - `OpenSession` opens a session from the cookie value.
  - `SaveSession` chooses between clearing the cookie, updating the record, inserting the record and setting the cookie, or doing nothing.
  - `ClearSession`, `FindSession` and `InsertSession` act on the store.
  - The MongoDB collection is the field `store`, a map from session id to variables.
  - The response's cookie instructions are the log `cookies`.
  - `queries` is a ghost log of every `find_session` lookup.
  - `delete_session` is the field `deletePending`.
- `Yurt.GenerateSessionId` turns the 16 bytes of `os.urandom(16)` into 32 lowercase hex digits. The bytes are a parameter, each an integer from 0 to 255 (`Hex.Byte`). The encoding is base16 from section 8 of RFC 4648, modelled with its inverse in `Hex` (`hex.dfy`).
- `Scenarios` (`scenarios.dfy`) drives whole request cycles on fresh objects: open, read and write, save. Each method states what the store and the cookie log hold at the end.

The model follows the code, including these behaviours a reader might not expect:

- A write does not trigger the lazy load, because `__setitem__` is an update operation. The comment at flask_yurt.py:73 defers the load to the first read, and a write is not a read.
- A write to an existing session before any read therefore replaces the stored record with the written keys alone. The other stored variables are lost (`Scenarios.WriteBeforeReadReplacesRecord`).
- When the load does happen, the stored values win over earlier writes (`Scenarios.LoadOverridesEarlierWrite`).
- `save_session` queries the store even for an unmodified session.
- An empty session is never inserted, but its cookie is still set.
- The `if session:` test in `insert_session` goes through the wrapped `__len__`, so it performs the lazy load.
- `invalidate` leaves `read` unchanged. Its `clear` leaves `modified` true.
- `delete` also leaves `modified` true. The comment at flask_yurt.py:85 says a deleted session is not to be used again, but nothing enforces this. Saving it a second time sets its cookie again (`Scenarios.DeletedSessionSavedTwice`).
- The pending-delete flag lives on the interface object, not on the session.

## Model

| member | source | states |
|---|---|---|
| `LazyDict.LazyDictionary.constructor` | flask_yurt.py:13-16 | The dictionary starts with the given entries and unread. Each hook is installed or absent. No hook has fired yet. |
| `LazyDict.LazyDictionary.EnterRead` | flask_yurt.py:24-28 | The read hook is due exactly when it is installed and `read` is still false. `read` is set first. Over the dictionary's life the read hook is due at most once. |
| `LazyDict.LazyDictionary.GetItem` | flask_yurt.py:44 | The plain lookup that line 29 serves after the read prologue: the value of a present key, or `KeyError` exactly when the key is missing. It is a function, so no hook is due; the hook belongs to `EnterRead`. |
| `LazyDict.LazyDictionary.Len` | flask_yurt.py:45 | The number of entries, which is 0 exactly when the dictionary is empty. No hook is due. |
| `LazyDict.LazyDictionary.Keys` | flask_yurt.py:46 | The keys iterated over are exactly the keys of the entries. No hook is due. |
| `LazyDict.LazyDictionary.Items` | flask_yurt.py:47 | The pairs have exactly the keys of the entries, each with its stored value. No hook is due. |
| `LazyDict.LazyDictionary.Get` | flask_yurt.py:48 | The value of a present key, or else the default. No hook is due. |
| `LazyDict.LazyDictionary.SetItem` | flask_yurt.py:51 | The entry is set, and then the update hook is due once if installed. The read hook is untouched. |
| `LazyDict.LazyDictionary.DelItem` | flask_yurt.py:52 | A present key is removed and the update hook is due. A missing key gives `KeyError`, leaves the entries unchanged and fires nothing. |
| `LazyDict.LazyDictionary.Clear` | flask_yurt.py:53 | The dictionary is emptied and the update hook is due. |
| `LazyDict.LazyDictionary.Pop` | flask_yurt.py:54 | A present key gives its value and is removed. A missing key gives the default, with the hook still due, or `KeyError` with no hook. |
| `LazyDict.LazyDictionary.PopItem` | flask_yurt.py:55 | Some stored pair is returned and removed. An empty dictionary gives `KeyError` and no hook. |
| `LazyDict.LazyDictionary.SetDefault` | flask_yurt.py:56 | The result is the present value, or else the default, which is then stored. The hook is due in both cases. |
| `LazyDict.LazyDictionary.Update` | flask_yurt.py:57 | The other map is merged in, and its values win. The update hook is due. |
| `LazyDict.LazyDictionary.UpdateSilently` | flask_yurt.py:59-61 | This is the same merge as `Update`, but no hook is due and the update counter is unchanged. |
| `LazyDict.LazyDictionary.AfterUpdate` | flask_yurt.py:34-41 | The mutation wrapper's epilogue: the update hook is due exactly when it is installed. |
| `Yurt.YurtSession.constructor` | flask_yurt.py:98-111 | The session starts empty, unread and unmodified, with the given id, `new` flag and interface, and both hooks installed. |
| `Yurt.YurtSession.OnRead` | flask_yurt.py:74-79 | Runs only once `read` is set. For a new session, nothing changes and the store is not queried. Otherwise the store is queried exactly once and its record for the id is merged in. |
| `Yurt.YurtSession.OnUpdate` | flask_yurt.py:81-83 | Afterwards `modified` is true. |
| `Yurt.YurtSession.BeforeRead` | flask_yurt.py:24-29 | The read hook has fired exactly once in the session's life. The first read of an existing session loads its stored record. A later read, or any read of a new session, changes nothing. No update hook fires and `modified` is kept. |
| `Yurt.YurtSession.GetItem` | flask_yurt.py:44 | The result is the value of the key in the loaded entries. If the key is missing, the result is `KeyError`, raised after the load. |
| `Yurt.YurtSession.Len` | flask_yurt.py:45 | The result is the number of loaded entries, and it is 0 exactly when the session is empty. The first read performs the load. |
| `Yurt.YurtSession.Iter` | flask_yurt.py:46 | The result is the key set of the loaded entries. The first read performs the load. |
| `Yurt.YurtSession.Items` | flask_yurt.py:47 | The result is the loaded entries. The first read performs the load. |
| `Yurt.YurtSession.Get` | flask_yurt.py:48 | The result is the loaded value, or the default. The first read performs the load. |
| `Yurt.YurtSession.SetItem` | flask_yurt.py:51 | The entry is set and `modified` becomes true. The update hook fires once. No load happens and `read` is unchanged. |
| `Yurt.YurtSession.DelItem` | flask_yurt.py:52 | A present key is removed and the session is marked modified. A missing key raises `KeyError` and leaves the session exactly as it was. |
| `Yurt.YurtSession.Clear` | flask_yurt.py:53 | The session is emptied and marked modified. |
| `Yurt.YurtSession.Pop` | flask_yurt.py:54 | Same as the dictionary's `pop`. It marks the session modified whenever it succeeds, even when it returns the default. |
| `Yurt.YurtSession.PopItem` | flask_yurt.py:55 | Some pair is removed and the session is marked modified. An empty session gives `KeyError` and is left exactly as it was. |
| `Yurt.YurtSession.SetDefault` | flask_yurt.py:56 | The present value or the stored default is returned. The session is marked modified in both cases. |
| `Yurt.YurtSession.Update` | flask_yurt.py:57 | The other map is merged in and the session is marked modified. |
| `Yurt.YurtSession.Delete` | flask_yurt.py:86-89 | The session is emptied and left modified. Only the store record of this id is removed. The interface's pending-delete flag is raised. |
| `Yurt.YurtSession.Invalidate` | flask_yurt.py:92-96 | The session is emptied and left modified. The old id's record is removed. The session takes the generated id and becomes new; `read` is unchanged. |
| `Yurt.YurtSessionInterface.constructor` | flask_yurt.py:114-119 | The interface starts over the given store, with no pending delete, no cookie events and no queries. |
| `Yurt.YurtSessionInterface.OpenSession` | flask_yurt.py:121-129 | An absent or empty cookie opens a new session under the generated id. Any other cookie opens an existing session under that id. The session is fresh, empty and unread, and nothing on the interface changes. |
| `Yurt.YurtSessionInterface.SaveSession` | flask_yurt.py:131-149 | With a pending delete, one clear-cookie event is recorded and nothing else changes. Otherwise `save_session` queries the store once; in the insert branch, the lazy load of an unread existing session queries it a second time. Unmodified: nothing else happens. Modified with a record: the record becomes the entries. Modified without a record: the entries are loaded and inserted if non-empty, and a set-cookie event is always recorded; no update hook fires. Afterwards the flag is false and, without a pending delete, `modified` is false. |
| `Yurt.YurtSessionInterface.ClearSession` | flask_yurt.py:151-152 | Only the record of the id is removed. |
| `Yurt.YurtSessionInterface.DeleteSessionCookie` | flask_yurt.py:154-162 | One clear-cookie event is appended and the flag is raised. |
| `Yurt.YurtSessionInterface.SetSessionCookie` | flask_yurt.py:164-179 | One set-cookie event carrying the session id is appended. |
| `Yurt.YurtSessionInterface.FindSession` | flask_yurt.py:181-184 | The result is the stored variables of the id, if any. The lookup is logged. |
| `Yurt.YurtSessionInterface.InsertSession` | flask_yurt.py:186-192 | The truth test performs the lazy load. Only a non-empty session is stored under its id. |
| `Yurt.GenerateSessionId` | flask_yurt.py:194-195 | The id has 32 lowercase hex digits, and decoding it gives back the 16 input bytes. |
| `Yurt.LazyLoadEntries` | flask_yurt.py:76-78 | After the load, the keys are those written before it together with the stored ones. Stored values win and the other values are kept. |
| `Hex.Encode` | flask_yurt.py:195 | The encoding has two lowercase hex digits per byte. |
| `Hex.Decode` | flask_yurt.py:195 | Decoding succeeds exactly on even-length strings of lowercase hex digits, and gives half as many bytes. |
| `Hex.DecodeEncode` | flask_yurt.py:195 | Decoding an encoding gives back the bytes. |
| `Hex.EncodeDecode` | flask_yurt.py:195 | Every decodable string is the encoding of what it decodes to. |
| `Scenarios.ReadHookFiresOnce` | flask_yurt.py:24-32 | A write does not fire the read hook. The first read fires it and the second does not. |
| `Scenarios.NoHooksNoFiring` | flask_yurt.py:13-16 | Without hooks, neither the write nor the read makes a hook due, and the written value is read back. |
| `Scenarios.NewSessionInserted` | flask_yurt.py:121-149 | A new session written once and saved is stored under its 32-digit generated id holding just that entry. One set-cookie event with that id is recorded. |
| `Scenarios.NewSessionUntouched` | flask_yurt.py:121-149 | An empty cookie opens a new session (the result `isNew`). Saving it untouched changes neither the store nor the cookies. |
| `Scenarios.EmptyModifiedSessionSetsCookieOnly` | flask_yurt.py:137-149 | A modified but empty new session is not inserted, yet its cookie is set. |
| `Scenarios.ReadOnlyUnknownSession` | flask_yurt.py:74-79 | Reading a session that has no record gives `KeyError`. Saving it unmodified changes nothing. |
| `Scenarios.ExistingSessionUpdated` | flask_yurt.py:137-143 | A read returns the stored value. After a write and a save, the record holds the new value, and no cookie is set. |
| `Scenarios.WriteBeforeReadReplacesRecord` | flask_yurt.py:137-143 | A write with no read before it replaces the stored record by the written entry alone. |
| `Scenarios.LoadOverridesEarlierWrite` | flask_yurt.py:74-79 | A later first read returns the stored value, not the value written earlier. |
| `Scenarios.WriteSaveReopenRead` | flask_yurt.py:121-149 | What one request writes and saves, the next request with the same cookie reads back. |
| `Scenarios.UnmodifiedSavedTwice` | flask_yurt.py:137-149 | Two saves of an unmodified session change neither the store nor the cookies. |
| `Scenarios.DeletedSessionSaved` | flask_yurt.py:86-89 | After `delete` and a save, the record is gone and one clear-cookie event is recorded. The flag ends false. |
| `Scenarios.DeletedSessionSavedTwice` | flask_yurt.py:131-149 | A second save of a deleted session records a set-cookie event for the deleted id. |
| `Scenarios.InvalidatedSessionSaved` | flask_yurt.py:92-96 | After `invalidate`, the session is new under the generated id and the old record is gone. Saving it sets the new cookie and inserts nothing. |

## Left out

- The MongoDB client and collection calls (`find_one`, `save`, `insert`, `remove`) are foreign I/O. They are replaced by the map `store`, which holds at most one record per session id. The code inserts only after `find_one` found no record, so no duplicate records can arise.
- Serialising a session into a document is taken as a snapshot of its entries. It goes through none of the wrapped reads.
- The Flask base classes `SessionInterface` and `SessionMixin`, and `response.set_cookie` / `delete_cookie`, are transport. Only the cookie events are recorded.
- Cookie attributes (expiry, domain, path, secure, and the `httponly=False` override) are library policy and are left out. Flask's expiry policy reads `session.permanent` through the wrapped `get`. In `save_session` that read comes after `insert_session` has already fired the read hook, so it has no effect here.
- Logging, and the `print` of the insert result, are left out.
- `os.urandom` is replaced by a 16-byte parameter. Ids are therefore not guaranteed distinct: `Scenarios.InvalidatedSessionSaved` and `Scenarios.EmptyModifiedSessionSetsCookieOnly` require that the generated id has no record (for the invalidated session, no record other than the old id's, which `invalidate` removes).
- Concurrency is out of scope. The interface-wide `delete_session` flag is a plain field in a single-threaded setting.
- Store failures are not modelled. The code does not catch them, so an exception from the store propagates to the caller. Because flask_yurt.py:27 sets `read` before line 28 runs the hook, a load that raises leaves the session marked read, and it is not loaded again in that request.
- `Yurt.YurtSession.constructor` drops the `dictionary`, `on_update` and `on_read` parameters of `YurtSession.__init__` (flask_yurt.py:100, 103-104). It always starts empty with both hooks installed, which is what `open_session` (flask_yurt.py:126, 129), the only caller, passes.
- Python's optional arguments are made explicit. `get` and `setdefault` take an explicit default instead of `None`. `update` takes a map rather than an iterable of pairs or keyword arguments.
- Orderings are not modelled. `popitem` removes an arbitrary entry, `__iter__` is modelled as the key set, and `items` as the map itself.
- Inheritance is replaced by composition: `YurtSession` owns its `LazyDictionary` (`data`) instead of being one.
- `__repr__`, the unused class-level `store = dict()`, the unused `CallbackDict` import and the unwrapped dict methods (`__contains__`, `keys`, `values`) are left out.
- setup.py is packaging metadata only.
