/**
 * The current user kept in local storage: a snapshot memoised on the raw stored string,
 * the set of subscribed listeners, and `setUser`, which writes or removes the entry and
 * then notifies every listener.
 */
module CurrentUser {
  import opened Wrappers

  datatype User = User(name: string, role: string)

  /** `LOCAL_STORAGE_KEYS.CURRENT_USER` */
  const CURRENT_USER_KEY := "frontend-dashboard-current-user"

  /**
   * What `JSON.parse` does with a stored string: it throws, or gives a value that is a user
   * object (`Value(Some(u))`) or something else (`Value(None)`: null, a number, an object
   * without a string `name`).
   */
  datatype ParseOutcome = Throws | Value(user: Option<User>)

  /** A listener, named by an identity of its own; `listeners` never holds one twice. */
  type ListenerId = nat

  /** `localStorage.getItem(key)`: `None` for null. */
  function GetItem(storage: map<string, string>, key: string): (r: Option<string>)
    ensures r.Some? <==> key in storage
    ensures r.Some? ==> r.value == storage[key]
  {
    if key in storage then Some(storage[key]) else None
  }

  /**
   * The snapshot a raw stored value stands for: nothing for a missing or empty value, for a
   * value that does not parse, and for a parsed value without a non-empty name.
   */
  function Decode(parse: string -> ParseOutcome, raw: Option<string>): (r: Option<User>)
    ensures raw.None? || raw == Some("") ==> r.None?
    ensures r.Some? ==> r.value.name != "" && raw.Some? && parse(raw.value) == Value(Some(r.value))
    ensures (raw.Some? && raw.value != "" && parse(raw.value).Value? && parse(raw.value).user.Some? &&
             parse(raw.value).user.value.name != "") ==> r == parse(raw.value).user
  {
    if raw.None? || raw.value == "" then None
    else match parse(raw.value)
      case Throws => None
      case Value(v) => if v.Some? && v.value.name != "" then v else None
  }

  /** `JSON.parse` undoes `JSON.stringify` on users, and a serialised user is never empty. */
  ghost predicate JsonRoundTrip(parse: string -> ParseOutcome, stringify: User -> string) {
    forall u :: stringify(u) != "" && parse(stringify(u)) == Value(Some(u))
  }

  /** After `setUser(u)` for a user with a name, the snapshot read back is `u`; after `setUser(null)`, nothing. */
  lemma SnapshotAfterSetUser(parse: string -> ParseOutcome, stringify: User -> string, u: User)
    requires JsonRoundTrip(parse, stringify)
    ensures u.name != "" ==> Decode(parse, Some(stringify(u))) == Some(u)
    ensures u.name == "" ==> Decode(parse, Some(stringify(u))) == None
    ensures Decode(parse, None) == None
  {
    assert stringify(u) != "" && parse(stringify(u)) == Value(Some(u));
  }

  /** No listener is subscribed twice: a JavaScript `Set` in insertion order. */
  predicate NoDuplicates(s: seq<ListenerId>) {
    forall i, j :: 0 <= i < j < |s| ==> s[i] != s[j]
  }

  /** `Set.prototype.add`: a listener already there keeps its place. */
  function SetAdd(s: seq<ListenerId>, l: ListenerId): (r: seq<ListenerId>)
    requires NoDuplicates(s)
    ensures NoDuplicates(r)
    ensures forall x :: x in r <==> x in s || x == l
    ensures l in s ==> r == s
    ensures l !in s ==> |r| == |s| + 1 && r[..|s|] == s
  {
    if l in s then s else s + [l]
  }

  /** `Set.prototype.delete`: the others keep their order. */
  function SetDelete(s: seq<ListenerId>, l: ListenerId): (r: seq<ListenerId>)
    requires NoDuplicates(s)
    ensures NoDuplicates(r)
    ensures forall x :: x in r <==> x in s && x != l
    ensures |r| <= |s|
  {
    if s == [] then []
    else
      var rest := SetDelete(s[1..], l);
      assert s[0] !in s[1..] by {
        assert forall j :: 0 <= j < |s| - 1 ==> s[1..][j] == s[j + 1];
      }
      if s[0] == l then rest else [s[0]] + rest
  }

  /** Deleting a listener that is not there changes nothing. */
  lemma {:induction false} SetDeleteAbsent(s: seq<ListenerId>, l: ListenerId)
    requires NoDuplicates(s) && l !in s
    ensures SetDelete(s, l) == s
  {
    if s != [] {
      SetDeleteAbsent(s[1..], l);
      assert s == [s[0]] + s[1..];
    }
  }

  /** Adding a new listener and then deleting it gives back the set as it was, in the same order. */
  lemma {:induction false} AddThenDelete(s: seq<ListenerId>, l: ListenerId)
    requires NoDuplicates(s) && l !in s
    ensures SetAdd(s, l) == s + [l]
    ensures SetDelete(SetAdd(s, l), l) == s
    decreases |s|
  {
    if s == [] {
      assert SetDelete([l], l) == SetDelete([], l);
    } else {
      assert (s + [l])[1..] == s[1..] + [l];
      AddThenDelete(s[1..], l);
      assert s == [s[0]] + s[1..];
    }
  }

  /** The module-level state of the hook: storage, the memo and the listeners. */
  class UserStore {
    /** `localStorage` */
    var storage: map<string, string>
    /** `cachedRaw`: `None` for null. */
    var cachedRaw: Option<string>
    var cachedSnapshot: Option<User>
    var listeners: seq<ListenerId>
    /** The listener calls made so far, in order. */
    var notified: seq<ListenerId>
    /** How many times a stored string has been handed to `JSON.parse`. */
    var parses: nat
    const parse: string -> ParseOutcome
    const stringify: User -> string

    /** The memo agrees with the raw value it is keyed on, and no listener is there twice. */
    predicate Valid()
      reads this
    {
      cachedSnapshot == Decode(parse, cachedRaw) && NoDuplicates(listeners)
    }

    /** The page loads: the memo starts as `("", null)` and no one listens yet. */
    constructor (storage: map<string, string>, parse: string -> ParseOutcome, stringify: User -> string)
      ensures Valid()
      ensures this.storage == storage && this.parse == parse && this.stringify == stringify
      ensures cachedRaw == Some("") && cachedSnapshot.None?
      ensures listeners == [] && notified == [] && parses == 0
    {
      this.storage := storage;
      this.parse := parse;
      this.stringify := stringify;
      cachedRaw := Some("");
      cachedSnapshot := None;
      listeners := [];
      notified := [];
      parses := 0;
    }

    /**
     * `getSnapshot`. Without a window: nothing, and the memo is left alone. Otherwise the
     * snapshot of the stored value; when that value is the one the memo is keyed on the
     * memo is returned as it is and nothing is parsed.
     */
    method GetSnapshot(hasWindow: bool) returns (u: Option<User>)
      requires Valid()
      modifies this
      ensures Valid()
      ensures storage == old(storage) && listeners == old(listeners) && notified == old(notified)
      ensures !hasWindow ==> u.None? && cachedRaw == old(cachedRaw) && cachedSnapshot == old(cachedSnapshot)
                             && parses == old(parses)
      ensures hasWindow ==> u == Decode(parse, GetItem(storage, CURRENT_USER_KEY))
      ensures hasWindow ==> cachedRaw == GetItem(storage, CURRENT_USER_KEY) && cachedSnapshot == u
      ensures hasWindow && GetItem(storage, CURRENT_USER_KEY) == old(cachedRaw) ==>
                u == old(cachedSnapshot) && parses == old(parses)
    {
      if !hasWindow {
        return None;
      }
      var raw := GetItem(storage, CURRENT_USER_KEY);
      if raw == cachedRaw {
        return cachedSnapshot;
      }
      cachedRaw := raw;
      if raw.None? || raw.value == "" {
        cachedSnapshot := None;
        return None;
      }
      parses := parses + 1;
      var parsed := parse(raw.value);
      match parsed {
        case Throws =>
          cachedSnapshot := None;
        case Value(v) =>
          cachedSnapshot := if v.Some? && v.value.name != "" then v else None;
      }
      u := cachedSnapshot;
    }

    /** `subscribe(listener)` */
    method Subscribe(l: ListenerId)
      requires Valid()
      modifies this
      ensures Valid()
      ensures listeners == SetAdd(old(listeners), l)
      ensures storage == old(storage) && cachedRaw == old(cachedRaw) && cachedSnapshot == old(cachedSnapshot)
      ensures notified == old(notified) && parses == old(parses)
    {
      if l !in listeners {
        listeners := listeners + [l];
      }
    }

    /** The function `subscribe` returns: `() => listeners.delete(listener)`. */
    method Unsubscribe(l: ListenerId)
      requires Valid()
      modifies this
      ensures Valid()
      ensures listeners == SetDelete(old(listeners), l)
      ensures storage == old(storage) && cachedRaw == old(cachedRaw) && cachedSnapshot == old(cachedSnapshot)
      ensures notified == old(notified) && parses == old(parses)
    {
      listeners := SetDelete(listeners, l);
    }

    /** `notifyListeners`: every listener is called once, in the order they subscribed. */
    method NotifyListeners()
      requires Valid()
      modifies this
      ensures Valid()
      ensures notified == old(notified) + listeners
      ensures storage == old(storage) && listeners == old(listeners)
      ensures cachedRaw == old(cachedRaw) && cachedSnapshot == old(cachedSnapshot) && parses == old(parses)
    {
      var i := 0;
      while i < |listeners|
        invariant 0 <= i <= |listeners|
        invariant notified == old(notified) + listeners[..i]
        invariant storage == old(storage) && listeners == old(listeners)
        invariant cachedRaw == old(cachedRaw) && cachedSnapshot == old(cachedSnapshot) && parses == old(parses)
      {
        notified := notified + [listeners[i]];
        assert listeners[..i + 1] == listeners[..i] + [listeners[i]];
        i := i + 1;
      }
      assert listeners[..i] == listeners;
    }

    /**
     * `setUser`: a user is stored serialised under the current-user key, `None` (null)
     * removes the key; every other key is left alone and then each listener is notified.
     */
    method SetUser(newUser: Option<User>)
      requires Valid()
      modifies this
      ensures Valid()
      ensures newUser.Some? ==> storage == old(storage)[CURRENT_USER_KEY := stringify(newUser.value)]
      ensures newUser.None? ==> storage == old(storage) - {CURRENT_USER_KEY}
      ensures notified == old(notified) + listeners && listeners == old(listeners)
      ensures cachedRaw == old(cachedRaw) && cachedSnapshot == old(cachedSnapshot) && parses == old(parses)
    {
      if newUser.Some? {
        storage := storage[CURRENT_USER_KEY := stringify(newUser.value)];
      } else {
        storage := storage - {CURRENT_USER_KEY};
      }
      NotifyListeners();
    }
  }

  /** Whatever the memo holds, the snapshot read after `setUser` is the user that was set. */
  method SetThenRead(store: UserStore, newUser: Option<User>) returns (u: Option<User>)
    requires store.Valid() && JsonRoundTrip(store.parse, store.stringify)
    requires newUser.Some? ==> newUser.value.name != ""
    modifies store
    ensures store.Valid()
    ensures u == newUser
  {
    store.SetUser(newUser);
    u := store.GetSnapshot(true);
    if newUser.Some? {
      SnapshotAfterSetUser(store.parse, store.stringify, newUser.value);
    }
  }
}
