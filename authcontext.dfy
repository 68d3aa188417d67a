/** The client's authentication state: the token held in memory and the browser's
    local storage, which is shared by every tab of the same origin. */
module AuthContext {
  import opened Wrappers

  const TokenKey := "token"

  /** `localStorage.getItem(key)`: the stored value, or null. */
  function GetItem(storage: map<string, string>, key: string): (v: Option<string>)
    ensures v.Some? <==> key in storage
    ensures v.Some? ==> v.value == storage[key]
  {
    if key in storage then Some(storage[key]) else None
  }

  class AuthProvider {
    var token: Option<string>
    var storage: map<string, string>

    /** The in-memory token is what storage holds under "token". */
    predicate Synced()
      reads this
    {
      token == GetItem(storage, TokenKey)
    }

    /** The provider starts with the token read from storage. */
    constructor (storage: map<string, string>)
      ensures this.storage == storage && token == GetItem(storage, TokenKey)
      ensures Synced()
    {
      this.storage := storage;
      token := GetItem(storage, TokenKey);
    }

    /** `login(tok)`: remembers the token in memory and in storage. */
    method Login(tok: string)
      modifies this
      ensures token == Some(tok)
      ensures storage == old(storage)[TokenKey := tok]
      ensures Synced()
    {
      token := Some(tok);
      storage := storage[TokenKey := tok];
    }

    /** `logout()`: forgets the token in memory and in storage. */
    method Logout()
      modifies this
      ensures token == None
      ensures storage == old(storage) - {TokenKey}
      ensures Synced()
    {
      token := None;
      storage := storage - {TokenKey};
    }

    /** Another tab changed the shared storage and this tab receives the `storage` event
        for it: `key` is the changed key (null when that tab cleared storage) and
        `newValue` its new value (null when removed). The handler copies `newValue` into
        the token only when the key is "token". */
    method OnStorageEvent(key: Option<string>, newValue: Option<string>)
      modifies this
      ensures storage == match key
                         case Some(k) => if newValue.Some? then old(storage)[k := newValue.value] else old(storage) - {k}
                         case None => map[]
      ensures key == Some(TokenKey) ==> token == newValue
      ensures key != Some(TokenKey) ==> token == old(token)
      ensures old(Synced()) && key.Some? ==> Synced()
      ensures key.None? && old(token).Some? ==> !Synced()
    {
      match key {
        case Some(k) =>
          storage := if newValue.Some? then storage[k := newValue.value] else storage - {k};
        case None =>
          storage := map[];
      }
      if key == Some(TokenKey) {
        token := newValue;
      }
    }
  }
}
