/** The client's authentication store (gestion-empleados/lib/stores/authStore.ts):
    the signed-in user, their token and whether someone is signed in, kept
    in the browser's persisted storage together with the raw token under
    the key `token`. */
module AuthStore {
  import opened Wrappers

  /** The user the login endpoint answers with. */
  datatype User = User(id: int, username: string, email: string, isSuperuser: bool, isStaff: bool)

  /** The fields `partialize` picks for persistence. */
  datatype Snapshot = Snapshot(user: Option<User>, token: Option<string>, isAuthenticated: bool)

  /** The key of the raw token in `localStorage`. */
  const TokenKey := "token"

  /** The store, in a browser (`window` defined) or not. */
  class Store {
    var user: Option<User>
    var token: Option<string>
    var isAuthenticated: bool
    /** `localStorage`, by key. */
    var storage: map<string, string>
    /** What the persist middleware last saved. */
    var persisted: Option<Snapshot>
    const inBrowser: bool

    /** Signed in exactly when a token is held; the persisted copy, which
        only a browser has, is the current state. */
    predicate Valid()
      reads this
    {
      (isAuthenticated <==> token.Some?)
      && (persisted.Some? ==> inBrowser && persisted.value == Fields())
    }

    /** The persisted fields, as `partialize` builds them. */
    function Fields(): Snapshot
      reads this
    {
      Snapshot(user, token, isAuthenticated)
    }

    /** A new store: nobody is signed in. */
    constructor (inBrowser: bool, storage: map<string, string>)
      ensures Valid()
      ensures user.None? && token.None? && !isAuthenticated
      ensures this.storage == storage && persisted.None? && this.inBrowser == inBrowser
    {
      user := None;
      token := None;
      isAuthenticated := false;
      this.storage := storage;
      persisted := None;
      this.inBrowser := inBrowser;
    }

    /** `setAuth(user, token)`: signs in, saving the token in a browser. */
    method SetAuth(u: User, t: string)
      requires Valid()
      modifies this
      ensures Valid()
      ensures user == Some(u) && token == Some(t) && isAuthenticated
      ensures storage == if inBrowser then old(storage)[TokenKey := t] else old(storage)
      ensures persisted == if inBrowser then Some(Fields()) else old(persisted)
    {
      if inBrowser {
        storage := storage[TokenKey := t];
      }
      user, token, isAuthenticated := Some(u), Some(t), true;
      if inBrowser {
        persisted := Some(Fields());
      }
    }

    /** `clearAuth()`: signs out, dropping the saved token in a browser. */
    method ClearAuth()
      requires Valid()
      modifies this
      ensures Valid()
      ensures user.None? && token.None? && !isAuthenticated
      ensures storage == if inBrowser then old(storage) - {TokenKey} else old(storage)
      ensures persisted == if inBrowser then Some(Fields()) else old(persisted)
    {
      if inBrowser {
        storage := storage - {TokenKey};
      }
      user, token, isAuthenticated := None, None, false;
      if inBrowser {
        persisted := Some(Fields());
      }
    }
  
    /** Rehydration at start-up in a browser: the persisted fields replace
        the current ones. The store is consistent afterwards exactly when
        the saved copy was. */
    method Rehydrate(saved: Snapshot)
      requires inBrowser
      modifies this
      ensures user == saved.user && token == saved.token && isAuthenticated == saved.isAuthenticated
      ensures persisted == Some(saved) && storage == old(storage)
      ensures Valid() <==> (saved.isAuthenticated <==> saved.token.Some?)
    {
      user, token, isAuthenticated := saved.user, saved.token, saved.isAuthenticated;
      persisted := Some(saved);
    }
  }
}
