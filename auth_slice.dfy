/** The client's session store: two optional tokens, `user`, `loading` and
    `error`, plus the browser's persistent key-value storage, which the login
    request writes and logout clears. The storage is an explicit map handed
    to the store when it is built, instead of an ambient global. */
module AuthSlice {
  import opened Wrappers
  import opened Json

  const AccessKey: string := "access_token"
  const RefreshKey: string := "refresh_token"

  /** `storage.getItem(key) || null`: a missing key and a stored empty string
      both read as no token. */
  function StoredToken(storage: map<string, string>, key: string): (r: Option<string>)
    ensures r.Some? <==> key in storage && storage[key] != ""
    ensures r.Some? ==> r.value == storage[key]
  {
    if key in storage && storage[key] != "" then Some(storage[key]) else None
  }

  /** The two `setItem` calls of a successful login. */
  function PersistTokens(storage: map<string, string>, access: string, refresh: string): (r: map<string, string>)
    ensures r.Keys == storage.Keys + {AccessKey, RefreshKey}
    ensures r[AccessKey] == access && r[RefreshKey] == refresh
    ensures forall k :: k in storage && k != AccessKey && k != RefreshKey ==> r[k] == storage[k]
  {
    storage[AccessKey := access][RefreshKey := refresh]
  }

  /** The two `removeItem` calls of logout. */
  function ClearTokens(storage: map<string, string>): (r: map<string, string>)
    ensures r.Keys == storage.Keys - {AccessKey, RefreshKey}
    ensures forall k :: k in r ==> r[k] == storage[k]
  {
    storage - {AccessKey, RefreshKey}
  }

  /** After a login, a reload reads back the same two tokens, unless a token
      was the empty string, which reads back as none. */
  lemma ReloadAfterLogin(storage: map<string, string>, access: string, refresh: string)
    ensures StoredToken(PersistTokens(storage, access, refresh), AccessKey)
         == (if access == "" then None else Some(access))
    ensures StoredToken(PersistTokens(storage, access, refresh), RefreshKey)
         == (if refresh == "" then None else Some(refresh))
  {
  }

  /** After a logout, a reload finds no token; clearing twice is clearing once. */
  lemma ReloadAfterLogout(storage: map<string, string>)
    ensures StoredToken(ClearTokens(storage), AccessKey).None?
    ensures StoredToken(ClearTokens(storage), RefreshKey).None?
    ensures ClearTokens(ClearTokens(storage)) == ClearTokens(storage)
  {
  }

  /** What a successful login returns: `{access, refresh}`. */
  datatype TokenPair = TokenPair(access: string, refresh: string)

  class Session {
    var storage: map<string, string>
    var user: Option<Json>
    var accessToken: Option<string>
    var refreshToken: Option<string>
    var loading: bool
    var error: Option<Json>

    /** The initial state, read from persisted storage. */
    constructor (persisted: map<string, string>)
      ensures storage == persisted && user == None
      ensures accessToken == StoredToken(persisted, AccessKey)
      ensures refreshToken == StoredToken(persisted, RefreshKey)
      ensures !loading && error == None
    {
      storage := persisted;
      user := None;
      accessToken := StoredToken(persisted, AccessKey);
      refreshToken := StoredToken(persisted, RefreshKey);
      loading := false;
      error := None;
    }

    method LoginPending()
      modifies this
      ensures loading && error == None
      ensures storage == old(storage) && user == old(user)
      ensures accessToken == old(accessToken) && refreshToken == old(refreshToken)
    {
      loading := true;
      error := None;
    }

    /** The login request succeeded: the request persists both tokens, then
        the reducer stores them in memory. */
    method LoginFulfilled(payload: TokenPair)
      modifies this
      ensures storage == PersistTokens(old(storage), payload.access, payload.refresh)
      ensures accessToken == Some(payload.access) && refreshToken == Some(payload.refresh)
      ensures !loading && error == old(error) && user == old(user)
    {
      storage := storage[AccessKey := payload.access];
      storage := storage[RefreshKey := payload.refresh];
      loading := false;
      accessToken := Some(payload.access);
      refreshToken := Some(payload.refresh);
    }

    method LoginRejected(payload: Json)
      modifies this
      ensures !loading && error == Some(payload)
      ensures storage == old(storage) && user == old(user)
      ensures accessToken == old(accessToken) && refreshToken == old(refreshToken)
    {
      loading := false;
      error := Some(payload);
    }

    method RegisterPending()
      modifies this
      ensures loading && error == None
      ensures storage == old(storage) && user == old(user)
      ensures accessToken == old(accessToken) && refreshToken == old(refreshToken)
    {
      loading := true;
      error := None;
    }

    /** A registration never establishes a session. */
    method RegisterFulfilled()
      modifies this
      ensures !loading && error == old(error)
      ensures storage == old(storage) && user == old(user)
      ensures accessToken == old(accessToken) && refreshToken == old(refreshToken)
    {
      loading := false;
    }

    method RegisterRejected(payload: Json)
      modifies this
      ensures !loading && error == Some(payload)
      ensures storage == old(storage) && user == old(user)
      ensures accessToken == old(accessToken) && refreshToken == old(refreshToken)
    {
      loading := false;
      error := Some(payload);
    }

    /** Logout always succeeds: both keys leave storage, then the reducer
        forgets the user and both tokens. */
    method Logout()
      modifies this
      ensures storage == ClearTokens(old(storage))
      ensures user == None && accessToken == None && refreshToken == None
      ensures loading == old(loading) && error == old(error)
    {
      storage := storage - {AccessKey};
      storage := storage - {RefreshKey};
      user := None;
      accessToken := None;
      refreshToken := None;
    }
  }

  /** Logging out twice leaves the same state as logging out once. */
  method LogoutTwice(s: Session)
    modifies s
    ensures s.storage == ClearTokens(old(s.storage))
    ensures s.user == None && s.accessToken == None && s.refreshToken == None
    ensures s.loading == old(s.loading) && s.error == old(s.error)
  {
    s.Logout();
    s.Logout();
    ReloadAfterLogout(old(s.storage));
  }
}
