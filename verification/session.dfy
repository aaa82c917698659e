/**
 The session manager plugin: an in-memory store of sessions indexed twice,
 by session id (for cookie lookups) and by the id of the request that created
 the session (to find it again in the response phase), driven by the host
 proxy's request and response filter callbacks.

 The model is sequential: the store's two locks and the cleanup goroutine are
 not modelled, and each callback runs to completion before the next begins.
 */
module Sessions {
  import opened Cookies
  import opened Headers

  /** The plugin's per-route configuration. */
  datatype Config = Config(sessionTimeoutInSeconds: int, cookieName: string, keyAuthEnabled: bool)

  datatype Option<T> = None | Some(value: T)

  /** The expiry goroutine started for a new session: whom it removes, after how many seconds. */
  datatype Timer = Timer(sessionID: string, timeoutSeconds: int)

  /** Go's uint32, the type of the host's request and response ids. */
  newtype u32 = x: int | 0 <= x < 0x1_0000_0000

  /**
   The id the request phase had, given the id of the response phase of the
   same exchange: the host hands out the response id one above it. The
   subtraction is on uint32, so response id 0 maps back to 0xFFFF_FFFF.
   */
  function RequestIDOf(respID: u32): (reqID: u32)
    ensures (reqID as int + 1) % 0x1_0000_0000 == respID as int
    ensures respID > 0 ==> reqID == respID - 1
    ensures respID == 0 ==> reqID == 0xFFFF_FFFF
  {
    ((respID as int - 1) % 0x1_0000_0000) as u32
  }

  /** One client session. Only the relayed API key changes after creation. */
  class Session {
    /** The id of the request that created the session. */
    const reqID: u32
    const sessionID: string
    /** The API key pinned to the session for the key-auth plugin. */
    var apiKeyValue: string
    var isSticky: bool

    constructor (reqID: u32, sessionID: string)
      ensures this.reqID == reqID && this.sessionID == sessionID
      ensures apiKeyValue == "" && !isSticky
    {
      this.reqID := reqID;
      this.sessionID := sessionID;
      apiKeyValue := "";
      isSticky := false;
    }
  }

  /** The request-phase view of an exchange: its id and its mutable header map. */
  class Request {
    const id: u32
    var header: Header

    constructor (id: u32, header: Header)
      ensures this.id == id && this.header == header
    {
      this.id := id;
      this.header := header;
    }
  }

  /** The response-phase view of an exchange: its id and its mutable header map. */
  class Response {
    const id: u32
    var header: Header

    constructor (id: u32, header: Header)
      ensures this.id == id && this.header == header
    {
      this.id := id;
      this.header := header;
    }
  }

  class Instance {
    /** Sessions by session id: the index cookie lookups use. */
    var sessions: map<string, Session>
    /** Sessions by the id of the request that created them: the index the response phase uses. */
    var requestSessions: map<u32, Session>

    /** Each index files a session under its own key: its session id, its creating request id. */
    ghost predicate Valid()
      reads this
    {
      && (forall id :: id in sessions ==> sessions[id].sessionID == id)
      && (forall n :: n in requestSessions ==> requestSessions[n].reqID == n)
    }

    constructor ()
      ensures sessions == map[] && requestSessions == map[]
      ensures Valid()
    {
      sessions := map[];
      requestSessions := map[];
    }

    /** getSession: the session filed under `id`, or null. */
    function Lookup(id: string): (s: Session?)
      reads this
      ensures s != null <==> id in sessions
      ensures id in sessions ==> s == sessions[id]
      ensures s != null && Valid() ==> s.sessionID == id
    {
      if id in sessions then sessions[id] else null
    }

    /** The existing session a request's `Cookie` header leads to, or null when it is a new client. */
    ghost function CookieSession(config: Config, h: Header): Session?
      reads this
    {
      var (sid, found) := KeyFromCookies(config.cookieName, Get(h, CookieHeader));
      if found then Lookup(sid) else null
    }

    /** createSession: files `s` in both indices, overwriting whatever was under either key. */
    method CreateSession(reqID: u32, id: string, s: Session)
      modifies this
      ensures sessions == old(sessions)[id := s]
      ensures requestSessions == old(requestSessions)[reqID := s]
      ensures old(Valid()) && s.sessionID == id && s.reqID == reqID ==> Valid()
    {
      requestSessions := requestSessions[reqID := s];
      sessions := sessions[id := s];
    }

    /**
     removeSession: forgets `sid` in the session-id index only. The request-id
     index keeps its entry; removing an unknown id changes nothing.
     */
    method RemoveSession(sid: string)
      modifies this`sessions
      ensures sessions == old(sessions) - {sid}
      ensures sid !in old(sessions) ==> sessions == old(sessions)
      ensures requestSessions == old(requestSessions)
      ensures old(Valid()) ==> Valid()
    {
      sessions := sessions - {sid};
    }

    /**
     The expiry goroutine run to completion, followed by the cleanup loop that
     receives its session id: a timeout of zero or less means the session
     never expires; otherwise the session is removed once the timeout passed.
     */
    method ExpiryTask(t: Timer)
      modifies this`sessions
      ensures t.timeoutSeconds <= 0 ==> sessions == old(sessions)
      ensures t.timeoutSeconds > 0 ==> sessions == old(sessions) - {t.sessionID}
      ensures requestSessions == old(requestSessions)
      ensures old(Valid()) ==> Valid()
    {
      if t.timeoutSeconds <= 0 {
        return;
      }
      RemoveSession(t.sessionID);
    }

    /**
     The new-client branch of RequestFilter: a session `freshID` created by
     request `r.id`, holding the incoming API key when key auth is on, filed
     under both indices; the request's `Cookie` header is rewritten to name it
     and its expiry goroutine is started.
     */
    method StartSession(config: Config, r: Request, freshID: string) returns (sess: Session, timer: Option<Timer>)
      modifies this, r`header
      ensures fresh(sess) && sess.sessionID == freshID && sess.reqID == r.id && !sess.isSticky
      ensures sess.apiKeyValue == (if config.keyAuthEnabled then Get(old(r.header), ApiKeyHeader) else "")
      ensures sessions == old(sessions)[freshID := sess]
      ensures requestSessions == old(requestSessions)[r.id := sess]
      ensures r.header == Set(old(r.header), CookieHeader, CookiePair(config.cookieName, freshID))
      ensures timer == Some(Timer(freshID, config.sessionTimeoutInSeconds))
      ensures old(Valid()) ==> Valid()
    {
      sess := new Session(r.id, freshID);
      if config.keyAuthEnabled {
        sess.apiKeyValue := Get(r.header, ApiKeyHeader);
      }
      CreateSession(r.id, freshID, sess);
      r.header := Set(r.header, CookieHeader, CookiePair(config.cookieName, freshID));
      timer := Some(Timer(freshID, config.sessionTimeoutInSeconds));
    }

    /**
     The key-auth relay that ends RequestFilter: with key auth on, a non-empty
     incoming API key replaces the one pinned to the session (the last one sent
     wins), and the pinned key is written into the forwarded request. With key
     auth off, neither is touched.
     */
    static method RelayApiKey(config: Config, r: Request, sess: Session)
      modifies r`header, sess`apiKeyValue
      ensures var incoming := Get(old(r.header), ApiKeyHeader);
        sess.apiKeyValue ==
          if config.keyAuthEnabled && incoming != "" then incoming else old(sess.apiKeyValue)
      ensures r.header ==
        if config.keyAuthEnabled then Set(old(r.header), ApiKeyHeader, sess.apiKeyValue) else old(r.header)
    {
      if config.keyAuthEnabled {
        var incoming := Get(r.header, ApiKeyHeader);
        if incoming != "" {
          sess.apiKeyValue := incoming;
        }
        r.header := Set(r.header, ApiKeyHeader, sess.apiKeyValue);
      }
    }

    /**
     RequestFilter: looks the client up by its session cookie. A returning
     client is served under its session and the store is left as it was; a new
     client (no cookie, or a cookie naming no live session) gets a session
     `freshID` by StartSession. Then the API key is relayed by RelayApiKey.
     Returns the session the request was served under and the timer started.
     */
    method RequestFilter(config: Config, r: Request, freshID: string) returns (sess: Session, timer: Option<Timer>)
      modifies this, r`header, set s | s in sessions.Values :: s`apiKeyValue
      ensures old(Valid()) ==> Valid()
      // a returning client: neither index changes, no timer, the Cookie header is kept
      ensures old(CookieSession(config, r.header)) != null ==>
        && sess == old(CookieSession(config, r.header))
        && sessions == old(sessions) && requestSessions == old(requestSessions)
        && timer == None
        && Get(r.header, CookieHeader) == Get(old(r.header), CookieHeader)
        && sess.apiKeyValue ==
             (if config.keyAuthEnabled && Get(old(r.header), ApiKeyHeader) != ""
              then Get(old(r.header), ApiKeyHeader) else old(sess.apiKeyValue))
      // a new client: one fresh session, filed under freshID and under this request's id
      ensures old(CookieSession(config, r.header)) == null ==>
        && fresh(sess) && sess.sessionID == freshID && sess.reqID == r.id && !sess.isSticky
        && sessions == old(sessions)[freshID := sess]
        && requestSessions == old(requestSessions)[r.id := sess]
        && timer == Some(Timer(freshID, config.sessionTimeoutInSeconds))
        && Get(r.header, CookieHeader) == CookiePair(config.cookieName, freshID)
        && sess.apiKeyValue == (if config.keyAuthEnabled then Get(old(r.header), ApiKeyHeader) else "")
      // the rewritten cookie leads the next request back to the new session
      ensures old(CookieSession(config, r.header)) == null
              && Free(config.cookieName, Separator) && Free(freshID, Separator) ==>
                KeyFromCookies(config.cookieName, Get(r.header, CookieHeader)) == (freshID, true)
      // the API key header: the pinned key with key auth on, untouched with it off
      ensures config.keyAuthEnabled ==> Get(r.header, ApiKeyHeader) == sess.apiKeyValue
      ensures !config.keyAuthEnabled ==> Get(r.header, ApiKeyHeader) == Get(old(r.header), ApiKeyHeader)
      // no other header and no other session changes
      ensures forall name :: name != CookieHeader && name != ApiKeyHeader ==> Get(r.header, name) == Get(old(r.header), name)
      ensures forall s :: s in old(sessions.Values) && s != sess ==> s.apiKeyValue == old(s.apiKeyValue)
      // isSticky lies outside the frame; stated to document that no filter sets it
      ensures forall s :: s in old(sessions.Values) ==> s.isSticky == old(s.isSticky)
    {
      ghost var before := CookieSession(config, r.header);
      var cookies := Get(r.header, CookieHeader);
      var sid, ok := GetKeyFromCookies(config.cookieName, cookies);
      var found := Lookup(sid);
      assert found == before || !ok;
      if !ok || found == null {
        sess, timer := StartSession(config, r, freshID);
        if Free(config.cookieName, Separator) && Free(freshID, Separator) {
          CookieRoundTrip(config.cookieName, freshID);
        }
      } else {
        assert found in sessions.Values;
        sess, timer := found, None;
      }
      RelayApiKey(config, r, sess);
    }

    /**
     ResponseFilter: finds the session created by the request phase of the same
     exchange (request id = response id - 1, wrapping) and, if there is one,
     writes `Set-Cookie: <cookie name>=<session id>`; otherwise the headers stay
     as they were. Neither index changes.
     */
    method ResponseFilter(config: Config, w: Response)
      modifies w`header
      ensures var reqID := RequestIDOf(w.id);
        w.header ==
          if reqID in requestSessions
          then Set(old(w.header), SetCookieHeader, CookiePair(config.cookieName, requestSessions[reqID].sessionID))
          else old(w.header)
      // and it reads back as that session's id
      ensures var reqID := RequestIDOf(w.id);
        reqID in requestSessions
        && Free(config.cookieName, Separator) && Free(requestSessions[reqID].sessionID, Separator) ==>
          KeyFromCookies(config.cookieName, Get(w.header, SetCookieHeader)) == (requestSessions[reqID].sessionID, true)
      ensures unchanged(this)
    {
      var reqID := RequestIDOf(w.id);
      if reqID in requestSessions {
        var sid := requestSessions[reqID].sessionID;
        w.header := Set(w.header, SetCookieHeader, CookiePair(config.cookieName, sid));
        if Free(config.cookieName, Separator) && Free(sid, Separator) {
          CookieRoundTrip(config.cookieName, sid);
        }
      }
    }

    /**
     One exchange as the host runs it: the request phase, then the response
     phase under the next id (uint32, wrapping). A new client's response carries
     `Set-Cookie` naming the session just created. A returning client's
     response gets `Set-Cookie` only if a session is still filed under the
     request's own id, since the request phase files none for it.
     */
    method Exchange(config: Config, r: Request, w: Response, freshID: string) returns (sess: Session, timer: Option<Timer>)
      requires (r.id as int + 1) % 0x1_0000_0000 == w.id as int
      modifies this, r`header, w`header, set s | s in sessions.Values :: s`apiKeyValue
      ensures old(Valid()) ==> Valid()
      // a new client: one fresh session, filed under both indices and named in Set-Cookie
      ensures old(CookieSession(config, r.header)) == null ==>
        && fresh(sess) && sess.sessionID == freshID && sess.reqID == r.id && !sess.isSticky
        && sess.apiKeyValue == (if config.keyAuthEnabled then Get(old(r.header), ApiKeyHeader) else "")
        && sessions == old(sessions)[freshID := sess]
        && requestSessions == old(requestSessions)[r.id := sess]
        && timer == Some(Timer(freshID, config.sessionTimeoutInSeconds))
        && Get(r.header, CookieHeader) == CookiePair(config.cookieName, freshID)
        && w.header == Set(old(w.header), SetCookieHeader, CookiePair(config.cookieName, freshID))
      // a returning client: no index changes, and Set-Cookie only from a session still filed under r.id
      ensures old(CookieSession(config, r.header)) != null ==>
        && sess == old(CookieSession(config, r.header))
        && sess.apiKeyValue ==
             (if config.keyAuthEnabled && Get(old(r.header), ApiKeyHeader) != ""
              then Get(old(r.header), ApiKeyHeader) else old(sess.apiKeyValue))
        && sessions == old(sessions) && requestSessions == old(requestSessions)
        && timer == None
        && Get(r.header, CookieHeader) == Get(old(r.header), CookieHeader)
        && w.header ==
             if r.id in old(requestSessions)
             then Set(old(w.header), SetCookieHeader, CookiePair(config.cookieName, old(requestSessions)[r.id].sessionID))
             else old(w.header)
      // the forwarded API key, and every other request header
      ensures config.keyAuthEnabled ==> Get(r.header, ApiKeyHeader) == sess.apiKeyValue
      ensures !config.keyAuthEnabled ==> Get(r.header, ApiKeyHeader) == Get(old(r.header), ApiKeyHeader)
      ensures forall name :: name != CookieHeader && name != ApiKeyHeader ==> Get(r.header, name) == Get(old(r.header), name)
      ensures forall s :: s in old(sessions.Values) && s != sess ==> s.apiKeyValue == old(s.apiKeyValue)
    {
      sess, timer := RequestFilter(config, r, freshID);
      assert RequestIDOf(w.id) == r.id;
      ResponseFilter(config, w);
    }
  }
}
