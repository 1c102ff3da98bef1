/**
 * The session table: session tokens mapped to their expiry instants. The random token, the
 * clock (an instant in nanoseconds) and the request's cookie arrive as parameters.
 */
module Session {
  import opened Wrappers

  const CookieName := "medownloader_token"

  /** The cookie handed to the client: name, token and expiry instant. */
  datatype Cookie = Cookie(name: string, value: string, expires: int)

  /**
   * The verdict IsSessionValid gives on a request's cookie at instant now, with the table it
   * leaves behind: only an expired token is removed, and nothing is ever added.
   */
  function Check(sessions: map<string, int>, cookie: Option<string>, now: int): (r: (bool, map<string, int>))
    ensures r.0 <==> cookie.Some? && cookie.value in sessions && now < sessions[cookie.value]
    ensures r.1.Keys <= sessions.Keys && forall t :: t in r.1 ==> r.1[t] == sessions[t]
    ensures forall t :: t in sessions && !(cookie == Some(t) && sessions[t] <= now) ==> t in r.1
    ensures cookie.Some? && cookie.value in sessions && sessions[cookie.value] <= now ==> cookie.value !in r.1
  {
    if cookie.None? then (false, sessions)
    else if cookie.value !in sessions then (false, sessions)
    else if now < sessions[cookie.value] then (true, sessions)
    else (false, sessions - {cookie.value})
  }

  /** A session created at instant t with validity v is accepted exactly before t + v. */
  lemma FreshSessionValidUntilExpiry(sessions: map<string, int>, token: string, t: int, v: int, now: int)
    ensures Check(sessions[token := t + v], Some(token), now).0 <==> now < t + v
  {
  }

  /** Once an expired token has been refused it stays refused, whatever the clock says later. */
  lemma ExpiredTokenStaysRefused(sessions: map<string, int>, token: string, now: int, later: int)
    requires token in sessions && sessions[token] <= now
    ensures !Check(sessions, Some(token), now).0
    ensures !Check(Check(sessions, Some(token), now).1, Some(token), later).0
  {
  }

  class SessionManager {
    var sessions: map<string, int>
    const validity: int

    /** NewSessionManager */
    constructor (validity: int)
      ensures sessions == map[] && this.validity == validity
    {
      sessions := map[];
      this.validity := validity;
    }

    /** CreateSession: the token expires validity after now; other tokens are untouched. */
    method CreateSession(token: string, now: int) returns (cookie: Cookie)
      modifies this`sessions
      ensures sessions == old(sessions)[token := now + validity]
      ensures cookie == Cookie(CookieName, token, now + validity)
    {
      var expTime := now + validity;
      sessions := sessions[token := expTime];
      cookie := Cookie(CookieName, token, expTime);
    }

    /**
     * IsSessionValid: a missing cookie or an unknown token is refused; a known token is accepted
     * exactly while now is before its expiry, and refused and forgotten afterwards.
     */
    method IsSessionValid(cookie: Option<string>, now: int) returns (valid: bool)
      modifies this`sessions
      ensures (valid, sessions) == Check(old(sessions), cookie, now)
      ensures cookie.None? ==> !valid && sessions == old(sessions)
      ensures cookie.Some? && cookie.value !in old(sessions) ==> !valid && sessions == old(sessions)
      ensures cookie.Some? && cookie.value in old(sessions) && now < old(sessions)[cookie.value] ==>
        valid && sessions == old(sessions)
      ensures cookie.Some? && cookie.value in old(sessions) && old(sessions)[cookie.value] <= now ==>
        !valid && sessions == old(sessions) - {cookie.value}
    {
      if cookie.None? {
        return false;
      }
      if cookie.value !in sessions {
        return false;
      }
      var expTime := sessions[cookie.value];
      if now < expTime {
        return true;
      }
      sessions := sessions - {cookie.value};
      return false;
    }
  }
}
