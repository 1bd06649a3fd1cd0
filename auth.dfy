/**
 * The server's authentication middleware. A request is let through as the
 * owner of a stored API key named by an `Authorization: Bearer <key>`
 * header, or else as the user whose id the `auth_token` cookie holds;
 * otherwise it is aborted with 401. The header form is stricter than the
 * `Bearer` scheme of section 2.1 of RFC 6750: the scheme is case-sensitive
 * and exactly one space separates it from the key.
 */
module Auth {
  import opened Wrappers
  import Strings

  const StatusUnauthorized := 401

  /** What the middleware does with a request: pass it on as a user, or abort it with a status. */
  datatype Decision = Proceed(userId: string) | Abort(status: int)

  /**
   * The key an `Authorization` header offers: the header split on every
   * space must give exactly two parts, the first exactly "Bearer". An absent
   * header reads as "" and offers none.
   */
  function BearerKey(header: string): Option<string> {
    if header == "" then None
    else
      var parts := Strings.Split(header, ' ');
      if |parts| == 2 && parts[0] == "Bearer" then Some(parts[1]) else None
  }

  /** The user a session cookie names, when it is present, non-empty and an existing user's id. */
  function CookieUser(cookie: Option<string>, users: set<string>): Option<string> {
    if cookie.Some? && cookie.value != "" && cookie.value in users then Some(cookie.value) else None
  }

  /**
   * AuthMiddleware. `keys` maps each stored API key to its owner's id and
   * `users` holds the ids of the users table. A let-through request runs as
   * a key's owner or an existing user; every other request gets 401.
   */
  function Authenticate(header: string, cookie: Option<string>, keys: map<string, string>, users: set<string>): (d: Decision)
    ensures d.Abort? ==> d.status == StatusUnauthorized
    ensures d.Proceed? ==> d.userId in keys.Values || d.userId in users
  {
    var key := BearerKey(header);
    if key.Some? && key.value in keys then
      assert keys[key.value] in keys.Values;
      Proceed(keys[key.value])
    else
      var user := CookieUser(cookie, users);
      if user.Some? then Proceed(user.value) else Abort(StatusUnauthorized)
  }

  /** A header offers key `k` exactly when it is "Bearer ", then `k`, and `k` holds no space. */
  lemma BearerKeyExact(header: string, k: string)
    ensures BearerKey(header) == Some(k) <==> header == "Bearer " + k && ' ' !in k
  {
    if header == "Bearer " + k && ' ' !in k {
      assert header == "Bearer" + [' '] + k;
      Strings.SplitAt("Bearer", ' ', k);
      Strings.SplitNoSep(k, ' ');
    }
    if BearerKey(header) == Some(k) {
      var parts := Strings.Split(header, ' ');
      Strings.JoinSplit(header, ' ');
      Strings.SplitParts(header, ' ');
      assert parts[1..] == [parts[1]];
      assert parts[1] in parts;
    }
  }

  /** The header names a stored key in the exact form the middleware accepts. */
  predicate HasStoredKey(header: string, keys: map<string, string>) {
    |header| >= 7 && header[..7] == "Bearer " && ' ' !in header[7..] && header[7..] in keys
  }

  /**
   * The whole decision: a stored key in an exact bearer header wins,
   * whatever the cookie says; any other header (malformed, wrong scheme
   * case, unknown key) is ignored and the cookie decides; without a usable
   * cookie the answer is 401.
   */
  lemma AuthenticateCases(header: string, cookie: Option<string>, keys: map<string, string>, users: set<string>)
    ensures var d := Authenticate(header, cookie, keys, users);
      && (HasStoredKey(header, keys) ==> d == Proceed(keys[header[7..]]))
      && (!HasStoredKey(header, keys) ==>
            (d.Proceed? <==> cookie.Some? && cookie.value != "" && cookie.value in users)
            && (d.Proceed? ==> d.userId == cookie.value)
            && (d.Abort? ==> d.status == StatusUnauthorized))
  {
    if |header| >= 7 {
      assert header == "Bearer " + header[7..] <==> header[..7] == "Bearer ";
      BearerKeyExact(header, header[7..]);
    }
    var key := BearerKey(header);
    if key.Some? {
      BearerKeyExact(header, key.value);
      assert header[7..] == key.value;
    }
  }

  /** RFC 6750 lets the scheme be written in any case; this middleware ignores a lower-case one. */
  lemma LowerCaseSchemeIgnored(k: string)
    ensures BearerKey("bearer " + k) == None
  {
    var key := BearerKey("bearer " + k);
    if key.Some? {
      BearerKeyExact("bearer " + k, key.value);
    }
  }
}
