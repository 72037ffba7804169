/** The request context and the authentication guard: `createContext` reads
    the `session` cookie, checks the JWT and the `sessions` row, invalidates a
    session that is about to expire, and loads the user; `protectedProcedure`
    refuses a request without a user. */
module Trpc {
  import opened Wrappers
  import opened Text
  import opened Store

  /** The context every procedure sees; the request and response objects are
      not part of this model. */
  datatype Context = Context(user: Option<User>)

  /** The guard of `protectedProcedure`: the context's user, or UNAUTHORIZED. */
  function Protect(ctx: Context): (r: Result<User>)
    ensures r.Ok? <==> ctx.user.Some?
    ensures r.Ok? ==> r.value == ctx.user.value
    ensures r.Err? ==> r.error.code == Unauthorized
  {
    if ctx.user.None? then Err(ApiError(Unauthorized, "UNAUTHORIZED")) else Ok(ctx.user.value)
  }

  // ---- Cookie header parsing ----

  const CookieSeparator: string := "; "
  const SessionCookie: string := "session"

  /** One `key=value` piece: the key runs to the first `=`, and the value is
      the rest, `=` signs included (`split("=")`, then `val.join("=")`). */
  function CookieEntry(c: string): (string, string)
  {
    var parts := Split(c, "=");
    (parts[0], Join(parts[1..], "="))
  }

  lemma CookieEntryCutsAtFirstEquals(c: string)
    ensures Find(c, "=").Some? ==>
      var i := Find(c, "=").value;
      CookieEntry(c) == (c[..i], c[i + 1..])
    ensures Find(c, "=").None? ==> CookieEntry(c) == (c, "")
  {
    var f := Find(c, "=");
    if f.Some? {
      var i := f.value;
      var rest := c[i + 1..];
      assert Split(c, "=") == [c[..i]] + Split(rest, "=");
      assert Split(c, "=")[1..] == Split(rest, "=");
      JoinSplit(rest, "=");
    }
  }

  /** `filter(Boolean)`: drop the empty pieces. */
  function NonEmpty(parts: seq<string>): (r: seq<string>)
    ensures forall p :: p in r <==> p in parts && p != ""
    ensures |r| <= |parts|
  {
    if parts == [] then []
    else (if parts[0] == "" then [] else [parts[0]]) + NonEmpty(parts[1..])
  }

  /** Some pair of `entries` has the key `k`. */
  predicate HasKey(entries: seq<(string, string)>, k: string)
  {
    exists j :: 0 <= j < |entries| && entries[j].0 == k
  }

  /** `Object.fromEntries`: later pairs overwrite earlier ones with the same key. */
  function FromEntries(entries: seq<(string, string)>): (m: map<string, string>)
    ensures forall k :: k in m <==> HasKey(entries, k)
  {
    if entries == [] then map[]
    else
      var init := entries[..|entries| - 1];
      var last := entries[|entries| - 1];
      assert forall k :: HasKey(entries, k) <==> HasKey(init, k) || k == last.0 by {
        forall k | HasKey(entries, k) && k != last.0 ensures HasKey(init, k) {
          var j :| 0 <= j < |entries| && entries[j].0 == k;
          assert init[j] == entries[j];
        }
        forall k | HasKey(init, k) ensures HasKey(entries, k) {
          var j :| 0 <= j < |init| && init[j].0 == k;
          assert entries[j] == init[j];
        }
      }
      FromEntries(init)[last.0 := last.1]
  }

  /** The last pair with a given key decides its value. */
  lemma {:induction false} FromEntriesLastWins(entries: seq<(string, string)>, j: nat)
    requires j < |entries|
    requires forall l :: j < l < |entries| ==> entries[l].0 != entries[j].0
    ensures entries[j].0 in FromEntries(entries)
    ensures FromEntries(entries)[entries[j].0] == entries[j].1
  {
    if j < |entries| - 1 {
      var init := entries[..|entries| - 1];
      assert init[j] == entries[j];
      FromEntriesLastWins(init, j);
    }
  }

  /** The cookie jar `createContext` builds from the `Cookie` header. */
  function ParseCookies(header: string): map<string, string>
  {
    var pieces := NonEmpty(Split(header, CookieSeparator));
    FromEntries(seq(|pieces|, i requires 0 <= i < |pieces| => CookieEntry(pieces[i])))
  }

  /** `cookiesObj.session`, when it is truthy (present and non-empty). */
  function SessionToken(cookies: map<string, string>): (t: Option<string>)
    ensures t.Some? <==> SessionCookie in cookies && cookies[SessionCookie] != ""
    ensures t.Some? ==> t.value == cookies[SessionCookie]
  {
    if SessionCookie in cookies && cookies[SessionCookie] != "" then Some(cookies[SessionCookie]) else None
  }

  function RequestToken(header: string): Option<string>
  {
    SessionToken(ParseCookies(header))
  }

  lemma NoSemicolonNoSeparator(s: string)
    requires forall i :: 0 <= i < |s| ==> s[i] != ';'
    ensures Find(s, CookieSeparator).None?
  {
    forall j: nat ensures !OccursAt(s, CookieSeparator, j) {
      if j + 2 <= |s| {
        assert s[j..j + 2][0] == s[j];
      }
    }
  }

  /** The header a browser sends back after signup or login, `session=<token>`,
      yields exactly that token. */
  lemma SingleSessionCookie(v: string)
    requires v != ""
    requires forall i :: 0 <= i < |v| ==> v[i] != ';'
    ensures RequestToken(SessionCookie + "=" + v) == Some(v)
  {
    var h := SessionCookie + "=" + v;
    assert forall i :: 0 <= i < |h| ==> h[i] != ';' by {
      forall i | 0 <= i < |h| ensures h[i] != ';' {
        if i >= 8 { assert h[i] == v[i - 8]; }
      }
    }
    NoSemicolonNoSeparator(h);
    assert Split(h, CookieSeparator) == [h];
    assert CookiePieces(h) == [h];
    LastSessionCookieWins(h, 0, v);
  }

  /** The pieces of a header that `createContext` turns into cookies. */
  function CookiePieces(header: string): seq<string>
  {
    NonEmpty(Split(header, CookieSeparator))
  }

  /** When a header carries several `session` cookies, the last one counts. */
  lemma LastSessionCookieWins(header: string, j: nat, v: string)
    requires j < |CookiePieces(header)| && CookiePieces(header)[j] == SessionCookie + "=" + v && v != ""
    requires forall l :: j < l < |CookiePieces(header)| ==> CookieEntry(CookiePieces(header)[l]).0 != SessionCookie
    ensures RequestToken(header) == Some(v)
  {
    var pieces := CookiePieces(header);
    var entries := seq(|pieces|, i requires 0 <= i < |pieces| => CookieEntry(pieces[i]));
    SessionPiece(v);
    assert entries[j] == (SessionCookie, v);
    FromEntriesLastWins(entries, j);
  }

  /** The piece `session=<v>` is the cookie `session` with value `v`. */
  lemma SessionPiece(v: string)
    ensures CookieEntry(SessionCookie + "=" + v) == (SessionCookie, v)
  {
    var h := SessionCookie + "=" + v;
    FindAfterPrefix(SessionCookie, '=', "=" + v);
    assert h == SessionCookie + ("=" + v);
    CookieEntryCutsAtFirstEquals(h);
    assert h[..7] == SessionCookie && h[8..] == v;
  }

  /** `filter(Boolean)` keeps the surviving pieces in their order: filtering
      a concatenation concatenates the filtered halves. */
  lemma {:induction false} NonEmptyConcat(a: seq<string>, b: seq<string>)
    ensures NonEmpty(a + b) == NonEmpty(a) + NonEmpty(b)
  {
    if a == [] {
      assert a + b == b;
    } else {
      var head := if a[0] == "" then [] else [a[0]];
      assert (a + b)[0] == a[0];
      assert (a + b)[1..] == a[1..] + b;
      assert NonEmpty(a + b) == head + NonEmpty(a[1..] + b);
      NonEmptyConcat(a[1..], b);
      assert NonEmpty(a) == head + NonEmpty(a[1..]);
    }
  }

  /** A single piece survives `filter(Boolean)` exactly when it is not empty. */
  lemma NonEmptySingle(p: string)
    ensures NonEmpty([p]) == if p == "" then [] else [p]
  {
    assert [p][1..] == [];
  }

  lemma {:induction false} NonEmptyKeepsAll(parts: seq<string>)
    requires forall p :: p in parts ==> p != ""
    ensures NonEmpty(parts) == parts
  {
    if parts != [] {
      assert parts[0] in parts;
      assert forall p :: p in parts[1..] ==> p in parts;
      NonEmptyKeepsAll(parts[1..]);
      assert [parts[0]] + parts[1..] == parts;
    }
  }

  // ---- Session expiry ----

  /** `Number(process.env.SESSION_EXPIRY_BUFFER_MS ?? "60000")`: unset, a
      number of milliseconds, or a value that converts to NaN. */
  datatype BufferSetting = Unset | Numeric(ms: int) | NotANumber

  const DefaultBufferMs: int := 60000

  /** The buffer in milliseconds; NaN has none, since every comparison with
      NaN is false. */
  function BufferMs(env: BufferSetting): Option<int>
  {
    match env
    case Unset => Some(DefaultBufferMs)
    case Numeric(ms) => Some(ms)
    case NotANumber => None
  }

  /** What happens to a session row that was found. */
  datatype SessionFate = Expired | NearExpiry | Live

  function Fate(expiresAt: int, now: int, env: BufferSetting): (f: SessionFate)
    ensures f == Expired <==> expiresAt <= now
    ensures f == NearExpiry <==> now < expiresAt && BufferMs(env).Some? && expiresAt - now <= BufferMs(env).value
    ensures f == Live <==> now < expiresAt && (BufferMs(env).None? || expiresAt - now > BufferMs(env).value)
  {
    if expiresAt <= now then Expired
    else
      match BufferMs(env)
      case Some(b) => if expiresAt - now <= b then NearExpiry else Live
      case None => Live
  }

  /** What `createContext` decides for a request. */
  datatype Admission = Anonymous | Invalidate(token: string) | Admit(userId: nat)

  /** `verify` is `jwt.verify` with the server's secret: the `userId` the token
      carries, or None when it throws. */
  function Decide(sessions: seq<Session>, header: string, now: int, env: BufferSetting,
                  verify: string -> Option<nat>): Admission
  {
    match RequestToken(header)
    case None => Anonymous
    case Some(token) =>
      match verify(token)
      case None => Anonymous
      case Some(uid) =>
        match FindSession(sessions, token)
        case None => Anonymous
        case Some(s) =>
          match Fate(s.expiresAt, now, env)
          case Expired => Anonymous
          case NearExpiry => Invalidate(token)
          case Live => Admit(uid)
  }

  /** A request is admitted as user `uid` exactly when its session cookie is a
      token that verifies to `uid` and whose session row outlives the buffer. */
  lemma AdmitsExactlyLiveSessions(sessions: seq<Session>, users: seq<User>, nextId: nat, header: string,
                                  now: int, env: BufferSetting, verify: string -> Option<nat>, uid: nat)
    requires SessionsWellFormed(sessions, users, nextId)
    ensures Decide(sessions, header, now, env, verify) == Admit(uid) <==>
      exists s :: s in sessions && RequestToken(header) == Some(s.token)
        && verify(s.token) == Some(uid) && Fate(s.expiresAt, now, env) == Live
  {
    var t := RequestToken(header);
    if t.Some? && verify(t.value).Some? {
      var f := FindSession(sessions, t.value);
      if f.None? {
        assert forall s :: s in sessions ==> s.token != t.value;
      } else {
        forall s | s in sessions && s.token == t.value ensures s == f.value {
          UniqueToken(sessions, users, nextId, s, f.value);
        }
      }
    }
  }

  lemma UniqueToken(sessions: seq<Session>, users: seq<User>, nextId: nat, s: Session, r: Session)
    requires SessionsWellFormed(sessions, users, nextId)
    requires s in sessions && r in sessions && s.token == r.token
    ensures s == r
  {
    var i :| 0 <= i < |sessions| && sessions[i] == s;
    var j :| 0 <= j < |sessions| && sessions[j] == r;
    if i < j || j < i { assert false; }
  }

  /** With the default setting, a session with a minute or less left is
      invalidated instead of admitted. */
  lemma DefaultBufferInvalidatesLastMinute(sessions: seq<Session>, header: string, now: int,
                                           verify: string -> Option<nat>, s: Session)
    requires RequestToken(header) == Some(s.token) && verify(s.token).Some?
    requires FindSession(sessions, s.token) == Some(s)
    requires now < s.expiresAt <= now + 60000
    ensures Decide(sessions, header, now, Unset, verify) == Invalidate(s.token)
  {
  }

  /** A setting that is not a number switches the buffer off: every unexpired
      session with a verified token is admitted. */
  lemma NotANumberDisablesBuffer(sessions: seq<Session>, header: string, now: int,
                                 verify: string -> Option<nat>, s: Session)
    requires RequestToken(header) == Some(s.token) && verify(s.token).Some?
    requires FindSession(sessions, s.token) == Some(s)
    requires now < s.expiresAt
    ensures Decide(sessions, header, now, NotANumber, verify) == Admit(verify(s.token).value)
  {
  }

  /** `createContext(opts)` with the `Cookie` header already selected and the
      clock read once as `now`. */
  method CreateContext(db: Database, cookieHeader: string, now: int, env: BufferSetting,
                       verify: string -> Option<nat>) returns (ctx: Context)
    requires db.Valid()
    modifies db`sessions
    ensures db.Valid()
    ensures match Decide(old(db.sessions), cookieHeader, now, env, verify)
      case Anonymous => ctx.user.None? && db.sessions == old(db.sessions)
      case Invalidate(t) => ctx.user.None? && db.sessions == DeleteByToken(old(db.sessions), t)
      case Admit(uid) => ctx.user == FindUserById(db.users, uid) && db.sessions == old(db.sessions)
  {
    ghost var decision := Decide(db.sessions, cookieHeader, now, env, verify);
    ctx := Context(None);
    var cookies := ParseCookies(cookieHeader);
    var token := SessionToken(cookies);
    if token.Some? {
      var decoded := verify(token.value);
      if decoded.Some? {
        var session := FindSession(db.sessions, token.value);
        if session.Some? && session.value.expiresAt > now {
          var expiresIn := session.value.expiresAt - now;
          var bufferMs := BufferMs(env);
          if bufferMs.Some? && expiresIn <= bufferMs.value {
            assert decision == Invalidate(token.value);
            db.DeleteSession(token.value);
          } else {
            assert decision == Admit(decoded.value);
            ctx := Context(FindUserById(db.users, decoded.value));
          }
        } else {
          assert decision == Anonymous;
        }
      } else {
        assert decision == Anonymous;
      }
    } else {
      assert decision == Anonymous;
    }
  }
}
