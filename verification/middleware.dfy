/**
 * The Express middleware of app/middleware/auth.ts: reads the
 * `Authorization` header, splits it on single spaces and, when the first
 * piece is `Bearer` and the session validates, attaches the caller and the
 * token to the request. The request always continues, with the error when
 * validation failed.
 */
module Middleware {
  import opened Rows
  import opened Jwt
  import opened AuthUtils

  /** Pieces joined back with single spaces. */
  function Join(parts: seq<string>): string
    requires |parts| >= 1
  {
    if |parts| == 1 then parts[0] else parts[0] + " " + Join(parts[1..])
  }

  /** `s.split(' ')`: empty pieces kept, so two spaces give an empty piece. */
  function Split(s: string): (parts: seq<string>)
    ensures |parts| >= 1
    ensures forall i :: 0 <= i < |parts| ==> ' ' !in parts[i]
    ensures Join(parts) == s
  {
    if |s| == 0 then [""]
    else
      var rest := Split(s[1..]);
      if s[0] == ' ' then
        assert ([""] + rest)[1..] == rest;
        [""] + rest
      else
        assert ([[s[0]] + rest[0]] + rest[1..])[1..] == rest[1..];
        assert [s[0]] + s[1..] == s;
        [[s[0]] + rest[0]] + rest[1..]
  }

  lemma {:induction false} SplitWord(w: string)
    requires ' ' !in w
    ensures Split(w) == [w]
  {
    if |w| > 0 {
      assert ' ' !in w[1..] by {
        assert forall c :: c in w[1..] ==> c in w;
      }
      SplitWord(w[1..]);
      assert [w[0]] + w[1..] == w;
    }
  }

  lemma {:induction false} SplitAtSpace(w: string, r: string)
    requires ' ' !in w
    ensures Split(w + " " + r) == [w] + Split(r)
  {
    if |w| == 0 {
      assert w + " " + r == " " + r;
      assert (" " + r)[1..] == r;
    } else {
      assert ' ' !in w[1..] by {
        assert forall c :: c in w[1..] ==> c in w;
      }
      assert (w + " " + r)[1..] == w[1..] + " " + r;
      SplitAtSpace(w[1..], r);
      assert [w[0]] + w[1..] == w;
    }
  }

  /** `const [type, token] = header.split(' '); if (type === 'Bearer' && token)`. */
  function ParseBearer(header: string): Option<string> {
    var parts := Split(header);
    if parts[0] == "Bearer" && |parts| >= 2 && parts[1] != "" then Some(parts[1]) else None
  }

  /**
   * The header names token `t` exactly when it is `Bearer`, one space and a
   * non-empty, space-free `t`, optionally followed by a space and anything.
   */
  lemma ParseBearerExactly(header: string, t: string)
    ensures ParseBearer(header) == Some(t) <==>
            t != "" && ' ' !in t &&
            (header == "Bearer " + t || exists rest :: header == "Bearer " + t + " " + rest)
  {
    if ParseBearer(header) == Some(t) {
      var parts := Split(header);
      assert parts[1..][0] == t;
      if |parts| == 2 {
        assert Join(parts[1..]) == t;
        assert header == "Bearer" + " " + t;
      } else {
        assert Join(parts[1..]) == t + " " + Join(parts[2..]) by {
          assert parts[1..][1..] == parts[2..];
        }
        assert header == "Bearer " + t + " " + Join(parts[2..]);
      }
    }
    if t != "" && ' ' !in t {
      if header == "Bearer " + t {
        assert header == "Bearer" + " " + t;
        SplitAtSpace("Bearer", t);
        SplitWord(t);
      } else if rest :| header == "Bearer " + t + " " + rest {
        assert header == "Bearer" + " " + (t + " " + rest);
        SplitAtSpace("Bearer", t + " " + rest);
        SplitAtSpace(t, rest);
      }
    }
  }

  /** The scheme is case-sensitive and a double space leaves an empty token. */
  lemma ParseBearerRejects(t: string)
    ensures ParseBearer("bearer " + t).None?
    ensures ParseBearer("Bearer  " + t).None?
    ensures ParseBearer("Bearer").None?
  {
    assert "Bearer  " + t == "Bearer" + " " + (" " + t);
    SplitAtSpace("Bearer", " " + t);
    assert " " + t == "" + " " + t;
    SplitAtSpace("", t);
  }

  /** What the middleware hands to `next`: the request context, or the error. */
  datatype Outcome = Next(ctx: Context) | NextError(error: Error)

  const Anonymous: Context := Context(None, None)

  /** authMiddleware (app/middleware/auth.ts:5-32). */
  function AuthMiddleware(st: Store, req: Request, header: Option<string>): (r: (Outcome, Store))
    ensures header.None? || header.value == "" ==> r == (Next(Anonymous), st)
    ensures header.Some? && ParseBearer(header.value).None? ==> r == (Next(Anonymous), st)
    ensures r.0.NextError? <==> header.Some? && ParseBearer(header.value).Some? && SessionsTable in req.down
    ensures r.0.NextError? ==> r == (NextError(StoreUnavailable), st)
    ensures r.0.Next? && r.0.ctx.user.None? ==> r.1 == st
    ensures r.0.Next? ==> (r.0.ctx.user.Some? <==> r.0.ctx.token.Some?)
    ensures r.0.Next? && r.0.ctx.user.Some? ==>
      && header.Some? && ParseBearer(header.value) == r.0.ctx.token
      && var v := ValidateSession(st, req, r.0.ctx.token.value);
         v.Ok? && v.value.0.Some? &&
         r.0.ctx.user.value == Caller(v.value.0.value.id, v.value.0.value.email) &&
         r.1 == v.value.1
    ensures header.Some? && header.value != "" && ParseBearer(header.value).Some? ==>
      var t := ParseBearer(header.value).value;
      var v := ValidateSession(st, req, t);
      v.Ok? && v.value.0.Some? ==>
        r == (Next(Context(Some(Caller(v.value.0.value.id, v.value.0.value.email)), Some(t))), v.value.1)
  {
    if header.None? || header.value == "" then (Next(Anonymous), st)
    else
      match ParseBearer(header.value)
      case None => (Next(Anonymous), st)
      case Some(token) =>
        match ValidateSession(st, req, token)
        case Err(e) => (NextError(e), st)
        case Ok((None, st')) => (Next(Anonymous), st')
        case Ok((Some(u), st')) => (Next(Context(Some(Caller(u.id, u.email)), Some(token))), st')
  }

  /**
   * A session just created is recognised by the middleware when its token is
   * presented as `Bearer <token>`, until the session expires.
   */
  lemma LoginThenBearer(st: Store, req: Request, userId: Id, req': Request)
    requires SessionsTable !in req.down && SessionsTable !in req'.down
    requires FindUserById(st.users, userId).Some?
    requires forall s :: s in st.sessions ==> s.token != GenerateAccessToken(req.cfg, userId, req.now)
    requires req'.now <= req.now + SessionLifetime
    ensures var (token, st') := CreateSession(st, req, userId).value;
            var r := AuthMiddleware(st', req', Some("Bearer " + token));
            r.0.Next? && r.0.ctx.user.Some? && r.0.ctx.user.value.id == userId && r.0.ctx.token == Some(token)
  {
    var (token, st') := CreateSession(st, req, userId).value;
    LettersNoSpace(token);
    BearerOfToken(token);
    CreateThenValidate(st, req, userId, req');
  }

  lemma LettersNoSpace(t: string)
    requires Letters(t)
    ensures ' ' !in t
  {
    assert forall i :: 0 <= i < |t| ==> t[i] != ' ';
  }

  lemma BearerOfToken(t: string)
    requires t != "" && ' ' !in t
    ensures ParseBearer("Bearer " + t) == Some(t)
  {
    ParseBearerExactly("Bearer " + t, t);
  }
}
