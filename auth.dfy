/** The admin check of the KV-backed news handlers (src/lib/auth.ts). The
    request is reduced to its `authorization` header, `None` when absent,
    and the environment to `NEWS_ADMIN_TOKEN`, `None` when unset. */
module Auth {
  import opened Wrappers
  import opened Text

  /** `getBearer`: the second space-separated field of the header, or
      the empty text when there is none. The first word is not looked at. */
  function GetBearer(authorization: Option<string>): (token: string)
    ensures ' ' !in token
  {
    var fields := Split(authorization.GetOr(""), ' ');
    if |fields| >= 2 then fields[1] else ""
  }

  /** `isAdmin`: a configured, non-empty token equal to the bearer token. */
  predicate IsAdmin(authorization: Option<string>, adminEnv: Option<string>) {
    var admin := adminEnv.GetOr("");
    admin != "" && GetBearer(authorization) == admin
  }

  /** "<scheme> <token>" yields the token, whatever the scheme word and
      whatever follows after a further space. */
  lemma BearerIsSecondField(scheme: string, token: string, rest: string)
    requires ' ' !in scheme && ' ' !in token
    requires rest == [] || rest[0] == ' '
    ensures GetBearer(Some(scheme + " " + token + rest)) == token
  {
    var s := scheme + " " + token + rest;
    var k := |scheme|;
    var i := k + 1 + |token|;
    forall j | 0 <= j < k ensures s[j] != ' ' { assert s[j] == scheme[j]; }
    forall j | k < j < i ensures s[j] != ' ' { assert s[j] == token[j - k - 1]; }
    assert s[k + 1..i] == token;
    SecondField(s, ' ', k, i);
  }

  /** `"Basic x"` is accepted as carrying the token `x`. */
  lemma SchemeNotChecked()
    ensures GetBearer(Some("Basic x")) == "x"
    ensures GetBearer(Some("Bearer x")) == "x"
  {
    BearerIsSecondField("Basic", "x", "");
    assert "Basic" + " " + "x" + "" == "Basic x";
    BearerIsSecondField("Bearer", "x", "");
    assert "Bearer" + " " + "x" + "" == "Bearer x";
  }

  /** No header, or a header without a space, carries no token. */
  lemma NoSecondField(authorization: Option<string>)
    requires authorization.None? || ' ' !in authorization.value
    ensures GetBearer(authorization) == ""
  {
    var s := authorization.GetOr("");
    FieldAt(s, ' ', 0, |s|);
  }

  /** Without a configured token nobody is admin; with one, exactly the
      requests that carry it are; and a configured token holding a space
      can never be carried. */
  lemma AdminRules(authorization: Option<string>, adminEnv: Option<string>)
    ensures adminEnv.GetOr("") == "" ==> !IsAdmin(authorization, adminEnv)
    ensures ' ' in adminEnv.GetOr("") ==> !IsAdmin(authorization, adminEnv)
  {
  }

  /** The request "Bearer <t>" is admin exactly when `t` is the configured token. */
  lemma BearerRequestIsAdmin(t: string, admin: string)
    requires t != [] && ' ' !in t
    ensures IsAdmin(Some("Bearer " + t), Some(admin)) <==> admin == t
  {
    BearerIsSecondField("Bearer", t, "");
    assert "Bearer " + t == "Bearer" + " " + t + "";
  }
}
