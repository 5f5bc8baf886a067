/**
 * The authentication guard `requireAuth(role)` placed in front of every
 * handler: it reads a bearer token from the `Authorization` header, has it
 * verified, checks the payload, and checks the role when one is required.
 * Token verification (signature, expiry, secret) is a parameter of the model:
 * `verify` returns the payload, or None where the library throws.
 */
module Auth {
  import opened Results
  import opened Text
  import opened Tables

  /** The claims the guard reads from a verified token; a missing claim is None. */
  datatype Payload = Payload(id: Option<int>, role: Option<string>)

  /** The user attached to the request: exactly the token's id and role. */
  datatype AuthUser = AuthUser(id: UserId, role: string)

  /** What the guard does with a request: pass it on with a user, or answer with a status. */
  datatype Decision = Allow(user: AuthUser) | Deny(status: int)

  /** The scheme prefix the header must start with. */
  const BearerPrefix := "Bearer "

  /** A header the guard goes on to verify: present and starting with `Bearer `. */
  predicate BearerHeader(header: Option<string>) {
    header.Some? && StartsWith(header.value, BearerPrefix)
  }

  /** `authHeader.split(" ")[1]`: the second space-separated segment of the header. */
  function TokenOf(header: string): (token: string)
    requires StartsWith(header, BearerPrefix)
    ensures ' ' !in token
  {
    HeaderSplits(header);
    Split(header, ' ')[1]
  }

  /** A `Bearer ` header splits into `Bearer` and the pieces of what follows. */
  lemma HeaderSplits(header: string)
    requires StartsWith(header, BearerPrefix)
    ensures Split(header, ' ') == ["Bearer"] + Split(header[|BearerPrefix|..], ' ')
  {
    var rest := header[|BearerPrefix|..];
    assert header == "Bearer" + [' '] + rest;
    SplitAround("Bearer", ' ', rest);
  }

  /** JavaScript truthiness of an optional id: present and not 0. */
  predicate IdPresent(id: Option<int>) {
    id.Some? && id.value != 0
  }

  /** A payload the guard accepts: a non-zero id and a non-empty role. */
  predicate PayloadValid(p: Payload) {
    IdPresent(p.id) && Truthy(p.role)
  }

  /**
   * `requireAuth(required)` on a request carrying `header`. A missing or
   * non-bearer header is 401 before any verification; a token that fails
   * verification or whose payload lacks an id or role is 401; a user whose role
   * differs from a required role is 403; otherwise the request passes with the
   * payload's id and role.
   */
  function Guard(header: Option<string>, required: Option<string>, verify: string -> Option<Payload>)
    : (d: Decision)
    ensures !BearerHeader(header) ==> d == Deny(401)
    ensures BearerHeader(header) ==>
      var p := verify(TokenOf(header.value));
      && (d == Deny(401) <==> p.None? || !PayloadValid(p.value))
      && (d == Deny(403) <==>
            p.Some? && PayloadValid(p.value) && Truthy(required) && p.value.role.value != required.value)
      && (d.Allow? <==>
            p.Some? && PayloadValid(p.value) && (!Truthy(required) || p.value.role.value == required.value))
      && (d.Allow? ==> d.user == AuthUser(p.value.id.value, p.value.role.value))
  {
    if !BearerHeader(header) then Deny(401)
    else
      match verify(TokenOf(header.value))
      case None => Deny(401)
      case Some(p) =>
        if !PayloadValid(p) then Deny(401)
        else
          var user := AuthUser(p.id.value, p.role.value);
          if Truthy(required) && user.role != required.value then Deny(403)
          else Allow(user)
  }

  /** A malformed header is refused the same way whatever the verifier would say. */
  lemma HeaderCheckedFirst(header: Option<string>, required: Option<string>,
                           v1: string -> Option<Payload>, v2: string -> Option<Payload>)
    requires !BearerHeader(header)
    ensures Guard(header, required, v1) == Guard(header, required, v2) == Deny(401)
  {
  }

  /**
   * The token handed to the verifier is the text after `Bearer ` up to the next
   * space: all of it when there is no further space.
   */
  lemma {:induction false} TokenIsFirstWord(a: string, rest: string)
    requires ' ' !in a
    ensures TokenOf(BearerPrefix + a) == a
    ensures TokenOf(BearerPrefix + a + " " + rest) == a
  {
    var h1 := BearerPrefix + a;
    HeaderSplits(h1);
    assert h1[|BearerPrefix|..] == a;
    SplitPiece(a, ' ');
    var h2 := BearerPrefix + a + " " + rest;
    assert StartsWith(h2, BearerPrefix) by { assert h2[..|BearerPrefix|] == BearerPrefix; }
    HeaderSplits(h2);
    assert h2[|BearerPrefix|..] == a + [' '] + rest;
    SplitAround(a, ' ', rest);
  }

  /** With no role required (`null`, the default), every valid token passes. */
  lemma NoRoleAdmitsEveryValidUser(header: Option<string>, verify: string -> Option<Payload>)
    requires BearerHeader(header)
    requires var p := verify(TokenOf(header.value)); p.Some? && PayloadValid(p.value)
    ensures Guard(header, None, verify).Allow?
  {
  }

  /** A user admitted under a required role carries exactly that role. */
  lemma AdmittedUserHasRole(header: Option<string>, role: string, verify: string -> Option<Payload>)
    requires role != ""
    requires Guard(header, Some(role), verify).Allow?
    ensures Guard(header, Some(role), verify).user.role == role
    ensures Guard(header, Some(role), verify).user.id != 0
  {
  }
}
