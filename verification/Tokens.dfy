/** Signed access tokens: login issues them, and every request authenticates one against the account table.

    The message authentication code, the password check and the JSON text of a payload are parameters.
 */
module Tokens {
  import opened Base64Url
  import opened Wrappers
  import A = Accounts

  /** The claims of a token: account, name and role at issue, and the second it expires. */
  datatype Payload = Payload(sub: string, usr: string, role: A.Role, exp: int)

  datatype Codec = Codec(dump: Payload -> seq<Byte>, load: seq<Byte> -> Option<Payload>)

  type Mac = (string, string) -> seq<Byte>

  const LIFETIME := 8 * 3600

  datatype Session = Session(id: string, username: string, role: A.Role)

  datatype Failure = NotConfigured | BadCredentials | InvalidToken | Expired | Inactive

  datatype Result<T> = Ok(value: T) | Err(failure: Failure)

  /** Whole seconds of a clock that counts microseconds. */
  function Seconds(now: int): int {
    now / 1000000
  }

  /** What is read back of a payload is what was written. */
  ghost predicate Lawful(codec: Codec) {
    forall p :: codec.load(codec.dump(p)) == Some(p)
  }

  function Signed(encoded: string, secret: string, mac: Mac): string {
    encoded + "." + StripPadding(Encode(mac(secret, encoded)))
  }

  function Issue(id: string, account: A.Account, secret: string, now: int, codec: Codec, mac: Mac): string {
    var payload := Payload(id, account.username, account.role, Seconds(now + LIFETIME * 1000000));
    Signed(StripPadding(Encode(codec.dump(payload))), secret, mac)
  }

  /** login, for the account stored under the folded name. */
  function Login(t: A.Table, secret: string, username: string, password: string, allowEmpty: bool,
                 verify: (string, string) -> bool, id: string, now: int, codec: Codec, mac: Mac): Result<string> {
    if secret == "" then Err(NotConfigured)
    else if password == "" && !allowEmpty then Err(BadCredentials)
    else if id !in t || t[id].username != A.Casefold(Strip(username)) || !t[id].active
      || !verify(password, t[id].passwordHash)
      then Err(BadCredentials)
    else Ok(Issue(id, t[id], secret, now, codec, mac))
  }

  /** Where the first dot is; |s| if there is none. */
  function Dot(s: string): (i: nat)
    ensures i <= |s|
  {
    if s == "" || s[0] == '.' then 0 else 1 + Dot(s[1..])
  }

  function Authenticate(token: string, t: A.Table, secret: string, now: int, codec: Codec, mac: Mac): Result<Session> {
    if secret == "" then Err(NotConfigured)
    else if Dot(token) == |token| then Err(InvalidToken)
    else
      var encoded, given := token[..Dot(token)], token[Dot(token) + 1..];
      if DecodeUnpadded(given) != Some(mac(secret, encoded)) then Err(InvalidToken)
      else
        var bytes := DecodeUnpadded(encoded);
        if bytes.None? then Err(InvalidToken)
        else
          match codec.load(bytes.value)
          case None => Err(InvalidToken)
          case Some(payload) => Admit(payload, t, now)
  }

  /** The claims have been verified: the rest is the expiry and the account as it is stored now. */
  function Admit(payload: Payload, t: A.Table, now: int): Result<Session> {
    if payload.exp <= Seconds(now) then Err(Expired)
    else if payload.sub !in t || !t[payload.sub].active then Err(Inactive)
    else Ok(Session(payload.sub, t[payload.sub].username, t[payload.sub].role))
  }

  lemma {:induction false} DotAfter(s: string, rest: string)
    requires forall i :: 0 <= i < |s| ==> s[i] != '.'
    ensures Dot(s + "." + rest) == |s|
  {
    var t := s + "." + rest;
    if s != "" {
      assert t[1..] == s[1..] + "." + rest;
      DotAfter(s[1..], rest);
    }
  }

  /** A signed payload splits, verifies and decodes back to itself, for every payload and secret. */
  lemma SignedDecodes(bytes: seq<Byte>, secret: string, mac: Mac)
    ensures var encoded := StripPadding(Encode(bytes)); var token := Signed(encoded, secret, mac);
            && Dot(token) == |encoded| < |token| && token[..Dot(token)] == encoded
            && DecodeUnpadded(token[Dot(token) + 1..]) == Some(mac(secret, encoded))
            && DecodeUnpadded(encoded) == Some(bytes)
  {
    var encoded := StripPadding(Encode(bytes));
    var tag := StripPadding(Encode(mac(secret, encoded)));
    RoundTrip(bytes);
    RoundTrip(mac(secret, encoded));
    DotAfter(encoded, tag);
    assert (encoded + "." + tag)[..|encoded|] == encoded;
    assert (encoded + "." + tag)[|encoded| + 1..] == tag;
  }

  /** An issued token authenticates exactly while it is unexpired and its account is active, whatever has
      happened to the table in between, and it yields the stored name and role, not those at issue. */
  lemma IssuedTokenAuthenticates(id: string, account: A.Account, secret: string, issued: int, t: A.Table, now: int,
                                 codec: Codec, mac: Mac)
    requires secret != "" && Lawful(codec)
    ensures Authenticate(Issue(id, account, secret, issued, codec, mac), t, secret, now, codec, mac) ==
      if Seconds(issued) + LIFETIME <= Seconds(now) then Err(Expired)
      else if id !in t || !t[id].active then Err(Inactive)
      else Ok(Session(id, t[id].username, t[id].role))
  {
    var payload := Payload(id, account.username, account.role, Seconds(issued + LIFETIME * 1000000));
    SignedDecodes(codec.dump(payload), secret, mac);
    assert codec.load(codec.dump(payload)) == Some(payload);
  }

  /** Logging in succeeds only for active accounts with the right password, and then the token lets the
      account in for the next eight hours as long as it stays active. */
  lemma LoginThenAuthenticate(t: A.Table, secret: string, username: string, password: string, allowEmpty: bool,
                              verify: (string, string) -> bool, id: string, now: int, codec: Codec, mac: Mac,
                              later: A.Table, then': int)
    requires Lawful(codec)
    requires Login(t, secret, username, password, allowEmpty, verify, id, now, codec, mac).Ok?
    ensures id in t && t[id].active && verify(password, t[id].passwordHash)
    ensures var token := Login(t, secret, username, password, allowEmpty, verify, id, now, codec, mac).value;
            Authenticate(token, later, secret, then', codec, mac).Ok?
            == (Seconds(then') < Seconds(now) + 8 * 3600 && id in later && later[id].active)
  {
    IssuedTokenAuthenticates(id, t[id], secret, now, later, then', codec, mac);
  }

  // ----- every token there is -----

  /** The token is these two parts around its first dot. */
  predicate SplitsInto(token: string, encoded: string, given: string) {
    '.' !in encoded && token == encoded + "." + given
  }

  /** The second part is the signature of the first under the secret. */
  predicate IsSignedBy(encoded: string, given: string, secret: string, mac: Mac) {
    DecodeUnpadded(given) == Some(mac(secret, encoded))
  }

  /** The first part carries these claims. */
  predicate Carries(encoded: string, payload: Payload, codec: Codec) {
    DecodeUnpadded(encoded).Some? && codec.load(DecodeUnpadded(encoded).value) == Some(payload)
  }

  predicate IsCurrent(payload: Payload, t: A.Table, now: int) {
    payload.exp > Seconds(now) && payload.sub in t && t[payload.sub].active
  }

  ghost predicate IsGenuine(token: string, payload: Payload, secret: string, codec: Codec, mac: Mac) {
    exists encoded, given ::
      SplitsInto(token, encoded, given) && IsSignedBy(encoded, given, secret, mac) && Carries(encoded, payload, codec)
  }

  lemma {:induction false} SplitAtDot(s: string)
    ensures Dot(s) < |s| ==> SplitsInto(s, s[..Dot(s)], s[Dot(s) + 1..])
    ensures Dot(s) == |s| ==> '.' !in s
  {
    if s != "" && s[0] != '.' {
      SplitAtDot(s[1..]);
      var d := Dot(s[1..]);
      if d < |s[1..]| {
        assert s[..d + 1] == [s[0]] + s[1..][..d];
        assert s[1..][d + 1..] == s[d + 2..];
        assert s == [s[0]] + s[1..];
      }
    } else if s != "" {
      assert s == "" + "." + s[1..];
    }
  }

  lemma SplitIsUnique(token: string, encoded: string, given: string)
    requires SplitsInto(token, encoded, given)
    ensures Dot(token) == |encoded| < |token| && token[..Dot(token)] == encoded && token[Dot(token) + 1..] == given
  {
    DotAfter(encoded, given);
  }

  /** Over all tokens, issued or not: a token is let in exactly when it is a genuine one, signed under the secret,
      whose claims are unexpired and name an active account; and it lets in that account as it is stored. */
  lemma AuthenticatesIff(token: string, t: A.Table, secret: string, now: int, codec: Codec, mac: Mac)
    ensures Authenticate(token, t, secret, now, codec, mac).Ok?
      <==> secret != "" && exists payload :: IsGenuine(token, payload, secret, codec, mac) && IsCurrent(payload, t, now)
    ensures forall payload ::
      secret != "" && IsGenuine(token, payload, secret, codec, mac) && IsCurrent(payload, t, now) ==>
        Authenticate(token, t, secret, now, codec, mac)
          == Ok(Session(payload.sub, t[payload.sub].username, t[payload.sub].role))
  {
    SplitAtDot(token);
    forall payload |
      secret != "" && IsGenuine(token, payload, secret, codec, mac) && IsCurrent(payload, t, now)
      ensures Authenticate(token, t, secret, now, codec, mac)
        == Ok(Session(payload.sub, t[payload.sub].username, t[payload.sub].role))
    {
      var encoded, given :|
        && SplitsInto(token, encoded, given) && IsSignedBy(encoded, given, secret, mac)
        && Carries(encoded, payload, codec);
      SplitIsUnique(token, encoded, given);
    }
    if Authenticate(token, t, secret, now, codec, mac).Ok? {
      var encoded, given := token[..Dot(token)], token[Dot(token) + 1..];
      var payload := codec.load(DecodeUnpadded(encoded).value).value;
      assert SplitsInto(token, encoded, given) && IsSignedBy(encoded, given, secret, mac);
      assert IsGenuine(token, payload, secret, codec, mac) && IsCurrent(payload, t, now);
    }
  }

  /** Whatever its claims, a token whose second part is not the signature of the first is refused. */
  lemma ForgedIsRefused(token: string, encoded: string, given: string, t: A.Table, secret: string, now: int,
                        codec: Codec, mac: Mac)
    requires secret != "" && SplitsInto(token, encoded, given) && !IsSignedBy(encoded, given, secret, mac)
    ensures Authenticate(token, t, secret, now, codec, mac) == Err(InvalidToken)
  {
    SplitIsUnique(token, encoded, given);
  }

  /** A payload under the signature of another, or signed with another secret, is refused, unless the two
      signatures happen to be equal. */
  lemma TransplantedIsRefused(bytes: seq<Byte>, signed: string, secret: string, used: string, t: A.Table, now: int,
                              codec: Codec, mac: Mac)
    requires secret != "" && mac(used, signed) != mac(secret, StripPadding(Encode(bytes)))
    ensures Authenticate(StripPadding(Encode(bytes)) + "." + StripPadding(Encode(mac(used, signed))), t, secret, now,
                         codec, mac) == Err(InvalidToken)
  {
    var encoded, given := StripPadding(Encode(bytes)), StripPadding(Encode(mac(used, signed)));
    RoundTrip(bytes);
    RoundTrip(mac(used, signed));
    ForgedIsRefused(encoded + "." + given, encoded, given, t, secret, now, codec, mac);
  }

  /** What an issued token claims: the account as it was at issue, for eight hours. */
  lemma IssuedTokenClaims(id: string, account: A.Account, secret: string, now: int, codec: Codec, mac: Mac)
    requires Lawful(codec)
    ensures IsGenuine(Issue(id, account, secret, now, codec, mac),
                      Payload(id, account.username, account.role, Seconds(now) + 8 * 3600), secret, codec, mac)
  {
    var payload := Payload(id, account.username, account.role, Seconds(now + LIFETIME * 1000000));
    var encoded := StripPadding(Encode(codec.dump(payload)));
    var given := StripPadding(Encode(mac(secret, encoded)));
    RoundTrip(codec.dump(payload));
    RoundTrip(mac(secret, encoded));
    assert codec.load(codec.dump(payload)) == Some(payload);
    assert SplitsInto(encoded + "." + given, encoded, given);
  }

  /** Logging in succeeds for some stored account exactly when there is an active one of that name, case and
      surrounding space aside, whose password this is. */
  lemma LoginIff(t: A.Table, secret: string, username: string, password: string, allowEmpty: bool,
                 verify: (string, string) -> bool, id: string, now: int, codec: Codec, mac: Mac)
    ensures Login(t, secret, username, password, allowEmpty, verify, id, now, codec, mac).Ok?
      <==> && secret != "" && (password != "" || allowEmpty)
           && id in t && t[id].active && t[id].username == A.Casefold(Strip(username))
           && verify(password, t[id].passwordHash)
    ensures A.NamesDistinct(t) && Login(t, secret, username, password, allowEmpty, verify, id, now, codec, mac).Ok? ==>
      forall other ::
        Login(t, secret, username, password, allowEmpty, verify, other, now, codec, mac).Ok? ==> other == id
  {
  }
}
