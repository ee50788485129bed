/** The "Basic" HTTP authentication scheme of RFC 7617: the header value is
    `Basic ` followed by the base 64 encoding of `user-id ":" password`
    (section 2 of RFC 7617). */
module BasicAuth {
  import opened Wrappers
  import opened PhpStrings
  import Base64

  const Scheme: Bytes := "Basic "

  /** The Authorization header value for a user-id and a password. */
  function Credentials(user: Bytes, password: Bytes): (h: Bytes)
    ensures |h| >= |Scheme| && h[..|Scheme|] == Scheme
  {
    Scheme + Base64.Encode(user + [':'] + password)
  }

  /** Splits at the first colon, as section 2 of RFC 7617 prescribes. */
  function SplitAtColon(s: Bytes): (r: Option<(Bytes, Bytes)>)
    ensures r.Some? ==> ':' !in r.value.0 && s == r.value.0 + [':'] + r.value.1
    ensures r.None? <==> ':' !in s
  {
    if |s| == 0 then None
    else if s[0] == ':' then Some(([], s[1..]))
    else
      match SplitAtColon(s[1..])
      case None => None
      case Some((user, password)) => Some(([s[0]] + user, password))
  }

  /** Reads a user-id and a password back from an Authorization header value. */
  function ParseCredentials(h: Bytes): Option<(Bytes, Bytes)>
  {
    if |h| < |Scheme| || h[..|Scheme|] != Scheme then None
    else
      match Base64.Decode(h[|Scheme|..])
      case None => None
      case Some(pair) => SplitAtColon(pair)
  }

  lemma {:induction false} SplitAtColonJoin(user: Bytes, password: Bytes)
    requires ':' !in user
    ensures SplitAtColon(user + [':'] + password) == Some((user, password))
  {
    if |user| > 0 {
      SplitAtColonJoin(user[1..], password);
      assert (user + [':'] + password)[1..] == user[1..] + [':'] + password;
      assert [user[0]] + user[1..] == user;
    } else {
      assert user + [':'] + password == [':'] + password;
    }
  }

  /** A header built from a user-id without a colon reads back as that
      user-id and that password. */
  lemma CredentialsRoundTrip(user: Bytes, password: Bytes)
    requires ':' !in user
    ensures ParseCredentials(Credentials(user, password)) == Some((user, password))
  {
    var h := Credentials(user, password);
    assert h[|Scheme|..] == Base64.Encode(user + [':'] + password);
    Base64.DecodeEncode(user + [':'] + password);
    SplitAtColonJoin(user, password);
  }

  /** A colon in the user-id makes the header ambiguous: two different
      pairs give the same value, which is why RFC 7617 forbids it. */
  lemma ColonInUserIsAmbiguous()
    ensures Credentials("a:b", "") == Credentials("a", "b:")
  {
    assert "a:b" + [':'] + "" == "a" + [':'] + "b:";
  }

  /** A worked value: user-id `a`, password `bc`. */
  lemma CredentialsExample()
    ensures Credentials("a", "bc") == "Basic YTpiYw=="
  {
    var s: Bytes := "a:bc";
    assert "a" + [':'] + "bc" == s;
    assert s[..3] == "a:b" && s[3..] == "c";
    var vs := [24, 19, 41, 34, 24, 48, Base64.Pad, Base64.Pad];
    assert Base64.Split(s) == vs;
    assert Base64.Chars(vs) == "YTpiYw==";
  }
}
