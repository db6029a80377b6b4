/**
 * Credentials: the value of the `Authorization` header a client authenticates with,
 * either HTTP Basic (section 2 of RFC 7617) or a Bearer token (section 2.1 of RFC 6750).
 */
module Authentication {
  import opened Wrappers
  import opened Text
  import Base64

  /** The name of the header every credential produces. */
  const AuthorizationHeader: string := "Authorization"

  const BasicPrefix: string := "Basic "
  const BearerPrefix: string := "Bearer "

  /** The two kinds of credentials; neither changes after construction. */
  datatype Credentials =
    | HttpBasic(username: GoString, password: GoString)
    | OauthToken(token: GoString)

  /** `NewHTTPBasicCredentials`: stores both arguments as given, with no validation. */
  function NewHTTPBasicCredentials(username: GoString, password: GoString): (c: Credentials)
    ensures c.HttpBasic? && c.username == username && c.password == password
  {
    HttpBasic(username, password)
  }

  /** `NewOauthTokenCredentials`: stores the token as given, with no validation. */
  function NewOauthTokenCredentials(token: GoString): (c: Credentials)
    ensures c.OauthToken? && c.token == token
  {
    OauthToken(token)
  }

  /** `basicAuth`: the padded standard base64 of the bytes of `username:password`. */
  function BasicAuth(username: GoString, password: GoString): (r: string)
    ensures |r| >= 4 && |r| % 4 == 0
  {
    var b := Bytes(username + ":" + password);
    assert |b| >= 1;
    Base64.Encode(b)
  }

  /** Decoding the encoding gives back the bytes of `username:password`. */
  lemma BasicAuthDecodes(username: GoString, password: GoString)
    ensures Base64.Decode(BasicAuth(username, password)) == Some(Bytes(username + ":" + password))
  {
    Base64.DecodeEncode(Bytes(username + ":" + password));
  }

  /** The encoding uses only the standard alphabet, and `=` only as padding at the end. */
  lemma BasicAuthAlphabet(username: GoString, password: GoString)
    ensures var r := BasicAuth(username, password);
      var pads := Base64.PadCount(|username| + |password| + 1);
      && |r| == 4 * ((|username| + |password| + 1 + 2) / 3)
      && pads <= 2 && pads <= |r|
      && (forall i :: 0 <= i < |r| - pads ==> Base64.IsAlphabetChar(r[i]))
      && (forall i :: |r| - pads <= i < |r| ==> r[i] == Base64.Pad)
  {
    var b := Bytes(username + ":" + password);
    EncodedLayout(BasicAuth(username, password), b, |username| + |password| + 1);
  }

  lemma EncodedLayout(r: string, b: seq<byte>, n: nat)
    requires r == Base64.Encode(b) && |b| == n
    ensures var pads := Base64.PadCount(n);
      && |r| == 4 * ((n + 2) / 3)
      && pads <= 2 && pads <= |r|
      && (forall i :: 0 <= i < |r| - pads ==> Base64.IsAlphabetChar(r[i]))
      && (forall i :: |r| - pads <= i < |r| ==> r[i] == Base64.Pad)
  {
  }

  /** `test` / `test`, the first example go-bitly's tests fix. */
  lemma BasicAuthExampleTest()
    ensures BasicAuth("test", "test") == "dGVzdDp0ZXN0"
  {
    assert "test" + ":" + "test" == "test:test";
    TestEncoding(Bytes("test:test"));
  }

  // Takes its literal through a parameter pinned by `requires`, which keeps literal unfolding stable.
  lemma TestEncoding(b: seq<byte>)
    requires b == [116, 101, 115, 116, 58, 116, 101, 115, 116]
    ensures Base64.Encode(b) == "dGVzdDp0ZXN0"
  {
    var vs := TestValues();
    TestChars(vs);
    assert Base64.Padding(Base64.PadCount(|b|)) == [];
  }

  lemma TestValues() returns (vs: seq<Base64.sextet>)
    ensures vs == [29, 6, 21, 51, 29, 3, 41, 52, 25, 23, 13, 52]
    ensures Base64.Sextets([116, 101, 115, 116, 58, 116, 101, 115, 116]) == vs
  {
    vs := ThreeGroups(116, 101, 115, 116, 58, 116, 101, 115, 116);
    assert Base64.GroupSextets(116, 101, 115) == [29, 6, 21, 51];
    assert Base64.GroupSextets(116, 58, 116) == [29, 3, 41, 52];
    assert Base64.GroupSextets(101, 115, 116) == [25, 23, 13, 52];
  }

  /** The values of nine bytes, computed group by group. */
  lemma ThreeGroups(b0: byte, b1: byte, b2: byte, b3: byte, b4: byte, b5: byte, b6: byte, b7: byte, b8: byte)
    returns (vs: seq<Base64.sextet>)
    ensures vs == Base64.GroupSextets(b0, b1, b2) + Base64.GroupSextets(b3, b4, b5) + Base64.GroupSextets(b6, b7, b8)
    ensures Base64.Sextets([b0, b1, b2, b3, b4, b5, b6, b7, b8]) == vs
  {
    Base64.SextetsOfThreeGroups([b0, b1, b2, b3, b4, b5, b6, b7, b8]);
    vs := Base64.GroupSextets(b0, b1, b2) + Base64.GroupSextets(b3, b4, b5) + Base64.GroupSextets(b6, b7, b8);
  }

  // Takes its literal through a parameter pinned by `requires`, which keeps literal unfolding stable.
  lemma TestChars(vs: seq<Base64.sextet>)
    requires vs == [29, 6, 21, 51, 29, 3, 41, 52, 25, 23, 13, 52]
    ensures Base64.Chars(vs) == "dGVzdDp0ZXN0"
  {
  }

  /** `admin` / `super_password`, the second example go-bitly's tests fix; one pad. */
  lemma BasicAuthExampleAdmin()
    ensures BasicAuth("admin", "super_password") == "YWRtaW46c3VwZXJfcGFzc3dvcmQ="
  {
    assert "admin" + ":" + "super_password" == "admin:super_password";
    var x, y, z := AdminBytes();
    AdminEncoding(x, y, z);
  }

  /** The bytes of `admin:super_password`, in two runs of three groups and a final pair. */
  lemma AdminBytes() returns (x: seq<byte>, y: seq<byte>, z: seq<byte>)
    ensures x == [97, 100, 109, 105, 110, 58, 115, 117, 112]
    ensures y == [101, 114, 95, 112, 97, 115, 115, 119, 111]
    ensures z == [114, 100]
    ensures Bytes("admin:super_password") == x + (y + z)
  {
    x, y, z := [97, 100, 109, 105, 110, 58, 115, 117, 112], [101, 114, 95, 112, 97, 115, 115, 119, 111], [114, 100];
  }

  // Takes its literal through a parameter pinned by `requires`, which keeps literal unfolding stable.
  lemma AdminEncoding(x: seq<byte>, y: seq<byte>, z: seq<byte>)
    requires x == [97, 100, 109, 105, 110, 58, 115, 117, 112]
    requires y == [101, 114, 95, 112, 97, 115, 115, 119, 111]
    requires z == [114, 100]
    ensures Base64.Encode(x + (y + z)) == "YWRtaW46c3VwZXJfcGFzc3dvcmQ="
  {
    Base64.EncodeParts(x, y, z);
    var vx := AdminHead();
    var vy := AdminMiddle();
    AdminTail(z);
    AdminChars(vx, vy, [28, 38, 16]);
  }

  // Takes its literal through a parameter pinned by `requires`, which keeps literal unfolding stable.
  lemma AdminTail(z: seq<byte>)
    requires z == [114, 100]
    ensures Base64.Sextets(z) == [28, 38, 16] && Base64.Padding(Base64.PadCount(|z|)) == "="
  {
    assert |z| % 3 == 2 && Base64.PadCount(|z|) == 1;
    assert Base64.Padding(1) == "=";
    assert Base64.Sextets(z) == [z[0] / 4, z[0] % 4 * 16 + z[1] / 16, z[1] % 16 * 4];
  }

  lemma AdminHead() returns (vs: seq<Base64.sextet>)
    ensures vs == [24, 22, 17, 45, 26, 22, 56, 58, 28, 55, 21, 48]
    ensures Base64.Sextets([97, 100, 109, 105, 110, 58, 115, 117, 112]) == vs
  {
    vs := ThreeGroups(97, 100, 109, 105, 110, 58, 115, 117, 112);
    assert Base64.GroupSextets(97, 100, 109) == [24, 22, 17, 45];
    assert Base64.GroupSextets(105, 110, 58) == [26, 22, 56, 58];
    assert Base64.GroupSextets(115, 117, 112) == [28, 55, 21, 48];
  }

  lemma AdminMiddle() returns (vs: seq<Base64.sextet>)
    ensures vs == [25, 23, 9, 31, 28, 6, 5, 51, 28, 55, 29, 47]
    ensures Base64.Sextets([101, 114, 95, 112, 97, 115, 115, 119, 111]) == vs
  {
    vs := ThreeGroups(101, 114, 95, 112, 97, 115, 115, 119, 111);
    assert Base64.GroupSextets(101, 114, 95) == [25, 23, 9, 31];
    assert Base64.GroupSextets(112, 97, 115) == [28, 6, 5, 51];
    assert Base64.GroupSextets(115, 119, 111) == [28, 55, 29, 47];
  }

  // Takes its literal through a parameter pinned by `requires`, which keeps literal unfolding stable.
  lemma AdminChars(x: seq<Base64.sextet>, y: seq<Base64.sextet>, z: seq<Base64.sextet>)
    requires x == [24, 22, 17, 45, 26, 22, 56, 58, 28, 55, 21, 48]
    requires y == [25, 23, 9, 31, 28, 6, 5, 51, 28, 55, 29, 47]
    requires z == [28, 38, 16]
    ensures Base64.Chars(x + (y + z)) == "YWRtaW46c3VwZXJfcGFzc3dvcmQ"
  {
    Base64.CharsAppend(x, y + z);
    Base64.CharsAppend(y, z);
    AdminCharsPart(x, "YWRtaW46c3Vw");
    AdminCharsPart(y, "ZXJfcGFzc3dv");
    assert Base64.Chars(z) == "cmQ";
    assert "YWRtaW46c3Vw" + ("ZXJfcGFzc3dv" + "cmQ") == "YWRtaW46c3VwZXJfcGFzc3dvcmQ";
  }

  // Takes its literal through a parameter pinned by `requires`, which keeps literal unfolding stable.
  lemma AdminCharsPart(vs: seq<Base64.sextet>, s: string)
    requires
      || (vs == [24, 22, 17, 45, 26, 22, 56, 58, 28, 55, 21, 48] && s == "YWRtaW46c3Vw")
      || (vs == [25, 23, 9, 31, 28, 6, 5, 51, 28, 55, 29, 47] && s == "ZXJfcGFzc3dv")
    ensures Base64.Chars(vs) == s
  {
  }

  /** Empty credentials are accepted and still produce a header: the encoding of a lone colon. */
  lemma EmptyBasicCredentials()
    ensures Headers(NewHTTPBasicCredentials("", ""))[AuthorizationHeader] == "Basic Og=="
  {
    assert "" + ":" + "" == ":";
    EmptyEncoding(Bytes(":"));
  }

  // Takes its literal through a parameter pinned by `requires`, which keeps literal unfolding stable.
  lemma EmptyEncoding(b: seq<byte>)
    requires b == [58]
    ensures Base64.Encode(b) == "Og=="
  {
    assert Base64.Sextets(b) == [14, 32];
  }

  /** `Headers()`: exactly one header, `Authorization`. */
  function Headers(c: Credentials): (h: map<string, string>)
    ensures h.Keys == {AuthorizationHeader}
    ensures c.HttpBasic? ==> h[AuthorizationHeader] == BasicPrefix + BasicAuth(c.username, c.password)
    ensures c.OauthToken? ==> h[AuthorizationHeader] == BearerPrefix + c.token
  {
    match c
    case HttpBasic(username, password) => map[AuthorizationHeader := BasicPrefix + BasicAuth(username, password)]
    case OauthToken(token) => map[AuthorizationHeader := BearerPrefix + token]
  }

  /**
   * Reads credentials back from an `Authorization` value: the reverse of `Headers`.
   * A Basic value splits its decoded text at the first colon, as section 2 of RFC 7617 prescribes.
   */
  function ParseAuthorization(v: string): Option<Credentials>
  {
    if IsPrefix(BasicPrefix, v) then
      match Base64.Decode(v[|BasicPrefix|..])
      case None => None
      case Some(bytes) =>
        var text := FromBytes(bytes);
        match IndexOf(text, ':')
        case None => None
        case Some(k) => Some(HttpBasic(text[..k], text[k + 1..]))
    else if IsPrefix(BearerPrefix, v) && IsByteString(v[|BearerPrefix|..]) then
      Some(OauthToken(v[|BearerPrefix|..]))
    else
      None
  }

  /**
   * The header a credential produces identifies it again. For Basic credentials this needs
   * a username without a colon, which section 2 of RFC 7617 demands and the constructor does not check.
   */
  lemma HeadersRoundTrip(c: Credentials)
    requires c.HttpBasic? ==> ':' !in c.username
    ensures ParseAuthorization(Headers(c)[AuthorizationHeader]) == Some(c)
  {
    match c
    case HttpBasic(username, password) => BasicRoundTrip(username, password);
    case OauthToken(token) => BearerRoundTrip(token);
  }

  lemma BasicRoundTrip(username: GoString, password: GoString)
    requires ':' !in username
    ensures ParseAuthorization(BasicPrefix + BasicAuth(username, password)) == Some(HttpBasic(username, password))
  {
    var encoded := BasicAuth(username, password);
    PrefixOfAppend(BasicPrefix, encoded);
    var auth: GoString := username + ":" + password;
    BasicAuthDecodes(username, password);
    BytesRoundTrip(auth);
    IndexOfSeparator(username, ':', password);
  }

  lemma BearerRoundTrip(token: GoString)
    ensures ParseAuthorization(BearerPrefix + token) == Some(OauthToken(token))
  {
    var v := BearerPrefix + token;
    assert v[..|BasicPrefix|] != BasicPrefix by {
      assert v[1] == 'e' && BasicPrefix[1] == 'a';
    }
    assert v[|BearerPrefix|..] == token;
  }

  /** The headers go-bitly's tests expect for `test` / `test` and for the token `secret_token`. */
  lemma HeadersExamples()
    ensures Headers(NewHTTPBasicCredentials("test", "test")) == map[AuthorizationHeader := "Basic dGVzdDp0ZXN0"]
    ensures Headers(NewOauthTokenCredentials("secret_token")) == map[AuthorizationHeader := "Bearer secret_token"]
  {
    BasicAuthExampleTest();
    PrefixedValue(BasicPrefix, "dGVzdDp0ZXN0", "Basic dGVzdDp0ZXN0");
    PrefixedValue(BearerPrefix, "secret_token", "Bearer secret_token");
  }

  // Takes the strings as parameters, so that the literal concatenation is proved once, at the call.
  lemma PrefixedValue(prefix: string, value: string, header: string)
    requires prefix + value == header
    ensures map[AuthorizationHeader := prefix + value] == map[AuthorizationHeader := header]
  {
  }

  /** The Bearer header carries the token verbatim, so tokens and headers correspond one to one. */
  lemma BearerHeaderInjective(t1: GoString, t2: GoString)
    requires Headers(OauthToken(t1)) == Headers(OauthToken(t2))
    ensures t1 == t2
  {
    assert (BearerPrefix + t1)[|BearerPrefix|..] == t1;
    assert (BearerPrefix + t2)[|BearerPrefix|..] == t2;
  }
}
