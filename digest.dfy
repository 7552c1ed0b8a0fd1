/**
 * The DIGEST-MD5 response value (`computeResponse`), after section 2.1.2.1
 * of RFC 2831.
 *
 * MD5 itself is not modelled: it is a parameter `md5` that maps any byte
 * string to 16 bytes. What is modelled is how the inputs of each hash are
 * assembled, byte for byte, and how the raw digests are hex-encoded.
 */
module Digest {
  import opened Text
  import opened DigestParams

  /** `model.User`: a stored credential, the password in clear. */
  datatype User = User(username: string, password: string)

  /** A raw MD5 digest: 16 bytes. */
  type RawDigest = d: seq<Byte> | |d| == 16 witness "0000000000000000"

  /** The hash function, `md5Hash`. */
  type Hash = string -> RawDigest

  /** The text hashed first: `username:realm:password`. */
  function Credentials(p: ParamValues, user: User): string
  {
    p.Get(Username) + ":" + p.Get(Realm) + ":" + user.password
  }

  /**
   * A1: the raw 16-byte hash of the credentials, then the nonce and the
   * cnonce, then the authorization id when there is one, all colon-separated.
   */
  function A1(md5: Hash, p: ParamValues, user: User): string
  {
    var y: string := md5(Credentials(p, user));
    var a1 := y + ":" + p.Get(Nonce) + ":" + p.Get(CNonce);
    if |p.Get(AuthID)| > 0 then a1 + ":" + p.Get(AuthID) else a1
  }

  /** The method name that starts A2: the client signs `AUTHENTICATE`, the server's reply nothing. */
  function A2Method(asClient: bool): string
  {
    if asClient then "AUTHENTICATE" else ""
  }

  /** A2: the method name and the digest URI, colon-separated. */
  function A2(p: ParamValues, asClient: bool): string
  {
    A2Method(asClient) + ":" + p.Get(DigestURI)
  }

  /** The text of the final hash: HA1, nonce, nc, cnonce, qop and HA2, colon-separated. */
  function KD(ha1: string, p: ParamValues, ha2: string): string
  {
    ha1 + ":" + p.Get(Nonce) + ":" + p.Get(NC) + ":" + p.Get(CNonce) + ":" + p.Get(Qop) + ":" + ha2
  }

  /** HA1: the hex-encoded hash of A1. */
  function HA1(md5: Hash, p: ParamValues, user: User): string
  {
    Hex(md5(A1(md5, p, user)))
  }

  /** HA2: the hex-encoded hash of A2. */
  function HA2(md5: Hash, p: ParamValues, asClient: bool): string
  {
    Hex(md5(A2(p, asClient)))
  }

  /**
   * `computeResponse`: the response value a client sends (`asClient`) or the
   * `rspauth` value the server answers with. Either is 32 lower-case hex digits.
   */
  function ComputeResponse(md5: Hash, p: ParamValues, user: User, asClient: bool): (r: string)
    ensures |r| == 32
    ensures forall k :: 0 <= k < |r| ==> IsHexDigit(r[k])
  {
    Hex(md5(KD(HA1(md5, p, user), p, HA2(md5, p, asClient))))
  }

  /** The response reads the parameters only through their fields. */
  lemma ResponseReadsFields(md5: Hash, p: ParamValues, q: ParamValues, user: User, asClient: bool)
    requires forall f :: p.Get(f) == q.Get(f)
    ensures ComputeResponse(md5, p, user, asClient) == ComputeResponse(md5, q, user, asClient)
  {
    assert Credentials(p, user) == Credentials(q, user);
    assert A1(md5, p, user) == A1(md5, q, user);
    assert A2(p, asClient) == A2(q, asClient);
    assert KD(HA1(md5, p, user), p, HA2(md5, p, asClient)) == KD(HA1(md5, q, user), q, HA2(md5, q, asClient));
  }

  /** The first hash input is RFC 2831's `{ username-value, ":", realm-value, ":", passwd }`. */
  lemma CredentialsAreColonJoined(p: ParamValues, user: User)
    ensures Credentials(p, user) == Join([p.Get(Username), p.Get(Realm), user.password], ':')
  {
    var u, r, w := p.Get(Username), p.Get(Realm), user.password;
    JoinSnoc([u], r, ':');
    JoinSnoc([u, r], w, ':');
  }

  /** A2 is `{ "AUTHENTICATE" or "", ":", digest-uri-value }`. */
  lemma A2IsColonJoined(p: ParamValues, asClient: bool)
    ensures A2(p, asClient) == Join([A2Method(asClient), p.Get(DigestURI)], ':')
  {
    JoinSnoc([A2Method(asClient)], p.Get(DigestURI), ':');
  }

  /** The final input is `{ HEX(H(A1)), ":", nonce, ":", nc, ":", cnonce, ":", qop, ":", HEX(H(A2)) }`. */
  lemma KDIsColonJoined(ha1: string, p: ParamValues, ha2: string)
    ensures KD(ha1, p, ha2) == Join([ha1, p.Get(Nonce), p.Get(NC), p.Get(CNonce), p.Get(Qop), ha2], ':')
  {
    var n, c, cn, q := p.Get(Nonce), p.Get(NC), p.Get(CNonce), p.Get(Qop);
    JoinSnoc([ha1], n, ':');
    JoinSnoc([ha1, n], c, ':');
    JoinSnoc([ha1, n, c], cn, ':');
    JoinSnoc([ha1, n, c, cn], q, ':');
    JoinSnoc([ha1, n, c, cn, q], ha2, ':');
    assert [ha1] + [n] == [ha1, n] && [ha1, n] + [c] == [ha1, n, c];
    assert [ha1, n, c] + [cn] == [ha1, n, c, cn] && [ha1, n, c, cn] + [q] == [ha1, n, c, cn, q];
    assert [ha1, n, c, cn, q] + [ha2] == [ha1, n, c, cn, q, ha2];
  }

  /**
   * The first hash input is unambiguous: when username and realm hold no
   * colon, it fixes the username, the realm and the password.
   */
  lemma CredentialsUnambiguous(p: ParamValues, u: User, q: ParamValues, v: User)
    requires ':' !in p.Get(Username) && ':' !in p.Get(Realm)
    requires ':' !in q.Get(Username) && ':' !in q.Get(Realm)
    requires Credentials(p, u) == Credentials(q, v)
    ensures p.Get(Username) == q.Get(Username) && p.Get(Realm) == q.Get(Realm)
    ensures u.password == v.password
  {
    var xs := [p.Get(Username), p.Get(Realm), u.password];
    var ys := [q.Get(Username), q.Get(Realm), v.password];
    CredentialsAreColonJoined(p, u);
    CredentialsAreColonJoined(q, v);
    JoinUnambiguous(xs, ys, ':');
    assert xs[0] == ys[0] && xs[1] == ys[1] && xs[2] == ys[2];
  }

  /** A2 is unambiguous: it fixes who signs and the digest URI. */
  lemma A2Unambiguous(p: ParamValues, a: bool, q: ParamValues, b: bool)
    requires A2(p, a) == A2(q, b)
    ensures a == b && p.Get(DigestURI) == q.Get(DigestURI)
  {
    assert ':' !in A2Method(a) && ':' !in A2Method(b);
    HeadUnambiguous(A2Method(a), p.Get(DigestURI), A2Method(b), q.Get(DigestURI), ':');
    assert |A2Method(a)| == |A2Method(b)|;
  }

  /**
   * The final hash input is unambiguous: when HA1 and the four parameters in
   * it hold no colon, it fixes HA1, nonce, nc, cnonce, qop and HA2.
   */
  lemma KDUnambiguous(h1: string, p: ParamValues, h2: string, g1: string, q: ParamValues, g2: string)
    requires ':' !in h1 && ':' !in g1
    requires ':' !in p.Get(Nonce) && ':' !in p.Get(NC) && ':' !in p.Get(CNonce) && ':' !in p.Get(Qop)
    requires ':' !in q.Get(Nonce) && ':' !in q.Get(NC) && ':' !in q.Get(CNonce) && ':' !in q.Get(Qop)
    requires KD(h1, p, h2) == KD(g1, q, g2)
    ensures h1 == g1 && h2 == g2
    ensures p.Get(Nonce) == q.Get(Nonce) && p.Get(NC) == q.Get(NC)
    ensures p.Get(CNonce) == q.Get(CNonce) && p.Get(Qop) == q.Get(Qop)
  {
    var xs := [h1, p.Get(Nonce), p.Get(NC), p.Get(CNonce), p.Get(Qop), h2];
    var ys := [g1, q.Get(Nonce), q.Get(NC), q.Get(CNonce), q.Get(Qop), g2];
    KDIsColonJoined(h1, p, h2);
    KDIsColonJoined(g1, q, g2);
    JoinUnambiguous(xs, ys, ':');
    assert xs[0] == ys[0] && xs[1] == ys[1] && xs[2] == ys[2];
    assert xs[3] == ys[3] && xs[4] == ys[4] && xs[5] == ys[5];
  }

  /** A hex string holds no colon. */
  lemma HexColonFree(bytes: seq<Byte>)
    ensures ':' !in Hex(bytes)
  {
  }

  /**
   * The text of the final hash commits to the hashes of A1 and A2: two such
   * texts (their parameters colon-free) are equal only if both raw hashes are.
   */
  lemma FinalInputFixesHashes(md5: Hash, p: ParamValues, u: User, c: bool, q: ParamValues, v: User, d: bool)
    requires ':' !in p.Get(Nonce) && ':' !in p.Get(NC) && ':' !in p.Get(CNonce) && ':' !in p.Get(Qop)
    requires ':' !in q.Get(Nonce) && ':' !in q.Get(NC) && ':' !in q.Get(CNonce) && ':' !in q.Get(Qop)
    requires KD(HA1(md5, p, u), p, HA2(md5, p, c)) == KD(HA1(md5, q, v), q, HA2(md5, q, d))
    ensures md5(A1(md5, p, u)) == md5(A1(md5, q, v))
    ensures md5(A2(p, c)) == md5(A2(q, d))
  {
    HexColonFree(md5(A1(md5, p, u)));
    HexColonFree(md5(A1(md5, q, v)));
    KDUnambiguous(HA1(md5, p, u), p, HA2(md5, p, c), HA1(md5, q, v), q, HA2(md5, q, d));
    HexInjective(md5(A1(md5, p, u)), md5(A1(md5, q, v)));
    HexInjective(md5(A2(p, c)), md5(A2(q, d)));
  }

  /** The client's A2 is the server's with `AUTHENTICATE` in front, so the two always differ. */
  lemma ClientA2ExtendsServerA2(p: ParamValues)
    ensures A2(p, true) == "AUTHENTICATE" + A2(p, false)
    ensures A2(p, true) != A2(p, false)
  {
    assert |A2(p, true)| == |A2(p, false)| + 12;
  }

  /** The client and server values differ only through A2: with equal A2 hashes they coincide. */
  lemma ResponseDependsOnA2Only(md5: Hash, p: ParamValues, user: User)
    requires md5(A2(p, true)) == md5(A2(p, false))
    ensures ComputeResponse(md5, p, user, true) == ComputeResponse(md5, p, user, false)
  {
  }

  /**
   * Wherever MD5 tells the two A2 texts apart, the texts of the client's and
   * the server's final hashes differ too.
   */
  lemma ClientServerFinalInputsDiffer(md5: Hash, p: ParamValues, user: User)
    requires md5(A2(p, true)) != md5(A2(p, false))
    ensures KD(HA1(md5, p, user), p, HA2(md5, p, true)) != KD(HA1(md5, p, user), p, HA2(md5, p, false))
  {
    var ha1 := HA1(md5, p, user);
    var c, s := HA2(md5, p, true), HA2(md5, p, false);
    var front := ha1 + ":" + p.Get(Nonce) + ":" + p.Get(NC) + ":" + p.Get(CNonce) + ":" + p.Get(Qop) + ":";
    assert KD(ha1, p, c) == front + c && KD(ha1, p, s) == front + s;
    if KD(ha1, p, c) == KD(ha1, p, s) {
      assert c == (front + c)[|front|..] == (front + s)[|front|..] == s;
      HexInjective(md5(A2(p, true)), md5(A2(p, false)));
      assert false;
    }
  }
}
