/** `createRefreshToken` (refreshToken.ts): three random UUIDs glued together
    with their dashes removed, valid for 24 hours. The UUIDs and the clock
    are parameters. */
module RefreshTokenCrypto {
  import opened JsText

  /** 24 hours in milliseconds. */
  const REFRESH_TOKEN_TTL_MS: int := 86_400_000

  predicate IsLowerHex(c: char) {
    '0' <= c <= '9' || 'a' <= c <= 'f'
  }

  predicate IsDashPosition(i: int) {
    i == 8 || i == 13 || i == 18 || i == 23
  }

  /** What `crypto.randomUUID()` returns: 36 characters, lower-case hex in
      groups of 8-4-4-4-12 separated by dashes. */
  predicate IsUuid(u: string) {
    |u| == 36 && forall i | 0 <= i < 36 :: if IsDashPosition(i) then u[i] == '-' else IsLowerHex(u[i])
  }

  datatype IssuedRefreshToken = IssuedRefreshToken(token: string, expiredAfter: int)

  /** The token is `${uuid1}${uuid2}${uuid3}`.split('-').join(''), the
      expiry is `Date.now() + 86400_000`. */
  function CreateRefreshToken(uuid1: string, uuid2: string, uuid3: string, now: int): (r: IssuedRefreshToken)
    ensures r.token == RemoveAll(uuid1, '-') + RemoveAll(uuid2, '-') + RemoveAll(uuid3, '-')
    ensures '-' !in r.token
    ensures r.expiredAfter - now == 24 * 60 * 60 * 1000
    ensures IsUuid(uuid1) && IsUuid(uuid2) && IsUuid(uuid3) ==>
              |r.token| == 96 && forall i | 0 <= i < |r.token| :: IsLowerHex(r.token[i])
  {
    ConcatSplit(uuid1 + uuid2 + uuid3, '-');
    RemoveAllAppend(uuid1 + uuid2, uuid3, '-');
    RemoveAllAppend(uuid1, uuid2, '-');
    UuidsWithoutDashes(uuid1, uuid2, uuid3);
    IssuedRefreshToken(Concat(Split(uuid1 + uuid2 + uuid3, '-')), now + REFRESH_TOKEN_TTL_MS)
  }

  lemma UuidsWithoutDashes(u1: string, u2: string, u3: string)
    ensures IsUuid(u1) && IsUuid(u2) && IsUuid(u3) ==>
              var t := RemoveAll(u1, '-') + RemoveAll(u2, '-') + RemoveAll(u3, '-');
              |t| == 96 && forall i | 0 <= i < |t| :: IsLowerHex(t[i])
  {
    if IsUuid(u1) && IsUuid(u2) && IsUuid(u3) {
      UuidWithoutDashes(u1);
      UuidWithoutDashes(u2);
      UuidWithoutDashes(u3);
    }
  }

  /** A UUID without its dashes is 32 hex digits. */
  lemma {:induction false} UuidWithoutDashes(u: string)
    requires IsUuid(u)
    ensures |RemoveAll(u, '-')| == 32
    ensures forall i | 0 <= i < |RemoveAll(u, '-')| :: IsLowerHex(RemoveAll(u, '-')[i])
  {
    var r1, r2, r3, r4 := u[9..], u[14..], u[19..], u[24..];
    assert u == u[..8] + "-" + r1;
    assert r1 == r1[..4] + "-" + r2;
    assert r2 == r2[..4] + "-" + r3;
    assert r3 == r3[..4] + "-" + r4;
    assert '-' !in r4;
    RemoveAllAbsent(r4, '-');
    RemovePiece(r3[..4], r4, '-');
    RemovePiece(r2[..4], r3, '-');
    RemovePiece(r1[..4], r2, '-');
    RemovePiece(u[..8], r1, '-');
    RemoveAllKeeps(u, '-');
    var r := RemoveAll(u, '-');
    forall i | 0 <= i < |r| ensures IsLowerHex(r[i]) {
      assert r[i] in u;
      var k :| 0 <= k < |u| && u[k] == r[i];
      assert r[i] != '-';
    }
  }
}
