/** src/shared/redis_keys.py: the two key namespaces in the cache. */
module RedisKeys {
  import opened Text

  function RefreshTokenKey(tokenHash: string): string {
    "refresh_token:" + tokenHash
  }

  function UserRevokedKey(userId: int): string {
    "user_revoked:" + IntText(userId)
  }

  /** The namespaces never meet, and each builder is injective. */
  lemma KeysNeverCollide(h1: string, h2: string, u1: int, u2: int)
    ensures RefreshTokenKey(h1) != UserRevokedKey(u1)
    ensures RefreshTokenKey(h1) == RefreshTokenKey(h2) ==> h1 == h2
    ensures UserRevokedKey(u1) == UserRevokedKey(u2) ==> u1 == u2
  {
    assert RefreshTokenKey(h1)[0] != UserRevokedKey(u1)[0];
    assert RefreshTokenKey(h1)[14..] == h1 && RefreshTokenKey(h2)[14..] == h2;
    assert UserRevokedKey(u1)[13..] == IntText(u1) && UserRevokedKey(u2)[13..] == IntText(u2);
    if UserRevokedKey(u1) == UserRevokedKey(u2) {
      IntTextInjective(u1, u2);
    }
  }
}
