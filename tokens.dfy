/** Token issuance of backend/src/controllers/auth.controller.js (generateTokens). */
module Tokens {
  import opened Prelude
  import opened Primitives

  /** The object handed to generateTokens; only its `_id` and `role` are read. */
  datatype Subject = Subject(docId: Option<Id>, role: Option<string>)

  datatype TokenPair = TokenPair(accessToken: string, refreshToken: string)

  /** The access token carries {id, role} signed with the access secret for 15 minutes; the
      refresh token carries {id} only, signed with the refresh secret for 7 days. Both are
      issued at `now`, which jsonwebtoken truncates to whole seconds, so the same subject
      signed twice within one second gets the same pair; there is no jti and no version
      claim. */
  function GenerateTokens(p: Primitives, cfg: JwtConfig, s: Subject, now: int): TokenPair
  {
    TokenPair(
      p.jwtSign(Claims(s.docId, s.role), cfg.secret, now / 1000, AccessTtl / 1000),
      p.jwtSign(Claims(s.docId, None), cfg.refreshSecret, now / 1000, RefreshTtl / 1000))
  }

  /** What a holder of the pair can do with it while the access token is live: the access
      token verifies under the access secret to {id, role}; the refresh token verifies under
      the refresh secret to {id} with no role; and when the two secrets differ, neither token
      verifies under the other one's secret. */
  lemma GeneratedTokensVerify(p: Primitives, cfg: JwtConfig, s: Subject, issuedAt: int, now: int)
    requires JwtSound(p)
    requires TokenLive(issuedAt, AccessTtl, now)
    ensures p.jwtVerify(GenerateTokens(p, cfg, s, issuedAt).accessToken, cfg.secret, now)
            == Verified(Claims(s.docId, s.role))
    ensures p.jwtVerify(GenerateTokens(p, cfg, s, issuedAt).refreshToken, cfg.refreshSecret, now)
            == Verified(Claims(s.docId, None))
    ensures cfg.secret != cfg.refreshSecret ==>
            p.jwtVerify(GenerateTokens(p, cfg, s, issuedAt).refreshToken, cfg.secret, now).Rejected?
    ensures cfg.secret != cfg.refreshSecret ==>
            p.jwtVerify(GenerateTokens(p, cfg, s, issuedAt).accessToken, cfg.refreshSecret, now).Rejected?
  {
  }
}
