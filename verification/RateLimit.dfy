/** oauth2-ratelimit/src/lib.rs: what both rate-limiter backends are configured with and answer. */
module RateLimit {
  import opened Machine

  datatype Config = Config(maxRequests: u32, windowSecs: nat)

  datatype RateLimitResult = RateLimitResult(
    allowed: bool, remaining: u32, limit: u32, resetAt: real, retryAfter: Option<real>)
}
