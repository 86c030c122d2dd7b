// When a token counts as fresh, and what to do once Drive has rejected one.
// Times are seconds in 64-bit signed integers.
module TokenPolicy {
  import opened Options

  const INT64_MAX: int := 0x7FFF_FFFF_FFFF_FFFF
  const REFRESH_SLACK_SECONDS: int := 60
  const UNKNOWN_EXPIRY: int := INT64_MAX

  datatype CachedTokenState = CachedTokenState(accessToken: string, expiresAt: int, mintedAt: int)

  // a + b in unbounded integers, cut off at the largest 64-bit one.
  function SaturatingAdd(a: int, b: int): (r: int)
    requires a <= INT64_MAX && 0 <= b <= INT64_MAX
    ensures r <= a + b && r <= INT64_MAX && (r == a + b || r == INT64_MAX)
  {
    if a > INT64_MAX - b then INT64_MAX else a + b
  }

  predicate TokenIsFresh(token: CachedTokenState, now: int, maxAge: int)
    requires now <= INT64_MAX && token.mintedAt <= INT64_MAX && maxAge <= INT64_MAX
  {
    var horizon := SaturatingAdd(now, REFRESH_SLACK_SECONDS);
    token.expiresAt > horizon && (maxAge <= 0 || SaturatingAdd(token.mintedAt, maxAge) > horizon)
  }

  // A negative setting is rejected; one within the slack is raised above it.
  function NormalizeMaxAgeSeconds(requested: int): (effective: Option<int>)
    ensures effective.None? <==> requested < 0
    ensures effective.Some? ==>
      effective.value >= requested && (effective.value == 0 || effective.value > REFRESH_SLACK_SECONDS)
    ensures effective.Some? && (requested == 0 || requested > REFRESH_SLACK_SECONDS) ==> effective.value == requested
  {
    if requested < 0 then None
    else if requested > 0 && requested <= REFRESH_SLACK_SECONDS then Some(REFRESH_SLACK_SECONDS + 1)
    else Some(requested)
  }

  // A token minted now is fresh now under a cap of that form and under no
  // other positive cap, which is why smaller caps are raised.
  lemma FreshWhenMinted(token: CachedTokenState, now: int, maxAge: int)
    requires token.mintedAt == now && now + REFRESH_SLACK_SECONDS < token.expiresAt <= INT64_MAX && maxAge <= INT64_MAX
    ensures TokenIsFresh(token, now, maxAge) <==> maxAge <= 0 || maxAge > REFRESH_SLACK_SECONDS
  {
  }

  // Fresh means good for all of the next sixty seconds: neither over its expiry
  // nor over its age at any moment of them.
  lemma FreshIsGoodForSlack(token: CachedTokenState, now: int, maxAge: int)
    requires now <= INT64_MAX && token.mintedAt <= INT64_MAX && maxAge <= INT64_MAX
    ensures TokenIsFresh(token, now, maxAge) <==>
      forall t :: now <= t <= now + REFRESH_SLACK_SECONDS && t <= INT64_MAX ==> IsGoodAt(token, t, maxAge)
  {
    var horizon := SaturatingAdd(now, REFRESH_SLACK_SECONDS);
    assert IsGoodAt(token, horizon, maxAge) <==> TokenIsFresh(token, now, maxAge);
  }

  predicate IsGoodAt(token: CachedTokenState, t: int, maxAge: int) {
    t < token.expiresAt && (maxAge <= 0 || (t < token.mintedAt + maxAge && t < INT64_MAX))
  }

  // What went stale stays stale.
  lemma StaleStays(token: CachedTokenState, now: int, later: int, maxAge: int)
    requires now <= later <= INT64_MAX && token.mintedAt <= INT64_MAX && maxAge <= INT64_MAX
    ensures TokenIsFresh(token, later, maxAge) ==> TokenIsFresh(token, now, maxAge)
  {
  }

  datatype RejectionAction = REUSE_CACHED | MINT | GIVE_UP

  function DecideAfterRejection(cached: Option<CachedTokenState>, rejected: string, now: int, maxAge: int,
                                canMint: bool)
    : (action: RejectionAction)
    requires now <= INT64_MAX && maxAge <= INT64_MAX && (cached.Some? ==> cached.value.mintedAt <= INT64_MAX)
  {
    if cached.Some? && cached.value.accessToken != rejected && TokenIsFresh(cached.value, now, maxAge) then REUSE_CACHED
    else if canMint then MINT
    else GIVE_UP
  }
}
