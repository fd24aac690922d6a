/** The revocation blacklist of `backend/utils/tokenBlacklist.js`: a map
    from token to an expiry instant in milliseconds, with a lookup that
    evicts a stale entry on the way and a sweep that evicts them all.
    `Date.now()` is the parameter `now`; decoding the token's payload
    (split at `.`, base64, JSON) is not modelled and arrives as its
    outcome `payloadExp`, the payload's `exp` claim or `None` when any of
    those steps fails or the claim is absent. */
module TokenBlacklist {
  import opened Wrappers

  /** The fallback retention `7 * 24 * 60 * 60 * 1000`. */
  const DefaultRetention: int := 604800000

  /** `expSeconds || 604800000`: the caller's value unless absent or zero.
      It is added to a millisecond clock as it is, without scaling. */
  function Retention(expSeconds: Option<int>): (r: int)
    ensures r != 0
    ensures expSeconds.Some? && expSeconds.value != 0 ==> r == expSeconds.value
    ensures expSeconds.None? || expSeconds.value == 0 ==> r == DefaultRetention
  {
    if expSeconds.Some? && expSeconds.value != 0 then expSeconds.value else DefaultRetention
  }

  /** The expiry stored for a token: its own `exp` claim (seconds) scaled
      to milliseconds when the claim is present and non-zero, otherwise the
      fallback retention from now. */
  function ExpiryFor(payloadExp: Option<int>, expSeconds: Option<int>, now: int): (e: int)
    ensures payloadExp.Some? && payloadExp.value != 0 ==> e == payloadExp.value * 1000 && e != 0
    ensures payloadExp.None? || payloadExp.value == 0 ==> e == now + Retention(expSeconds)
  {
    if payloadExp.Some? && payloadExp.value != 0 then payloadExp.value * 1000
    else now + Retention(expSeconds)
  }

  /** What `isTokenBlacklisted` answers: an entry exists, is truthy (a
      stored 0 reads as no entry under `!exp`) and has not passed. */
  predicate Blacklisted(m: map<string, int>, token: string, now: int)
    ensures token !in m || m[token] == 0 ==> !Blacklisted(m, token, now)
  {
    token in m && m[token] != 0 && now <= m[token]
  }

  /** Whether the lookup evicts the token's entry. */
  predicate Stale(m: map<string, int>, token: string, now: int)
    ensures token !in m || m[token] == 0 ==> !Stale(m, token, now)
  {
    token in m && m[token] != 0 && now > m[token]
  }

  /** Every lookup ends exactly one of three ways: no truthy entry, a live
      entry, or a stale one that is evicted; a live entry was live at
      every earlier instant, and a stale one stays stale. */
  lemma LookupCases(m: map<string, int>, token: string, earlier: int, now: int)
    requires earlier <= now
    ensures (token !in m || m[token] == 0) || Blacklisted(m, token, now) || Stale(m, token, now)
    ensures !(Blacklisted(m, token, now) && Stale(m, token, now))
    ensures Blacklisted(m, token, now) ==> Blacklisted(m, token, earlier)
    ensures Stale(m, token, earlier) ==> Stale(m, token, now)
  {
  }

  /** The map after `isTokenBlacklisted(token)` at `now`. */
  function AfterLookup(m: map<string, int>, token: string, now: int): (r: map<string, int>)
    ensures Stale(m, token, now) ==> r.Keys == m.Keys - {token}
    ensures !Stale(m, token, now) ==> r == m
    ensures forall t :: t in r ==> t in m && r[t] == m[t]
  {
    if Stale(m, token, now) then m - {token} else m
  }

  /** The map after `cleanupExpiredTokens()` at `now`: exactly the entries
      whose expiry has not passed, with their expiries. */
  function Swept(m: map<string, int>, now: int): (r: map<string, int>)
    ensures forall t :: t in r <==> t in m && now <= m[t]
    ensures forall t :: t in r ==> r[t] == m[t] && r[t] >= now
  {
    map t | t in m && now <= m[t] :: m[t]
  }

  /** Right after an add, the token is blacklisted exactly while the stored
      expiry has not passed (and is not the falsy 0). */
  lemma AddThenLookup(m: map<string, int>, token: string, e: int, now: int)
    ensures Blacklisted(m[token := e], token, now) <==> e != 0 && now <= e
    ensures e != 0 && now <= e ==> AfterLookup(m[token := e], token, now) == m[token := e]
  {
  }

  /** A token revoked without a usable `exp` claim, with the default
      retention or a positive one, is blacklisted at once and for at least
      that retention. */
  lemma FallbackEntryIsLive(m: map<string, int>, token: string, payloadExp: Option<int>,
                            expSeconds: Option<int>, now: int, later: int)
    requires payloadExp.None? || payloadExp.value == 0
    requires expSeconds.None? || expSeconds.value >= 0
    requires now >= 0 && now <= later <= now + Retention(expSeconds)
    ensures Blacklisted(m[token := ExpiryFor(payloadExp, expSeconds, now)], token, later)
  {
  }

  /** A token whose own `exp` has already passed is stored but never
      reported as blacklisted; the first lookup evicts it. */
  lemma ExpiredClaimIsNotBlacklisted(m: map<string, int>, token: string, exp: int, now: int)
    requires exp != 0 && exp * 1000 < now
    ensures !Blacklisted(m[token := ExpiryFor(Some(exp), None, now)], token, now)
    ensures AfterLookup(m[token := ExpiryFor(Some(exp), None, now)], token, now) == m - {token}
  {
    var m' := m[token := ExpiryFor(Some(exp), None, now)];
    assert m'.Keys - {token} == (m - {token}).Keys;
  }

  /** A sweep never changes what a lookup at the same instant answers. */
  lemma SweepKeepsAnswers(m: map<string, int>, token: string, now: int)
    ensures Blacklisted(Swept(m, now), token, now) == Blacklisted(m, token, now)
  {
  }

  /** Lazy eviction and the sweep agree: a lookup before a sweep leaves
      the same table as the sweep alone. */
  lemma LookupThenSweep(m: map<string, int>, token: string, now: int)
    ensures Swept(AfterLookup(m, token, now), now) == Swept(m, now)
  {
    var a, b := Swept(AfterLookup(m, token, now), now), Swept(m, now);
    assert forall t :: t in a <==> t in b;
    assert a.Keys == b.Keys;
  }

  /** Sweeping twice is sweeping once at the later instant. */
  lemma SweepTwice(m: map<string, int>, earlier: int, later: int)
    requires earlier <= later
    ensures Swept(Swept(m, earlier), later) == Swept(m, later)
  {
    var a, b := Swept(Swept(m, earlier), later), Swept(m, later);
    assert a.Keys == b.Keys;
  }

  class Blacklist {
    /** token -> expiry instant in milliseconds. */
    var entries: map<string, int>

    constructor ()
      ensures entries == map[]
    {
      entries := map[];
    }

    /** `addTokenToBlacklist(token, expSeconds)`: sets (overwriting) the
        token's expiry; no other entry changes. */
    method AddTokenToBlacklist(token: string, payloadExp: Option<int>, expSeconds: Option<int>, now: int)
      modifies this
      ensures entries == old(entries)[token := ExpiryFor(payloadExp, expSeconds, now)]
      ensures payloadExp.Some? && payloadExp.value != 0 ==> entries[token] == payloadExp.value * 1000
      ensures payloadExp.None? || payloadExp.value == 0 ==> entries[token] == now + Retention(expSeconds)
    {
      var exp: int;
      if payloadExp.Some? && payloadExp.value != 0 {
        exp := payloadExp.value * 1000;
      } else {
        exp := now + Retention(expSeconds);
      }
      entries := entries[token := exp];
    }

    /** `isTokenBlacklisted(token)` at `now`: false and no change without a
        (truthy) entry; false and that one entry removed once `now` has
        passed the expiry; true and no change otherwise, so a token is
        still blacklisted at the instant of its expiry. */
    method IsTokenBlacklisted(token: string, now: int) returns (b: bool)
      modifies this
      ensures b == Blacklisted(old(entries), token, now)
      ensures entries == AfterLookup(old(entries), token, now)
      ensures token !in old(entries) ==> !b && entries == old(entries)
      ensures Stale(old(entries), token, now) ==> !b && entries == old(entries) - {token}
      ensures b ==> entries == old(entries)
    {
      if token !in entries || entries[token] == 0 {
        return false;
      }
      var exp := entries[token];
      if now > exp {
        entries := entries - {token};
        return false;
      }
      return true;
    }

    /** `cleanupExpiredTokens()` at `now`: walks the entries and deletes
        each one whose expiry has passed. */
    method CleanupExpiredTokens(now: int)
      modifies this
      ensures entries == Swept(old(entries), now)
    {
      var pending := entries.Keys;
      while pending != {}
        invariant pending <= old(entries).Keys
        invariant forall t :: t in entries <==> t in old(entries) && (t in pending || now <= old(entries)[t])
        invariant forall t :: t in entries ==> entries[t] == old(entries)[t]
        decreases pending
      {
        var t :| t in pending;
        if now > entries[t] {
          entries := entries - {t};
        }
        pending := pending - {t};
      }
      assert entries.Keys == Swept(old(entries), now).Keys;
    }
  }
}
