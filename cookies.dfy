/** The cookie store: the saved cookies, the expiry rule that decides which
    are still usable, and the per-domain buckets they are applied in. */
module Cookies {
  import opened Wrappers
  import opened Text
  import opened Seqs

  /** One saved cookie. `domain` and `expires` may be missing from the saved
      record; `expires` is in epoch seconds. Other attributes are passed to the
      browser untouched and play no part here. */
  datatype Cookie = Cookie(
    name: string,
    value: string,
    domain: Option<string>,
    path: Option<string>,
    expires: Option<real>)

  /** The contents of the cookie file: absent, impossible to read or parse
      (with the error's message), or a parsed array of cookies. */
  datatype CookieFile = Missing | Unreadable(message: string) | Loaded(cookies: seq<Cookie>)

  /** `!c.expires || c.expires > now`: a missing or zero expiry never expires;
      otherwise the cookie must expire strictly after `now`. */
  predicate IsValid(c: Cookie, now: real) {
    c.expires.None? || c.expires.value == 0.0 || c.expires.value > now
  }

  /** `cookies.filter(c => !c.expires || c.expires > now)`. */
  function ValidCookies(cookies: seq<Cookie>, now: real): seq<Cookie> {
    Filter(cookies, c => IsValid(c, now))
  }

  /** `c.domain || ''`. */
  function DomainOf(c: Cookie): string {
    c.domain.GetOr("")
  }

  /** `forDomain(d)`: the cookies whose domain contains `d` as a substring. */
  function ForDomain(valid: seq<Cookie>, d: string): seq<Cookie> {
    Filter(valid, c => Contains(DomainOf(c), d))
  }

  const GoogleDomain := "google.com"
  const LookerDomain := "lookerstudio.google.com"

  /** The valid list keeps exactly the cookies that pass the expiry rule, each
      as many times as the saved list holds it, in their original order; its
      length is the number of saved entries that pass, never more than the
      saved list's length. */
  lemma ValidCookiesSpec(cookies: seq<Cookie>, now: real)
    ensures forall c :: c in ValidCookies(cookies, now) <==> c in cookies && IsValid(c, now)
    ensures forall c :: multiset(ValidCookies(cookies, now))[c] == if IsValid(c, now) then multiset(cookies)[c] else 0
    ensures IsSubsequence(ValidCookies(cookies, now), cookies)
    ensures |ValidCookies(cookies, now)| == CountWhere(cookies, c => IsValid(c, now)) <= |cookies|
  {
    forall c ensures c in ValidCookies(cookies, now) <==> c in cookies && IsValid(c, now) {
      FilterMembers(cookies, c => IsValid(c, now), c);
    }
    forall c ensures multiset(ValidCookies(cookies, now))[c] == if IsValid(c, now) then multiset(cookies)[c] else 0 {
      FilterMultiplicity(cookies, c => IsValid(c, now), c);
    }
    FilterLength(cookies, c => IsValid(c, now));
    FilterIsSubsequence(cookies, c => IsValid(c, now));
    SubsequenceLength(ValidCookies(cookies, now), cookies);
  }

  /** No cookie is valid exactly when every saved cookie has a non-zero expiry
      at or before `now`. */
  lemma NoValidCookies(cookies: seq<Cookie>, now: real)
    ensures |ValidCookies(cookies, now)| == 0 <==>
            forall c :: c in cookies ==> c.expires.Some? && c.expires.value != 0.0 && c.expires.value <= now
  {
    FilterEmpty(cookies, c => IsValid(c, now));
  }

  /** Cookies only ever expire: what is valid later was valid earlier, in the
      same order. */
  lemma ValidCookiesShrinkOverTime(cookies: seq<Cookie>, earlier: real, later: real)
    requires earlier <= later
    ensures IsSubsequence(ValidCookies(cookies, later), ValidCookies(cookies, earlier))
  {
    FilterMonotone(cookies, c => IsValid(c, later), c => IsValid(c, earlier));
  }

  /** A cookie marked as lasting for the browser session with a negative
      expiry (as browsers report such cookies) is treated as expired. */
  lemma NegativeExpiryIsExpired(c: Cookie, now: real)
    requires c.expires.Some? && c.expires.value < 0.0 && now >= 0.0
    ensures !IsValid(c, now)
  {
  }

  /** A cookie is in a bucket iff it is valid and its domain contains `d`. */
  lemma ForDomainMembers(valid: seq<Cookie>, d: string)
    ensures forall c :: c in ForDomain(valid, d) <==> c in valid && Contains(DomainOf(c), d)
  {
    forall c ensures c in ForDomain(valid, d) <==> c in valid && Contains(DomainOf(c), d) {
      FilterMembers(valid, c => Contains(DomainOf(c), d), c);
    }
  }

  /** A bucket holds exactly the valid cookies whose domain (missing read as
      "") contains `d`, each as many times as the valid list holds it, in their
      original order. */
  lemma ForDomainSpec(valid: seq<Cookie>, d: string)
    ensures forall c :: c in ForDomain(valid, d) <==> c in valid && Contains(DomainOf(c), d)
    ensures forall c :: multiset(ForDomain(valid, d))[c] == if Contains(DomainOf(c), d) then multiset(valid)[c] else 0
    ensures IsSubsequence(ForDomain(valid, d), valid)
  {
    ForDomainMembers(valid, d);
    forall c ensures multiset(ForDomain(valid, d))[c] == if Contains(DomainOf(c), d) then multiset(valid)[c] else 0 {
      FilterMultiplicity(valid, c => Contains(DomainOf(c), d), c);
    }
    FilterIsSubsequence(valid, c => Contains(DomainOf(c), d));
  }

  /** A cookie with no domain is in no bucket of a non-empty domain. */
  lemma NoDomainNoBucket(valid: seq<Cookie>, c: Cookie, d: string)
    requires c.domain.None? && |d| > 0
    ensures c !in ForDomain(valid, d)
  {
    FilterMembers(valid, c => Contains(DomainOf(c), d), c);
  }

  /** Substring matching over-approximates: every cookie of the Looker Studio
      bucket is also in the google.com bucket (and so is set twice), and the
      Looker Studio bucket keeps the google.com bucket's order. */
  lemma LookerBucketWithinGoogle(valid: seq<Cookie>)
    ensures IsSubsequence(ForDomain(valid, LookerDomain), ForDomain(valid, GoogleDomain))
    ensures forall c :: c in ForDomain(valid, LookerDomain) ==> c in ForDomain(valid, GoogleDomain)
  {
    assert OccursAt(LookerDomain, GoogleDomain, 13);
    ContainsFromOccurrence(LookerDomain, GoogleDomain, 13);
    forall c | c in valid && Contains(DomainOf(c), LookerDomain)
      ensures Contains(DomainOf(c), GoogleDomain)
    {
      ContainsTransitive(DomainOf(c), LookerDomain, GoogleDomain);
    }
    FilterMonotone(valid, c => Contains(DomainOf(c), LookerDomain), c => Contains(DomainOf(c), GoogleDomain));
    forall c | c in ForDomain(valid, LookerDomain) ensures c in ForDomain(valid, GoogleDomain) {
      SubsequenceMembers(ForDomain(valid, LookerDomain), ForDomain(valid, GoogleDomain), c);
    }
  }
}
