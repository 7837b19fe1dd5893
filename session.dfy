/** `applyCookies(page)`: load the saved cookies, keep the valid ones, and
    apply the google.com bucket and then the Looker Studio bucket, each after
    navigating to a page of its domain. Every failure yields `false`. */
module SessionApplier {
  import opened Wrappers
  import opened Seqs
  import opened Text
  import opened Cookies
  import opened Automation

  const AccountsUrl := "https://accounts.google.com"
  const LookerUrl := "https://lookerstudio.google.com"

  /** The calls a run makes on the page, and what it returns. */
  datatype Attempt = Attempt(calls: seq<Call>, result: bool)

  /** One bucket: nothing when it is empty; otherwise navigate to `url`, then
      set the bucket's cookies. `result` is false when either call threw. */
  function BucketStep(url: string, bucket: seq<Cookie>, respond: Responder, history: seq<Call>): Attempt {
    if |bucket| == 0 then Attempt([], true)
    else
      var nav := Goto(url, DomContentLoaded, None);
      if respond(history, nav).Threw? then Attempt([nav], false)
      else
        var setCookies := SetCookie(bucket);
        Attempt([nav, setCookies], respond(history + [nav], setCookies).Returned?)
  }

  /** What `applyCookies` does on a page whose earlier calls were `history`.
      A missing or unreadable file and an error thrown by the page all end the
      run with `false`; nothing is thrown to the caller. */
  function ApplyCookiesSpec(file: CookieFile, now: real, respond: Responder, history: seq<Call>): Attempt {
    if !file.Loaded? then Attempt([], false)
    else
      var valid := ValidCookies(file.cookies, now);
      if |valid| == 0 then Attempt([], false)
      else
        var google := ForDomain(valid, GoogleDomain);
        var g := BucketStep(AccountsUrl, google, respond, history);
        if !g.result then Attempt(g.calls, false)
        else
          var looker := ForDomain(valid, LookerDomain);
          var l := BucketStep(LookerUrl, looker, respond, history + g.calls);
          Attempt(g.calls + l.calls, l.result && |google| + |looker| > 0)
  }

  /** The calls of an uninterrupted run: the google.com bucket's navigation
      and cookies, then the Looker Studio bucket's, each only if non-empty. */
  function Plan(valid: seq<Cookie>): seq<Call> {
    var google := ForDomain(valid, GoogleDomain);
    var looker := ForDomain(valid, LookerDomain);
    (if |google| > 0 then [Goto(AccountsUrl, DomContentLoaded, None), SetCookie(google)] else []) +
    (if |looker| > 0 then [Goto(LookerUrl, DomContentLoaded, None), SetCookie(looker)] else [])
  }

  /** Every call of the run returned rather than threw. */
  predicate AllReturned(calls: seq<Call>, respond: Responder, history: seq<Call>) {
    forall i :: 0 <= i < |calls| ==> respond(history + calls[..i], calls[i]).Returned?
  }

  /** The calls applyCookies may make: navigations that wait for
      DOMContentLoaded and cookie settings; never a close, a launch, an
      evaluation or a screenshot. */
  predicate OnlyCookieCalls(calls: seq<Call>) {
    forall i :: 0 <= i < |calls| ==>
      (calls[i].Goto? && calls[i].waitUntil == DomContentLoaded) || calls[i].SetCookie?
  }

  /** Without a loaded file holding a valid cookie, applyCookies returns false
      and touches nothing. */
  lemma NoValidCookiesNoCalls(file: CookieFile, now: real, respond: Responder, history: seq<Call>)
    requires !file.Loaded? || forall c :: c in file.cookies ==> !IsValid(c, now)
    ensures ApplyCookiesSpec(file, now, respond, history) == Attempt([], false)
  {
    if file.Loaded? {
      FilterEmpty(file.cookies, c => IsValid(c, now));
    }
  }

  lemma BucketStepShape(url: string, bucket: seq<Cookie>, respond: Responder, history: seq<Call>)
    ensures var s := BucketStep(url, bucket, respond, history);
      var full := if |bucket| > 0 then [Goto(url, DomContentLoaded, None), SetCookie(bucket)] else [];
      && s.calls <= full
      && (s.result <==> s.calls == full && AllReturned(s.calls, respond, history))
  {
    var s := BucketStep(url, bucket, respond, history);
    if |bucket| > 0 {
      var nav := Goto(url, DomContentLoaded, None);
      if respond(history, nav).Returned? {
        assert s.calls[..1] == [nav];
        assert history + s.calls[..0] == history;
      } else {
        assert history + s.calls[..0] == history;
      }
    }
  }

  /** A run of calls returned throughout exactly when both of its parts did. */
  lemma AllReturnedAppend(a: seq<Call>, c: seq<Call>, respond: Responder, history: seq<Call>)
    ensures AllReturned(a + c, respond, history) <==>
            AllReturned(a, respond, history) && AllReturned(c, respond, history + a)
  {
    forall i | 0 <= i < |a| ensures (a + c)[..i] == a[..i] && (a + c)[i] == a[i] {
    }
    forall i | 0 <= i < |c|
      ensures history + (a + c)[..|a| + i] == (history + a) + c[..i] && (a + c)[|a| + i] == c[i]
    {
      assert (a + c)[..|a| + i] == a + c[..i];
    }
    if AllReturned(a, respond, history) && AllReturned(c, respond, history + a) {
      forall i | 0 <= i < |a + c| ensures respond(history + (a + c)[..i], (a + c)[i]).Returned? {
        if i >= |a| {
          var k := i - |a|;
          assert history + (a + c)[..|a| + k] == (history + a) + c[..k];
        }
      }
    }
    if AllReturned(a + c, respond, history) {
      forall k | 0 <= k < |c| ensures respond((history + a) + c[..k], c[k]).Returned? {
        assert respond(history + (a + c)[..|a| + k], (a + c)[|a| + k]).Returned?;
      }
    }
  }

  /** The order of application: the calls made are always a prefix of the
      plan, so the google.com bucket is navigated to and set before the Looker
      Studio bucket; the run returns true exactly when the whole plan ran
      without any call throwing and the two buckets together are not empty. */
  lemma ApplyCookiesFollowsPlan(file: CookieFile, now: real, respond: Responder, history: seq<Call>)
    requires file.Loaded?
    ensures var valid := ValidCookies(file.cookies, now);
      var r := ApplyCookiesSpec(file, now, respond, history);
      && r.calls <= Plan(valid)
      && (r.result <==>
            && r.calls == Plan(valid)
            && AllReturned(r.calls, respond, history)
            && |ForDomain(valid, GoogleDomain)| + |ForDomain(valid, LookerDomain)| > 0)
  {
    var valid := ValidCookies(file.cookies, now);
    var r := ApplyCookiesSpec(file, now, respond, history);
    if |valid| > 0 {
      var google := ForDomain(valid, GoogleDomain);
      var looker := ForDomain(valid, LookerDomain);
      var gFull := if |google| > 0 then [Goto(AccountsUrl, DomContentLoaded, None), SetCookie(google)] else [];
      var lFull := if |looker| > 0 then [Goto(LookerUrl, DomContentLoaded, None), SetCookie(looker)] else [];
      assert Plan(valid) == gFull + lFull;
      var g := BucketStep(AccountsUrl, google, respond, history);
      BucketStepShape(AccountsUrl, google, respond, history);
      if g.result {
        var l := BucketStep(LookerUrl, looker, respond, history + g.calls);
        BucketStepShape(LookerUrl, looker, respond, history + g.calls);
        assert r.calls == g.calls + l.calls;
        AllReturnedAppend(g.calls, l.calls, respond, history);
        PrefixAppend(g.calls, l.calls, lFull);
      } else {
        assert r.calls == g.calls;
        PrefixExtend(g.calls, gFull, lFull);
        if r.calls == Plan(valid) && AllReturned(r.calls, respond, history) {
          AllReturnedAppend(gFull, lFull, respond, history);
        }
      }
    }
  }

  lemma PrefixAppend(a: seq<Call>, c: seq<Call>, d: seq<Call>)
    requires c <= d
    ensures a + c <= a + d
  {
    assert (a + d)[..|a + c|] == a + d[..|c|];
  }

  lemma PrefixExtend(a: seq<Call>, c: seq<Call>, d: seq<Call>)
    requires a <= c
    ensures a <= c + d && (a == c + d ==> |d| == 0 && a == c)
  {
    assert (c + d)[..|a|] == c[..|a|];
  }

  /** Under a page that never throws, applyCookies runs the whole plan and
      returns true exactly when some valid cookie belongs to google.com (the
      Looker Studio bucket being part of that bucket). */
  lemma ApplyCookiesWithoutErrors(file: CookieFile, now: real, respond: Responder, history: seq<Call>)
    requires file.Loaded? && NeverThrows(respond)
    ensures var valid := ValidCookies(file.cookies, now);
      var r := ApplyCookiesSpec(file, now, respond, history);
      && (|valid| > 0 ==> r.calls == Plan(valid))
      && (r.result <==> exists c :: c in valid && Contains(DomainOf(c), GoogleDomain))
  {
    var valid := ValidCookies(file.cookies, now);
    var google := ForDomain(valid, GoogleDomain);
    var looker := ForDomain(valid, LookerDomain);
    ForDomainMembers(valid, GoogleDomain);
    LookerBucketWithinGoogle(valid);
    if |looker| > 0 {
      assert looker[0] in google;
    }
    if |google| > 0 {
      assert google[0] in google;
    }
    if exists c :: c in valid && Contains(DomainOf(c), GoogleDomain) {
      var c :| c in valid && Contains(DomainOf(c), GoogleDomain);
      assert c in google;
    }
  }

  /** applyCookies only navigates with DOMContentLoaded and sets cookies. */
  lemma ApplyCookiesCalls(file: CookieFile, now: real, respond: Responder, history: seq<Call>)
    ensures OnlyCookieCalls(ApplyCookiesSpec(file, now, respond, history).calls)
  {
  }

  /** The looker bucket is only applied after the google.com bucket: the plan
      never navigates to Looker Studio first. */
  lemma PlanStartsWithGoogle(valid: seq<Cookie>)
    requires |Plan(valid)| > 0
    ensures Plan(valid)[0] == Goto(AccountsUrl, DomContentLoaded, None)
    ensures Plan(valid)[1] == SetCookie(ForDomain(valid, GoogleDomain))
  {
    LookerBucketWithinGoogle(valid);
    var looker := ForDomain(valid, LookerDomain);
    if |looker| > 0 {
      assert looker[0] in ForDomain(valid, GoogleDomain);
    }
  }

  /** `applyCookies(page)`. */
  method ApplyCookies(b: Browser, file: CookieFile, now: real) returns (applied: bool)
    modifies b
    ensures b.trace == old(b.trace) + ApplyCookiesSpec(file, now, b.respond, old(b.trace)).calls
    ensures applied == ApplyCookiesSpec(file, now, b.respond, old(b.trace)).result
  {
    ghost var history := b.trace;
    if !file.Loaded? {
      // fs.access, readFile or JSON.parse threw
      return false;
    }
    var cookies := file.cookies;
    var valid := ValidCookies(cookies, now);
    if |valid| == 0 {
      return false;
    }

    var google := ForDomain(valid, GoogleDomain);
    ghost var g := BucketStep(AccountsUrl, google, b.respond, history);
    if |google| > 0 {
      var r := b.Goto(AccountsUrl, DomContentLoaded, None);
      if r.Threw? {
        return false;
      }
      r := b.SetCookie(google);
      if r.Threw? {
        return false;
      }
    }
    assert b.trace == history + g.calls && g.result;

    var looker := ForDomain(valid, LookerDomain);
    ghost var l := BucketStep(LookerUrl, looker, b.respond, history + g.calls);
    if |looker| > 0 {
      var r := b.Goto(LookerUrl, DomContentLoaded, None);
      if r.Threw? {
        assert b.trace == history + (g.calls + l.calls);
        return false;
      }
      r := b.SetCookie(looker);
      if r.Threw? {
        assert b.trace == history + (g.calls + l.calls);
        return false;
      }
    }
    assert b.trace == history + (g.calls + l.calls);
    return |google| + |looker| > 0;
  }
}
