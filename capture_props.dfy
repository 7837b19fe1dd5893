/** What the `/capture` handler guarantees, stated over the calls it makes on
    the browser and the response it sends. Most properties are about
    `Handle`, the handler once a target URL is present, for every URL, width
    and height; the rest tie `CaptureSpec` to the query. */
module CaptureProperties {
  import opened Wrappers
  import opened Text
  import opened QueryParams
  import opened Cookies
  import opened LoginDetector
  import opened Automation
  import opened SessionApplier
  import opened CaptureRoute

  /** How many times the browser was closed. */
  function CloseCount(calls: seq<Call>): nat {
    multiset(calls)[Close]
  }

  /** The calls that open the browser: launch, page, headers. */
  function Opening(width: int, height: int): seq<Call> {
    [Launch(width, height), NewPage, SetExtraHttpHeaders(AcceptLanguage, UserAgent)]
  }

  /** The launch, the new page and the headers all returned. */
  predicate OpeningReturned(width: int, height: int, respond: Responder, history: seq<Call>) {
    var launch := Launch(width, height);
    && respond(history, launch).Returned?
    && respond(history + [launch], NewPage).Returned?
    && respond(history + [launch, NewPage], SetExtraHttpHeaders(AcceptLanguage, UserAgent)).Returned?
  }

  /** The applyCookies run inside a request, after the opening calls. */
  function ApplyIn(width: int, height: int, file: CookieFile, now: real, respond: Responder, history: seq<Call>): Attempt {
    ApplyCookiesSpec(file, now, respond, history + Opening(width, height))
  }

  predicate NoScreenshot(calls: seq<Call>) {
    forall k :: 0 <= k < |calls| ==> !calls[k].Screenshot?
  }

  /** The classification of a caught error: "timeout" gives 408 and wins over
      "net::ERR_", which gives 502; anything else gives 500. */
  lemma ErrorClassification(message: string)
    ensures Classification(message).0 in {408, 502, 500}
    ensures Classification(message).0 == 408 <==> Contains(message, "timeout")
    ensures Classification(message).0 == 502 <==> !Contains(message, "timeout") && Contains(message, "net::ERR_")
    ensures Classification(message).0 == 500 <==> !Contains(message, "timeout") && !Contains(message, "net::ERR_")
  {
  }

  /** An absent or empty `url` is answered with 400 and no browser is
      launched. */
  lemma MissingUrlIsBadRequest(q: Query, file: CookieFile, now: real, stamp: string, respond: Responder, history: seq<Call>)
    requires MissingUrl(q)
    ensures CaptureSpec(q, file, now, stamp, respond, history) == Run([], Response(400, Failed(UrlRequired, None, None)))
  {
  }

  /** The cookie step makes no close, no page read, no screenshot and no
      navigation that waits for the network to be idle. */
  lemma NoCloseInCookieCalls(calls: seq<Call>)
    requires OnlyCookieCalls(calls)
    ensures CloseCount(calls) == 0
    ensures forall i :: 0 <= i < |calls| ==> calls[i] != Evaluate && !calls[i].Screenshot? &&
                                             !(calls[i].Goto? && calls[i].waitUntil == NetworkIdle2)
  {
    assert forall i :: 0 <= i < |calls| ==> calls[i] != Close;
    assert Close !in calls;
  }

  /** The prelude is the opening followed by the cookie step, and holds no
      close and no screenshot. */
  lemma PreludeFacts(width: int, height: int, file: CookieFile, now: real, respond: Responder, history: seq<Call>)
    ensures var apply := ApplyIn(width, height, file, now, respond, history);
      var pre := Prelude(width, height, file, now, respond, history);
      && OnlyCookieCalls(apply.calls)
      && pre == Opening(width, height) + apply.calls
      && CloseCount(pre) == 0
      && NoScreenshot(pre)
  {
    ApplyCookiesCalls(file, now, respond, history + Opening(width, height));
    OpeningThenCookies(width, height, ApplyIn(width, height, file, now, respond, history).calls);
  }

  lemma OpeningThenCookies(width: int, height: int, cookieCalls: seq<Call>)
    requires OnlyCookieCalls(cookieCalls)
    ensures CloseCount(Opening(width, height) + cookieCalls) == 0
    ensures NoScreenshot(Opening(width, height) + cookieCalls)
  {
    NoCloseInCookieCalls(cookieCalls);
    var s := Opening(width, height) + cookieCalls;
    forall k | 0 <= k < |s| ensures s[k] != Close && !s[k].Screenshot? {
      if 3 <= k {
        assert s[k] == cookieCalls[k - 3];
      }
    }
    assert Close !in s;
  }

  /** The calls of the `try` block: a failed launch is the only call and
      leaves `browser` unassigned; a failed page or header call stops the
      block; rejected cookies end it with one close; applied cookies go on to
      the target. */
  lemma TryCallsShape(url: string, width: int, height: int, file: CookieFile, now: real, stamp: string,
                      respond: Responder, history: seq<Call>)
    ensures var t := TrySpec(url, width, height, file, now, stamp, respond, history);
      var pre := Prelude(width, height, file, now, respond, history);
      var apply := ApplyIn(width, height, file, now, respond, history);
      && (t.launched <==> respond(history, Launch(width, height)).Returned?)
      && (!t.launched ==> t.calls == [Launch(width, height)] && t.exit.Throw?)
      && (!OpeningReturned(width, height, respond, history) ==>
            t.exit.Throw? && t.calls <= Opening(width, height))
      && (OpeningReturned(width, height, respond, history) && !apply.result ==> t.calls == pre + [Close])
      && (OpeningReturned(width, height, respond, history) && apply.result ==>
            t.calls == pre + VisitSpec(url, width, height, stamp, respond, history + pre).calls &&
            t.exit == VisitSpec(url, width, height, stamp, respond, history + pre).exit)
  {
    assert Opening(width, height) == [Launch(width, height), NewPage, SetExtraHttpHeaders(AcceptLanguage, UserAgent)];
  }

  /** The target stage closes at most once, and only on the login screen; a
      screenshot in it comes third, after a navigation and a read that passed
      the detector. */
  lemma VisitFacts(url: string, width: int, height: int, stamp: string, respond: Responder, history: seq<Call>)
    ensures var v := VisitSpec(url, width, height, stamp, respond, history);
      && 1 <= |v.calls| <= 3
      && v.calls[0] == TargetNavigation(url)
      && CloseCount(v.calls) <= 1
      && (v.exit.Return? ==> v.exit.response.status in {200, 401})
      && (v.exit.Return? && v.exit.response.status == 401 ==> CloseCount(v.calls) == 1)
      && (v.exit.Return? && v.exit.response.status == 200 ==> CloseCount(v.calls) == 0)
      && (forall i :: 0 <= i < |v.calls| && v.calls[i].Screenshot? ==>
            && i == 2 && v.calls[1] == Evaluate
            && respond(history, TargetNavigation(url)).Returned?
            && respond(history + [TargetNavigation(url)], Evaluate).Returned?
            && !IsLoginScreen(respond(history, TargetNavigation(url)).payload,
                              respond(history + [TargetNavigation(url)], Evaluate).payload))
  {
    var v := VisitSpec(url, width, height, stamp, respond, history);
    var nav := TargetNavigation(url);
    if respond(history, nav).Returned? && respond(history + [nav], Evaluate).Returned? {
      if IsLoginScreen(respond(history, nav).payload, respond(history + [nav], Evaluate).payload) {
        assert v.calls == [nav, Evaluate, Close];
        assert multiset(v.calls)[Close] == 1;
      } else {
        assert v.calls == [nav, Evaluate, Shot(width, height)];
        assert multiset(v.calls)[Close] == 0;
      }
    } else if respond(history, nav).Returned? {
      assert v.calls == [nav, Evaluate];
      assert multiset(v.calls)[Close] == 0;
    } else {
      assert v.calls == [nav];
      assert multiset(v.calls)[Close] == 0;
    }
  }

  /** The `try` block closes at most once, and only right before a 401. */
  lemma TryFacts(url: string, width: int, height: int, file: CookieFile, now: real, stamp: string,
                 respond: Responder, history: seq<Call>)
    ensures var t := TrySpec(url, width, height, file, now, stamp, respond, history);
      && CloseCount(t.calls) <= 1
      && (t.exit.Return? ==> t.exit.response.status in {200, 401})
      && (t.exit.Return? && t.exit.response.status == 401 ==> CloseCount(t.calls) == 1)
      && (t.exit.Return? && t.exit.response.status == 200 ==> CloseCount(t.calls) == 0)
  {
    var t := TrySpec(url, width, height, file, now, stamp, respond, history);
    var apply := ApplyIn(width, height, file, now, respond, history);
    var pre := Prelude(width, height, file, now, respond, history);
    TryCallsShape(url, width, height, file, now, stamp, respond, history);
    PreludeFacts(width, height, file, now, respond, history);
    if !OpeningReturned(width, height, respond, history) {
      assert CloseCount(t.calls) == 0 by {
        assert Close !in Opening(width, height);
        assert Close !in t.calls;
      }
    } else if !apply.result {
      assert multiset(t.calls) == multiset(pre) + multiset([Close]);
    } else {
      var v := VisitSpec(url, width, height, stamp, respond, history + pre);
      VisitFacts(url, width, height, stamp, respond, history + pre);
      assert multiset(t.calls) == multiset(pre) + multiset(v.calls);
    }
  }

  /** The browser is released: if it was launched, the last call is a close;
      if the launch threw, nothing else was called and nothing is closed. The
      two 401 answers close it twice (inline and in `finally`), a capture
      closes it once. */
  lemma BrowserClosed(url: string, width: int, height: int, file: CookieFile, now: real, stamp: string,
                      respond: Responder, history: seq<Call>)
    ensures var r := Handle(url, width, height, file, now, stamp, respond, history);
      && (respond(history, Launch(width, height)).Returned? ==>
            |r.calls| > 0 && r.calls[|r.calls| - 1] == Close && 1 <= CloseCount(r.calls) <= 2)
      && (respond(history, Launch(width, height)).Threw? ==>
            r.calls == [Launch(width, height)] && CloseCount(r.calls) == 0)
      && (r.response.status == 401 ==> CloseCount(r.calls) == 2)
      && (r.response.status == 200 ==> CloseCount(r.calls) == 1)
  {
    var t := TrySpec(url, width, height, file, now, stamp, respond, history);
    TryCallsShape(url, width, height, file, now, stamp, respond, history);
    TryFacts(url, width, height, file, now, stamp, respond, history);
    ErrorClassification(if t.exit.Throw? then t.exit.message else "");
    if t.launched {
      assert multiset(t.calls + [Close]) == multiset(t.calls) + multiset([Close]);
    } else {
      assert multiset([Launch(width, height)])[Close] == 0;
    }
  }

  /** No usable cookie (an absent or unreadable file, or every cookie
      expired) on a browser that never fails: the browser is opened, closed
      twice, and 401 is sent, with no navigation at all. */
  lemma NoCookiesUnauthenticated(url: string, width: int, height: int, file: CookieFile, now: real, stamp: string,
                                 respond: Responder, history: seq<Call>)
    requires NeverThrows(respond)
    requires !file.Loaded? || forall c :: c in file.cookies ==> !IsValid(c, now)
    ensures Handle(url, width, height, file, now, stamp, respond, history) ==
      Run([Launch(width, height), NewPage, SetExtraHttpHeaders(AcceptLanguage, UserAgent), Close, Close],
          Response(401, Failed(CookiesRejected, None, None)))
  {
    NoValidCookiesNoCalls(file, now, respond,
      history + [Launch(width, height), NewPage, SetExtraHttpHeaders(AcceptLanguage, UserAgent)]);
  }

  /** When applyCookies returns false the handler never opens the target,
      never reads the page and never takes a screenshot: the calls are the
      prelude and two closes, and the answer is 401 unless the inline close
      itself threw. */
  lemma RejectedCookiesStopBeforeTarget(url: string, width: int, height: int, file: CookieFile, now: real, stamp: string,
                                        respond: Responder, history: seq<Call>)
    requires OpeningReturned(width, height, respond, history)
    requires !ApplyIn(width, height, file, now, respond, history).result
    ensures var r := Handle(url, width, height, file, now, stamp, respond, history);
      var pre := Prelude(width, height, file, now, respond, history);
      && r.calls == pre + [Close, Close]
      && (forall i :: 0 <= i < |r.calls| ==>
            r.calls[i] != Evaluate && !r.calls[i].Screenshot? && !(r.calls[i].Goto? && r.calls[i].waitUntil == NetworkIdle2))
      && (respond(history + pre, Close).Returned? ==> r.response == Response(401, Failed(CookiesRejected, None, None)))
  {
    RejectedHandle(url, width, height, file, now, stamp, respond, history);
    PreludeFacts(width, height, file, now, respond, history);
    NoTargetWork(width, height, Prelude(width, height, file, now, respond, history),
                 ApplyIn(width, height, file, now, respond, history).calls,
                 Handle(url, width, height, file, now, stamp, respond, history).calls);
  }

  /** The handler when applyCookies returned false: the prelude, the inline
      close and the `finally` close. */
  lemma RejectedHandle(url: string, width: int, height: int, file: CookieFile, now: real, stamp: string,
                       respond: Responder, history: seq<Call>)
    requires OpeningReturned(width, height, respond, history)
    requires !ApplyIn(width, height, file, now, respond, history).result
    ensures var r := Handle(url, width, height, file, now, stamp, respond, history);
      var pre := Prelude(width, height, file, now, respond, history);
      && r.calls == pre + [Close, Close]
      && (respond(history + pre, Close).Returned? ==> r.response == Response(401, Failed(CookiesRejected, None, None)))
  {
    var pre := Prelude(width, height, file, now, respond, history);
    RejectedTry(url, width, height, file, now, stamp, respond, history);
    assert pre + [Close] + [Close] == pre + [Close, Close];
  }

  /** The `try` block when applyCookies returned false: the prelude and the
      inline close. */
  lemma RejectedTry(url: string, width: int, height: int, file: CookieFile, now: real, stamp: string,
                    respond: Responder, history: seq<Call>)
    requires OpeningReturned(width, height, respond, history)
    requires !ApplyIn(width, height, file, now, respond, history).result
    ensures var t := TrySpec(url, width, height, file, now, stamp, respond, history);
      var pre := Prelude(width, height, file, now, respond, history);
      && t.launched
      && t.calls == pre + [Close]
      && (respond(history + pre, Close).Returned? ==> t.exit == Return(Response(401, Failed(CookiesRejected, None, None))))
  {
  }

  lemma NoTargetWork(width: int, height: int, pre: seq<Call>, cookieCalls: seq<Call>, calls: seq<Call>)
    requires OnlyCookieCalls(cookieCalls)
    requires pre == Opening(width, height) + cookieCalls
    requires calls == pre + [Close, Close]
    ensures forall i :: 0 <= i < |calls| ==>
      calls[i] != Evaluate && !calls[i].Screenshot? && !(calls[i].Goto? && calls[i].waitUntil == NetworkIdle2)
  {
    NoCloseInCookieCalls(cookieCalls);
    forall i | 0 <= i < |calls|
      ensures calls[i] != Evaluate && !calls[i].Screenshot? && !(calls[i].Goto? && calls[i].waitUntil == NetworkIdle2)
    {
      if 3 <= i < |pre| {
        assert calls[i] == cookieCalls[i - 3];
      }
    }
  }

  /** A screenshot is only ever taken right after the target navigation and
      the page read, both of which returned, and only when the detector found
      no login screen in the URL the navigation ended on and the text the read
      returned. */
  lemma ScreenshotOnlyAfterCleanCheck(url: string, width: int, height: int, file: CookieFile, now: real, stamp: string,
                                      respond: Responder, history: seq<Call>)
    ensures var r := Handle(url, width, height, file, now, stamp, respond, history);
      forall i :: 0 <= i < |r.calls| && r.calls[i].Screenshot? ==>
        && 2 <= i
        && r.calls[i - 2] == TargetNavigation(url)
        && r.calls[i - 1] == Evaluate
        && respond(history + r.calls[..i - 2], r.calls[i - 2]).Returned?
        && respond(history + r.calls[..i - 1], Evaluate).Returned?
        && !IsLoginScreen(respond(history + r.calls[..i - 2], r.calls[i - 2]).payload,
                          respond(history + r.calls[..i - 1], Evaluate).payload)
  {
    if OpeningReturned(width, height, respond, history) && ApplyIn(width, height, file, now, respond, history).result {
      CleanCheckBeforeScreenshot(url, width, height, file, now, stamp, respond, history);
    } else {
      NoScreenshotWithoutCookies(url, width, height, file, now, stamp, respond, history);
    }
  }

  lemma NoScreenshotWithoutCookies(url: string, width: int, height: int, file: CookieFile, now: real, stamp: string,
                                   respond: Responder, history: seq<Call>)
    requires !OpeningReturned(width, height, respond, history) || !ApplyIn(width, height, file, now, respond, history).result
    ensures NoScreenshot(Handle(url, width, height, file, now, stamp, respond, history).calls)
  {
    var r := Handle(url, width, height, file, now, stamp, respond, history);
    var t := TrySpec(url, width, height, file, now, stamp, respond, history);
    TryCallsShape(url, width, height, file, now, stamp, respond, history);
    if OpeningReturned(width, height, respond, history) {
      var pre := Prelude(width, height, file, now, respond, history);
      PreludeFacts(width, height, file, now, respond, history);
      assert r.calls == pre + [Close, Close];
    } else {
      var opening := Opening(width, height);
      assert t.calls <= opening;
      forall k | 0 <= k < |r.calls| ensures !r.calls[k].Screenshot? {
        if k < |t.calls| {
          assert r.calls[k] == opening[k];
        }
      }
    }
  }

  lemma CleanCheckBeforeScreenshot(url: string, width: int, height: int, file: CookieFile, now: real, stamp: string,
                                   respond: Responder, history: seq<Call>)
    requires OpeningReturned(width, height, respond, history) && ApplyIn(width, height, file, now, respond, history).result
    ensures var r := Handle(url, width, height, file, now, stamp, respond, history);
      forall i :: 0 <= i < |r.calls| && r.calls[i].Screenshot? ==>
        && 2 <= i
        && r.calls[i - 2] == TargetNavigation(url)
        && r.calls[i - 1] == Evaluate
        && respond(history + r.calls[..i - 2], r.calls[i - 2]).Returned?
        && respond(history + r.calls[..i - 1], Evaluate).Returned?
        && !IsLoginScreen(respond(history + r.calls[..i - 2], r.calls[i - 2]).payload,
                          respond(history + r.calls[..i - 1], Evaluate).payload)
  {
    var r := Handle(url, width, height, file, now, stamp, respond, history);
    var pre := Prelude(width, height, file, now, respond, history);
    TryCallsShape(url, width, height, file, now, stamp, respond, history);
    PreludeFacts(width, height, file, now, respond, history);
    var v := VisitSpec(url, width, height, stamp, respond, history + pre);
    VisitFacts(url, width, height, stamp, respond, history + pre);
    assert r.calls == pre + v.calls + [Close];
    ScreenshotAfterVisit(r.calls, pre, v.calls, url, respond, history);
  }

  /** A screenshot in `pre + visit + [close]` is the one the target stage
      took, so what the stage checked before it holds at its position. */
  lemma ScreenshotAfterVisit(calls: seq<Call>, pre: seq<Call>, visit: seq<Call>, url: string,
                             respond: Responder, history: seq<Call>)
    requires calls == pre + visit + [Close]
    requires NoScreenshot(pre)
    requires forall k :: 0 <= k < |visit| && visit[k].Screenshot? ==>
      && k == 2 && visit[1] == Evaluate
      && respond(history + pre, TargetNavigation(url)).Returned?
      && respond(history + pre + [TargetNavigation(url)], Evaluate).Returned?
      && !IsLoginScreen(respond(history + pre, TargetNavigation(url)).payload,
                        respond(history + pre + [TargetNavigation(url)], Evaluate).payload)
    requires |visit| > 0 && visit[0] == TargetNavigation(url)
    ensures forall i :: 0 <= i < |calls| && calls[i].Screenshot? ==>
        && 2 <= i
        && calls[i - 2] == TargetNavigation(url)
        && calls[i - 1] == Evaluate
        && respond(history + calls[..i - 2], calls[i - 2]).Returned?
        && respond(history + calls[..i - 1], Evaluate).Returned?
        && !IsLoginScreen(respond(history + calls[..i - 2], calls[i - 2]).payload,
                          respond(history + calls[..i - 1], Evaluate).payload)
  {
    var nav := TargetNavigation(url);
    forall i | 0 <= i < |calls| && calls[i].Screenshot?
      ensures 2 <= i && calls[i - 2] == nav && calls[i - 1] == Evaluate
      ensures respond(history + calls[..i - 2], calls[i - 2]).Returned?
      ensures respond(history + calls[..i - 1], Evaluate).Returned?
      ensures !IsLoginScreen(respond(history + calls[..i - 2], calls[i - 2]).payload,
                             respond(history + calls[..i - 1], Evaluate).payload)
    {
      ScreenshotIndex(calls, pre, visit, i);
      assert history + calls[..i - 2] == history + pre;
      assert history + calls[..i - 1] == history + pre + [nav];
    }
  }

  lemma ScreenshotIndex(calls: seq<Call>, pre: seq<Call>, visit: seq<Call>, i: int)
    requires calls == pre + visit + [Close]
    requires NoScreenshot(pre)
    requires forall k :: 0 <= k < |visit| && visit[k].Screenshot? ==> k == 2
    requires 0 <= i < |calls| && calls[i].Screenshot?
    ensures i == |pre| + 2 && |visit| >= 3 && visit[2].Screenshot?
    ensures calls[i - 2] == visit[0] && calls[i - 1] == visit[1]
    ensures calls[..i - 2] == pre && calls[..i - 1] == pre + [visit[0]]
  {
    if |pre| <= i < |pre| + |visit| {
      assert calls[i] == visit[i - |pre|];
    }
    assert calls[..|pre| + 1] == pre + [visit[0]];
  }

  /** A 200 answer is a capture of exactly the size the request was handled
      with: the body carries those dimensions, the stamp and a PNG data URL,
      and the calls are the prelude, the target navigation, the page read, one
      screenshot of the region at the origin with that size (not the full
      page), and the close in `finally`; the cookies were applied. */
  lemma SuccessShape(url: string, width: int, height: int, file: CookieFile, now: real, stamp: string,
                     respond: Responder, history: seq<Call>)
    ensures var r := Handle(url, width, height, file, now, stamp, respond, history);
      r.response.status == 200 ==>
        && ApplyIn(width, height, file, now, respond, history).result
        && r.response.body.Captured?
        && r.response.body.dimensions == Dimensions(width, height)
        && r.response.body.timestamp == stamp
        && StartsWith(r.response.body.dataUrl, DataUrlPrefix)
        && r.calls == Prelude(width, height, file, now, respond, history) +
                      [TargetNavigation(url), Evaluate, Shot(width, height), Close]
  {
    TryCallsShape(url, width, height, file, now, stamp, respond, history);
  }

  /** A 200 answer to a request reports the width and height parsed from its
      `w` and `h` (1400 and 1500 by default). */
  lemma CapturedSize(q: Query, file: CookieFile, now: real, stamp: string, respond: Responder, history: seq<Call>)
    ensures var r := CaptureSpec(q, file, now, stamp, respond, history);
      r.response.status == 200 ==>
        && !MissingUrl(q)
        && r.response.body.Captured?
        && r.response.body.dimensions == Dimensions(Width(q), Height(q))
  {
    if !MissingUrl(q) {
      SuccessShape(q.url.value, Width(q), Height(q), file, now, stamp, respond, history);
    }
  }

  /** Every answer has one of the six status codes; every caught error is
      answered with its classification, the raw message as `details` and the
      requested URL. */
  lemma ResponseCodes(q: Query, file: CookieFile, now: real, stamp: string, respond: Responder, history: seq<Call>)
    ensures var r := CaptureSpec(q, file, now, stamp, respond, history);
      && r.response.status in {200, 400, 401, 408, 500, 502}
      && (r.response.status in {408, 500, 502} ==>
            && !MissingUrl(q)
            && r.response.body.Failed?
            && r.response.body.details.Some?
            && r.response.body.url == Some(q.url.value)
            && Classification(r.response.body.details.value) == (r.response.status, r.response.body.error))
  {
    if !MissingUrl(q) {
      TryFacts(q.url.value, Width(q), Height(q), file, now, stamp, respond, history);
    }
  }

  /** A navigation to the target that throws a timeout error is answered with
      408, after which only the `finally` close is called. */
  lemma NavigationTimeout(url: string, width: int, height: int, file: CookieFile, now: real, stamp: string,
                          respond: Responder, history: seq<Call>, message: string)
    requires OpeningReturned(width, height, respond, history)
    requires ApplyIn(width, height, file, now, respond, history).result
    requires respond(history + Prelude(width, height, file, now, respond, history), TargetNavigation(url)) == Threw(message)
    requires Contains(message, "timeout")
    ensures Handle(url, width, height, file, now, stamp, respond, history) ==
      Run(Prelude(width, height, file, now, respond, history) + [TargetNavigation(url), Close],
          Response(408, Failed(TimeoutError, Some(message), Some(url))))
  {
    TryCallsShape(url, width, height, file, now, stamp, respond, history);
  }

  /** On a browser that never fails, once the cookies are applied a login
      screen after the target navigation is answered with 401 "session
      expired", without a screenshot and with two closes. */
  lemma LoginScreenIsSessionExpired(url: string, width: int, height: int, file: CookieFile, now: real, stamp: string,
                                    respond: Responder, history: seq<Call>)
    requires NeverThrows(respond)
    requires ApplyIn(width, height, file, now, respond, history).result
    requires var pre := Prelude(width, height, file, now, respond, history);
      var nav := TargetNavigation(url);
      IsLoginScreen(respond(history + pre, nav).payload, respond(history + pre + [nav], Evaluate).payload)
    ensures var r := Handle(url, width, height, file, now, stamp, respond, history);
      && r.response == Response(401, Failed(SessionExpired, None, None))
      && r.calls == Prelude(width, height, file, now, respond, history) + [TargetNavigation(url), Evaluate, Close, Close]
  {
    TryCallsShape(url, width, height, file, now, stamp, respond, history);
  }

  /** Once the cookies are applied, a target navigation and a page read that
      both return and show a login screen, followed by an inline close that
      returns, are answered with 401 "session expired"; the calls end with
      that close and the `finally` close, and no screenshot is taken. */
  lemma LoginDetectedIsSessionExpired(url: string, width: int, height: int, file: CookieFile, now: real, stamp: string,
                                      respond: Responder, history: seq<Call>)
    requires OpeningReturned(width, height, respond, history)
    requires ApplyIn(width, height, file, now, respond, history).result
    requires var pre := Prelude(width, height, file, now, respond, history);
      var nav := TargetNavigation(url);
      && respond(history + pre, nav).Returned?
      && respond(history + pre + [nav], Evaluate).Returned?
      && IsLoginScreen(respond(history + pre, nav).payload, respond(history + pre + [nav], Evaluate).payload)
      && respond(history + pre + [nav, Evaluate], Close).Returned?
    ensures var r := Handle(url, width, height, file, now, stamp, respond, history);
      && r.response == Response(401, Failed(SessionExpired, None, None))
      && r.calls == Prelude(width, height, file, now, respond, history) + [TargetNavigation(url), Evaluate, Close, Close]
  {
    var pre := Prelude(width, height, file, now, respond, history);
    var nav := TargetNavigation(url);
    TryCallsShape(url, width, height, file, now, stamp, respond, history);
    assert history + pre + [nav] == (history + pre) + [nav];
    assert history + pre + [nav, Evaluate] == (history + pre) + [nav, Evaluate];
    assert pre + [nav, Evaluate, Close] + [Close] == pre + [nav, Evaluate, Close, Close];
  }

  /** The page reads "Access denied" (in any letter case) within its first
      3000 characters: 401 "session expired", not "cookies invalid". */
  lemma AccessDeniedIsSessionExpired(url: string, width: int, height: int, file: CookieFile, now: real, stamp: string,
                                     respond: Responder, history: seq<Call>, phrase: string)
    requires NeverThrows(respond)
    requires ApplyIn(width, height, file, now, respond, history).result
    requires Lower(phrase) == "access denied"
    requires var pre := Prelude(width, height, file, now, respond, history);
      var nav := TargetNavigation(url);
      Contains(Take(respond(history + pre + [nav], Evaluate).payload, TextWindow), phrase)
    ensures Handle(url, width, height, file, now, stamp, respond, history).response ==
      Response(401, Failed(SessionExpired, None, None))
  {
    var pre := Prelude(width, height, file, now, respond, history);
    var nav := TargetNavigation(url);
    assert LoginKeywords[6] == "access denied";
    LoginByText(respond(history + pre, nav).payload, respond(history + pre + [nav], Evaluate).payload, phrase);
    LoginScreenIsSessionExpired(url, width, height, file, now, stamp, respond, history);
  }

  /** On a browser that never fails, with cookies applied and no login screen,
      the answer is a 200 capture of the size the request was handled with. */
  lemma HappyPath(url: string, width: int, height: int, file: CookieFile, now: real, stamp: string,
                  respond: Responder, history: seq<Call>)
    requires NeverThrows(respond)
    requires ApplyIn(width, height, file, now, respond, history).result
    requires var pre := Prelude(width, height, file, now, respond, history);
      var nav := TargetNavigation(url);
      !IsLoginScreen(respond(history + pre, nav).payload, respond(history + pre + [nav], Evaluate).payload)
    ensures var r := Handle(url, width, height, file, now, stamp, respond, history);
      && r.response.status == 200
      && r.response.body.Captured?
      && r.response.body.dimensions == Dimensions(width, height)
  {
    TryCallsShape(url, width, height, file, now, stamp, respond, history);
  }

  /** `w` and `h` written in decimal are the dimensions used; absent ones give
      1400 by 1500. */
  lemma RequestedDimensions(q: Query, width: nat, height: nat)
    requires width < InfiniteMagnitude && height < InfiniteMagnitude
    requires q.w == Some(Decimal(width)) || q.w.None?
    requires q.h == Some(Decimal(height)) || q.h.None?
    ensures Width(q) == if q.w.None? then DefaultWidth else width
    ensures Height(q) == if q.h.None? then DefaultHeight else height
  {
    if q.w.Some? {
      ParseIntOrOfDecimal(width, "", DefaultWidth);
      assert Decimal(width) + "" == Decimal(width);
    }
    if q.h.Some? {
      ParseIntOrOfDecimal(height, "", DefaultHeight);
      assert Decimal(height) + "" == Decimal(height);
    }
  }

  /** The dashboards are requested with `w=600&h=1050`: that is the size of
      the screenshot region and of the reported dimensions. */
  lemma DashboardRequestSize(url: string)
    ensures Width(Query(Some(url), Some("600"), Some("1050"))) == 600
    ensures Height(Query(Some(url), Some("600"), Some("1050"))) == 1050
  {
    assert Digits(6) == "6" && Digits(60) == "60" && Digits(600) == "600";
    assert Digits(1) == "1" && Digits(10) == "10" && Digits(105) == "105" && Digits(1050) == "1050";
    RequestedDimensions(Query(Some(url), Some("600"), Some("1050")), 600, 1050);
  }
}
