/** The headless-browser capability the server drives, seen from outside: the
    calls made on it, in order, and what each call returns or throws. What a
    real browser would answer is not modelled; it is an oracle `respond` that
    may depend on everything called before. */
module Automation {
  import opened Wrappers
  import opened Cookies

  /** `waitUntil` of a navigation. */
  datatype LoadEvent = DomContentLoaded | NetworkIdle2

  /** The region of a screenshot. */
  datatype Clip = Clip(x: int, y: int, width: int, height: int)

  /** One call on the browser or its page. */
  datatype Call =
    | Launch(viewportWidth: int, viewportHeight: int)
    | NewPage
    | SetExtraHttpHeaders(acceptLanguage: string, userAgent: string)
    | Goto(url: string, waitUntil: LoadEvent, timeoutMs: Option<nat>)
    | SetCookie(cookies: seq<Cookie>)
    | Evaluate
    | Screenshot(fullPage: bool, clip: Clip)
    | Close

  /** The outcome of a call: it throws an error with a message, or it returns.
      What is returned matters for three calls: `Goto` gives the URL the page
      ends on (`page.url()` afterwards), `Evaluate` gives the page's
      `document.body.innerText`, `Screenshot` gives the image as base64 text. */
  datatype Reply = Threw(message: string) | Returned(payload: string)

  /** How the outside world answers a call, given the calls made before it. */
  type Responder = (seq<Call>, Call) -> Reply

  /** A browser that never throws. */
  ghost predicate NeverThrows(respond: Responder) {
    forall history, c :: respond(history, c).Returned?
  }

  /** The browser process and its one page, recording every call. */
  class Browser {
    const respond: Responder
    /** Every call made so far, oldest first. */
    var trace: seq<Call>
    /** `page.url()`. */
    var currentUrl: string

    constructor (respond: Responder)
      ensures this.respond == respond && trace == [] && currentUrl == "about:blank"
    {
      this.respond := respond;
      trace := [];
      currentUrl := "about:blank";
    }

    /** `puppeteer.launch` with a default viewport of the given size. */
    method Launch(width: int, height: int) returns (r: Reply)
      modifies this
      ensures r == respond(old(trace), Call.Launch(width, height))
      ensures trace == old(trace) + [Call.Launch(width, height)]
      ensures currentUrl == old(currentUrl)
    {
      r := respond(trace, Call.Launch(width, height));
      trace := trace + [Call.Launch(width, height)];
    }

    /** `browser.newPage()`. */
    method NewPage() returns (r: Reply)
      modifies this
      ensures r == respond(old(trace), Call.NewPage)
      ensures trace == old(trace) + [Call.NewPage]
      ensures currentUrl == old(currentUrl)
    {
      r := respond(trace, Call.NewPage);
      trace := trace + [Call.NewPage];
    }

    /** `page.setExtraHTTPHeaders`. */
    method SetExtraHttpHeaders(acceptLanguage: string, userAgent: string) returns (r: Reply)
      modifies this
      ensures r == respond(old(trace), Call.SetExtraHttpHeaders(acceptLanguage, userAgent))
      ensures trace == old(trace) + [Call.SetExtraHttpHeaders(acceptLanguage, userAgent)]
      ensures currentUrl == old(currentUrl)
    {
      r := respond(trace, Call.SetExtraHttpHeaders(acceptLanguage, userAgent));
      trace := trace + [Call.SetExtraHttpHeaders(acceptLanguage, userAgent)];
    }

    /** `page.goto`: on success the page is at the URL the navigation ended on. */
    method Goto(url: string, waitUntil: LoadEvent, timeoutMs: Option<nat>) returns (r: Reply)
      modifies this
      ensures r == respond(old(trace), Call.Goto(url, waitUntil, timeoutMs))
      ensures trace == old(trace) + [Call.Goto(url, waitUntil, timeoutMs)]
      ensures currentUrl == if r.Returned? then r.payload else old(currentUrl)
    {
      r := respond(trace, Call.Goto(url, waitUntil, timeoutMs));
      trace := trace + [Call.Goto(url, waitUntil, timeoutMs)];
      if r.Returned? {
        currentUrl := r.payload;
      }
    }

    /** `page.setCookie(...cookies)`. */
    method SetCookie(cookies: seq<Cookie>) returns (r: Reply)
      modifies this
      ensures r == respond(old(trace), Call.SetCookie(cookies))
      ensures trace == old(trace) + [Call.SetCookie(cookies)]
      ensures currentUrl == old(currentUrl)
    {
      r := respond(trace, Call.SetCookie(cookies));
      trace := trace + [Call.SetCookie(cookies)];
    }

    /** `page.evaluate` reading the page's text. */
    method Evaluate() returns (r: Reply)
      modifies this
      ensures r == respond(old(trace), Call.Evaluate)
      ensures trace == old(trace) + [Call.Evaluate]
      ensures currentUrl == old(currentUrl)
    {
      r := respond(trace, Call.Evaluate);
      trace := trace + [Call.Evaluate];
    }

    /** `page.screenshot` of a PNG region. */
    method Screenshot(fullPage: bool, clip: Clip) returns (r: Reply)
      modifies this
      ensures r == respond(old(trace), Call.Screenshot(fullPage, clip))
      ensures trace == old(trace) + [Call.Screenshot(fullPage, clip)]
      ensures currentUrl == old(currentUrl)
    {
      r := respond(trace, Call.Screenshot(fullPage, clip));
      trace := trace + [Call.Screenshot(fullPage, clip)];
    }

    /** `browser.close()`. */
    method Close() returns (r: Reply)
      modifies this
      ensures r == respond(old(trace), Call.Close)
      ensures trace == old(trace) + [Call.Close]
      ensures currentUrl == old(currentUrl)
    {
      r := respond(trace, Call.Close);
      trace := trace + [Call.Close];
    }
  }
}
