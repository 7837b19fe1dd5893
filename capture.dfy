/** `GET /capture?url=&w=&h=`: launch a browser, apply the saved cookies,
    open the target, reject login screens, take a fixed-size screenshot, and
    classify every error; the browser is closed on every path that launched
    it. */
module CaptureRoute {
  import opened Wrappers
  import opened Text
  import opened QueryParams
  import opened Cookies
  import opened LoginDetector
  import opened Automation
  import opened SessionApplier

  const DefaultWidth := 1400
  const DefaultHeight := 1500
  const NavigationTimeoutMs: nat := 60000
  const AcceptLanguage := "pt-BR,pt;q=0.9,en;q=0.8"
  const UserAgent := "Mozilla/5.0 (Macintosh; Intel Mac OS X 10_15_7) AppleWebKit/537.36 (KHTML, like Gecko) Chrome/120.0.0.0 Safari/537.36"
  const DataUrlPrefix := "data:image/png;base64,"

  const UrlRequired := "URL é obrigatória"
  const CookiesRejected := "Cookies inválidos ou expirados. Execute o comando 'npm run status' para verificar."
  const SessionExpired := "Sessão expirada. Cookies precisam ser renovados."
  const TimeoutError := "Timeout ao carregar a página"
  const ConnectivityError := "Erro de conectividade"
  const CaptureFailed := "Falha na captura da imagem"

  /** The query string: `url`, `w` and `h`, each absent or a string. */
  datatype Query = Query(url: Option<string>, w: Option<string>, h: Option<string>)

  datatype Dimensions = Dimensions(width: int, height: int)

  /** The JSON body: a capture, or `ok: false` with a message and, for caught
      errors, the raw error message and the requested URL. */
  datatype Body =
    | Captured(dataUrl: string, timestamp: string, dimensions: Dimensions)
    | Failed(error: string, details: Option<string>, url: Option<string>)

  datatype Response = Response(status: int, body: Body)

  /** How the `try` block is left: by a `return` with a response, or by a
      thrown error with its message. */
  datatype Exit = Return(response: Response) | Throw(message: string)

  /** The calls the `try` block made, whether `browser` was assigned, and how
      the block was left. */
  datatype TryRun = TryRun(calls: seq<Call>, launched: bool, exit: Exit)

  /** The calls one request made on the browser, and the response sent. */
  datatype Run = Run(calls: seq<Call>, response: Response)

  /** `!targetUrl`: absent or empty. */
  predicate MissingUrl(q: Query) {
    q.url.None? || q.url.value == ""
  }

  function Width(q: Query): int {
    ParseIntOr(q.w, DefaultWidth)
  }

  function Height(q: Query): int {
    ParseIntOr(q.h, DefaultHeight)
  }

  /** The status code and message the `catch` block picks for an error. */
  function Classification(message: string): (int, string) {
    if Contains(message, "timeout") then (408, TimeoutError)
    else if Contains(message, "net::ERR_") then (502, ConnectivityError)
    else (500, CaptureFailed)
  }

  /** The calls made before the navigation to the target: launch, page,
      headers, then applyCookies. */
  function Prelude(width: int, height: int, file: CookieFile, now: real, respond: Responder, history: seq<Call>): seq<Call> {
    var opening := [Launch(width, height), NewPage, SetExtraHttpHeaders(AcceptLanguage, UserAgent)];
    opening + ApplyCookiesSpec(file, now, respond, history + opening).calls
  }

  /** The navigation to the target. */
  function TargetNavigation(url: string): Call {
    Goto(url, NetworkIdle2, Some(NavigationTimeoutMs))
  }

  /** The screenshot call: a PNG of the viewport region at the origin. */
  function Shot(width: int, height: int): Call {
    Screenshot(false, Clip(0, 0, width, height))
  }

  /** The calls made and the way out of a stretch of the `try` block. */
  datatype Steps = Steps(calls: seq<Call>, exit: Exit)

  /** The part of the `try` block after the cookies were applied: open the
      target, read the page, reject a login screen, take the screenshot. */
  function VisitSpec(url: string, width: int, height: int, stamp: string,
                     respond: Responder, history: seq<Call>): Steps
  {
    var nav := TargetNavigation(url);
    var rn := respond(history, nav);
    if rn.Threw? then Steps([nav], Throw(rn.message))
    else
      var re := respond(history + [nav], Evaluate);
      if re.Threw? then Steps([nav, Evaluate], Throw(re.message))
      else if IsLoginScreen(rn.payload, re.payload) then
        var rc := respond(history + [nav, Evaluate], Close);
        Steps([nav, Evaluate, Close],
          if rc.Threw? then Throw(rc.message) else Return(Response(401, Failed(SessionExpired, None, None))))
      else
        var shot := Shot(width, height);
        var rs := respond(history + [nav, Evaluate], shot);
        Steps([nav, Evaluate, shot],
          if rs.Threw? then Throw(rs.message)
          else Return(Response(200, Captured(DataUrlPrefix + rs.payload, stamp, Dimensions(width, height)))))
  }

  /** What the `try` block does, call by call, on a browser whose earlier calls
      were `history`. */
  function TrySpec(url: string, width: int, height: int, file: CookieFile, now: real, stamp: string,
                   respond: Responder, history: seq<Call>): TryRun
  {
    var launch := Launch(width, height);
    var headers := SetExtraHttpHeaders(AcceptLanguage, UserAgent);
    var rl := respond(history, launch);
    if rl.Threw? then TryRun([launch], false, Throw(rl.message))
    else
      var rp := respond(history + [launch], NewPage);
      if rp.Threw? then TryRun([launch, NewPage], true, Throw(rp.message))
      else
        var rh := respond(history + [launch, NewPage], headers);
        if rh.Threw? then TryRun([launch, NewPage, headers], true, Throw(rh.message))
        else
          var opening := [launch, NewPage, headers];
          var apply := ApplyCookiesSpec(file, now, respond, history + opening);
          var pre := opening + apply.calls;
          if !apply.result then
            var rc := respond(history + pre, Close);
            TryRun(pre + [Close], true,
              if rc.Threw? then Throw(rc.message) else Return(Response(401, Failed(CookiesRejected, None, None))))
          else
            var v := VisitSpec(url, width, height, stamp, respond, history + pre);
            TryRun(pre + v.calls, true, v.exit)
  }

  /** What the handler does once a target URL is present: the `try` block,
      the `catch` block for a thrown error, and the `finally` block that
      closes a launched browser (its own errors are swallowed). */
  function Handle(url: string, width: int, height: int, file: CookieFile, now: real, stamp: string,
                  respond: Responder, history: seq<Call>): Run
  {
    var t := TrySpec(url, width, height, file, now, stamp, respond, history);
    var response :=
      match t.exit
      case Return(r) => r
      case Throw(m) =>
        var (code, error) := Classification(m);
        Response(code, Failed(error, Some(m), Some(url)));
    Run(t.calls + (if t.launched then [Close] else []), response)
  }

  /** What the handler does for one request: a missing URL is refused before
      any browser call; otherwise the request is handled with the parsed
      width and height. */
  function CaptureSpec(q: Query, file: CookieFile, now: real, stamp: string,
                       respond: Responder, history: seq<Call>): Run
  {
    if MissingUrl(q) then Run([], Response(400, Failed(UrlRequired, None, None)))
    else Handle(q.url.value, Width(q), Height(q), file, now, stamp, respond, history)
  }

  /** The target part of the `try` block, once the cookies are applied. */
  method Visit(b: Browser, targetUrl: string, width: int, height: int, stamp: string) returns (exit: Exit)
    modifies b
    ensures var v := VisitSpec(targetUrl, width, height, stamp, b.respond, old(b.trace));
      b.trace == old(b.trace) + v.calls && exit == v.exit
  {
    ghost var history := b.trace;
    var r := b.Goto(targetUrl, NetworkIdle2, Some(NavigationTimeoutMs));
    if r.Threw? {
      return Throw(r.message);
    }
    ghost var landing := r;
    r := b.Evaluate();
    assert b.trace == history + [TargetNavigation(targetUrl), Evaluate];
    if r.Threw? {
      return Throw(r.message);
    }
    var bodyText := r.payload;
    var currentUrl := b.currentUrl;
    assert currentUrl == landing.payload;
    if IsLoginScreen(currentUrl, bodyText) {
      r := b.Close();
      if r.Threw? {
        return Throw(r.message);
      }
      return Return(Response(401, Failed(SessionExpired, None, None)));
    }

    r := b.Screenshot(false, Clip(0, 0, width, height));
    if r.Threw? {
      return Throw(r.message);
    }
    return Return(Response(200, Captured(DataUrlPrefix + r.payload, stamp, Dimensions(width, height))));
  }

  /** The `try` block: launch, page, headers, cookies, then the target. */
  method Try(b: Browser, targetUrl: string, width: int, height: int, file: CookieFile, now: real, stamp: string)
    returns (launched: bool, exit: Exit)
    modifies b
    ensures var t := TrySpec(targetUrl, width, height, file, now, stamp, b.respond, old(b.trace));
      b.trace == old(b.trace) + t.calls && launched == t.launched && exit == t.exit
  {
    ghost var history := b.trace;
    launched := false;
    var r := b.Launch(width, height);
    if r.Threw? {
      return false, Throw(r.message);
    }
    launched := true;
    assert b.trace == history + [Launch(width, height)];
    r := b.NewPage();
    if r.Threw? {
      return true, Throw(r.message);
    }
    assert b.trace == history + [Launch(width, height), NewPage];
    r := b.SetExtraHttpHeaders(AcceptLanguage, UserAgent);
    if r.Threw? {
      return true, Throw(r.message);
    }

    ghost var opening := [Launch(width, height), NewPage, SetExtraHttpHeaders(AcceptLanguage, UserAgent)];
    assert b.trace == history + opening;
    var cookiesApplied := ApplyCookies(b, file, now);
    ghost var pre := opening + ApplyCookiesSpec(file, now, b.respond, history + opening).calls;
    assert b.trace == history + pre;
    if !cookiesApplied {
      r := b.Close();
      assert b.trace == history + (pre + [Close]);
      if r.Threw? {
        return true, Throw(r.message);
      }
      return true, Return(Response(401, Failed(CookiesRejected, None, None)));
    }

    exit := Visit(b, targetUrl, width, height, stamp);
    assert b.trace == history + (pre + VisitSpec(targetUrl, width, height, stamp, b.respond, history + pre).calls);
  }

  /** `app.get("/capture", ...)` on a browser capability `b`; `now` is the
      clock in epoch seconds and `stamp` the ISO timestamp of the moment the
      response is built. */
  method Capture(b: Browser, q: Query, file: CookieFile, now: real, stamp: string) returns (response: Response)
    modifies b
    ensures b.trace == old(b.trace) + CaptureSpec(q, file, now, stamp, b.respond, old(b.trace)).calls
    ensures response == CaptureSpec(q, file, now, stamp, b.respond, old(b.trace)).response
  {
    var width := ParseIntOr(q.w, DefaultWidth);
    var height := ParseIntOr(q.h, DefaultHeight);
    if q.url.None? || q.url.value == "" {
      return Response(400, Failed(UrlRequired, None, None));
    }
    var targetUrl := q.url.value;

    var launched, exit := Try(b, targetUrl, width, height, file, now, stamp);

    match exit {
      case Return(r) =>
        response := r;
      case Throw(message) =>
        var statusCode := 500;
        var errorMessage := CaptureFailed;
        if Contains(message, "timeout") {
          statusCode := 408;
          errorMessage := TimeoutError;
        } else if Contains(message, "net::ERR_") {
          statusCode := 502;
          errorMessage := ConnectivityError;
        }
        response := Response(statusCode, Failed(errorMessage, Some(message), Some(targetUrl)));
    }

    if launched {
      var _ := b.Close();
    }
  }
}
