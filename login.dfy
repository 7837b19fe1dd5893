/** The login-screen detector run on the page after navigating to the target:
    a redirect to a sign-in URL, or sign-in, permission or error wording near
    the top of the page's text. */
module LoginDetector {
  import opened Text

  /** Markers looked for in the lower-cased current URL. */
  const UrlMarkers: seq<string> := ["accounts.google.com", "signin", "login"]

  /** Phrases looked for in the lower-cased start of the page text, in
      Portuguese and English. */
  const LoginKeywords: seq<string> := [
    "faça login", "fazer login", "sign in", "login", "entrar",
    "não é possível acessar", "access denied", "acesso negado",
    "você não tem permissão", "permission denied", "unauthorized",
    "session expired", "sessão expirou", "sessão inválida",
    "make sure you have access", "verifique se você tem acesso",
    "something went wrong", "algo deu errado",
    "unable to load", "não foi possível carregar"
  ]

  /** How many characters of the page text are inspected. */
  const TextWindow: nat := 3000

  /** `needles.some(n => s.includes(n))`. */
  predicate ContainsAny(s: string, needles: seq<string>) {
    |needles| > 0 && (Contains(s, needles[0]) || ContainsAny(s, needles[1..]))
  }

  /** `page.url().toLowerCase()` contains one of the URL markers. */
  predicate IsRedirectedToLogin(currentUrl: string) {
    ContainsAny(Lower(currentUrl), UrlMarkers)
  }

  /** The text the page hands back: `innerText.slice(0, 3000).toLowerCase()`. */
  function BodyProbe(bodyText: string): string {
    Lower(Take(bodyText, TextWindow))
  }

  /** The detector: a login redirect, or a keyword in the probed text. */
  predicate IsLoginScreen(currentUrl: string, bodyText: string) {
    IsRedirectedToLogin(currentUrl) || ContainsAny(BodyProbe(bodyText), LoginKeywords)
  }

  /** The recursive `some` agrees with its reading as an existential. */
  lemma {:induction false} ContainsAnyIff(s: string, needles: seq<string>)
    ensures ContainsAny(s, needles) <==> exists k :: 0 <= k < |needles| && Contains(s, needles[k])
    decreases |needles|
  {
    if |needles| > 0 {
      ContainsAnyIff(s, needles[1..]);
      if exists k :: 0 <= k < |needles| && Contains(s, needles[k]) {
        var k :| 0 <= k < |needles| && Contains(s, needles[k]);
        if k > 0 {
          assert needles[1..][k - 1] == needles[k];
        }
      }
      if ContainsAny(s, needles[1..]) {
        var k :| 0 <= k < |needles| - 1 && Contains(s, needles[1..][k]);
        assert needles[k + 1] == needles[1..][k];
      }
    }
  }

  /** The detector fires exactly when a URL marker occurs in the lower-cased
      URL or a keyword occurs in the lower-cased first 3000 characters. */
  lemma LoginScreenIff(currentUrl: string, bodyText: string)
    ensures IsLoginScreen(currentUrl, bodyText) <==>
      (exists k :: 0 <= k < |UrlMarkers| && Contains(Lower(currentUrl), UrlMarkers[k])) ||
      (exists k :: 0 <= k < |LoginKeywords| && Contains(Lower(Take(bodyText, TextWindow)), LoginKeywords[k]))
  {
    ContainsAnyIff(Lower(currentUrl), UrlMarkers);
    ContainsAnyIff(BodyProbe(bodyText), LoginKeywords);
  }

  /** A URL that mentions the identity provider, a sign-in or a login path, in
      any letter case, is a login screen whatever the page says. */
  lemma LoginByUrl(currentUrl: string, bodyText: string, marker: string)
    requires marker in UrlMarkers
    requires Contains(Lower(currentUrl), marker)
    ensures IsLoginScreen(currentUrl, bodyText)
  {
    var k :| 0 <= k < |UrlMarkers| && UrlMarkers[k] == marker;
    ContainsAnyIff(Lower(currentUrl), UrlMarkers);
  }

  /** A URL containing the identity provider's domain, as written, is a login
      screen regardless of the page text. */
  lemma LoginByProviderUrl(currentUrl: string, bodyText: string)
    requires Contains(currentUrl, "accounts.google.com")
    ensures IsLoginScreen(currentUrl, bodyText)
  {
    LowerKeepsContains(currentUrl, "accounts.google.com");
    assert Lower("accounts.google.com") == "accounts.google.com";
    LoginByUrl(currentUrl, bodyText, "accounts.google.com");
  }

  /** Any phrase of the first 3000 characters that lower-cases to a keyword
      ("Sign In", "ACCESS DENIED", ...) makes the page a login screen,
      whatever the URL. */
  lemma LoginByText(currentUrl: string, bodyText: string, phrase: string)
    requires Lower(phrase) in LoginKeywords
    requires Contains(Take(bodyText, TextWindow), phrase)
    ensures IsLoginScreen(currentUrl, bodyText)
  {
    LowerKeepsContains(Take(bodyText, TextWindow), phrase);
    var k :| 0 <= k < |LoginKeywords| && LoginKeywords[k] == Lower(phrase);
    ContainsAnyIff(BodyProbe(bodyText), LoginKeywords);
  }

  /** Only the first 3000 characters count: two pages that agree on them get
      the same verdict. */
  lemma OnlyWindowMatters(currentUrl: string, a: string, b: string)
    requires Take(a, TextWindow) == Take(b, TextWindow)
    ensures IsLoginScreen(currentUrl, a) == IsLoginScreen(currentUrl, b)
  {
  }

  /** The keyword "login" subsumes "faça login" and "fazer login": a page
      caught by either is also caught by "login" alone. */
  lemma LoginKeywordSubsumes(bodyText: string)
    requires Contains(BodyProbe(bodyText), "faça login") || Contains(BodyProbe(bodyText), "fazer login")
    ensures Contains(BodyProbe(bodyText), "login")
  {
    var s := BodyProbe(bodyText);
    if Contains(s, "faça login") {
      assert OccursAt("faça login", "login", 5);
      ContainsFromOccurrence("faça login", "login", 5);
      ContainsTransitive(s, "faça login", "login");
    } else {
      assert OccursAt("fazer login", "login", 6);
      ContainsFromOccurrence("fazer login", "login", 6);
      ContainsTransitive(s, "fazer login", "login");
    }
  }
}
