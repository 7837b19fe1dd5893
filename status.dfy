/** `GET /status`: what the cookie file says about the readiness to capture. */
module StatusRoute {
  import opened Cookies
  import opened Seqs

  /** The three JSON shapes the route answers with. */
  datatype StatusBody =
    | FileMissing(error: string)
    | ReadFailed(error: string)
    | Counted(authenticated: bool, totalCookies: nat, validCookies: nat, status: string)
  {
    /** The `authenticated` field, present in every shape. */
    predicate Authenticated() {
      Counted? && authenticated
    }

    /** The `cookiesFile` field: false only when the file does not exist. */
    predicate CookiesFile() {
      !FileMissing?
    }
  }

  const MissingFileError := "cookies.json não encontrado"
  const ReadyStatus := "✅ Pronto para captura"
  const ExpiredStatus := "❌ Cookies expirados"

  /** The route's answer for a cookie file read at time `now`. */
  function Status(file: CookieFile, now: real): StatusBody {
    match file
    case Missing => FileMissing(MissingFileError)
    case Unreadable(message) => ReadFailed(message)
    case Loaded(cookies) =>
      var valid := ValidCookies(cookies, now);
      Counted(|valid| > 0, |cookies|, |valid|, if |valid| > 0 then ReadyStatus else ExpiredStatus)
  }

  /** The counts agree with the cookie store: the total is the number of
      saved entries, the valid count is the number of them that pass the
      expiry rule (so never more than the total), the session is reported
      authenticated exactly when some cookie is valid, which is exactly when
      the valid count is positive, and the status text follows the same test. */
  lemma StatusCounts(file: CookieFile, now: real)
    requires file.Loaded?
    ensures var s := Status(file, now);
      && s.Counted?
      && s.totalCookies == |file.cookies|
      && s.validCookies == CountWhere(file.cookies, c => IsValid(c, now))
      && s.validCookies <= s.totalCookies
      && (s.Authenticated() <==> exists c :: c in file.cookies && IsValid(c, now))
      && (s.Authenticated() <==> s.validCookies > 0)
      && (s.status == ReadyStatus <==> s.Authenticated())
      && s.status == (if s.Authenticated() then ReadyStatus else ExpiredStatus)
  {
    ValidCookiesSpec(file.cookies, now);
    var valid := ValidCookies(file.cookies, now);
    if |valid| > 0 {
      assert valid[0] in valid;
    }
    if exists c :: c in file.cookies && IsValid(c, now) {
      var c :| c in file.cookies && IsValid(c, now);
      assert c in ValidCookies(file.cookies, now);
    }
  }

  /** Only a missing file is reported with `cookiesFile: false` and the
      not-found message; a file that cannot be read or parsed is reported with
      its error; neither is authenticated. */
  lemma StatusFileFlag(file: CookieFile, now: real)
    ensures Status(file, now).CookiesFile() <==> !file.Missing?
    ensures file.Missing? ==> Status(file, now) == FileMissing(MissingFileError)
    ensures file.Unreadable? ==> Status(file, now) == ReadFailed(file.message)
    ensures !file.Loaded? ==> !Status(file, now).Authenticated()
  {
  }
}
