/** The portal session: the logged-in probe (main.ts:145-149) and the login sequence
    (main.ts:126-143, with setUserLanguage at main.ts:233-235). The session itself lives
    in the request library's cookie jar; here it shows only through the replies. */
module Session {
  import opened JsValues
  import opened JsStrings
  import opened Tokens
  import opened Settings

  /** main.ts:145-149: the portfolio page counts as logged in when its body does not
      contain "login"; a failed request propagates. */
  function IsAuthenticated(portfolio: Res<string>): (r: Res<bool>)
    ensures portfolio.Throw? ==> r == Throw(portfolio.exc)
    ensures portfolio.Ok? ==> r.Ok? && (r.value <==> forall i :: !OccursAt(portfolio.value, "login", i))
  {
    match portfolio
    case Throw(exc) => Throw(exc)
    case Ok(html) => Ok(!Includes(html, "login"))
  }

  /** main.ts:129: the form-encoded login body. Only the e-mail address is percent-encoded. */
  function LoginBody(csrf: string, email: string, password: string): (body: string)
    ensures |body| == |csrf| + |EncodeUriComponent(email)| + |password| + 47
  {
    ("csrf=" + csrf) + "&" + ("selector=login" + "&" + (("email=" + EncodeUriComponent(email))
    + "&" + (("pwd=" + password) + "&" + "loginBtn=Login")))
  }

  /** With a token and a password free of '&', the body holds exactly the five form fields,
      whatever the e-mail address: its encoding never contains '&'. */
  lemma LoginBodyFields(csrf: string, email: string, password: string)
    requires '&' !in csrf && '&' !in password
    ensures Split(LoginBody(csrf, email, password), '&')
            == ["csrf=" + csrf, "selector=login", "email=" + EncodeUriComponent(email),
                "pwd=" + password, "loginBtn=Login"]
  {
    var encoded := EncodeUriComponent(email);
    assert '&' !in encoded by { assert !Unreserved('&'); }
    FieldsSplit("csrf=" + csrf, "selector=login", "email=" + encoded, "pwd=" + password, "loginBtn=Login");
  }

  /** Five separator-free fields joined by '&' split back into those fields. */
  lemma FieldsSplit(f1: string, f2: string, f3: string, f4: string, f5: string)
    requires '&' !in f1 && '&' !in f2 && '&' !in f3 && '&' !in f4 && '&' !in f5
    ensures Split(f1 + ['&'] + (f2 + ['&'] + (f3 + ['&'] + (f4 + ['&'] + f5))), '&') == [f1, f2, f3, f4, f5]
  {
    SplitWithoutSeparator(f5, '&');
    SplitAfterPiece(f4, '&', f5);
    SplitAfterPiece(f3, '&', f4 + ['&'] + f5);
    SplitAfterPiece(f2, '&', f3 + ['&'] + (f4 + ['&'] + f5));
    SplitAfterPiece(f1, '&', f2 + ['&'] + (f3 + ['&'] + (f4 + ['&'] + f5)));
  }

  /** The password goes into the body unencoded: one containing '&' is cut at it, so no
      field of the body carries the whole password. */
  lemma PasswordWithAmpersandIsCut(csrf: string, email: string, password: string)
    requires '&' in password
    ensures forall k :: 0 <= k < |Split(LoginBody(csrf, email, password), '&')| ==>
              Split(LoginBody(csrf, email, password), '&')[k] != "pwd=" + password
  {
    var body := LoginBody(csrf, email, password);
    SplitPiecesFree(body, '&');
    var i :| 0 <= i < |password| && password[i] == '&';
    assert ("pwd=" + password)[i + 4] == '&';
  }

  /** The replies the login sequence awaits, in order: the front page for the language
      token, the language change, the front page for the login form, the login post,
      and the portfolio probe. */
  datatype LoginReplies = LoginReplies(
    languagePage: Res<string>,
    languagePost: Res<()>,
    loginPage: Res<string>,
    loginForm: LoginForm,
    loginPost: Res<()>,
    probe: Res<string>)

  /** The body of the login post, if it was sent, and what `login()` settles with. */
  datatype LoginRun = LoginRun(posted: Option<string>, result: Res<bool>)

  /** main.ts:126-143: set the language (main.ts:233-235), read the login form's token,
      post the credentials, and report the probe that follows. */
  function Login(cfg: Config, r: LoginReplies): (run: LoginRun)
    ensures run.posted.Some? ==> LanguageCsrf(r.languagePage).Ok? && r.languagePost.Ok?
    ensures run.posted.Some? ==>
              && LoginCsrf(r.loginPage, r.loginForm).Ok?
              && run.posted.value == LoginBody(LoginCsrf(r.loginPage, r.loginForm).value, cfg.email, cfg.password)
    ensures r.languagePage.Ok? && (forall k, e :: !CaptureAt(r.languagePage.value, k, e)) ==>
              run == LoginRun(None, Throw(TypeError))
    ensures LanguageCsrf(r.languagePage).Ok? && r.languagePost.Ok? && r.loginPage.Ok?
            && LoginCsrf(r.loginPage, r.loginForm).Throw? ==>
              run.posted.None? && run.result.Throw? && CodeOf(run.result.exc).None?
    ensures run.posted.None? ==> run.result.Throw?
    ensures run.result.Ok? ==>
              && run.posted.Some? && r.loginPost.Ok? && r.probe.Ok?
              && (run.result.value <==> !Includes(r.probe.value, "login"))
    ensures run.posted.Some? && r.loginPost.Ok? ==> run.result == IsAuthenticated(r.probe)
    ensures LanguageCsrf(r.languagePage).Throw? ==> run == LoginRun(None, Throw(LanguageCsrf(r.languagePage).exc))
    ensures LanguageCsrf(r.languagePage).Ok? && r.languagePost.Throw? ==>
              run == LoginRun(None, Throw(r.languagePost.exc))
    ensures LanguageCsrf(r.languagePage).Ok? && r.languagePost.Ok? && LoginCsrf(r.loginPage, r.loginForm).Throw? ==>
              run == LoginRun(None, Throw(LoginCsrf(r.loginPage, r.loginForm).exc))
    ensures LanguageCsrf(r.languagePage).Ok? && r.languagePost.Ok? && LoginCsrf(r.loginPage, r.loginForm).Ok? ==>
              && run.posted == Some(LoginBody(LoginCsrf(r.loginPage, r.loginForm).value, cfg.email, cfg.password))
              && run.result == (if r.loginPost.Ok? then IsAuthenticated(r.probe) else Throw(r.loginPost.exc))
  {
    match LanguageCsrf(r.languagePage)
    case Throw(exc) => LoginRun(None, Throw(exc))
    case Ok(_) =>
      match r.languagePost
      case Throw(exc) => LoginRun(None, Throw(exc))
      case Ok(_) =>
        match LoginCsrf(r.loginPage, r.loginForm)
        case Throw(exc) => LoginRun(None, Throw(exc))
        case Ok(csrf) =>
          var body := LoginBody(csrf, cfg.email, cfg.password);
          match r.loginPost
          case Throw(exc) => LoginRun(Some(body), Throw(exc))
          case Ok(_) => LoginRun(Some(body), IsAuthenticated(r.probe))
  }
}
