/** The two anti-forgery tokens the portal hands out: the one inlined as JSON in the
    front page's script (main.ts:107-111) and the value of the login form's hidden
    field (main.ts:96-105). */
module Tokens {
  import opened JsValues
  import opened JsStrings

  const CsrfOpen: string := "\"CSRF_TOKEN\":\""
  const CsrfClose: string := "\",\"AJAX_TOKEN\""

  /** /"CSRF_TOKEN":"(.+)","AJAX_TOKEN"/ matches `html` from position `k` with its group
      ending at `e`: the opening marker at `k`, one or more characters other than line
      terminators, then the closing marker at `e`. */
  predicate CaptureAt(html: string, k: int, e: int) {
    0 <= k && k + |CsrfOpen| < e && e + |CsrfClose| <= |html|
    && html[k..k + |CsrfOpen|] == CsrfOpen
    && html[e..e + |CsrfClose|] == CsrfClose
    && NoLineTerminator(html[k + |CsrfOpen|..e])
  }

  /** The match the regular expression reports: the leftmost start at which it can match,
      and from there the longest group, because `(.+)` is greedy. */
  ghost predicate IsReportedMatch(html: string, k: int, e: int) {
    CaptureAt(html, k, e)
    && (forall k', e' :: 0 <= k' < k ==> !CaptureAt(html, k', e'))
    && (forall e' :: e < e' ==> !CaptureAt(html, k, e'))
  }

  /** Backtracking of the greedy group: the largest group end not beyond `e`. */
  function LongestEnd(html: string, k: nat, e: nat): (r: Option<nat>)
    ensures r.Some? ==> r.value <= e && CaptureAt(html, k, r.value)
    ensures r.Some? ==> forall x :: r.value < x <= e ==> !CaptureAt(html, k, x)
    ensures r.None? ==> forall x :: 0 <= x <= e ==> !CaptureAt(html, k, x)
    decreases e
  {
    if CaptureAt(html, k, e) then Some(e)
    else if e == 0 then None
    else LongestEnd(html, k, e - 1)
  }

  /** The scan over start positions from `k` on, each tried with the longest group. */
  function LeftmostFrom(html: string, k: nat): (r: Option<(nat, nat)>)
    requires k <= |html|
    ensures r.Some? ==> k <= r.value.0 && CaptureAt(html, r.value.0, r.value.1)
    ensures r.Some? ==> forall e' :: r.value.1 < e' ==> !CaptureAt(html, r.value.0, e')
    ensures r.Some? ==> forall k', e' :: k <= k' < r.value.0 ==> !CaptureAt(html, k', e')
    ensures r.None? ==> forall k', e' :: k <= k' ==> !CaptureAt(html, k', e')
    decreases |html| - k
  {
    if k == |html| then None
    else match LongestEnd(html, k, |html|)
      case Some(e) => Some((k, e))
      case None => LeftmostFrom(html, k + 1)
  }

  /** main.ts:107-111: the group of the match on the front page's body. A body without
      the markers makes `match` give `null`, and reading `[1]` of it throws a TypeError. */
  function LanguageCsrf(page: Res<string>): (r: Res<string>)
    ensures page.Throw? ==> r == page
    ensures page.Ok? ==> (r.Ok? <==> exists k, e :: CaptureAt(page.value, k, e))
    ensures page.Ok? && r.Throw? ==> r.exc == TypeError
    ensures r.Ok? ==> r.value != "" && NoLineTerminator(r.value)
    ensures r.Ok? ==> exists k, e :: IsReportedMatch(page.value, k, e)
                                     && r.value == page.value[k + |CsrfOpen|..e]
  {
    match page
    case Throw(exc) => Throw(exc)
    case Ok(html) =>
      match LeftmostFrom(html, 0)
      case None => Throw(TypeError)
      case Some((k, e)) =>
        assert IsReportedMatch(html, k, e);
        Ok(html[k + |CsrfOpen|..e])
  }

  /** What the HTML parser finds for `querySelector('#login-form-1').childNodes[1]`:
      nothing (the form or its second child is missing), or that node's `value`
      attribute, itself possibly absent. */
  datatype LoginForm = NoLoginForm | LoginField(value: Option<string>)

  /** main.ts:96-105: the login form's token. A missing node throws a TypeError when it
      is read; a missing or empty attribute throws the string 'cant get csrf'. */
  function LoginCsrf(page: Res<string>, form: LoginForm): (r: Res<string>)
    ensures page.Throw? ==> r == page
    ensures r.Ok? ==> r.value != "" && form == LoginField(Some(r.value))
    ensures page.Ok? && form.LoginField? && form.value in {None, Some("")} ==>
              r == Throw(ThrownString("cant get csrf"))
    ensures page.Ok? && form.NoLoginForm? ==> r == Throw(TypeError)
    ensures page.Ok? && form.LoginField? && form.value.Some? && form.value.value != "" ==>
              r == Ok(form.value.value)
  {
    match page
    case Throw(exc) => Throw(exc)
    case Ok(_) =>
      match form
      case NoLoginForm => Throw(TypeError)
      case LoginField(None) => Throw(ThrownString("cant get csrf"))
      case LoginField(Some(csrf)) =>
        if csrf == "" then Throw(ThrownString("cant get csrf")) else Ok(csrf)
  }
}
