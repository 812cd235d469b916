/**
 * The single route "/" of the web form: the strength rule applied to the
 * loaded blocklist, and the choice of the view the request gets.
 * HTTP, form decoding and template rendering are not modelled; a request is
 * its method and form fields, a view is the template with its arguments.
 */
module App {
  import opened Wrappers
  import opened Lines
  import opened Blocklist
  import opened Strength

  /** The request methods the route accepts; a POST carries its form fields. */
  datatype Request = Get | Post(form: map<string, string>)

  /**
   * What the route answers: the form page, with or without an error message;
   * the welcome page showing the accepted password; or the error response to
   * a POST without a "password" field (the `KeyError` from the form lookup:
   * HTTP 400 normally, the debugger's HTTP 500 page under `debug=True`).
   */
  datatype View = Home(error: Option<string>) | Welcome(password: string) | BadRequest

  /** The error message shown for a rejected password. */
  const NotValid: string := "Password not valid"

  /** Name of the form field that carries the candidate. */
  const PasswordField: string := "password"

  /**
   * `home`: a GET shows the empty form; a POST shows the welcome page for a
   * strong password, the form with NotValid for a weak one, and fails with
   * the error response when the password field is missing.
   */
  function HandleHome(request: Request, blocklist: set<string>): (view: View)
    ensures request.Get? ==> view == Home(None)
    ensures view.BadRequest? <==> request.Post? && PasswordField !in request.form
    ensures view.Welcome? <==>
      && request.Post? && PasswordField in request.form
      && IsStrong(request.form[PasswordField], blocklist)
    ensures view.Welcome? ==> view.password == request.form[PasswordField]
    ensures view == Home(Some(NotValid)) <==>
      && request.Post? && PasswordField in request.form
      && !IsStrong(request.form[PasswordField], blocklist)
  {
    match request
    case Post(form) =>
      if PasswordField !in form then BadRequest
      else
        var password := form[PasswordField];
        if IsStrong(password, blocklist) then Welcome(password)
        else Home(Some(NotValid))
    case Get => Home(None)
  }

  /** A GET never consults the strength rule: its view is the same under every blocklist. */
  lemma GetIgnoresBlocklist(b1: set<string>, b2: set<string>)
    ensures HandleHome(Get, b1) == HandleHome(Get, b2) == Home(None)
  {
  }

  /**
   * A POST's view depends on the blocklist only through the verdict on the
   * submitted password.
   */
  lemma PostDependsOnVerdictOnly(form: map<string, string>, b1: set<string>, b2: set<string>)
    requires PasswordField in form
    requires IsStrong(form[PasswordField], b1) == IsStrong(form[PasswordField], b2)
    ensures HandleHome(Post(form), b1) == HandleHome(Post(form), b2)
  {
  }

  /**
   * The verdict against a list file written one entry per line: strong
   * exactly when long enough and not one of the file's entries.
   */
  lemma VerdictAgainstListFile(password: string, entries: seq<string>)
    requires forall i :: 0 <= i < |entries| ==> NoBreak(entries[i])
    ensures IsStrong(password, LoadBlocklist(JoinLines(entries)))
        <==> |password| >= MinLength && password !in entries
  {
    LoadJoined(entries);
  }

  /**
   * A candidate that holds a line boundary can match no entry of a loaded
   * blocklist, so for it only the length rule applies.
   */
  lemma BrokenCandidateNeverBlocklisted(password: string, text: string)
    requires !NoBreak(password)
    ensures IsStrong(password, LoadBlocklist(text)) <==> |password| >= MinLength
  {
  }

  /** The home-page scenario: a GET shows the form without an error. */
  lemma HomePageScenario(blocklist: set<string>)
    ensures HandleHome(Get, blocklist).Home?
    ensures HandleHome(Get, blocklist).error.None?
  {
  }

  /** The strong-password scenario: submitting "5TrongP@ssw0rd" shows the welcome page with it. */
  lemma StrongPasswordScenario(blocklist: set<string>)
    requires "5TrongP@ssw0rd" !in blocklist
    ensures HandleHome(Post(map[PasswordField := "5TrongP@ssw0rd"]), blocklist)
         == Welcome("5TrongP@ssw0rd")
  {
  }

  /** The weak-password scenario: submitting "password" shows the form with NotValid. */
  lemma WeakPasswordScenario(blocklist: set<string>)
    ensures HandleHome(Post(map[PasswordField := "password"]), blocklist)
         == Home(Some(NotValid))
  {
  }
}
