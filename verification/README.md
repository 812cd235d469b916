# Password-strength web form, modelled in Dafny

The system is a one-page Flask application. At start-up it reads a list of
common passwords ("top 1000"), one per line, into a set. Its single route `/`
shows a password form on GET. On POST it judges the submitted password with
`is_password_strong` and renders either a welcome page that echoes the
password or the form again with the error "Password not valid". A password is
strong when it has at least 10 characters and is not, verbatim, in the set.

The model is five modules of pure functions:

- `Wrappers` (wrappers.dfy): `Option`, for the error the form page may carry.
- `Lines` (lines.dfy): Python's `str.splitlines()`, with its full set of line
  boundaries (`\n`, `\r`, `\r\n` as one boundary, `\v`, `\f`, `\x1c`, `\x1d`,
  `\x1e`, `\x85`, `\u2028`, `\u2029`). Its partners are the one-entry-per-line
  writer `JoinLines`, which it inverts, and the per-line terminators
  `Terminators`, with which the lines spell the text out again.
- `Blocklist` (blocklist.dfy): `set(text.splitlines())`, the start-up load.
  The model starts from the file's text.
- `Strength` (strength.dfy): `is_password_strong`, with the blocklist as a
  parameter instead of a global, so that its properties hold for every
  blocklist.
- `App` (app.dfy): `home` as a function from an abstract
  request (`Get` or `Post(form)`) to an abstract view (`Home(error)`,
  `Welcome(password)`, or `BadRequest` for a POST without a `password` field).
  `BadRequest` is the error response to the failed `request.form['password']`
  lookup: HTTP 400 normally, but the debugger's HTTP 500 page when the app is
  started with `debug=True`, as webapp/app.py:29 does.

Loading is a function of the file's text, so loading the same file twice
gives the same set by construction.

A blank line between two entries is kept as the entry `""`, because
`splitlines` keeps it (`BlankLineKept`, `BlankLineLoadsEmptyEntry`); it never
changes a verdict, since the length rule already rejects the empty candidate
(`ShortEntriesIrrelevant`).

## Model

| member | source | states |
|---|---|---|
| Lines.SplitLines | webapp/app.py:9 | `splitlines`: no entry holds a line boundary; the empty text and only it gives no entries; there are never more entries than characters |
| Lines.SplitJoin | webapp/app.py:9 | entries free of boundaries, written one per line with `\n`, split back into exactly the same entries in the same order |
| Lines.TerminatorsWellFormed | webapp/app.py:9 | there is one terminator per entry, each a whole boundary (`\r\n` or one break character) except possibly an empty one after the last entry |
| Lines.SplitLinesReassemble | webapp/app.py:9 | every entry has a terminator, each a whole boundary except possibly an empty one after the last entry, and entries interleaved with terminators give back the original text: splitting drops nothing but the boundaries |
| Lines.SplitLinesAppend | webapp/app.py:9 | splitting is compositional at a line boundary: the lines of `pre + rest` are the lines of `pre` followed by the lines of `rest` (a final `\r` followed by `\n` is not a boundary split) |
| Lines.LineAppears | webapp/app.py:9 | every line of the text, delimited by boundaries or the ends of the text, is an entry of the split, except the empty line after a final boundary |
| Lines.TrailingBreakAddsNoEntry | webapp/app.py:9 | a trailing boundary adds no empty entry: `line + "\n"` splits to `[line]`, as `line` does |
| Lines.TrailingCrLfAddsNoEntry | webapp/app.py:9 | `\r\n` is one boundary: `line + "\r\n"` splits to `[line]`, with no `""` between `\r` and `\n` |
| Lines.BlankLineKept | webapp/app.py:9 | a blank line between two boundaries is kept: `a + "\n\n" + b` splits to `[a, "", b]` |
| Blocklist.LoadBlocklist | webapp/app.py:9 | no blocklist entry holds a line boundary; the blocklist is empty exactly when the file is empty |
| Blocklist.EveryLineLoaded | webapp/app.py:9 | every line of the file is a member of the loaded blocklist |
| Blocklist.LoadJoined | webapp/app.py:9 | a file written one entry per line loads as a set whose members are exactly those entries |
| Blocklist.TrailingNewlineLoadsNoBlank | webapp/app.py:9 | a newline after the last entry adds no `""` member |
| Blocklist.BlankLineLoadsEmptyEntry | webapp/app.py:9 | a blank line between entries makes `""` a member |
| Strength.IsStrong | webapp/app.py:11-16 | fewer than 10 characters: rejected whatever the blocklist; an exact member of the blocklist: rejected whatever its length; otherwise accepted |
| Strength.EmptyBlocklistIsLengthCheck | webapp/app.py:11-16 | with an empty blocklist the verdict is exactly "at least 10 characters" |
| Strength.BlocklistAntitone | webapp/app.py:14-15 | enlarging the blocklist can turn accept into reject but never reject into accept |
| Strength.ShortEntriesIrrelevant | webapp/app.py:12-15 | dropping every blocklist entry shorter than 10 characters changes no verdict |
| Strength.WeakPasswordRejected | webapp/tests/ui/ui_test.py:30-35 | `"password"` is rejected under every blocklist |
| Strength.StrongPasswordAccepted | webapp/tests/ui/ui_test.py:23-28 | `"5TrongP@ssw0rd"` is accepted exactly when it is not in the blocklist |
| Strength.BlocklistedTenCharsRejected | webapp/app.py:14-15 | `"1234567890"` has exactly 10 characters and is still rejected when blocklisted |
| App.HandleHome | webapp/app.py:19-26 | GET gives the form without error; POST without a password field gives the error response (HTTP 400, or the debugger's 500 under `debug=True`); POST gives the welcome page, carrying the submitted password, exactly when the password is strong, and the form with "Password not valid" exactly when it is not |
| App.GetIgnoresBlocklist | webapp/app.py:20-26 | a GET's view is the same under every blocklist, so the strength rule is never consulted for it |
| App.PostDependsOnVerdictOnly | webapp/app.py:20-25 | a POST's view depends on the blocklist only through the verdict on the submitted password |
| App.VerdictAgainstListFile | webapp/app.py:9-16 | against a list file written one entry per line, a password is strong exactly when it has at least 10 characters and is not one of the file's entries |
| App.BrokenCandidateNeverBlocklisted | webapp/app.py:9-16 | a candidate holding a line boundary matches no loaded entry, so only the length rule applies to it |
| App.HomePageScenario | webapp/tests/ui/ui_test.py:17-21 | opening the page shows the form without an error |
| App.StrongPasswordScenario | webapp/tests/ui/ui_test.py:23-28 | submitting `"5TrongP@ssw0rd"` shows the welcome page with that password, when it is not blocklisted |
| App.WeakPasswordScenario | webapp/tests/ui/ui_test.py:30-35 | submitting `"password"` shows the form with "Password not valid" |

## Left out

- Reading the list file (`open`, `file.read()`) and the path it is read from (webapp/app.py:7-8): file-system I/O. The model starts from the file's text. A missing file stops the process at start-up; that is not modelled either.
- Text-mode newline translation done by `open(..., 'r')`, which turns `\r\n` and `\r` into `\n` before `splitlines` sees the text: library I/O behaviour. `SplitLines` treats `\r\n` and `\r` as boundaries itself, so on the untranslated text it cuts at the same places; this equivalence is not proved here.
- The Flask application object, `app.run`, routing and HTML rendering (webapp/app.py:1, 5, 18, 23-29): framework glue. Only the choice of view and its arguments is modelled.
- App.HandleHome: the model does not tell the two error responses apart. A missing `password` field raises `BadRequestKeyError`; Flask turns it into HTTP 400, but under `debug=True` (webapp/app.py:29) it re-raises it and the debugger serves HTTP 500. Both are `BadRequest` here, because the status depends on the server configuration rather than on `home`.
- App.HandleHome: a form is a `map`, one value per field. Flask's form is a multi-dict whose `form['password']` returns the first value of a repeated field; the map stands for that first value.
- App.HandleHome: only GET and POST are modelled. Flask also lets HEAD through to `home`, where it takes the GET branch; it answers OPTIONS itself and refuses other methods with HTTP 405 before `home` runs.
- The unused `import re` (webapp/app.py:2); `os` serves only the file path, which is left out above.
- The Selenium browser tests (webapp/tests/ui/ui_test.py) as code: they drive a live server. Their three scenarios are stated as lemmas about the model.
