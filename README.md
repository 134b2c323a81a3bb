# United-Domains updater — a Dafny model of its decision layer

The updater keeps a domain's A and AAAA records at united-domains.de in line with the
machine's public IPv4 and IPv6 addresses. The provider has no API, so the updater drives
the customer web portal like a browser. It probes `/portfolio` to learn whether the
session cookie is still logged in. It logs in with the form token scraped from the front
page. It reads the domain list and the record sets, and it writes a record with a PUT
that carries the CSRF token inlined in the front page's script. A timer fires `update`
every `update interval` milliseconds. Two module-level variables, `busy` and `wait`, gate
each tick and pace retries.

This project models that decision layer in Dafny. Every network call is replaced by its
settled outcome: a value or a thrown value (`JsValues.Res`). Those outcomes are the
inputs of the model.

- `JsValues`: `undefined`-able values, thrown values (only network errors carry a
  `code`), awaited outcomes.
- `JsStrings`: the JavaScript string operations the code relies on: line terminators
  (what `.` refuses), `includes`, `encodeURIComponent` (UTF-8 percent-encoding); and
  `split`, used to state the labels of a name and the fields of the login body.
- `DomainName`: the start-up split of the configured name by `/^(.*?)\..+?\..*?$/`,
  with lazy matching and line terminators modelled exactly.
- `Tokens`: the inline-JSON CSRF capture `/"CSRF_TOKEN":"(.+)","AJAX_TOKEN"/`
  (leftmost start, greedy group) and the login form's token check.
- `Session`: the logged-in probe, the login body and the login sequence.
- `Records`: `Array.prototype.find`, `getDomainID` with its re-entry flag, the A/AAAA
  record lookups and `setIP` with its payload.
- `Reconcile`: the `try` block of `update` as a function of the tick's replies; the
  tick gate and the `catch` handler as a function of `busy`/`wait`; lemmas over many
  ticks.
- `UpdaterState.Updater`: a class holding `config`, `subDomain`, `busy` and `wait`. Its
  constructor is the start-up code. Its `Update` method is the timer callback, which
  updates `busy` and `wait` in place.

The model keeps the code's quirks, and proves them:
- While `busy` is stuck, `wait` falls by one per tick, below zero once the ticks outnumber its starting value.
- The re-entry of `getDomainID` after a successful login always throws.
- A thrown value without a `code` makes the `catch` handler itself throw, so `busy`
  stays true and no later tick does any work.
- The password goes into the login body unencoded.
- An exception while writing the A record also skips the AAAA write.

## Model

| member | source | states |
|---|---|---|
| `JsValues.CodeOf` | main.ts:80 | only network and lookup failures carry a `code`; a request error's code is its own, a lookup failure's code is its own (possibly absent) |
| `JsStrings.Includes` | main.ts:148 | true exactly when the substring occurs at some position |
| `JsStrings.IncludesFrom` | main.ts:148 | the left-to-right search finds an occurrence at or after `from` exactly when one exists |
| `JsStrings.EncodeUriComponent` | main.ts:129 | output holds only unreserved characters and `%`, is at least as long as the input, and equals it when the input is all unreserved |
| `DomainName.LazyGroupEnd` | main.ts:23 | the lazy group ends at the first position from which the rest of the pattern matches, and at no earlier one |
| `DomainName.MatchEnd` | main.ts:23 | the match exists exactly when the name has no line terminator and some dot is followed, two or more places on, by another dot; the group ends at the first such dot |
| `DomainName.SubDomainOf` | main.ts:23 | "" when the name has a line terminator; a non-empty result is a dot-free prefix of the name followed by a dot |
| `DomainName.BaseNameOf` | main.ts:25 | with a non-empty sub-domain, sub-domain + "." + result == configured name; otherwise the name is unchanged |
| `DomainName.SubDomainIsFirstLabel` | main.ts:23-25 | a non-empty sub-domain is the first label; sub-domain + "." + rewritten name == configured name; the rewritten name's labels are the remaining labels |
| `DomainName.ThreeLabelsSplit` | main.ts:23-25 | a name with three or more labels (first two non-empty, no line terminator) loses exactly its first label to the sub-domain |
| `DomainName.FewLabelsUnchanged` | main.ts:23-25 | with fewer than three labels the sub-domain is "" and the name is left unchanged |
| `Tokens.LongestEnd` | main.ts:110 | greedy backtracking returns the largest group end up to the bound, or none exists |
| `Tokens.LeftmostFrom` | main.ts:110 | returns the leftmost start with a match and, there, the longest group; `None` when no start matches |
| `Tokens.LanguageCsrf` | main.ts:107-111 | succeeds exactly when the markers match; the token is non-empty, has no line terminator, and is the leftmost-longest capture; otherwise a TypeError (no `code`) |
| `Tokens.LoginCsrf` | main.ts:96-105 | a non-empty `value` attribute is returned as the token, and no empty token is ever returned; a missing or empty attribute throws 'cant get csrf', a missing node a TypeError |
| `Session.IsAuthenticated` | main.ts:145-149 | logged in exactly when "login" occurs nowhere in the portfolio body; a failed request propagates |
| `Session.LoginBody` | main.ts:129-136 | the body's length, sent as its Content-Length, is the token's, the encoded e-mail's and the password's lengths plus 47 for the fixed field names and separators; `LoginBodyFields` splits it back into its five fields |
| `Session.LoginBodyFields` | main.ts:129 | with '&'-free token and password the body splits on '&' into exactly the five fields csrf, selector, encoded email, pwd, loginBtn |
| `Session.PasswordWithAmpersandIsCut` | main.ts:129 | a password containing '&' appears in no field of the body |
| `Session.Login` | main.ts:126-143 | a language-token, language-post or form-token failure throws that failure and posts nothing; when all three succeed the body built from the form token is posted, and the result is the post's throw or else the post-login probe's verdict |
| `Records.FindIndex` | main.ts:123 | the first position whose element satisfies the predicate, or none satisfies it |
| `Records.Find` | main.ts:197 | the first satisfying element, `None` exactly when none satisfies it |
| `Records.GetDomainId` | main.ts:113-124 | the re-entry throws 'not authenticated'; logged out plus a refused login gives `undefined`; logged in with an entry for config.domain.name gives the id of the first such entry, and with none a TypeError; probe, login and list throws propagate |
| `Records.GetDomainRecord` | main.ts:192-206 | logged out gives `undefined`; a found record is the first of its type whose domain matches; probe, domain-id and records throws propagate |
| `Records.CurrentAddress` | main.ts:208-214 | `?.address`: a lookup throw propagates, no record gives `undefined`, a found record gives its `address` |
| `Records.ExistingId` | main.ts:156 | `id \|\| null`: the found record's id, `null` for no record or id 0 |
| `Records.SetIP` | main.ts:151-190 | an undefined domain id throws 'domainID undefined' before any PUT; a domain-id, record-lookup or token throw propagates with no PUT; when all three succeed the PUT is sent, with payload address, A/AAAA by the flag, sub-domain, domain = filter_value = config name, ttl, id = formId = existing id or null; the PUT's status is never thrown |
| `Reconcile.ReadAddresses` | main.ts:61-66 | the four reads in order: the first that throws decides the result, and when none throws the result holds the desired addresses and the `address` of the records found |
| `Reconcile.WriteV6` | main.ts:75-78 | one AAAA `setIP` call exactly when v6 differs, with the desired v6 address; a throw of that call ends the block with that very value |
| `Reconcile.WriteBoth` | main.ts:68-78 | A written iff v4 differs; AAAA iff v6 differs and no A write threw; A before AAAA, each at most once; a throw ends the block with the last call's own thrown value |
| `Reconcile.Proceed` | main.ts:61-78 | a failed read ends the tick with its throw and no write; otherwise the writes follow the addresses read |
| `Reconcile.Differs` | main.ts:70-75 | `ip !== recorded`: true when no record was found or its address is another one |
| `Reconcile.Cycle` | main.ts:48-78 | probe first; a probe or login throw ends the cycle with it and no write; LoginRejected exactly when logged out and login resolves false; writes only after authentication and successful reads; the A/AAAA drift rule; at most two writes, A first; a write's throw is the cycle's end |
| `Reconcile.Tick` | main.ts:41-84 | a gated tick only decrements `wait`; otherwise `busy` stays set only for a code-less throw, `wait` becomes 5 after a refused login or a TIMEDOUT code, else stays |
| `Reconcile.Proceeds` | main.ts:41 | a tick does work exactly when neither `busy` nor `wait > 0` holds |
| `Reconcile.TimedOut` | main.ts:80 | only a request or lookup failure can count as timed out, exactly when its `code` contains "TIMEDOUT" |
| `Reconcile.Run` | main.ts:238 | over n consecutive ticks `wait` falls by at most n, and a set `busy` stays set |
| `Reconcile.BusyStaysStuck` | main.ts:41-44 | while `busy` holds, n ticks leave `busy` set and lower `wait` by exactly n |
| `Reconcile.CountDown` | main.ts:41-44 | with `busy` clear and `wait` ≥ n, n ticks only count `wait` down by n |
| `Reconcile.BackOffFiveTicks` | main.ts:41-84 | after a refused login or a timeout the next five ticks are skipped and the sixth works |
| `Reconcile.CodelessThrowWedges` | main.ts:79-84 | after a throw without `code`, no later tick ever works again |
| `Reconcile.LoginRejectedReadsNothing` | main.ts:49-56 | a refused login depends on nothing but the probe and login replies and writes nothing |
| `Reconcile.NoDriftNoWrite` | main.ts:70-78 | matching published addresses mean no `setIP` call and a normal end |
| `Reconcile.OnlyARecordDrifted` | main.ts:70-78 | desired 203.0.113.9 / 2001:db8::1 against published 203.0.113.1 / 2001:db8::1 writes only the A record, with 203.0.113.9 |
| `Reconcile.LapsedSessionWedges` | main.ts:113-117 | a session lost before the record lookup, with re-login succeeding, ends the tick in 'not authenticated' and leaves `busy` set |
| `Reconcile.MissingLoginTokenWedges` | main.ts:96-105 | a login form without a token makes the tick raise 'cant get csrf' and leaves `busy` set |
| `Reconcile.UndefinedDomainIdWedges` | main.ts:151-154 | a drifted A record whose `setIP` finds no domain id makes the tick raise 'domainID undefined' and leaves `busy` set |
| `UpdaterState.Updater.constructor` | main.ts:20-25 | `busy` false, `wait` 0; sub-domain split off and the name rewritten to the remainder after its dot |
| `UpdaterState.Updater.Update` | main.ts:40-85 | new `busy`/`wait` are `Tick` of the old ones and the cycle's end; the `setIP` calls are the cycle's when the tick proceeds, none otherwise |

## Left out

- HTTP transport (`asyncRequest`, the request library's cookie jar, gzip, per-request timeout; main.ts:5-7, 87-94): every reply is an input outcome.
- Public-address discovery (`v4()`, `v6()` of public-ip): their results are input outcomes, opaque strings.
- HTML parsing with node-html-parser in `getLoginCSRF`: the node it finds is an input (`Tokens.LoginForm`); only the checks on it are modelled.
- `JSON.parse` of the domain list and record sets and `JSON.stringify` of the payload: replies arrive as parsed sequences, and the payload is a datatype. A parse failure is a thrown reply.
- `setInterval` timing and async interleaving: ticks are sequential `Update` calls, so no tick ever observes another tick's `busy = true` mid-flight.
- What Node.js does with the promise the failing `catch` handler rejects (a warning or process exit, depending on the runtime's unhandled-rejection policy): the model stops at "`busy` stays true".
- Console logging, the static browser headers (main.ts:27-37) and `Content-Length`.
- The `language=de` body of the language POST and the token header it carries: `Session.Login` only requires them to succeed.
- JavaScript numbers: ids and the TTL are unbounded integers; a NaN id is not modelled.
- `encodeURIComponent`'s URIError for lone UTF-16 surrogates: Dafny strings cannot hold them.
- Records.GetDomainRecord: does not expose the domain id that goes into the records URL, including the literal "undefined" it takes when that lookup returns `undefined`.
