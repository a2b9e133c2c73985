# NotAPI request core, modelled in Dafny

NotAPI answers `GET /api/:api` for four features: morse encoding, roman
numerals, a SpamWatch ban lookup and a Genius lyrics search. Each answer is
also copied to the operator's Telegram chat. This project models the part of
`api/index.js` that decides what goes back and what gets reported:

- **Features** (`features.dfy`): `NotAPI`. It picks the feature, assigns the
  `input`/`result`/`error`/song fields, spreads the ban record over
  `{error: ""}` and sets `is_api`. The outside services are given as function
  parameters (`Providers`). The field object is an insertion-ordered list of
  key/value pairs (`dict.dfy`). It has JavaScript's assignment (`Put`) and
  spread (`Spread`), with proofs of how each orders and overrides keys.
- **Audit** (`audit.dfy`): `notify`. It builds the HTML user block and
  chooses between an inline `sendMessage` and a `sendDocument` attachment at
  4096 characters. It strips the tags with `/<[^>]*>/g` and names the file
  with `+ip.split("").filter(parseInt).join("") + ".txt"`. That last
  expression passes each character's index to `parseInt` as the radix, and
  the model captures this.
- **Urls** (`urls.dfy`): `getURL` and `WEBHOOK_URL`, including the slash
  strip, the lower-casing and ECMAScript's `trim`.
- **Blacklist** (`blacklist.dfy`): the `IP_BLACKLIST`/`UA_BLACKLIST`
  environment parsing, `split(" ").filter(Boolean)`.
- **Gate** (`gate.dfy`): the `/api/:api` route. It checks the user-agent
  blacklist (403), then the address blacklist (handed on), then runs NotAPI.
  A recognized request is notified and answered with JSON; anything else is
  redirected home.
- `strings.dfy` and `wrappers.dfy` hold the string operations (ECMAScript
  white space, ASCII case mapping, substring search) and `Option`.

Two behaviours of the code are worth stating up front:

- The morse and romans branches never set an `error` key. Only the
  SpamWatch and lyrics branches do (`Features.TextFeatureKeys`).
- A request with both `en` and `de` assigns the same two keys twice, so the
  decode pair replaces the encode pair (`Features.DecodeOverwritesEncode`).

## Model

| member | source | states |
|---|---|---|
| Dict.Put | api/index.js:180 | `data[k] = v`: the key order is unchanged when k is present and gets k appended otherwise; a new key adds exactly `(k, v)` at the end |
| Dict.PutGet | api/index.js:180 | after `data[k] = v`, reading k gives v and every other key reads as before |
| Dict.PutAt | api/index.js:190 | assigning a key that is already present replaces its value in place, at its first position |
| Dict.PutKeepsUnique | api/index.js:250-254 | assignment never duplicates a key |
| Dict.SpreadKeys | api/index.js:236 | `{...d, ...e}` keeps d's keys in order, then appends e's keys that d lacks, in e's order |
| Dict.SpreadGet | api/index.js:236 | in `{...d, ...e}`, e's value wins every key it has; d's value is kept for the rest |
| Dict.SpreadKeepsUnique | api/index.js:236 | spreading objects with distinct keys gives distinct keys |
| Features.ConvertText | api/index.js:177-221 | `is_api` is true iff `en` or `de` is non-empty; the fields are the `de` pair if `de` is given, else the `en` pair, else none; a thrown conversion reports its message as `result` |
| Features.CheckBan | api/index.js:223-241 | the fields are the ban record spread over `{error: ""}`, or `{error: message}` on failure |
| Features.SearchLyrics | api/index.js:243-259 | the fields are error "" and the song's title, artist, url and lyrics in that order, or `{error: message}` on failure |
| Features.NotApi | api/index.js:170-261 | `is_api` holds iff the feature is one of the four and its parameter is non-empty; the data is that feature's fields, and empty otherwise |
| Features.OverwritePair | api/index.js:188-197 | assigning `input` then `result` to an empty object, or to one that holds just that pair, leaves exactly the new pair |
| Features.UnrecognizedIsEmpty | api/index.js:170-174 | an unknown feature, or a known one without its parameter, gives an empty object |
| Features.TextFeatureKeys | api/index.js:177-221 | morse and romans never set `error`; their keys are exactly `input`, `result` when recognized, and none otherwise |
| Features.DecodeOverwritesEncode | api/index.js:188-197 | with `de` given, `input` is `de` and the encoder's outcome cannot affect the answer |
| Features.ThrownMessageIsResult | api/index.js:191-196 | a throwing morse decode puts its message under `result`, with no `error` key |
| Features.LookupFailureIsOnlyError | api/index.js:237-238 | a failed SpamWatch or Genius lookup gives exactly `{error: message}` |
| Features.LyricsSuccessKeys | api/index.js:250-254 | a found song gives keys error, title, artist, url, lyrics in that order, with error "" |
| Features.BanRecordWins | api/index.js:234-236 | a found ban record gives `error` first, then the record's other keys in order; the record wins every shared key, including `error` |
| Audit.UserBlockSnoc | api/index.js:330-332 | each loop step appends that entry's `<b>KEY:</b> <code>value</code>` line |
| Audit.BuildUserBlock | api/index.js:328-332 | the loop yields one line per requestor field, in entry order |
| Audit.StripTags | api/index.js:337 | stripping never lengthens the text or introduces a character |
| Audit.StripTagsLeavesNoTag | api/index.js:337 | after stripping, no `>` follows any remaining `<` |
| Audit.StripUserBlock | api/index.js:337 | when no key or value holds `<`, the stripped block is one `KEY: value` line per field |
| Audit.ParseIntChar | api/index.js:338 | `parseInt(c, radix)` yields c's digit value exactly when c is an ASCII digit or letter, the radix (0 read as 10) is in 2..36, and the value is below the radix; otherwise NaN |
| Audit.KeptSnoc | api/index.js:338 | `filter(parseInt)` judges each character by its own index used as the radix |
| Audit.KeptChars | api/index.js:338 | every kept character is a digit or letter of the address, and never `0` |
| Audit.FirstTwoIndices | api/index.js:338 | index 0 keeps only 1-9 (radix 10); index 1 (radix 1) keeps nothing |
| Audit.Kept | api/index.js:338 | `ip.split("").filter(parseInt).join("")` is no longer than the address, and every kept character is one of the address's and never `0` |
| Audit.AttachmentName | api/index.js:338 | whenever a name is given it ends in `.txt`, and an address that keeps no character is named `0.txt` |
| Audit.DecimalAddressName | api/index.js:338 | whenever the kept characters are at most 15 decimal digits, whatever the address, the file name is those digits, or `0` when none is kept, followed by `.txt`; each kept digit is 1-9 |
| Audit.DottedAddressName | api/index.js:338 | an address of digits and dots no longer than an IPv4 address is named by its kept digits, or `0`, followed by `.txt` |
| Audit.KeptAppend | api/index.js:338 | the characters of a concatenation are judged at their own indices, so the kept parts concatenate |
| Audit.ExampleAddressName | api/index.js:338 | the address `203.0.113.5` gives the file name `21135.txt` |
| Audit.MappedAddressName | api/index.js:338 | the IPv4-mapped address `::ffff:203.0.113.5` gives the file name `231135.txt`: the prefix keeps nothing and the later digits are read in larger radices |
| Audit.Notify | api/index.js:327-354 | as written: a result under 4096 characters is sent inline in `<pre>` above the user block; otherwise a document of the result and the stripped block is sent, named from the address; nothing is sent without an address; at most one request is made |
| Audit.SentAsWritten | api/index.js:333-353 | notify as written makes at most one request |
| Audit.NotifyReporting | api/index.js:333-353 | as intended: like notify, but a failed or unbuildable request is followed by an inline report of the caught error |
| Audit.FallbackLost | api/index.js:348-353 | the two versions agree when the request is accepted; on a failure, the intended one adds exactly the error report that the written one drops |
| Audit.RejectedInlineMessage | api/index.js:333-353 | a short result whose inline message the bot API rejects: as written only that message is attempted; as intended a report of the rejection follows it |
| Urls.GetUrl | api/index.js:144-147 | the URL holds no upper-case ASCII letter |
| Urls.BaseUrlIgnoresPath | api/index.js:145 | the non-canonical form does not depend on the request path |
| Urls.GetUrlScheme | api/index.js:144-147 | the result starts with `https://` iff host plus path holds a character other than `/`; otherwise the strip eats the scheme's slashes |
| Urls.GetUrlTrailingSlash | api/index.js:146 | the result ends in `/` only if the slash-stripped text ended in white space that trim removed |
| Urls.WebhookUrl | api/index.js:36 | the webhook URL starts with the server address stripped of trailing slashes, and that base does not end in `/` |
| Urls.WebhookIgnoresTrailingSlashes | api/index.js:36 | any number of trailing slashes on WEBHOOK_SERVER gives the same webhook URL |
| Strings.StripTrailingSlashes | api/index.js:146 | `/\/+$/` removal: a prefix of the text that does not end in `/`, with only slashes removed |
| Strings.Trim | api/index.js:146 | `trim()`: no leading or trailing white space remains, and every character comes from the input |
| Strings.TrimSlice | api/index.js:146 | `trim()` keeps one contiguous slice of the input, and everything it cuts on either side is white space |
| Strings.ToLower | api/index.js:146 | same length and no ASCII upper-case letter remains |
| Strings.ToUpper | api/index.js:331 | same length and no ASCII lower-case letter remains |
| Blacklist.Split | api/index.js:31 | `split(" ")` gives at least one part, and no part holds a space |
| Blacklist.NonEmpty | api/index.js:31-32 | `filter(Boolean)` keeps exactly the non-empty parts |
| Blacklist.JoinSplit | api/index.js:31 | joining the split parts with the separator gives back the text |
| Blacklist.SplitJoin | api/index.js:31 | splitting a join of separator-free parts gives back the parts |
| Blacklist.Parse | api/index.js:31-32 | unset or empty gives `[]`; otherwise every token is non-empty and has no space |
| Blacklist.ParseKeepsText | api/index.js:31-32 | the tokens, concatenated, are the variable's text with the spaces removed |
| Blacklist.NonEmptyKeepsAll | api/index.js:31-32 | `filter(Boolean)` keeps every part, in order, when none is empty |
| Blacklist.ParseJoin | api/index.js:31-32 | the tokens are exactly the space-separated runs, in order: non-empty, space-free tokens joined by spaces parse back to the same list |
| Strings.Contains | api/index.js:384 | `includes(t)` holds whenever t is a prefix, and only when t is no longer than the text |
| Strings.ContainsIff | api/index.js:384 | `includes(t)` holds iff t occurs at some index of the text |
| Gate.UaBlocked | api/index.js:384 | a blocked user agent has some blacklist token occurring in its lower-cased text |
| Gate.UaBlockedIff | api/index.js:384 | the user agent is blocked iff some token occurs in its lower-cased text |
| Gate.UpperTokenNeverMatches | api/index.js:384 | a token holding an upper-case ASCII letter never blocks anything, since tokens are not lower-cased |
| Gate.HandleApi | api/index.js:383-407 | a blocked agent gets 403 "Bot not allowed." and nothing is sent; then a listed address is handed on; then a recognized request is answered with NotAPI's fields and notified through notify as written (at most one request, the inline message when the JSON is short), and anything else is redirected home with nothing sent |

## Left out

- The dispatch queue (`queueNotAPI`, three at a time) and the artificial 150-500 ms delay. They change timing, not results. The model calls NotAPI directly.
- The keep-alive ping (`ping.pause`/`ping.resume`, the Cron job at api/index.js:356-367) is not modelled. `api/index.js` registers no handler for the webhook's updates; it only sets the webhook up in `webhookInit` (api/index.js:267-282), which is not modelled either.
- Express setup, the response headers and `setNoCache`, the 404 page, and the redirect's status code are not modelled. `Gate.HandleApi` says only that the answer is a redirect home.
- The Telegram and third-party HTTP calls, and `console.error` are not modelled. Each provider is a function parameter: morse, romans, SpamWatch and Genius.
- The bot API's answers are not modelled either. `Audit.Notify` lists the requests notify makes, not whether they succeed.
- Features.CheckBan: the `ban.date` conversion to a Date object is taken as part of the record the provider returns.
- Features.ConvertText: the romans `en` branch passes `+en`, a number, to romanize. That coercion is left inside the provider's outcome.
- Features.SearchLyrics: a song without an artist would throw after `error` and `title` were already assigned. That would leave `title` next to the error message. The provider is modelled as returning all four fields or failing.
- Query values that arrive as arrays (`?en=a&en=b`) are not modelled. `req.params` is always an object, so its test in the route is not modelled.
- JavaScript lists integer-like keys of an object first, in numeric order. The server's own keys are never integer-like, but the ban record's keys come from SpamWatch. For a ban record with such keys the model keeps insertion order.
- Field values are modelled as strings (`Dict<string>`). The ban record's numbers, its Date and any nulls appear as the strings they are rendered as, so their JavaScript types are not modelled.
- Strings.ToLower: only ASCII letters are mapped, so non-ASCII case mapping is not modelled.
- Strings.ToUpper: only ASCII letters are mapped, so non-ASCII case mapping is not modelled.
- Audit.Notify: lengths count characters, not UTF-16 code units. `result.length` and `Content-Length` agree with the model only for text in the Basic Multilingual Plane.
- Audit.NumberText: the unary `+` and its string form are given only for kept strings that need no floating-point formatting. These are: empty, up to 15 decimal digits with no leading zero, `Infinity`, and strings that are certainly NaN. Everything else is `None`, so `Audit.AttachmentName` says nothing about the file name for those.
- The requestor fields `u` come from a middleware that is not part of this model. `Gate.HandleApi` takes the user agent and the address as separate parameters. `res.json({...data})` is treated as the data itself.

## Findings

| source | as written | input that shows it | evidently intended | confidence | as-written member | corrected member |
|---|---|---|---|---|---|---|
| api/index.js:351 | The fallback message interpolates `err`, which is not defined in `notify`, so it throws a ReferenceError before sending. The caught failure is never reported. | A short result whose inline message the bot API rejects, or a result of 4096 or more characters when `ip` is undefined | Report the caught error (`_`) inline above the user block | high (not executed) | Audit.SentAsWritten | Audit.NotifyReporting |

`Gate.HandleApi` follows the code as written and calls `Audit.Notify`.
`Audit.FallbackLost` and `Audit.RejectedInlineMessage` relate the two
versions.
