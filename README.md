# Trackmania season point calculator — a Dafny model

This project models the logic of the calculator page (`script.js`) in
Dafny and proves properties of it. The page computes the season points
of a list of ranks, saves the ranks in local storage and in a share link,
and restores them on load. It also signs the player in to the Trackmania
web API with the OAuth 2.0 authorization-code grant and PKCE.

The project has six modules, one per part of the page:

- `Text` (`text.dfy`): optional values, storage lookups, and decimal digit
  strings with their canonical spelling.
- `Scoring` (`scoring.dfy`): the points curve `calculatePoint`. Every branch
  is rational, so `real` models it exactly. The tier `ceil(log10(p))` is an
  integer function, the least `t` with `p <= 10^t`. The module also holds the
  label truncation and `Math.round`.
- `Ranks` (`ranks.dfy`): slots as values. It covers what one slot emits and
  scores, the colon-terminated saved string, its split back into pieces,
  the share link, and which saved string page load reads.
- `Pkce` (`pkce.dfy`): `generateRandomString` as a method over a sequence of
  draws in `[0, 62)`, and the base64 to unpadded base64url step of
  `generateCodeChallenge` (section 5 of RFC 4648, the S256 method of
  section 4.2 of RFC 7636).
- `Auth` (`auth.dfy`): the sign-in stages as a state machine, the request
  parameter lists, and the session and local storage writes.
- `Page` (`page.dfy`): the page as a class. The rank inputs and their labels
  are arrays written in place. The result, the share link and both storages
  are fields. The handlers are methods: `calculateAll`, a slot's change
  handler, `reset`, the loading loop and the sign-in stages. Each method is
  proved against the value-level functions of the other modules.

A slot holds the text of its input. It holds a rank when that text is a
non-empty string of decimal digits. Time is whole seconds. The cached expiry
is stored as its decimal spelling and read back with the same parser.

## Model

| member | source | states |
|---|---|---|
| Text.ParseNat | script.js:37-38 | the `!isNaN(parseInt(...))` test and the number it reads, also the expiry read back at script.js:124: defined exactly on non-empty digit strings, with the value they denote; `ParseShow` and `ShowParse` state that it inverts `ShowNat` |
| Text.ShowNat | script.js:233 | the spelling of a number is a non-empty digit string with no leading zero that denotes that number |
| Text.ParseShow | script.js:124 | reading the spelling of a number gives back the number |
| Text.ShowParse | script.js:124 | a digit string without a leading zero is the spelling of its own value |
| Scoring.Tier | script.js:20 | the tier bounds the rank, `p <= 10^t`, and is minimal, `10^(t-1) < p` |
| Scoring.TierLeast | script.js:20 | `p <= 10^t` holds exactly when `Tier(p) <= t`, so the tier is `ceil(log10(p))` |
| Scoring.TierOfPower | script.js:20 | the tier of `10^t` is `t` |
| Scoring.CalculatePoint | script.js:18-30 | the four branches of `calculatePoint`; its values are stated by `ZeroCases`, `LowRanks`, `MiddleRanks`, `PointRange` and `Monotone` |
| Scoring.RankMultiplier | script.js:26 | `10^(t-1) / p + 0.9`; `MultiplierAtTop` and `CurveBounds` state that it is 1 at the top of a tier and below 1.9 inside it |
| Scoring.HalvingCurve | script.js:25-27 | base points times the rank multiplier; `CurveBounds` and `CurveFalls` state its bounds inside a tier and that it falls as the rank grows |
| Scoring.BasePoints | script.js:25 | the base points of every tier from 1 on are positive and at most 4000 |
| Scoring.ZeroCases | script.js:19-29 | rank 0 and every rank above one million score 0 |
| Scoring.LowRanks | script.js:21-23 | ranks 1 to 10 score `40000 / p`: rank 1 scores 40000 and rank 10 scores 4000 |
| Scoring.MiddleRanks | script.js:24-28 | ranks 11 to one million are in tiers 2 to 6 and score base points times multiplier |
| Scoring.MultiplierAtTop | script.js:26 | at `p = 10^t` the rank multiplier is exactly 1 |
| Scoring.TierTop | script.js:24-28 | the last rank of tiers 2 to 6, `10^t`, scores exactly the base points `4000 / 2^(t-1)` |
| Scoring.HundredthRank | script.js:24-28 | rank 100 scores 2000 |
| Scoring.MillionthRank | script.js:24-28 | rank 1000000 scores 125 |
| Scoring.BaseHalves | script.js:25 | each tier's base points are half those of the tier before |
| Scoring.BaseAntitone | script.js:25 | a later tier's base points are at most half those of an earlier one |
| Scoring.CurveBounds | script.js:25-27 | inside its tier a rank scores at least the base points and less than 1.9 times them |
| Scoring.CurveFalls | script.js:26-27 | with the tier fixed, a larger rank scores strictly less |
| Scoring.MiddleBounds | script.js:24-28 | ranks 11 to one million score between their tier's base points and 1.9 times them |
| Scoring.LowBound | script.js:21-23 | ranks 1 to 10 score at least 4000 |
| Scoring.Positive | script.js:18-30 | every rank from 1 to one million scores strictly more than 0 |
| Scoring.SameTier | script.js:24-28 | within one middle tier the score strictly falls as the rank grows |
| Scoring.Monotone | script.js:18-30 | a larger rank never scores more, and on 1..1000000 strictly less, across tier boundaries too |
| Scoring.PointRange | script.js:18-30 | every rank scores between 0 and 40000, and more than 0 exactly when it is from 1 to one million |
| Scoring.Round | script.js:44 | the rounded total is within half a point of the total |
| Scoring.LabelOf | script.js:86 | the label number is the score truncated: at most the score and more than score minus 1 |
| Ranks.SlotScore | script.js:36-39 | one slot adds between 0 and 40000 points, and adds some exactly when it holds a rank from 1 to one million |
| Ranks.SlotLabel | script.js:84-86 | the truncated score of a slot, blank when 0; `LabelShown` states when it is blank and that it reads back as the truncated score |
| Ranks.LabelShown | script.js:86 | a slot's label is blank exactly when it holds no rank from 1 to one million, else it reads back as the truncated score |
| Ranks.Emit | script.js:36-42 | a slot is emitted as its text when it holds a rank and as blank otherwise; the emitted text has no colon and parses as the slot does |
| Ranks.Serialize | script.js:33-43 | every slot emitted and followed by `:`; `ColonCount`, `SplitSerialize` and `LoadAfterSerialize` state its colons, its pieces and its round trip through loading |
| Ranks.Total | script.js:33-39 | the sum of the slot scores; `TotalRange` states its bounds and when it is positive |
| Ranks.ColonCount | script.js:35-43 | the saved string of `n` slots has exactly `n` colons |
| Ranks.SplitSerialize | script.js:100 | splitting the saved string on `:` gives every emitted slot in order, then one empty piece |
| Ranks.SplitColon | script.js:100 | `split(':')`: at least one piece and no piece holds a colon, and `JoinSplit` states that joining the pieces with `:` gives the string back, which together fix the pieces of any string; `SplitSerialize` gives them on a saved string |
| Ranks.JoinSplit | script.js:100 | joining the split pieces with `:` gives back the split string |
| Ranks.TotalRange | script.js:35-44 | the total is between 0 and 40000 per slot, and positive exactly when some slot holds a rank from 1 to one million |
| Ranks.BlankSlots | script.js:49-63 | `n` blank slots save as `n` colons and total 0 |
| Ranks.BeforeQuery | script.js:46 | the base address is a prefix of the address, has no `?`, and is the whole address or stops right before its first `?` |
| Ranks.ShareLink | script.js:46 | the link keeps the page's address without its query, then carries `?ranks=` and the saved string |
| Ranks.ShareLinkStable | script.js:46 | a share link made on a page opened from a share link has the same base address |
| Ranks.ChosenRanks | script.js:92-98 | the saved string page load reads, when there is one, is non-empty |
| Ranks.QueryWins | script.js:92-97 | a non-empty `ranks` parameter wins over storage; without one, the non-empty stored `records` item is read |
| Ranks.Takes | script.js:103-104 | a slot takes piece `i` when that piece exists and holds a rank; `LoadAfterSerialize` states which slots a saved string restores through it |
| Ranks.LoadSlots | script.js:100-110 | loading keeps the number of slots |
| Ranks.LoadAfterSerialize | script.js:100-110 | loading a saved string restores every slot that held a rank and leaves every other slot as it was |
| Pkce.AlphabetIsAlphanumeric | script.js:3 | the alphabet has 62 characters and holds exactly the ASCII letters and digits |
| Pkce.Pick | script.js:4-6 | the drawn string has one character per draw |
| Pkce.GenerateRandomString | script.js:1-8 | the string has the requested length, is the draws picked from the alphabet, and each character is in the alphabet |
| Pkce.PickIsVerifier | script.js:154 | 64 drawn characters form a code verifier as section 4.1 of RFC 7636 defines it |
| Pkce.RemoveAll | script.js:15 | no removed character is left, and the text gets shorter by exactly the number removed |
| Pkce.ReplaceAll | script.js:15 | the length is kept and each character is replaced when it is the replaced one and kept otherwise |
| Pkce.UrlSafe | script.js:15 | the three `.replace` calls in source order; `UrlSafeIsBase64Url` states that they are the one-pass base64url conversion |
| Pkce.ToBase64Url | script.js:15 | the converted text is no longer than the input |
| Pkce.UrlSafeIsBase64Url | script.js:15 | the three `.replace` calls together are the one-pass base64url conversion |
| Pkce.NoForbiddenChars | script.js:15 | the result contains no `=`, `+` or `/` |
| Pkce.LengthWithoutPadding | script.js:15 | the result is shorter than the input by exactly the number of `=` |
| Pkce.TranslatesInOrder | script.js:15 | text without padding is translated character by character in order: `+` to `-`, `/` to `_`, others kept |
| Pkce.Idempotent | script.js:15 | converting a second time changes nothing |
| Pkce.FixedPoint | script.js:15 | text without `=`, `+` and `/` is left unchanged |
| Pkce.UrlAlphabet | script.js:14-15 | standard base64 text becomes text over the base64url alphabet |
| Pkce.CodeChallenge | script.js:10-16 | the base64url form of the digest of the verifier; `Auth.Handshake` states that the exchanged verifier's challenge is the one the login link carried |
| Auth.Lookup | script.js:120-121 | a parameter that is found is one of the pairs with that name, and none is found exactly when no pair has that name |
| Auth.LookupFrom | script.js:120-121 | a value found from index `i` on is a pair at or after `i`; nothing found means no pair there has the name |
| Auth.LookupFirst | script.js:120-121 | the value found is that of the first pair with the name |
| Auth.TokenUnexpired | script.js:122-124 | the stored expiry is present, non-empty and later than now; `CachedTokenLifetime` states that a cached token passes it exactly until its expiry |
| Auth.HasCode | script.js:150 | the `code` parameter is present and non-empty; `SelectStage` states that a load without a live token and without a code is stage 1 |
| Auth.SelectStage | script.js:124-191 | an unexpired token gives the user fetch whatever the code; otherwise no code gives stage 1, a state mismatch the thrown error, and a matching state the exchange of that code |
| Auth.UserRequest | script.js:130-135 | the user fetch goes to `/api/user` with the cached token type and token as the Authorization header |
| Auth.AuthorizationRequest | script.js:165-175 | the login link goes to `/oauth/authorize` with seven parameters, `scope` being empty |
| Auth.AuthorizationGrant | script.js:166-170 | the link asks for `response_type=code` for this client and the page's redirect address |
| Auth.AuthorizationPkce | script.js:171-173 | the link carries the code challenge, the method `S256` and the state |
| Auth.TokenRequest | script.js:196-203 | the exchange posts to `/api/access_token` with the grant type, client, redirect address, stored verifier (missing renders "null") and code |
| Auth.StoreVerifier | script.js:158-159 | stage 1 stores the verifier and the state and leaves every other session item alone |
| Auth.Expiry | script.js:226-229 | now plus `expires_in`, or now when it is missing; `CachedTokenLifetime` states that the cached token lasts until then |
| Auth.CacheToken | script.js:224-233 | stage 3 stores the token type and token (blank when missing) and the expiry, and leaves every other item alone |
| Auth.CachedTokenLifetime | script.js:124-133 | after caching, later loads take the user fetch exactly until the expiry, and that fetch carries the cached token |
| Auth.Handshake | script.js:150-203 | stage 1, then a redirect with the link's state and a code: the next load exchanges that code, and sends a valid verifier whose challenge is the one the link carried |
| Auth.ForgedStateRejected | script.js:189-191 | a redirect whose state is not the stored one is rejected before any token request |
| Page.Page.CalculateAll | script.js:32-47 | the result is the rounded total of the slots, `records` is their saved string and nothing else in storage changes, and the link is their share link |
| Page.Page.Change | script.js:83-88 | the changed slot's label shows its truncated score, the other labels stay, then the page is in step with the slots |
| Page.Page.Reset | script.js:49-63 | not confirmed, nothing changes; confirmed, every slot and label is blank, the result is 0, and `records` and the link carry `n` colons |
| Page.Page.LoadSlot | script.js:103-109 | a slot whose piece holds a rank takes it and its handler runs; otherwise nothing changes |
| Page.Page.LoadPieces | script.js:101-110 | every slot whose piece holds a rank takes it and relabels, the others stay, and the page is in step when any slot was taken |
| Page.Page.LoadRanks | script.js:92-113 | with nothing saved nothing changes; otherwise the slots are the saved string loaded over the old slots, and storage changes at `records` at most |
| Page.Page.Authenticate | script.js:120-237 | per stage: the user fetch with storage untouched; stage 1's stored verifier and login link; the thrown error with nothing written; or the exchange and, on success, the cached token |
| Page.Page.BeginLogin | script.js:150-181 | the verifier and the state are the drawn strings, both are kept in session, and the link carries the verifier's challenge and the state |
| Page.Page.ExchangeCode | script.js:195-236 | the token request for the stored verifier and the code; an HTTP error caches nothing, success caches the token and the expiry |
| Page.Page.OnLoad | script.js:90-237 | the slots and labels are loaded from the `ranks` parameter or storage, the result and link follow when a slot was taken; per stage chosen from the storages as they were before loading, the outcome carries the user fetch, the login link with the stored verifier and state, the thrown error, or the token request, and local storage is the loaded one with the token cached on success |
| Page.AnyTakenMeans | script.js:101-110 | some slot is taken exactly when some slot's piece holds a rank |
| Page.RecordsIgnored | script.js:122-133 | loading the slots, which writes only `records`, cannot change the sign-in stage or the user fetch |

## Left out

- The DOM is not modelled: element lookup, `innerHTML`, `style` and event dispatch. The inputs, labels, result and link are fields of `Page.Page`, and dispatching `change` is a call to `Change`.
- `copy` (script.js:65-76) is left out. It only talks to the browser clipboard.
- `fetch`, the JSON parsing of answers and the Welcome log after the user fetch are left out. The model states which request is sent. The token answer is an input: its three fields, or none for an HTTP error.
- `window.history.pushState` at the end of stage 3 is browser plumbing and is left out; `href` is a constant of the page.
- SHA-256 (`crypto.subtle.digest`), `TextEncoder`, `String.fromCharCode` and `btoa` are functions whose code is not shown. They are parameters of `Pkce.CodeChallenge`.
- `Math.random` is a sequence of draws, each in `[0, 62)`. `Date.now`, `Date.parse` and the Date text are left out: time is whole seconds, and the expiry is stored as decimal seconds.
- `window.confirm` is the boolean input of `Page.Page.Reset`. `window.location.search` is the query pairs given to `Page.Page.OnLoad`, with URL decoding left out. The redirect address is a constant of the page.
- The asynchronous order is not modelled. Stage 1 computes the challenge and the link within the same step. Stage 3 caches in the step that sends the exchange.
- The URL encoding of the query and of the form body is left out. Requests are lists of name-value pairs.
- Ranks.SlotScore: a slot holds a rank only when its text is a non-empty digit string. In the source, any text `parseInt` accepts passes the check (script.js:37, 104). So `"5abc"` is saved there and scores 0 through a NaN tier, and `" 7"` or `"1e3"` score as numbers. The model treats such text as blank.
- Ranks.SlotScore: the text `"0"` (or `"00"`) scores 0 in the model. In the source it is truthy, so it reaches `40000 / 0` and the total becomes `Infinity`. The model scores a zero rank 0, as the `!p` guard of script.js:19 evidently intends.
- Scoring.Round: the curve and the total are exact rationals. The source computes them in IEEE doubles with `Math.log10` and `Math.pow`, so its rounding of a total can differ at the last bit.
- Page.Page.ExchangeCode: `expires_in` is a natural number of seconds. A negative or fractional value is not modelled.

