# JSTGBOT wallet bot: registry, balance sweep, chunking

A model of the core of `index.js`, a Telegram bot that keeps a list of wallet addresses and
reports their balances across several block-explorer APIs. Three pieces of it are modelled.

- **The wallet-input session and the registry.** `/addwallet` and `/addbulk` open one
  process-wide session (`waitingForWalletInfo`, `chatIdForWallet`) for the sender's chat. The
  next text message from that chat is read by the `message` handler in one of two ways:
  - as bulk lines, split on every tab and newline, each line checked only for a `0x` prefix
    and a length of 42;
  - as one `<address> <name>` entry, checked against `^0x[a-fA-F0-9]{40}\s+.+$`.

  Accepted addresses are stored lowercased in the `addresses` object, and every step appends
  to the `logs` array. `WalletInput` states these transitions as pure functions of the bot's
  state. `Bot.Bot` is a class with the same globals as fields, and its handler methods are
  proved to move the fields exactly as those functions say.
- **The balance sweep.**
  - `fetchWalletBalances` short-circuits on an empty registry. Otherwise it zeroes a
    per-address table and queries every endpoint of `baseUrls` for every address, endpoint by
    endpoint.
  - `updateBalances` credits each answer to the table and to `totalETH`, according to whether
    the answer is a string, an array of entries, or anything else.
  - `Balances` gives the specification as folds over the endpoints and addresses. The explorer
    is a function from a URL to a response. `Bot.Bot` runs the loops in place against that
    specification.
  - The central invariant is that the per-address table sums to `totalETH`. It holds as long
    as every array entry names a registered wallet.
- **`chunkArray`.** It cuts a list into consecutive slices of `size` elements.

Supporting modules:

- `JsStrings` models the JavaScript string operations the handlers rely on:
  - `\s`, `trim`, `split` on characters and on `/\s+/`, and `join`;
  - `toLowerCase` on ASCII;
  - `replace` with a string pattern, including the `$` patterns of the replacement.
- `Dicts` models a plain object used as a dictionary, which keeps its keys in insertion order.
  A JavaScript object does this only for keys that are not array indices. It also treats
  inherited names such as `__proto__` and `constructor` specially. Registry keys are `0x`
  addresses, so neither applies to them. An owner string taken from an array answer can be
  anything, and for such keys the model's ordering and `NaN` rule are an idealisation.
- `Activity` lists the log entries and the reply texts.

Amounts are whole numbers of wei. When an array answer credits a key the table never had,
that new, unregistered key is added to the table with the value `NaN`, because in JavaScript
`undefined + n` is `NaN`. The registered wallets' entries are not affected.

## Model

| member | source | states |
|---|---|---|
| Bot.Bot.constructor | index.js:57-58 | at start-up the registry and the log are empty and no session is open |
| WalletInput.CommandsOpenSession | index.js:127-147 | `/addwallet` and `/addbulk` each leave the session waiting for the sender's chat and for no other chat, whatever session was open before; the registry is unchanged and the state stays valid |
| Bot.Bot.OnAddWallet | index.js:127-135 | `/addwallet` records the chat, sends the prompt, logs the request and starts waiting, as `AddWallet` says; a valid state then awaits that chat |
| Bot.Bot.OnAddBulk | index.js:138-147 | `/addbulk` sends the prompt, starts waiting for the chat and logs the request, as `AddBulk` says; a valid state then awaits that chat |
| WalletInput.MessageIgnored | index.js:150-153 | a message while no session waits for its chat changes nothing at all: not the registry, the session, the log or the replies |
| WalletInput.MessageKeepsRegistry | index.js:163-164 | after any message every registry key is still a lowercased `0x` address of length 42, a session is open exactly when it names a chat, and no key is ever removed |
| WalletInput.SpacesThenTextMeaning | index.js:178 | the recursive matcher for `\s+.+` accepts a string exactly when it splits into a non-empty whitespace run and a non-empty rest without line terminators |
| WalletInput.ClassifySingle | index.js:178-183 | a message without tab or newline is a valid single entry exactly when it matches the pattern and its 43rd character is a plain space; the address is then the first 42 characters and the name the trimmed rest; a match with other whitespace there is an invalid address; a failed match is invalid input |
| WalletInput.SingleAccepted | index.js:178-191 | an accepted single entry stores the lowercased address with the trimmed rest as its name, logs `WalletAdded`, sends the confirmation naming the wallet and its address, and closes the session |
| WalletInput.SingleRejected | index.js:192-205 | a rejected single entry leaves the registry unchanged, logs "invalid address" or "invalid input" according to whether the pattern matched, sends the matching error reply, and keeps the session waiting for the same chat |
| WalletInput.ParseLineWords | index.js:161-162 | a bulk line's address is the first whitespace-separated word of the trimmed line, and its name is the remaining words joined by single spaces; a blank line gives an empty address and an empty name |
| JsStrings.FieldsOfTrimmed | index.js:161 | on a string trimmed at both ends, `split(/\s+/)` gives exactly its maximal runs of non-whitespace |
| WalletInput.RecordAllValid | index.js:160-171 | the bulk loop keeps every key a lowercased accepted address, removes no key, and touches nothing but the registry and the log |
| WalletInput.RecordAllLogs | index.js:160-171 | the bulk loop appends exactly one log entry per line, in line order: "added" for an accepted address, "invalid" with the line otherwise |
| WalletInput.RecordAllValues | index.js:160-171 | after the bulk loop the keys are the old keys plus the lowercased accepted addresses; each key holds the name of the last line that wrote it, or its old value |
| WalletInput.BulkProcessed | index.js:157-174 | a message with a tab or newline is split on every tab and newline into one more piece than there are separators; each piece logs one entry, accepted pieces write their keys with the last name winning, and the success reply is sent and the session closed even when every piece was rejected |
| JsStrings.SplitCount | index.js:159 | splitting on a set of separator characters gives one piece more than there are separators |
| JsStrings.SplitJoin | index.js:180-181 | splitting on a character and joining with that character gives the string back |
| Bot.Bot.StoreBulk | index.js:160-171 | the in-place `forEach` over bulk lines leaves the state that `StoreLines` specifies |
| Bot.Bot.OnMessage | index.js:150-206 | the in-place `message` handler leaves the state that `Message` specifies, requests nothing, and keeps a valid state valid |
| Dicts.Put | index.js:164 | assigning a key sets its value; an existing key keeps its place in the key order, and a new key is appended at the end |
| JsStrings.LowerProperties | index.js:164 | lowercasing leaves no upper-case letter, is idempotent, and keeps a `0x` prefix |
| Balances.UpdateString | index.js:336-344 | a string result adds its balance to the queried address's lowercased key and to `totalETH`, changes no other key, and logs one conversion |
| Balances.CreditEntriesEffect | index.js:345-359 | an array result throws exactly when some entry has neither `account` nor `address`; otherwise `totalETH` grows by the sum of the balances, each key grows by the balances its entries carry, a key no entry credits is neither added nor changed, and one entry is logged per element |
| Balances.UpdateOther | index.js:360-363 | any other truthy result leaves the table and `totalETH` alone and only logs "Unexpected response structure" |
| Bot.Bot.CreditEachAddress | index.js:339-344 | the in-place `chunk.forEach` leaves the table, the total and the log that `CreditChunk` specifies, and changes nothing else |
| Bot.Bot.CreditEachEntry | index.js:347-359 | the in-place `result.forEach` leaves the table, the total and the log that `CreditEntries` specifies, including where it stops on an entry without an owner |
| Bot.Bot.UpdateBalances | index.js:335-365 | `updateBalances` leaves the table, the log and the returned total that `Update` specifies, and reports whether it threw |
| Balances.QueryWithoutData | index.js:303-312 | a failed request, a status other than 200, or a falsy result leaves the table and `totalETH` unchanged, records exactly its own URL, and logs one "failed" or "invalid response" entry |
| Balances.TemplateUrl | index.js:298 | when no `{` comes before the placeholder and the address has no `$`, the URL is the template with the address in place of `{}` |
| Balances.EndpointsPlaceholderFirst | index.js:253-286 | no row of `baseUrls` has a `{` before its placeholder |
| Balances.EndpointUrl | index.js:298 | for every row of `baseUrls` and every address without `$`, the URL requested is the row's URL with the address in place of `{}` |
| Bot.Bot.QueryOne | index.js:297-312 | one in-place request leaves what `Query` specifies |
| Bot.Bot.QueryRow | index.js:296-313 | the in-place loop over the addresses for one endpoint leaves what `Row` specifies |
| Balances.AllUrlsShape | index.js:295-298 | a sweep issues the endpoint count times the address count URLs, endpoint-major: request `i * n + j` is address `j` at endpoint `i` |
| Balances.SweepRequests | index.js:295-314 | a sweep only appends to the requests, and what it appends is `AllUrls` |
| Balances.ZeroTableShape | index.js:288-293 | the initial table holds exactly the lowercased registered addresses, each at 0, and sums to 0 |
| Bot.Bot.ZeroTotals | index.js:288-293 | the in-place initialising loop builds the table that `ZeroTable` specifies |
| Balances.CreditTotal | index.js:340-341 | crediting `w` to a key already in the table adds `w` to the table's sum and keeps its key set |
| Balances.ThrowSplitsTotals | index.js:304 | an array answer whose first entry credits a registered key and whose second entry has neither `account` nor `address` leaves the credit in the table but `totalETH` unchanged, so the table's sum exceeds Total ETH |
| Balances.SweepConsistent | index.js:295-316 | when every array entry names a key of the table, a sweep keeps the table's sum equal to `totalETH` and keeps the key set |
| Bot.Bot.QueryAll | index.js:295-314 | the in-place nested loop starting from `totalETH = 0` leaves what `Sweep` specifies |
| Balances.FetchRequests | index.js:247-251 | an empty registry returns exactly "No wallet addresses available for balance checking.", logs it and requests nothing, and only then; otherwise the requests are exactly `AllUrls`, 8 per wallet |
| Balances.FetchTotals | index.js:288-316 | for a nonempty valid registry whose array answers all name registered wallets, the report lists every wallet and the combined balance is a number equal to Total ETH |
| Bot.Bot.FetchWalletBalances | index.js:246-332 | the in-place `fetchWalletBalances` returns, logs and requests what `Fetch` specifies, and leaves the registry and session alone |
| Chunking.ChunkArray | index.js:368-374 | the chunks concatenate to the input; chunk `k` is the slice starting at `k * size`; every chunk but the last has `size` elements and the last has between 1 and `size`; there are none exactly for an empty input; there are ceil(n / size) of them |

## Left out

- Bot.Bot.FetchWalletBalances: the sweep is assumed to run with no other update handled in
  between. In the source it is `async` and awaits every request (index.js:300), and the
  webhook can run the `message` handler during that wait. Three consequences are not modelled:
  - `Object.keys(addresses)` is read again for each endpoint (index.js:296), so a wallet stored
    mid-sweep is queried by the later endpoints without ever having been zeroed. A string
    answer then makes its entry `NaN`.
  - If nothing credits such a wallet, its entry is still `undefined` when the report is built.
    `.toFixed(6)` at index.js:325 then throws, and no report is returned.
  - The log entries of other handlers land in the middle of the sweep's own entries.

  `FetchTotals` and the log and request equations of `Fetch` therefore hold only for an
  uninterrupted sweep.
- Telegram sends always succeed. The session updates that the source makes in a send's `.then`
  callback happen as part of the handler. Send failures are not modelled, and neither is the
  order in which the `onText` handlers and the `message` handler see the same update.
- A rejected single entry keeps the session open. The code does this at index.js:192-205, and
  the model follows the code. Only the accepted single entry and the bulk path close the
  session (index.js:173-174, 187-188).
- Non-text messages, where `text` is undefined and `text.includes` throws, are not modelled.
  An empty text is treated like any other text that fails the pattern.
- Strings are sequences of Unicode scalar values. JavaScript measures `length` in UTF-16 code
  units, so a 42-unit address containing characters outside the BMP is not modelled.
- `toLowerCase` is modelled on ASCII letters only, and non-ASCII characters are kept. This
  keeps the length, which the source would not for some non-ASCII letters.
- Balances are whole numbers of wei. `parseFloat`, the division by `10 ** 18`, and rounding
  are not modelled.
- The report is a datatype holding each wallet's name and total, `totalETH`, and the combined
  balance. The formatting with `toFixed` and `toLocaleString` is left out.
- The USD and CAD values, the ETH price and exchange-rate fetches, the Bottleneck limiter, the
  unused cache, the Express webhook, and console output are not modelled. They are I/O,
  timing, or floating point.
- The `/start` and `/balances` handlers are not modelled, nor is the estimated-time message.
  The latter is arithmetic on a constant.
- The explorer API is a function from the request URL to its response. A `FetchFailed` log
  entry records the address and the template, but not `error.message`.
- Chunking.ChunkArray: requires `size > 0` unless the input is empty. With `size` 0 the loop
  of index.js:370 never ends on a non-empty input.
- Bot.Bot.UpdateBalances: requires a truthy result, as its only caller passes. The falsy case
  is taken by the `Query` branch before the call.
