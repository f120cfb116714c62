# Discord NFT sales bot: sale normalisation and watermark walk

This project models the pure logic inside the bot's `app.js`. The bot polls the
marketplace events feed for one collection. For each sale it builds a "Fugitive
Tracking Report" message and sends it to a Discord channel. The model covers:

- the **raw sale event**, read the way `_.get` reads it (`undefined`, `null` or a
  value). This includes the `asset` → `asset_bundle` fallback for the name,
  permalink and metadata URL, and the captor (buyer) display, i.e. a shortened
  username or the first six characters of the winner's address;
- the **title and description templates** of the message, and the cases where
  building the message throws (a winner address that is not a string, a price
  that `formatUnits` refuses, an asset name that is not a string);
- the **trait scan** run on the token metadata (a `Background` trait equal to
  `Wanted`), and the threat level derived from it;
- the **polling callback body**. The fetched batch is stably sorted by
  `created_date`. Then it is walked: `lastSaleTime` is written with each event's
  creation second just before the event goes to `formatAndSendEmbed`. When the
  cache is empty, a default watermark is computed.

Modules: `Wrappers` (Option), `JsValue` (JavaScript lookup and string rules),
`SaleEvent` (raw event, fallback, buyer display, templates), `Traits` (trait
scan, threat level), `SaleOrder` (stable sort), and `Watermark` (watermark read,
walk, cycle). Timestamps are integers that were already parsed: milliseconds for
`created_date` and for "now". The HTTP responses are parameters: a batch of
events, or an attribute list. `None` stands for a request that failed.

Observations on the code as written:

- The callback reads the watermark but never uses it.
- The fetch sends the constant `occurred_after: 1678650409`.
- No event is filtered or deduplicated against the watermark. `NoWatermarkFilter`
  states that the trace does not depend on the cache. It also states that an event
  created at or before the watermark is still handed off.
- The buyer display can be empty: an empty username becomes the empty captor text.
- All events are walked even when a send fails. The watermark write comes before
  the hand-off, and the hand-off is not awaited.

## Model

| member | source | states |
|---|---|---|
| `JsValue.Get` | app.js:112-114 | a lookup through a missing or null object yields `undefined`; through a defined object it yields the field's own value, `null` included |
| `JsValue.OrElse` | app.js:112-114 | the `_.get` default replaces only an `undefined` value; any other value, `null` included, is kept |
| `JsValue.Prefix` | app.js:126 | `slice(0, n)` gives a prefix of the string of length min(n, length) |
| `JsValue.TemplateText` | app.js:147 | a template literal prints a string as itself, and prints `undefined` and `null` by name |
| `SaleEvent.FromAssetOrBundle` | app.js:112-114 | the `asset` field is the answer whenever it is not `undefined` (a `null` counts as defined); otherwise the `asset_bundle` field is the answer; with neither object the answer is `undefined` |
| `SaleEvent.BundleOnlyAsFallback` | app.js:112-114 | when the two objects disagree on a field, the bundle value is chosen exactly when the asset value is `undefined` |
| `SaleEvent.ImageUrl` | app.js:151 | the image comes from `asset` only, with no bundle fallback |
| `SaleEvent.ShortenUsername` | app.js:129-131 | a username of at most 15 characters is kept unchanged; a longer one becomes its first 15 characters followed by `...`, 18 characters in all |
| `SaleEvent.BuyerDisplay` | app.js:124-135 | the display fails exactly when the winner address is not a string, even if a username exists; a username that is neither null nor undefined is shown shortened; otherwise the display is a prefix of the address of length min(6, address length) |
| `SaleEvent.LongUsernameDisplay` | app.js:127-132 | a username longer than 15 characters is displayed as its first 15 characters plus `...`, 18 characters long |
| `SaleEvent.EmptyUsernameGivesEmptyCaptor` | app.js:127-132 | an empty username passes the `!= null` test, so it becomes the empty captor text |
| `SaleEvent.Title` | app.js:157 | a title exists exactly when the name is a string; it is the case-mapped name followed by ` CAPTURED!` |
| `SaleEvent.DescriptionParts` | app.js:147 | the description is the fixed lead text, the name as a template literal prints it (`undefined`/`null` included), ` was captured by `, the buyer, ` for a bounty of `, the bounty text and ` ETH`; each part can be read back at its offset |
| `SaleEvent.Render` | app.js:110-166 | a notice is built exactly when the winner address and the asset name are both strings and the price formatting returned; its captor, title, description, link and image are the ones the rules above give |
| `Traits.LoadBackground` | app.js:94-106 | the result is undefined exactly when no attribute list was obtained; it is `Wanted` exactly when some trait has type `Background` and value `Wanted`, and `White` otherwise, so an empty list gives `White` |
| `Traits.ThreatLevel` | app.js:118-122 | the threat level is `Most Wanted` exactly when the background is `Wanted`, and `Moderate` otherwise, including an undefined background |
| `SaleOrder.SortByCreated` | app.js:189-192 | the processing order has the batch's length and is a permutation (the same multiset) of the batch |
| `SaleOrder.SortByCreatedIsStable` | app.js:189-192 | the processing order is non-decreasing in creation instant; for every instant, the events created then keep their input order |
| `SaleOrder.StableSortUnique` | app.js:189-192 | two sorted sequences that agree on the events of every instant are equal |
| `SaleOrder.ProcessingOrderIsTheStableSort` | app.js:189-192 | any stable sort of the batch by creation instant equals the processing order, as lodash's stable `sortBy` would produce it |
| `Watermark.UnixSeconds` | app.js:198 | the written value is the creation instant rounded down to whole seconds |
| `Watermark.StartOfMinute` | app.js:173 | the start of the minute is a multiple of 60000 ms and lies within the minute before now |
| `Watermark.DefaultWatermark` | app.js:173 | the default watermark is one second past the start of the previous minute, i.e. (w + 59) mod 60 = 0; in milliseconds it lies in (now − 119 s, now − 59 s] |
| `Watermark.ReadWatermark` | app.js:173 | a cached non-zero value is used; an absent or zero value falls back to the default |
| `Watermark.Walk` | app.js:196-200 | the walk has two steps per event; it leaves the cache unchanged on an empty list, and otherwise sets it to the last event's creation second |
| `Watermark.WalkInterleaves` | app.js:196-200 | the i-th event's watermark write comes immediately before its hand-off |
| `Watermark.RunCycle` | app.js:186-203 | a failed fetch, or a response without `asset_events`, does nothing and leaves the cache as it was; otherwise there are two steps per fetched event |
| `Watermark.CycleOrder` | app.js:189-200 | every fetched event, duplicates included, is handed off, in stable ascending creation order |
| `Watermark.CycleWriteBeforeHandOff` | app.js:196-200 | there is one watermark write per fetched event; the i-th hand-off comes right after the i-th write, and that write holds the handed-off event's creation second |
| `Watermark.CycleWritesNonDecreasing` | app.js:196-200 | the sequence of watermark writes is non-decreasing |
| `Watermark.CycleFinalWatermark` | app.js:196-200 | after a non-empty batch, the cache holds the batch's maximum creation second; an empty batch leaves the cache unchanged |
| `Watermark.NoWatermarkFilter` | app.js:173-200 | what is handed off does not depend on the cached watermark; an event created at or before the watermark that was read is handed off anyway |

## Left out

- Discord client, channel lookup, `channel.send` and `EmbedBuilder` (app.js:24-34, 154-169): these are external transport and library objects. The fixed colour, author and footer are not modelled. The builder's own checks (such as its limits on field values and title length) are not modelled either, so a built `Notice` may still be refused and never sent.
- The Express `/interactions` endpoint, request verification and command registration (app.js:38-87): this is the network boundary, and `utils.js` and `commands.js` are not part of this model.
- The axios calls and the `setInterval` timer (app.js:92, 172-204): this is I/O and scheduling. The model starts from the response: a batch, an attribute list, or `None` for a failure.
- Price math (app.js:139-145, 161-162): `formatUnits`, the product with the ETH/USD price and `toFixed(2)` use binary floating point and an unseen library. The printed bounty enters `Render` as a given string, or as `None` when `formatUnits` throws (app.js:143); which inputs make it throw is not modelled. The Bounty and USD fields are not modelled.
- Parsing `created_date` with `Date`/Luxon, and `DateTime.now()` (app.js:173, 191, 198): these instants are given integers in milliseconds. Invalid dates (NaN) are not modelled.
- `cache.js` is not part of this model. The cache is one optional integer under `lastSaleTime`.
- The asynchronous completion of `formatAndSendEmbed`: the model orders the hand-offs, not the sends. Sends settle after their own metadata fetch, in any order. When `formatAndSendEmbed` rejects (the `None` cases of `SaleEvent.Render`), `_.each` drops the promise at app.js:199, and the `.catch` at app.js:201 never sees the rejection, so it goes unhandled.
- The metadata URL (app.js:114) is the `token_metadata` case of `SaleEvent.FromAssetOrBundle`; it only feeds the metadata fetch, which is not modelled, so no member connects it to `Traits.LoadBackground`.
- The constant `occurred_after` (app.js:183) is a parameter of the fetch, which is not modelled.
- The threat level's embed field is commented out in the source (app.js:164). `Traits.ThreatLevel` is modelled, but it is not part of `Notice`.
- `SaleEvent.Title`: the case mapping of `toUpperCase` is a parameter and is not specified.
- `SaleEvent.BuyerDisplay`: lengths and slices count Dafny characters, while JavaScript counts UTF-16 code units. Non-string addresses or usernames are not modelled.
- `Traits.LoadBackground`: trait types and values are strings. A non-string value (which never equals `'Wanted'`) and a null entry in the list (whose access throws into the `catch`) are not modelled.
- `Watermark.StartOfMinute`: assumes a local zone offset that is a whole number of minutes.
