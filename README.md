# Event check-in roster: a Dafny model

This project models the attendee roster kept by the `CheckinApp` class of the
event check-in page (`script.js`). The roster is a list of attendee records
plus a status filter (`all`, `checked`, `waiting`) and a lower-cased search
query. The page builds a registration payload from its form. After each
server reply it changes the list in one of three ways: it puts a new
attendee in front, replaces the record that was checked in or out, or drops
a deleted id. It shows the filtered list and three counters.

Layout:

- `seqs.dfy` (module `Seqs`): `Filter`, which stands for `Array.prototype.filter`, and `IsSubsequence`, with their lemmas.
- `text.dfy` (module `Text`): `trim` with the ECMAScript whitespace set, `toLowerCase` on ASCII letters, `includes`, and `join`.
- `numbers.dfy` (module `Numbers`): `Number()` applied to the guest field, and the `|| 1` default.
- `attendees.dfy` (module `Attendees`): the records and the form payload. It also holds the filter view, the counters, replace-by-id and remove-by-id, `composeContact` and `getTicketLabel`.
- `roster.dfy` (module `Checkin`): class `Roster`. It has the three fields of `CheckinApp` and one method per handler that changes them.

Each network round trip appears as a parameter: the server's reply. A handler
returns the inline message it would show, if any. A failed reply leaves the
list unchanged.

## Model

| member | source | states |
|---|---|---|
| `Attendees.BuildPayload` | script.js:63-75 | The payload is refused with "氏名は必須です。" exactly when the name field is only whitespace. An accepted payload has the name, e-mail, phone and note trimmed, the ticket type as selected, and the guest count `Number(raw) \|\| 1` as `Numbers.Guests` gives it. |
| `Attendees.BuildPayloadName` | script.js:64-72 | An accepted payload has a non-empty name with no whitespace at either end, and a guest count that is not 0. |
| `Attendees.BuildPayloadIgnoresPadding` | script.js:64-69 | Whitespace typed around the name does not change the payload. A name with no padding is sent as it is. |
| `Text.TrimSlice` | script.js:64-69 | `trim` keeps one contiguous slice of its input. |
| `Text.TrimDropsWhitespace` | script.js:64-69 | Everything `trim` drops, before and after that slice, is whitespace. |
| `Text.TrimEmptyIff` | script.js:64-72 | The trimmed string is empty exactly when the input is all whitespace. |
| `Text.TrimPadded` | script.js:64-69 | Trimming a string wrapped in whitespace gives back the string, provided it has no whitespace at either end. |
| `Numbers.ToNumber` | script.js:68 | A blank field gives 0. The result is NaN exactly when the trimmed text is neither empty nor an optionally signed string of decimal digits. A negative result comes only from text that starts with "-". |
| `Numbers.NumberOfNumeral` | script.js:68 | `Number()` of the numeral `String()` writes for an integer of at most 2^53 in size, with any whitespace around it, is that integer. |
| `Numbers.DigitsRoundTrip` | script.js:68 | Parsing the decimal digits that `String()` writes for a natural number gives back that number. |
| `Numbers.Guests` | script.js:68 | The guest count is never 0. It is 1 when `Number()` gives NaN or 0, and the parsed value otherwise. |
| `Numbers.GuestsOfNumeral` | script.js:68 | A field holding the numeral of a non-zero count of at most 2^53 in size gives that count. A field holding 0 gives 1. |
| `Numbers.GuestsOfBlank` | script.js:68 | An empty or blank field gives 1. |
| `Numbers.GuestsOfText` | script.js:68 | A field whose trimmed text does not start with a digit, a sign, a decimal point or the `I` of `Infinity` gives 1. |
| `Text.ContainsIff` | script.js:155-156 | `includes` holds exactly when the needle occurs at some position of the string. |
| `Text.ContainsLower` | script.js:151-157 | If a string contains a needle, it still does after both are lower-cased. |
| `Text.LowerOfLowered` | script.js:46 | A string with no upper-case ASCII letter is its own lower-case form. |
| `Attendees.FilterAttendees` | script.js:144-159 | The view is no longer than the roster, and every attendee in it passes both the status test and the search test. |
| `Attendees.FilterAttendeesIsSubsequence` | script.js:144-159 | The filtered view is a subsequence of the roster: it keeps the roster's order. |
| `Attendees.FilterAttendeesCount` | script.js:144-159 | An attendee that passes both the status test and the search test appears in the view as often as in the roster. Any other attendee does not appear. |
| `Attendees.FilterAttendeesMember` | script.js:146-157 | An attendee is shown if and only if it is on the roster and passes both tests. |
| `Attendees.FilterAttendeesMembers` | script.js:146-157 | The same if-and-only-if, for all attendees at once. |
| `Attendees.FilterAttendeesByStatus` | script.js:146-149 | With status `checked`, every attendee shown is checked in. With `waiting`, none is. |
| `Attendees.FilterAttendeesShowsAll` | script.js:144-159 | With any status other than `checked` or `waiting`, and an empty query, the whole roster is shown, in order. |
| `Attendees.SearchIgnoresCase` | script.js:151-157 | When some text occurs in an attendee's name or e-mail, typing that text in any other ASCII case (for example "ALI" for "Alice") stores a query that finds the attendee. |
| `Attendees.RenderStats` | script.js:166-169 | The total is the roster length. The checked-in and waiting counts are each between 0 and the total, and they add up to the total. |
| `Attendees.StatsMatchViews` | script.js:166-169 | The checked-in count equals the size of the `checked` view, and the waiting count equals the size of the `waiting` view. |
| `Attendees.AddStats` | script.js:90 | A new attendee raises the total by one, and raises by one the counter that matches its status. |
| `Attendees.AddKeepsUniqueIds` | script.js:90 | Putting an attendee with a fresh id in front keeps the ids unique. |
| `Attendees.ReplaceById` | script.js:113 | Every record whose id equals the updated record's id is replaced by it. Every other record stays at its position, and the length is kept. |
| `Attendees.ReplaceByIdKeepsIds` | script.js:113 | The replacement leaves the sequence of ids unchanged, so unique ids stay unique. |
| `Attendees.ReplaceByIdIdempotent` | script.js:113 | Applying the same check-in reply twice is the same as applying it once. |
| `Attendees.ReplaceByIdAt` | script.js:113 | With unique ids, a reply for the attendee at position i changes position i only. Replacing that record with the old one restores the list. |
| `Attendees.ReplaceByIdStats` | script.js:113 | A check-in reply keeps the total. The checked-in count changes exactly by the change in that attendee's status. |
| `Attendees.RemoveById` | script.js:129 | After a delete, no record has the deleted id. Every other record is kept as often as before and in its order. |
| `Attendees.RemoveByIdAbsent` | script.js:129 | Deleting an id that no record has changes nothing. |
| `Attendees.RemoveByIdUndoesAdd` | script.js:129 | Deleting the attendee just added under a fresh id gives back the roster as it was before. |
| `Attendees.RemoveByIdKeepsUnique` | script.js:129 | Deleting keeps the ids unique. |
| `Attendees.RemoveByIdCount` | script.js:129 | With unique ids, deleting an id that is on the roster removes exactly one attendee, and deleting any other id removes none. |
| `Attendees.ComposeContact` | script.js:230-234 | The result is "連絡先未登録" exactly when both e-mail and phone are empty. Otherwise it is the marked e-mail, the marked phone, or both joined by " / ", in that order. |
| `Attendees.TicketLabel` | script.js:236-244 | `standard`, `vip`, `vendor` and `staff` get their own labels. Every other value gets "一般". |
| `Attendees.TicketLabelAsWritten` | script.js:236-244 | The lookup as written: it yields a label, or, for a key that every object inherits, an inherited member. |
| `Attendees.InheritedKeyEscapesFallback` | script.js:243 | For an inherited key such as `toString`, the lookup as written yields the inherited member, not a label, so the "一般" fallback is skipped. |
| `Attendees.TicketLabelAgreesElsewhere` | script.js:236-244 | For every other ticket type, the lookup as written and `TicketLabel` agree. |
| `Text.JoinSnoc` | script.js:86 | Joining one more part appends the separator and that part. |
| `Checkin.RefusalMessage` | script.js:84-87 | A refused registration shows "登録に失敗しました。" when the reply has no `errors` list. An empty list gives "". One error is shown as it is. Two or more are the first ones joined, then a space, then the last one. |
| `Checkin.Roster.constructor` | script.js:2-6 | A new roster starts with an empty list, status `all` and an empty query. |
| `Checkin.Roster.Load` | script.js:51-60 | The list becomes what the server sent. On failure the list stays and the load-failure message is shown. |
| `Checkin.Roster.SetStatusFilter` | script.js:36-43 | A status button sets the status filter to its value. |
| `Checkin.Roster.SetSearchQuery` | script.js:45-48 | The search box stores its text lower-cased. This keeps the invariant that the query has no upper-case ASCII letter. |
| `Checkin.Roster.Submit` | script.js:62-98 | A blank name is refused before anything is sent, and the list is unchanged. Otherwise the built payload is sent. On success the new list is the returned attendee followed by the old list. On failure the list is unchanged and the error message is shown. Unique ids stay unique when the new id is fresh. |
| `Checkin.Roster.ToggleCheckin` | script.js:100-118 | On success the list becomes `ReplaceById` of the old list and the returned record. On failure it is unchanged. Either way the length and the ids are kept. |
| `Checkin.Roster.DeleteAttendee` | script.js:120-134 | Nothing is requested unless the user confirms. When the server answers with `ok` or 204, the list becomes `RemoveById` of the old list. Otherwise it is unchanged and a message is shown. Unique ids stay unique. |
| `Checkin.Roster.Visible` | script.js:144-159 | The list on screen keeps the roster's order. It holds exactly the attendees that pass the current status and search tests, each as often as it is on the roster. |
| `Checkin.Roster.QueryIsLowered` | script.js:45-48 | While the invariant holds, the stored query is its own lower-case form, so the search compares lower-cased text with a lower-cased query. |
| `Checkin.Roster.Counters` | script.js:166-174 | The counters total the roster, and checked-in plus waiting equals the total. Whatever the current filter and query, the checked-in count is the size of the `checked` view with no query, and the waiting count the size of the `waiting` view with no query. |

## Findings

| source | as written | input that shows it | evidently intended | confidence | as-written member | corrected member |
|---|---|---|---|---|---|---|
| script.js:236-244 | `map[type] \|\| '一般'` indexes a plain object literal. A key inherited from `Object.prototype` finds a function or the prototype object. That value is truthy, so it is rendered in place of a label. | ticket type `"toString"` (also `"constructor"`, `"valueOf"`, `"__proto__"`, …) | every type other than the four known ones shows "一般" | high for the language rule; the case is reached only if the server returns such a ticket type; not executed | `Attendees.TicketLabelAsWritten`, `Attendees.InheritedKeyEscapesFallback` | `Attendees.TicketLabel` |

## Left out

- Network I/O. `fetch`, `async`/`await`, HTTP headers and JSON bodies are not modelled. Each round trip is its parsed reply, passed in as a parameter.
- Error bodies that are not JSON. When such a body fails to parse, the message shown is the parse error's. Such a reply is modelled as a thrown error with some message.
- Checkin.Roster.Load: `loadAttendees` does not check `res.ok`, so any JSON body becomes the list. The model only admits a reply that is a list of attendees.
- DOM and timers. Not modelled: `cacheElements`, `bindEvents`, `render`/`renderList` (card cloning, chip texts, the "メモなし" note fallback, the empty-list placeholder), `showInlineMessage` with its 2.5 s removal, and resetting the form after a successful registration.
- The `confirm` dialog. It is the `confirmed` parameter of `DeleteAttendee`.
- `formatDate`. It depends on `Date` parsing and the local time zone.
- Numbers.ToNumber: only optionally signed decimal integer numerals are read. JavaScript also reads decimals, exponents, `0x`/`0o`/`0b` prefixes and `Infinity`; the model gives NaN for these.
- Numbers.ToNumber: a numeral is read as its exact integer value. JavaScript rounds numerals beyond 2^53 to the nearest double (and those beyond about 1.8e308 to Infinity), and `String()` writes numbers from 1e21 up in exponent form. So `Numbers.NumberOfNumeral` and `Numbers.GuestsOfNumeral` are stated only for integers of at most 2^53 in size.
- Numbers.Guests: because of the `ToNumber` restriction above, a field such as "2.5" gives 1 in the model but 2.5 in JavaScript.
- Text.Lower: only A-Z are lower-cased. Other letters that `toLowerCase` maps (full-width Latin, Greek, Cyrillic, …) are left as they are, and so is the case-insensitivity of the search for them.
- Ids are integers compared by value. JavaScript's `===` between ids of different types (the string "3" and the number 3) is not modelled.
- Missing fields. Text fields of a record are always strings here. An `undefined` name or e-mail, which would make `toLowerCase` throw, is not modelled.
- `server.js` is an Express app with two fixed routes and no roster logic. It is not part of this model.
