# Translation bot: a Dafny model of its request handling

The bot relays text from a chat platform to a machine-translation service
and answers through three surfaces: a `/translate` slash command, a
"Translate Message" context-menu action that offers one button per
language, and a legacy `!translate <code> <text>` text command. All of its
logic sits in `index.js`. This project models the pure, sequential part of
it:

- the **message cache** (`messageCache`): the insert done by the
  context-menu action, the lookup and delete done by a language button,
  and the age-based sweep `cleanMessageCache`. The clock is a parameter
  (`now`, in milliseconds). Module `MessageCache`.
- the **button id codec**: `translate_<code>_<key>` on the way out, and
  `split('_')` with destructuring of the first three parts on the way in.
  Module `CustomId`, on top of the JavaScript `split`/`join`/`trim`/
  `toUpperCase` models in `JsString`.
- the **language picker layout**: eight buttons in action rows of at most
  five, with no empty row. Modules `Languages` and `ButtonLayout`.
- the **interaction handlers**: context menu, button, slash commands, and
  the top-level fallback that picks `reply` or `editReply` from the
  interaction's `replied`/`deferred` flags. Module `Interactions`.
- the **legacy text command**: prefix test, argument parsing, usage hint,
  upper-casing of the code, and the reply texts. Module `LegacyCommand`.

Every handler is a pure function. It takes the event, the cache and the
translation service's answer (`Translator.Translation`: `Translated(text)`
or `TranslationFailed`). It returns the platform calls it makes, the
translation request it issues (if any) and the new cache. The generated
cache key and the current time are parameters too.

Points where the code behaves differently from what a reader might expect.
The model follows the code in each case:

- The sweep deletes an entry only when `timestamp < now - 300000`. An entry
  exactly five minutes old survives (`MessageCache.EntryLifetime`).
- A button deletes its cache entry only after a successful translation and
  reply. When the translation fails the entry stays, so the same button can
  be tried again (`Interactions.RetryAfterFailure`).
- Interaction replies read `Translation (L):` followed by a line break and
  the text. The legacy reply puts the text on the same line after `: `.
- A button whose id does not start with the `translate` action is deferred
  and then never answered (`Interactions.OnButton`).
- The legacy path upper-cases the code but does not check it against the
  language list. Any code is passed on to the translator.
- The acknowledgement rules belong to the chat library, not to this
  repository. They are stated as an assumption in `Interactions.Apply`:
  `reply` and `deferReply` need an unacknowledged interaction, and
  `editReply` needs an acknowledged one. Every handler's calls are proved
  to obey these rules (`Interactions.HandleInteraction`).

## Model

| member | source | states |
|---|---|---|
| JsString.Trim | index.js:246 | `trim` yields an infix of the input that neither starts nor ends with whitespace; everything cut off at either end is whitespace |
| JsString.Split | index.js:159 | `split` on one character gives at least one piece; no piece holds the separator; joining the pieces with it gives back the input |
| JsString.SplitJoin | index.js:248 | `split` undoes `join` when no piece holds the separator |
| JsString.ToUpper | index.js:255 | upper-casing keeps the length, leaves no lower-case ASCII letter, changes each lower-case letter to its capital and keeps every other character |
| JsString.ToUpperFixesUpper | index.js:255-256 | a string with no lower-case ASCII letter, such as any code in the language list, is unchanged by upper-casing, so upper-casing is idempotent |
| Languages.CodesAreTwoCapitals | index.js:20-29 | there are eight languages; each code is two capital letters and holds no `_` |
| Languages.CodesAreDistinct | index.js:20-29 | no two languages share a code |
| MessageCache.Put | index.js:124-128 | the insert maps the new key to the content stamped `now`, adds no other key and keeps every other entry; an existing key is overwritten |
| MessageCache.Get | index.js:163-165 | the lookup finds an entry exactly when the key is cached, and returns that entry |
| MessageCache.Delete | index.js:180 | the delete removes exactly the given key and keeps every other entry |
| MessageCache.Sweep | index.js:47-53 | a sweep at `now` keeps exactly the entries with `timestamp >= now - 300000`, unchanged |
| MessageCache.CleanMessageCache | index.js:47-53 | the delete-while-iterating loop gives the same cache as the sweep, whatever order it visits the keys in |
| MessageCache.SweepBoundsAge | index.js:48-52 | after a sweep at `now` no entry is more than five minutes old |
| MessageCache.EntryLifetime | index.js:48-50 | an entry stamped `t` survives a sweep at `now` exactly when `now <= t + 300000`, so an entry exactly five minutes old stays |
| MessageCache.SweepLaterAbsorbsEarlier | index.js:47-53 | a sweep followed by a later sweep equals the later sweep alone |
| MessageCache.SweepDeleteCommute | index.js:47-53 | a sweep and a button's delete of one key give the same cache in either order |
| MessageCache.GetAfterPutAndDelete | index.js:124-180 | a lookup right after the insert finds the inserted entry; after the delete it finds nothing; insert then delete equals a plain delete |
| CustomId.Encode | index.js:141 | a button id starts with `translate_` and is the code and the key plus the action and two separators long |
| CustomId.Decode | index.js:159 | no decoded field holds `_`; a key is present only when a language is; an id with no `_` decodes to itself as the action, with language and key `undefined` |
| CustomId.SplitEncoded | index.js:159 | splitting an id whose code holds no `_` gives the action, the code, then the pieces of the key |
| CustomId.DecodeEncode | index.js:159 | when neither the code nor the key holds `_`, decoding an encoded id gives back `translate`, the code and the key |
| CustomId.EncodeInjective | index.js:141 | under that condition, different code/key pairs never share a button id |
| CustomId.KeyWithSeparatorIsCut | index.js:159 | if the key held `_`, the decoded key would stop at its first `_` and differ from the key |
| CustomId.LanguageIdsRoundTrip | index.js:141 | every code in the language list survives the round trip with any key free of `_` |
| ButtonLayout.Buttons | index.js:133-145 | there is one button per language, in list order, each carrying its code's id and the language's label |
| ButtonLayout.Layout | index.js:130-149 | the reference layout reads back as the buttons in order; each row holds 1 to 5 buttons and every row but the last holds 5 |
| ButtonLayout.LayoutUnique | index.js:130-149 | any rows with those properties equal the reference layout |
| ButtonLayout.BuildRows | index.js:130-149 | the row-building loop, which pushes a full row before adding a button and pushes the last row only when non-empty, produces exactly the reference layout |
| ButtonLayout.LanguageRows | index.js:130-149 | the eight languages give two rows, of 5 and 3 buttons |
| ButtonLayout.PickerButtonsDecode | index.js:139-144 | every picker button for a key free of `_` decodes to `translate`, its own language's code and that key |
| Interactions.Fallback | index.js:222-239 | the fallback uses `reply` exactly when the interaction is neither replied to nor deferred and `editReply` otherwise; it sends the one generic error text, and the platform accepts the call in every state |
| Interactions.FallbackAnswersOnce | index.js:222-239 | after any accepted calls that gave no answer, the fallback is accepted and the user gets exactly one answer |
| Interactions.OnContextMenu | index.js:110-155 | without message content: one access-denied reply, no defer, no cache write. With content: defer, cache the text under the key at `now`, then edit in the prompt and a valid layout of the language buttons |
| Interactions.OnButton | index.js:156-188 | always defers first. A foreign action gets nothing more. A missing or uncached key gets the session-expired edit, no translation and an unchanged cache. A cached key gets the cached text translated into the button's code: on success the `Translation (L):\n` edit and the entry deleted, on failure the error edit and the entry kept |
| Interactions.OnChatCommand | index.js:189-221 | `/translate` defers and translates the given text into the given code; on success it edits in `Translation (L):\n`, on failure it throws after the defer; `support`/`invite` reply with their page; the cache is untouched |
| Interactions.HandleInteraction | index.js:108-240 | the fallback reads the acknowledgement state the handler's calls left; the platform accepts every call made for any event; the user gets exactly one answer for the interactions the bot handles and none for the others |
| Interactions.PickThenClick | index.js:124-180 | after the picker for a message, clicking its i-th button translates that message into the i-th language, answers with the result and removes the entry; a second click on any button of that picker, handled after the first click's handler has finished, gets the session-expired notice |
| Interactions.RetryAfterFailure | index.js:172-187 | a failed translation answers with the error notice and keeps the entry, so the same button can then succeed |
| Interactions.ExpiredAfterSweep | index.js:163-171 | once a sweep runs more than five minutes after the picker was sent, its buttons get the session-expired notice and no translation is requested |
| Interactions.ChatTranslateFailure | index.js:194-235 | a `/translate` whose translation fails is deferred and then answered once, by the fallback's edit with the generic error |
| LegacyCommand.Parse | index.js:245-246 | a message is a command exactly when it starts with `!translate` |
| LegacyCommand.ParseAtFirstSpace | index.js:246-252 | for a trimmed remainder: no space means the usage hint; otherwise the code is everything before the first space and the text everything after it, inner spacing kept, and neither is empty |
| LegacyCommand.UsageIffNoSpace | index.js:246-252 | a command gets the usage hint exactly when its trimmed remainder holds no space; a parsed code is never empty and holds no space, and a parsed text is never empty |
| LegacyCommand.ParseCommandLine | index.js:245-252 | `!translate <code> <text>`, with a non-empty code that holds no space and does not start with whitespace and a non-empty text that does not end in whitespace, parses into that code and that text |
| LegacyCommand.OnMessage | index.js:242-262 | bot authors and non-commands get nothing. A usage error gets the usage hint and no translation. A command requests its text in the upper-cased code; the reply is `Translation (CODE): ` plus the result, or the fixed error text |
| LegacyCommand.RepliesOnce | index.js:242-262 | the bot replies to a message exactly when a non-bot author sent a `!translate` command |
| LegacyCommand.BareCommandGetsUsage | index.js:250-252 | a bare `!translate` gets the usage hint and no translation request |

## Left out

- Client construction, intents, login and event registration (index.js:1-13, 56-62, 264). These are calls into the chat library.
- The translation service call `translateText` (index.js:173, 195, 255). It is a network call. Its answer is a parameter, and the request a handler makes is recorded in its result.
- Key generation from `Date.now()` and `Math.random()` (index.js:124), and the clock. Both are nondeterministic, so the key and `now` are parameters. The round-trip lemmas require a key free of `_`; the generated keys have that shape.
- The one-minute `setInterval` timer that runs the sweep (index.js:61). The sweep is modelled as a step of its own, and `MessageCache.SweepDeleteCommute` shows that a sweep and a button's delete give the same cache in either order.
- Interleaving of handlers. Each interaction handler is modelled as running to completion before the next event starts. In the source a handler pauses at each `await`, and another event can be handled meanwhile. A button looks its key up at index.js:163 but deletes it only at index.js:180, after waiting on `translateText` and `editReply` (index.js:173-177). So two quick clicks on one picker can both find the entry, and both get a translation. `Interactions.PickThenClick` holds for clicks handled one after the other.
- `updateActivity` and its five-second timer (index.js:31-44, 60). It only sets the bot's presence text.
- The command-registration manifest (index.js:63-105). It is constant data sent to the platform.
- The texts of the `support` and `invite` pages (index.js:200-219). They are constants; the invite link also embeds the bot's user id. `InfoPage(name)` stands for them.
- The `ephemeral: true` flag on interaction responses. Every interaction response carries it and the legacy reply does not, so it is not a model field.
- Failures of the platform calls themselves (`reply`, `deferReply`, `editReply`, `message.reply`). The model treats them as succeeding. Where each failure would go in the source:
  - Most failures in an interaction handler reach the top-level fallback (index.js:222-239), which `Interactions.FallbackAnswersOnce` covers for any accepted prefix of calls. A second failure inside the fallback is only logged (index.js:236-238) and sends nothing.
  - A button's `editReply` at index.js:166 or index.js:174 is inside the button's own `try`. Its failure goes to the local `catch` (index.js:181-187), which edits in the button error notice. After a failure at index.js:174 the delete at index.js:180 is skipped, so the entry stays cached. The top-level fallback runs only if that error edit fails too.
  - The `MessageCreate` listener (index.js:242-262) has no top-level fallback. A failed reply at index.js:256 goes to the local `catch` at index.js:257-260, which replies with the fixed error text. A failed reply at index.js:251 or index.js:259 is an unhandled promise rejection, and nothing further is sent.
- `dotenv`, secrets and `console.error` logging.
- JsString.ToUpper: upper-cases ASCII letters only. JavaScript's `toUpperCase` also maps non-ASCII letters, and some of them to several characters (`ß` to `SS`, `ﬁ` to `FI`, `ı` to `I`). The codes in the language list are ASCII and unaffected. The legacy command, however, passes the user's token on unchecked (index.js:255). There a non-ASCII token can upper-case into a different, ASCII code: `!translate ﬁ hello` asks for target `FI`, while the model's request keeps the token as typed (`ﬁ`).
- Strings are sequences of Unicode scalar values, whereas JavaScript strings are UTF-16. No modelled property depends on string length in code units.
