# Chatbot API core, modelled in Dafny

The system is a small HTTP chatbot written in plain JavaScript (`index.js`).
Its core has two parts:

- **The reply generator.** It answers a message by simulated "AI".
  - The message is lower-cased and trimmed.
  - It is then tested against keyword groups in a fixed order, by substring: greeting, how-are-you, weather, time, date, help, farewell, thanks, name, joke.
  - The first group with a hit decides the reply.
  - A time or date reply ends with the locale clock string.
  - A joke is picked at random from three.
  - A message matching no group gets one of four fallback replies, picked at random.
- **The conversation store.** It is an in-memory dictionary from conversation id to history.
  - A chat creates the history when it is missing, pushes the user's turn and then the assistant's turn, and cuts the history back to its latest 20 turns.
  - The history endpoint reads a history.
  - The clear endpoint deletes one.
  - The health endpoint counts the stored ids.
  - The chat endpoint rejects a missing or empty message and leaves everything unchanged. A missing or empty conversation id means `"default"`.

Layout:

- `wrappers.dfy`: `Option` and `Result`.
- `text.dfy` (module `Text`): the JavaScript string operations the dispatcher uses.
  - `trim` uses the ECMAScript whitespace and line-terminator set.
  - `toLowerCase` is restricted as described under "Left out".
  - `includes` is `Contains`.
  - The module also proves the laws the dispatcher needs.
- `dispatch.dfy` (module `Dispatch`): the keyword chain `Classify` and the replies.
  - `Respond` is the whole reply generator.
  - `CategoryOfReply` reads the category back from a reply. It is the inverse that shows no two branches produce the same reply.
- `dispatch_examples.dfy` (module `DispatchExamples`): the chain on concrete messages.
  - The first match wins over a later one.
  - Keywords match inside words.
  - Case and padding are ignored.
- `history.dfy` (module `History`): turns, the cut-back to 20 turns, one exchange (`AppendExchange`), and a run of exchanges (`Converse`). Its invariant is that a history alternates user and assistant turns and holds at most 20.
- `store.dfy` (module `Store`): the class `ConversationStore`.
  - Its field `conversations: map<string, seq<Turn>>` is changed in place by `GenerateResponse`, `Chat` and `Clear`.
  - It is read by `History` and `Count`.
  - Pure lemmas about the store after a chat or a clear sit beside the class.

The random picks (`Math.floor(Math.random() * length)`) are the `Draw` parameters, required to be in range.
The ISO timestamps and the locale time and date strings are the `Clock` parameters.

## Model

| member | source | states |
|---|---|---|
| Text.TrimStart | index.js:16 | the result is the suffix of the input left after dropping leading whitespace; everything dropped is whitespace and the result does not start with whitespace |
| Text.TrimEnd | index.js:16 | the result is the prefix left after dropping trailing whitespace; everything dropped is whitespace and the result does not end with whitespace |
| Text.Trim | index.js:16 | `trim`: the result occurs in the input with only whitespace before and after it, and neither starts nor ends with whitespace |
| Text.ToLower | index.js:16 | `toLowerCase`: no character with an ASCII lower case is left, the result is no shorter, a string without such characters is unchanged, and a string without U+0130 keeps its length with each character replaced by its own lower case (`A`-`Z` to `a`-`z`, KELVIN SIGN to `k`) |
| Text.Contains | index.js:35 | `includes`: true exactly when the pattern occurs at some index |
| Text.ToLowerAppend | index.js:16 | lower-casing distributes over concatenation |
| Text.SameLowering | index.js:16 | strings that agree character by character up to case have the same lower case |
| Text.ToLowerIdempotent | index.js:16 | lower-casing twice is lower-casing once |
| Text.ToLowerWhitespace | index.js:16 | lower-casing leaves whitespace unchanged |
| Text.TrimStartPadding | index.js:16 | leading whitespace added in front is stripped again |
| Text.TrimEndPadding | index.js:16 | trailing whitespace added behind is stripped again |
| Text.TrimStartAppend | index.js:16 | text appended after a non-blank string survives stripping the start |
| Text.TrimStartAllWhitespace | index.js:16 | a blank string trims to the empty string |
| Text.TrimUnpadded | index.js:16 | a non-empty string with no whitespace at either end is its own trim |
| Text.TrimPadding | index.js:16 | whitespace around a string does not change its trim |
| Text.TrimIdempotent | index.js:16 | trimming twice is trimming once |
| Text.TrimKeepsLowered | index.js:16 | trimming a lower-cased string leaves no upper-case letter |
| Text.MissingCharBlocks | index.js:35 | a keyword holding a character the message lacks does not occur in it |
| Text.ContainsTransitive | index.js:49 | an occurrence inside an occurrence is an occurrence |
| Dispatch.Priority | index.js:35-72 | the position of a group in the chain; the fallback comes last, after all ten keyword groups |
| Dispatch.ChainOrder | index.js:35-72 | no two groups share a position, so the chain tests them in one strict order |
| Dispatch.Keywords | index.js:35-55 | the keywords each branch tests; only the fallback has none |
| Dispatch.KeywordsLowerCase | index.js:35-55 | every keyword is non-empty and made of lower-case ASCII letters and spaces, so it can occur in a lower-cased message |
| Dispatch.Normalize | index.js:16 | `toLowerCase().trim()`: no upper-case letter is left, neither end is whitespace, and the result sits in the lower-cased message with only whitespace around it |
| Dispatch.HitsTested | index.js:35-64 | each test of the chain, taken keyword by keyword, succeeds exactly when some keyword of its group occurs |
| Dispatch.HitsTable | index.js:35-64 | the same, for every group at once |
| Dispatch.Classify | index.js:35-72 | first match wins: the chosen group has a hit (or is the fallback) and no group tested earlier has one |
| Dispatch.ClassifyUnique | index.js:35-72 | any group that meets the first-match rule is the one chosen, so the rule determines the choice |
| Dispatch.FallbackIffNoHit | index.js:63-71 | the fallback is chosen exactly when no keyword of any group occurs |
| Dispatch.EmptyMatchesNothing | index.js:63-71 | the empty message falls back |
| Dispatch.Reply | index.js:36-71 | every branch's reply is non-empty |
| Dispatch.JokeRecognised | index.js:55-62 | each of the three jokes is read back as a joke |
| Dispatch.DefaultRecognised | index.js:63-71 | each of the four fallback replies is read back as a fallback |
| Dispatch.FixedRepliesOutsidePools | index.js:36-54 | no fixed reply is a joke or a fallback reply |
| Dispatch.ClockRepliesRecognised | index.js:41-46 | a time or date reply is read back as such, whatever locale string it carries |
| Dispatch.FixedRepliesRecognised | index.js:36-54 | each fixed reply is read back as its own category |
| Dispatch.ReplyRoundTrip | index.js:35-72 | the category can be read back from its reply for every random pick and clock string, so distinct branches never answer alike |
| Dispatch.Respond | index.js:16-72 | the reply is non-empty and belongs to the category the chain picks for the lower-cased, trimmed message; a time or date reply is its prefix followed by the locale string; a joke is the joke the pick names, and comes exactly when the joke group is picked; a fallback is the fallback the pick names, and comes exactly when no keyword occurs |
| Dispatch.GreetingWins | index.js:35-36 | a greeting keyword anywhere in the normalized message gives the greeting, whatever else it asks |
| Dispatch.NormalizedAlready | index.js:16 | a lower-case message without padding is matched as written |
| Dispatch.GoodbyeNeedsNoTest | index.js:49 | a message containing "goodbye" already contains "bye" |
| Dispatch.RespondIgnoresCaseAndPadding | index.js:16 | whitespace around a message and the case of its letters do not change the reply |
| Dispatch.NormalizeIdempotent | index.js:16 | normalizing a normalized message changes nothing |
| Dispatch.BlankMessageFallsBack | index.js:16-71 | a message of only whitespace is not rejected but gets a fallback reply |
| DispatchExamples.LiteralNormalized | index.js:16 | the lower-case example messages are their own normal form |
| DispatchExamples.GreetingMessages | index.js:35 | "hi, what time is it" and "hello there" hit the greeting group |
| DispatchExamples.GreetingBeforeTime | index.js:35-43 | "hi, what time is it" gets the greeting, not the time |
| DispatchExamples.ThisGreets | index.js:35-36 | "this" contains "hi" and is a greeting |
| DispatchExamples.UpdateAsksDate | index.js:35-46 | "update" contains "date" and no earlier keyword, so it gets the date |
| DispatchExamples.ShoutedGreeting | index.js:16 | "  HELLO there  " gets the same reply as "hello there": the greeting |
| DispatchExamples.TellMeAJoke | index.js:55 | "tell me a joke" contains "joke" and lacks one character of every earlier keyword |
| DispatchExamples.JokeOnly | index.js:35-62 | a message with "joke" and without those characters is classified as a joke request |
| DispatchExamples.JokeRequest | index.js:55-62 | "tell me a joke" is answered with one of the three jokes |
| History.Retain | index.js:81-84 | `slice(-20)` after an over-long push: exactly the latest `min(n, 20)` turns, in order |
| History.RetainIdempotent | index.js:81-84 | cutting back twice is cutting back once |
| History.RetainAppend | index.js:81-84 | cutting back before appending keeps what cutting back afterwards keeps |
| History.RetainAfterExchange | index.js:81-84 | cutting back after an exchange and again later is cutting back once |
| History.AppendExchange | index.js:23-84 | one exchange gives `min(n + 2, 20)` turns: the user's turn and then the reply come last, after the latest turns of the old history |
| History.AlternatingEven | index.js:23-84 | a history of user-reply pairs has an even length |
| History.AlternatingRoles | index.js:23-84 | in such a history the user speaks at even positions and the assistant at odd ones |
| History.AlternatingAppend | index.js:23-84 | pushing a user turn and then a reply keeps the pairs |
| History.AlternatingDrop | index.js:81-84 | dropping an even number of the oldest turns keeps the pairs |
| History.AppendExchangeMessages | index.js:23-84 | an exchange of a non-empty message and a non-empty reply keeps every turn's text non-empty |
| History.AppendExchangeWellFormed | index.js:23-84 | an exchange keeps a history in user-reply pairs and at most 20 turns long, and leaves it non-empty |
| History.Flatten | index.js:23-79 | the turns of a run of exchanges in push order: the i-th user's turn at position 2i and its reply right after |
| History.Converse | index.js:19-84 | a history after a run of exchanges, one after the other, stays within 20 turns |
| History.ConverseEndsWithLast | index.js:23-79 | after a non-empty run of exchanges the history ends with the last user's turn and its reply |
| History.ConverseRetainsAll | index.js:23-84 | cutting back after every exchange equals pushing all the turns and cutting back once |
| History.ConverseLength | index.js:23-84 | after k exchanges a history of n turns holds `min(n + 2k, 20)` |
| History.FreshConversation | index.js:19-84 | a new conversation holds `min(2k, 20)` turns after k exchanges, and they are the latest turns pushed |
| Store.ResolveId | index.js:143 | the given id when it is non-empty, otherwise "default" |
| Store.Lookup | index.js:183 | the stored history of the id, or empty when the id is not stored |
| Store.LookupEmptyIffAbsent | index.js:183 | in a valid store the history of an id is empty exactly when the id is not stored |
| Store.Chatted | index.js:19-84 | the store after one exchange: the id is added to the ids, every other conversation is kept, and the id's history is its old one after the exchange |
| Store.ChattedSteps | index.js:23-84 | one exchange in the store is: push the user's turn, push the reply, cut back |
| Store.ConversationStore.constructor | index.js:12 | the store starts empty |
| Store.ConversationStore.PushUser | index.js:19-30 | creates the history of the id when it is missing and pushes the user's turn; no other id changes |
| Store.ConversationStore.PushReply | index.js:75-84 | pushes the reply and cuts the history back to its latest 20 turns; no other id changes |
| Store.ConversationStore.GenerateResponse | index.js:15-86 | returns the reply to the message, and the store is the old one with that conversation after one exchange |
| Store.ConversationStore.Chat | index.js:142-161 | a missing or empty message fails with `MissingMessage` and leaves the store unchanged; otherwise the reply, the resolved id and the timestamp are returned and the store is the old one after one exchange; the store stays valid |
| Store.ConversationStore.History | index.js:181-190 | the history of the resolved id, or empty, with `messageCount` equal to its length |
| Store.ConversationStore.Clear | index.js:217-227 | the resolved id is removed and nothing else changes; the store stays valid |
| Store.ConversationStore.Count | index.js:237 | `activeConversations` is the number of stored ids |
| Store.ChatKeepsValid | index.js:19-84 | a chat of a non-empty message with a non-empty reply keeps every stored history non-empty, at most 20 turns long, in user-reply pairs, and with text in every turn |
| Store.StoredMessagesNonEmpty | index.js:145-154 | every turn of a valid store holds some text |
| Store.StoredHistoryBounded | index.js:81-84 | no stored history is longer than 20 turns |
| Store.ChatCount | index.js:23-84 | a chat makes its history `min(old + 2, 20)` turns long |
| Store.ChatEndsWithExchange | index.js:23-84 | after a chat the history ends with the user's original (not normalized) message and then the reply, after the latest older turns |
| Store.ChatKeepsOthers | index.js:19-84 | a chat leaves every other conversation unchanged |
| Store.ChatActiveCount | index.js:19-21 | a chat adds one id to the count exactly when the id was new |
| Store.ChattedAllConverse | index.js:19-84 | the history of an id after a run of chats in it is its old history after the same run of exchanges |
| Store.RepeatedChats | index.js:19-84 | after k chats on an id that was not stored, its history holds min(2k, 20) turns |
| Store.ClearEmptiesHistory | index.js:219-221 | after a clear the history of the id is empty |
| Store.ClearIdempotent | index.js:219-221 | clearing twice is clearing once |
| Store.ClearKeepsOthers | index.js:219-221 | a clear leaves every other conversation unchanged |
| Store.ClearActiveCount | index.js:219-221 | a clear removes one id from the count exactly when it was stored |

## Left out

- HTTP routing and the server are not modelled. This covers the 404 and 405 replies, `OPTIONS`, listening, logging and the `SIGINT` handler. They are I/O around the core.
- JSON parsing, the "Invalid JSON" reply and `sendJSONResponse` with its CORS headers are not modelled. The endpoints start from the parsed fields.
- Store.ConversationStore.Chat: takes `message` and `conversationId` as absent or a string. Non-string JSON values (numbers, objects, `true`) are not modelled. For them, `toLowerCase` would throw or the id would be a coerced key.
- Store.ConversationStore.History: takes `conversationId` as absent or a string. A query string that repeats `conversationId` arrives as an array, which the source uses as a coerced key; that case is not modelled.
- Store.ConversationStore.Clear: takes `conversationId` as absent or a string. Non-string JSON values are used by the source as coerced keys; that case is not modelled.
- Store.ConversationStore.Chat: ids that name inherited members of a plain JavaScript object, such as `"constructor"` or `"__proto__"`, are not modelled. The store is a map holding only what was put in it.
- Text.ToLower: the character-by-character clause is stated for strings without U+0130, whose lower case is two characters long; for the others the value follows from `ToLowerAppend` and `LowerChar`.
- Text.ToLower: maps only the characters whose JavaScript lower case holds an ASCII letter. Those are `A`-`Z`, U+0130 (to `"i"` plus U+0307) and U+212A (to `"k"`). Every other character is kept as it is. Every keyword is ASCII, and no other character lowers to ASCII. So this does not change which keyword occurs, but the lower-cased text of other scripts differs from JavaScript's.
- Strings are sequences of Unicode scalar values, not UTF-16 code units. All keywords and whitespace are in the Basic Multilingual Plane, so matching is unaffected.
- Randomness, clocks and locale formatting are not computed. `Math.random` becomes the `Draw` indices, and `toISOString`, `toLocaleTimeString` and `toLocaleDateString` become the `Clock` strings. The model therefore says nothing about timestamp order or format.
- Concurrency between requests is not modelled. Node runs each handler to completion, so each operation is modelled as one atomic step.
