# Beachat chat engine in Dafny

A model of the in-memory chat engine of Beachat (`server/app.js`): the `App`
class with its `User` and `Channel` records. The engine keeps three ordered lists
— connected users (name, connection, current channel), channels (starting with
`#general`) and a command table of (trigger, handler) pairs — and offers user
registry operations, channel operations, fan-out of messages to a channel or to a
name, and a first-match command dispatcher.

The model is functional. `ChatApp.App` is a record of three sequences; each
operation is a pure function returning the new record together with the trace of
`socket.send` calls it makes (`Users.Delivery`: connection, recipient's name at
that moment, text), in order. Message wording is kept verbatim. A command handler
is a pure function of the message tokens and the calling user that returns
`Ok(v)` or `Throw`.

Modules, leaf first:

- `Wrappers` (`wrappers.dfy`): `Option`, standing for `null`/`undefined`.
- `Strings` (`strings.dfy`): `startsWith`, `split(' ')` and `join(' ')`, with both round trips.
- `Users` (`users.dfy`): the `User` record, deliveries, and the three list scans
  the engine uses (send-to-each-selected, filter, first-by-name). The send and filter
  scans are proved against an independent reference (`Positions`: the increasing
  positions of exactly the selected users); the first-by-name scan is specified by
  quantified postconditions.
- `Commands` (`commands.dfy`): command entries and the dispatcher scan.
- `ChatApp` (`app.js`'s `App`, in `app.dfy`): the state and every operation.
- `AppProperties` (`app_properties.dfy`): lemmas relating the operations to each other.

Behaviour of the code worth knowing:

- `joinChannel` does not create a missing channel; it moves the user anyway and then announces to nobody.
- `createChannel` does not deduplicate; a second call adds a second channel with the same name.
- `channelMessage` on a missing channel is a silent no-op, not an error.
- `handle` dispatches the empty message too (the empty trigger matches it). A handler that throws does not end the scan: the next matching entry is tried.
- Handler tokens come from splitting on single spaces only, so adjacent spaces give empty tokens.
- Renaming does not check the new name against other users.

## Model

| member | source | states |
|---|---|---|
| AppProperties.NewAppState | server/app.js:26-30 | a fresh engine is valid, has empty user and command lists and exactly one channel, named `#general`; no user is found, channel messages reach nobody and no command answers |
| ChatApp.NewApp | server/app.js:26-30 | `new App()` has no users, no commands and a single channel, and `#general` exists (the full statement is `AppProperties.NewAppState`) |
| ChatApp.ChannelExists | server/app.js:31-38 | `channelExists(n)` holds exactly when some channel of the engine has name `n` |
| ChatApp.HasChannel | server/app.js:31-38 | `channelExists(n)` is true exactly when some channel in the list has name `n` |
| ChatApp.CreateChannel | server/app.js:39-42 | exactly one channel named `n` is appended; earlier channels, users and commands are unchanged |
| AppProperties.CreateChannelExists | server/app.js:39-42 | after `createChannel(n)` a name exists exactly when it existed before or is `n` |
| AppProperties.CreateChannelCounts | server/app.js:39-42 | creating an existing name adds another channel of that name (no deduplication) |
| Users.Deliver | server/app.js:13-15 | `user.send(text)` writes the text to that user's connection, addressed under the user's current name |
| ChatApp.NewUser | server/app.js:1-7 | a new user has the given name and connection, is in `#general`, and is sent the welcome text |
| ChatApp.CreateUser | server/app.js:43-48 | the new user is appended at the end in `#general` and its position returned; existing users are unchanged; the welcome comes first, then the `#general` announcement |
| AppProperties.CreateUserFindable | server/app.js:43-48 | the returned user is in `#general`, and `getUser` of its name finds it or an earlier user of that name |
| AppProperties.CreateUserAnnounced | server/app.js:43-48 | when `#general` exists the trace is the welcome, then the announcement fanned out to the earlier `#general` occupants in list order (one per occupant, by `Users.FanoutIsPositions`), then the announcement to the new user; its length is the number of earlier occupants plus two |
| ChatApp.RegisterCommand | server/app.js:49-54 | the entry `{trigger, func}` is appended at the end of the table; earlier entries, users and channels are unchanged |
| AppProperties.RegisterCommandPriority | server/app.js:98-111 | a later registration never changes an answer the table already gives; it answers only when no earlier entry does |
| ChatApp.ChannelMessage | server/app.js:55-63 | nothing is delivered when the channel does not exist; every delivery carries the message (who receives it is stated by `AppProperties.ChannelMessageOccupants`) |
| AppProperties.ChannelMessageOccupants | server/app.js:55-63 | on an existing channel the k-th delivery goes to the k-th user in list order whose channel is `c`, so each occupant receives once |
| AppProperties.ChannelMessageReaches | server/app.js:55-63 | on an existing channel every occupant of `c` receives the message, and every delivery is to some occupant (the per-position statement is `AppProperties.ChannelMessageOccupants`) |
| ChatApp.GetUser | server/app.js:67-74 | returns the first position whose user has name `n`, or `None` exactly when no user has that name |
| Users.FirstNamed | server/app.js:68-73 | the first-match scan returns the earliest position with the name, or `None` exactly when the name is absent |
| AppProperties.GetUserFinds | server/app.js:67-74 | if some user has name `n`, `getUser(n)` finds it or an earlier user of that name |
| ChatApp.JoinChannel | server/app.js:78-82 | only user `i`'s channel field changes; channels and commands are unchanged; the announcement goes to the occupants of `c` after the move |
| AppProperties.JoinChannelAnnounces | server/app.js:78-82 | joining never creates a channel; on an existing channel the mover hears its own announcement, on a missing one nothing is delivered |
| ChatApp.UserMessage | server/app.js:83-89 | every delivery carries the message (who receives it is stated by `AppProperties.UserMessageNamed`) |
| AppProperties.UserMessageNamed | server/app.js:83-89 | the message goes to exactly the users named `n`, once each, in list order, and to nobody exactly when `getUser(n)` is null |
| ChatApp.DeleteUser | server/app.js:90-97 | no user named `n` remains, every user with another name remains, channels and commands are unchanged |
| AppProperties.DeleteUserKeepsOrder | server/app.js:90-97 | the k-th remaining user is the k-th user in the original list whose name is not `n` |
| AppProperties.DeleteUserThenAbsent | server/app.js:90-97 | afterwards `getUser(n)` is null and `userMessage(n, m)` reaches nobody; a second `deleteUser(n)` changes nothing |
| AppProperties.DeleteAbsentUser | server/app.js:90-97 | deleting a name nobody has leaves the user list unchanged |
| ChatApp.ChangeName | server/app.js:8-12 | only user `i`'s name changes; the confirmation goes to that user's connection under the new name |
| AppProperties.ChangeNameNoCollisionCheck | server/app.js:8-12 | after a rename `getUser(newName)` finds the renamed user or an earlier one, and a user who already had that name keeps it |
| ChatApp.Handle | server/app.js:98-111 | returns `Some` of the value of the first entry whose trigger prefixes the message and whose handler returns (even if that value is `undefined`); `None`, the fall-through `undefined` after the loop, exactly when no matching handler returns |
| Commands.Dispatch | server/app.js:99-110 | the scan returns `Some` of the first matching, non-throwing entry's value, and `None` (falling out of the loop) exactly when there is none |
| Commands.DispatchFirstAnswer | server/app.js:99-110 | an entry that matches and returns, with every earlier entry unmatched or throwing, supplies the result |
| Commands.DispatchAppend | server/app.js:49-54 | appending to the table preserves the answer of the earlier entries |
| Commands.PrefixPriority | server/app.js:101-105 | with triggers `/a`, `/ab`, `""` in that order, `/ab hello` is answered by the `/a` handler when the `/a` handler returns (if it throws, the scan goes on to `/ab`) |
| Commands.Tokens | server/app.js:105 | `message.split(' ')` gives tokens that contain no space and join back with spaces into the message |
| Commands.Matches | server/app.js:101 | `message.startsWith(trigger)` holds exactly when the trigger is no longer than the message and agrees with it character by character |
| Commands.EmptyTriggerMatchesAll | server/app.js:101 | the empty trigger matches every message |
| Commands.TokensRejoin | server/app.js:105 | the tokens a handler receives contain no space and join back with spaces into the message |
| Strings.Split | server/app.js:105 | `split(' ')` yields one more token than there are spaces, none containing a space |
| Strings.JoinSplit | server/app.js:105 | joining the tokens of a split gives back the string |
| Strings.SplitJoin | server/app.js:105 | splitting a join of a non-empty list of space-free tokens gives back the tokens (the empty list joins to `""`, which splits to `[""]`) |
| Users.Fanout | server/app.js:57-61 | the send loop never makes more deliveries than there are users, and each carries the text (the recipients are stated by `Users.FanoutIsPositions`) |
| Users.FanoutIsFilter | server/app.js:57-61 | the send loop delivers, in order, to exactly the users the filter would keep |
| Users.Filter | server/app.js:91-96 | the filter keeps only selected users and never grows the list |
| Users.FilterMembers | server/app.js:91-96 | every user the filter keeps is from the list, and every selected user of the list is kept |
| Users.FilterIsPositions | server/app.js:91-96 | the filter keeps the selected users in their original order |
| Users.FanoutIsPositions | server/app.js:57-61 | the send loop delivers to exactly the selected users, once each, in list order |
| AppProperties.OperationsPreserveValid | server/app.js:28 | every operation keeps `#general` in existence |
| AppProperties.ConnectAndJoinScenario | server/app.js:43-82 | alice and bob connect, bob joins a newly created `#dev`: alice got welcome and arrival, bob alone hears the join |

## Left out

- `console.log` calls: logging has no effect on state or deliveries.
- `socket.name = newName` in `changeName`: a field of the transport connection, outside the engine.
- `getChannels` and `getUsers`: they return the lists themselves, which are the `channels` and `users` fields of `ChatApp.App`.
- `Channel.history`: the array is created and never written, so channels are modelled by name alone.
- ChatApp.Handle: the loop at server/app.js:100 reads the undeclared `comand` outside its `try`, so as written every call with a non-empty table throws a ReferenceError; the model is the matching loop the code evidently intends.
- ChatApp.Handle: handlers are pure functions of the tokens and the user; the effects a real handler has on the engine through its closure are not modelled.
- ChatApp.JoinChannel: the user is addressed by position in the current list; calling it with a user object already removed by `deleteUser` is not modelled.
- ChatApp.ChangeName: the user is addressed by position in the current list; renaming a user object already removed by `deleteUser` is not modelled.
- JavaScript's loose `==`: the model assumes user names, channel names and messages are strings, for which `==` is exact equality; a `null` name or another non-string value passed in by a caller is not modelled.
- `server/serve.js` (WebSocket server and query-string parsing) and `server/database.js`, `server/init.js` (SQLite setup): transport and storage I/O with no engine logic.
- Keepalive timers, history persistence and concurrency: the code does not implement them, and the JavaScript event loop runs each operation to completion.
