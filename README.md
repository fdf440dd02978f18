# Squad hangout store, modelled in Dafny

Squad is a small backend for coordinating "hangouts" (events). Registered
users create hangouts, join them, chat in them, and read a feed of all
hangouts. This project models the logic in `main.py` beneath its web, ORM
and crypto layers:

- the start-up normalisation of `DATABASE_URL`;
- identity resolution from a decoded bearer token;
- one store operation per endpoint: `register`, `create_hangout`,
  `join_hangout`, `delete_hangout`, `send_message` and `get_feed`;
- the `@squadbot` auto-reply.

Layout, one module per file:

- `wrappers.dfy` (`Wrappers`): `Option`.
- `strings.dfy` (`Strings`): the Python string operations main.py uses:
  `startswith`, `replace(old, new, 1)`, `in` and `lower`. A first-occurrence
  search (`FindFirst`) underlies `replace` and `in`.
- `config.dfy` (`DatabaseConfig`): the URL normalisation.
- `squadbot.dfy` (`SquadBot`): the trigger test, the five replies, and the
  bot's author name.
- `records.dfy` (`Records`): the table rows as datatypes, plus the
  queries the handlers run over them. These are lookup by id, a hangout's
  attendee and message lists, and the cascading removal of a hangout's rows.
- `auth.dfy` (`Auth`): `get_current_user` and the account check of `login`.
- `transitions.dfy` (`Transitions`): the whole store as one `State` value.
  It has one function per endpoint and the store invariant `Valid`.
  Lemmas state what each endpoint does and prove that each one keeps the
  invariant.
- `store.dfy` (`Squad`): the class `HangoutStore`. It holds the registered
  users and the three tables as fields, and has one method per endpoint.
  Each mutating method is proved to move the store from `old(Snapshot())`
  to the matching `Transitions` function's result, and to give the
  handler's answer. `Feed` builds the feed with a loop, as `get_feed` does.

Behaviour kept as the code has it:

- `join_hangout` and `send_message` do not check that the hangout exists.
  Their rows are recorded anyway, under the id the caller sent.
- `join_hangout` has no capacity limit.
- Every authenticated handler returns its success message whether or not
  anything changed.
- Deletion happens only when the hangout exists and the caller is its host.

Because of the missing existence check, a user can join the id the next
hangout will get, and then create that hangout. The user is then recorded
twice, and the feed lists them twice (`PreJoinedHostListedTwice`). The
store invariant still holds: every hangout's host is registered and has a
participant row for it. So every feed entry names its host and has a count
of at least one.

The bot's author name is the string exactly as it appears in the source
file. That is the UTF-8 bytes of a robot emoji read as Windows-1252:
`SquadBot ` followed by U+00F0 U+0178 U+00A4 U+2013.

`main.py` has no capacity limit, no likes, no direct messages and no
real-time channels, so the model has none either.

## Model

| member | source | states |
|---|---|---|
| `Strings.FindFirst` | main.py:28 | the index found is an occurrence of the pattern and no earlier index is one; no index exactly when the pattern does not occur |
| `Strings.StartsWith` | main.py:27 | `s.startswith(p)`: `p` is no longer than `s` and matches it character by character from the start |
| `Strings.ReplaceFirst` | main.py:28 | `s.replace(p, q, 1)`: unchanged when `p` does not occur; otherwise the part before the first occurrence, then `q`, then the part after it |
| `Strings.ToLower` | main.py:166 | `text.lower()` on ASCII letters: same length, each upper-case ASCII letter mapped to its lower-case form, every other character kept |
| `Strings.Contains` | main.py:166 | `p in s`: true exactly when `p` occurs at some index of `s` |
| `Strings.ReplaceFirstAtPrefix` | main.py:28 | replacing the first occurrence of a prefix the string starts with puts the replacement in front of the rest |
| `DatabaseConfig.NormalizeDatabaseUrl` | main.py:26-30 | the URL the engine gets is never empty |
| `DatabaseConfig.PostgresSchemeRewritten` | main.py:27-28 | `postgres://` + rest becomes `postgresql://` + rest |
| `DatabaseConfig.MissingUrlDefaults` | main.py:29-30 | an unset or empty variable gives `sqlite:///./squad_v3.db` |
| `DatabaseConfig.OtherUrlUnchanged` | main.py:26-30 | a non-empty URL without the `postgres://` prefix is used unchanged |
| `DatabaseConfig.NormalizeIdempotent` | main.py:26-30 | normalising an already normalised URL changes nothing |
| `SquadBot.BotReply` | main.py:167 | the bot's answer is always one of the five fixed replies |
| `SquadBot.Triggers` | main.py:166 | the bot is called exactly when `@squadbot` occurs in the lower-cased text |
| `SquadBot.AnyCaseTriggers` | main.py:166 | the phrase in any mix of letter cases, anywhere in the text, calls the bot |
| `SquadBot.TriggerIgnoresCase` | main.py:166 | a text and its lower-cased form call the bot alike |
| `SquadBot.NoAtSignNoTrigger` | main.py:166 | a text without `@` never calls the bot |
| `Records.FindHangout` | main.py:156 | a hangout found has the requested id and is stored; none is found exactly when no stored hangout has that id |
| `Records.HangoutsWithout` | main.py:158 | keeps exactly the hangouts with another id |
| `Records.ParticipantsWithout` | main.py:50 | keeps exactly the participant rows of other hangouts (the cascade) |
| `Records.MessagesWithout` | main.py:51 | keeps exactly the message rows of other hangouts (the cascade) |
| `Records.AttendeesOf` | main.py:177 | the usernames of the hangout's participant rows, in store order; at most one per row, each from a row of that hangout |
| `Records.MessagesOf` | main.py:178 | the (user, text) pairs of the hangout's message rows, in store order; at most one per row, each from a row of that hangout |
| `Records.AttendeesMembership` | main.py:177 | a name is in a hangout's attendee list exactly when a participant row pairs it with that hangout |
| `Records.MessagesMembership` | main.py:178 | a (user, text) pair is in a hangout's message list exactly when a message row of that hangout carries it |
| `Records.AttendeesOfAppend` | main.py:177 | a new participant row extends only its own hangout's attendee list, at the end |
| `Records.MessagesOfAppend` | main.py:178 | a new message row extends only its own hangout's message list, at the end |
| `Records.AttendeesOfWithout` | main.py:50-51 | after the cascade the removed hangout has no attendees and every other list is unchanged |
| `Records.MessagesOfWithout` | main.py:50-51 | after the cascade the removed hangout has no messages and every other list is unchanged |
| `Records.FindHangoutWithout` | main.py:154-160 | after removal the id is not found and every other id finds what it found before |
| `Records.FindHangoutAppend` | main.py:140-142 | appending a hangout does not change what existing ids find |
| `Records.ParticipantsWithoutNoDuplicates` | main.py:50 | the cascade keeps a duplicate-free participant table duplicate-free |
| `Auth.Resolve` | main.py:108-117 | a request acts as a user exactly when the token decodes, has a `sub`, and `sub` is registered; that user is `sub`; otherwise 401 |
| `Auth.Login` | main.py:130-136 | a token is issued exactly when the user is registered and the password verifies; otherwise 400 "Incorrect username or password" |
| `Auth.LoginTokenResolves` | main.py:135 | a token issued by `login` resolves back to the user who logged in |
| `Auth.ResolveMonotone` | main.py:115-116 | registering more users never invalidates a token that resolved |
| `Transitions.AfterRegister` | main.py:121-128 | afterwards the name is registered and nothing else changed; a taken name leaves the store as it was |
| `Transitions.AfterCreate` | main.py:138-145 | users and messages unchanged; existing hangouts and participant rows kept as a prefix; exactly one hangout appended, with id `nextId` and the caller as host; exactly one participant row `(nextId, caller)` appended; the id counter advances |
| `Transitions.RegisterKeepsValid` | main.py:121-128 | registration keeps the store invariant |
| `Transitions.CreateEffect` | main.py:138-145 | exactly one new hangout, under a fresh id and hosted by the caller; the caller is added last to its attendee list; all other hangouts, attendee lists, messages and users are unchanged |
| `Transitions.CreateKeepsValid` | main.py:138-145 | creation by a registered user keeps the store invariant |
| `Transitions.CreateKeepsNoDuplicates` | main.py:143 | creation records no pair twice, unless someone joined the new id before it existed |
| `Transitions.PreJoinedHostListedTwice` | main.py:143-150 | joining the next id and then creating it records and lists the host twice |
| `Transitions.AfterJoin` | main.py:147-152 | afterwards the pair is recorded; if it already was, the state is unchanged; at most one row was appended, after all the existing rows; nothing else changed |
| `Transitions.JoinAttendees` | main.py:147-152 | the caller is appended to that hangout's attendee list unless already listed; no other list changes |
| `Transitions.JoinIdempotent` | main.py:147-152 | a second identical join is a no-op |
| `Transitions.JoinKeepsNoDuplicates` | main.py:149-150 | joining never records a pair twice |
| `Transitions.JoinKeepsValid` | main.py:147-152 | joining keeps the store invariant |
| `Transitions.MayDelete` | main.py:156-157 | the guard: a hangout with that id exists and the caller is its host (the converse holds whenever ids are unique) |
| `Transitions.AfterDelete` | main.py:154-160 | when the hangout is missing or the caller is not its host, the store is unchanged |
| `Transitions.DeleteCascades` | main.py:154-160 | an allowed deletion removes the hangout and all its participant and message rows; every other hangout, attendee list and message list, and the users, are unchanged |
| `Transitions.HangoutsWithoutOrdered` | main.py:158 | removing a hangout keeps the others in id order |
| `Transitions.DeleteKeepsValid` | main.py:154-160 | deletion keeps the store invariant |
| `Transitions.DeleteKeepsNoDuplicates` | main.py:158 | deletion keeps a duplicate-free participant table duplicate-free |
| `Transitions.AfterSend` | main.py:162-170 | appends exactly the caller's message, then, only when the text calls the bot, exactly one bot message in the same hangout with one of the five replies; nothing else changes |
| `Transitions.SendMessages` | main.py:162-170 | that hangout's message list gains the message and then the bot's reply if called; no other list changes |
| `Transitions.SendKeepsValid` | main.py:162-170 | sending keeps the store invariant |
| `Transitions.FeedListsHost` | main.py:177 | in a valid store, every hangout's attendee list names its host |
| `Squad.HangoutStore.constructor` | main.py:68 | an empty store satisfying the invariant |
| `Squad.HangoutStore.Register` | main.py:121-128 | the new state is `AfterRegister`; answers 400 "Username taken" for a registered name, else "User created" |
| `Squad.HangoutStore.CreateHangout` | main.py:138-145 | 401 and no change for an unresolved token; otherwise the new state is `AfterCreate` for the caller, answer "Created" |
| `Squad.HangoutStore.JoinHangout` | main.py:147-152 | 401 and no change for an unresolved token; otherwise the new state is `AfterJoin`, answer "Joined" |
| `Squad.HangoutStore.DeleteHangout` | main.py:154-160 | 401 and no change for an unresolved token; otherwise the new state is `AfterDelete`, answer "Deleted" |
| `Squad.HangoutStore.SendMessage` | main.py:162-170 | 401 and no change for an unresolved token; otherwise the new state is `AfterSend`, answer "Sent" |
| `Squad.HangoutStore.Feed` | main.py:172-183 | one entry per stored hangout, in store order, with its fields, its attendee names, their count and its messages; every entry lists its host and has a count of at least one |
| `Squad.JoinTwice` | main.py:147-152 | for an authenticated caller, two identical joins both answer "Joined" and leave the store as one join does |

## Left out

- HTTP routing, dependency injection, static files and `uvicorn.run` (main.py:71-72, 185-190): web plumbing. Each handler is a method that takes the decoded token.
- SQLAlchemy engines, sessions, commits and `create_all` (main.py:32-68, 89-94): the store is in memory and each handler is atomic. A crash between the two commits of `create_hangout` is not modelled.
- Password hashing (main.py:22, 96-100): opaque. The store keeps no password hashes, and `Auth.Login` receives the check's verdict as a boolean.
- JWT encoding and decoding, and token expiry (main.py:102-114): opaque and clock-dependent. A token is represented by what decoding it yields (`Auth.Claims`). An expired or forged token is `Undecodable`.
- `Auth.Resolve`: a `sub` claim that is not a string is not modelled; `sub` is either missing or a string.
- The randomness of `random.choice` (main.py:167): the draw is a parameter `pick`, and the reply is the `pick mod 5`-th one.
- Id assignment: ids come from a counter that starts at 1 and never reuses one. SQLite may hand out the largest id again after the newest hangout is deleted; the model does not capture that reuse.
- Foreign keys: the model follows SQLite's default and does not enforce them, so rows for hangouts that do not exist are stored. PostgreSQL would reject such rows with an error.
- `Strings.ToLower`: lower-cases the ASCII letters only, where Python's `lower` maps all of Unicode. For the `@squadbot` test the result is the same, because no non-ASCII character lower-cases to a character of the phrase.
- Squad.HangoutStore.Feed: promises the feed entries in store (insertion) order, and each entry's attendees and messages in store order. `db.query(Hangout).all()` and the two relationships have no `order_by`, so the database promises no order for any of them.
- Squad.HangoutStore.JoinHangout, Squad.HangoutStore.DeleteHangout, Squad.HangoutStore.SendMessage: the `hangoutId` parameter, `Records.Participant.hangoutId`, `Records.Message.hangoutId` and the id counter `nextId` are unbounded integers. The columns are 64-bit in SQLite and 32-bit under PostgreSQL. An id outside that range makes the database driver raise, so the request fails with a 500 and stores nothing; the model instead stores the row, or answers "Deleted".
- Concurrency and interleaved requests: the model is sequential.
