# DeepSeek-Coder chat applications, modelled in Dafny

The repository holds two chat front ends for a locally served code model.

- **web interface** (`web-ui/`): a Quart application backed by PostgreSQL. It has a login form with an account lockout. It builds a prompt from the stored history and relays the model's streamed reply to the browser. It extracts fenced code blocks and names artifact downloads. It imports GitHub repositories: it titles the chat from the URL, builds an analysis prompt, and stores the repository's files as artifacts.
- **quart application** (`quart-app/`): backed by Redis. It stores users, one chat session per user with a sorted message list, and a per-minute request counter. It escapes user input and protects forms with a session CSRF token. It exposes JSON endpoints to read, clear, compress and export the chat. It streams replies from the model's generate and chat endpoints.

This project models the rules those programs follow and proves what they promise.

- Pure text rules are modelled as functions: the code-block pattern, the extension table, URL titles, HTML escaping, the user record encoding, prompt layouts and CSRF checks.
- Code that updates state step by step is modelled imperatively:
  - the Redis stores are classes whose fields are the keyspace;
  - the login table is a class;
  - the streaming loops are methods with loop invariants.
- Each state-changing method is proved equal to a specification function on the whole store. The properties are lemmas about those functions.

| module | file | models |
|---|---|---|
| `Text` | text.dfy | `strip`, `split`/`join`, `lower`, `startswith`/`endswith`, `str(int)`, joining pieces |
| `CodeBlocks` | code_blocks.dfy | `extract_code_blocks` (the regular expression, scanned as `re.finditer` does), `get_extension_for_language`, the download file name |
| `GithubUrls` | github_urls.dfy | `is_valid_github_url`, `generate_title_from_github_url` (identical in both web files) |
| `StreamRelay` | stream_relay.dfy | the byte-buffer relay of the web chat and of the repository analysis |
| `ChatPrompt` | chat_prompt.dfy | the prompt of the web chat |
| `LoginLockout` | login_lockout.dfy | `POST /login` with its failure counter and lock |
| `GithubImport` | github_import.dfy | the analysis prompt and the artifact filter of the repository import |
| `Sanitize` | sanitize.dfy | `html.escape`, `sanitize_html`, `sanitize_dict` |
| `UserRecords` | user_record.dfy | `User`, `to_dict`, `from_dict` |
| `RedisModel` | redis_model.dfy | sorted sets as lists, `ZREVRANGE`, reading hashes, `INCR`/`EXPIRE` rate counting |
| `LineStream` | line_stream.dfy | the line-by-line accumulation with a `done` flag of both quart generation clients |
| `QuartApp` | quart_app.dfy | the quart application's own Redis helpers, registration, CSRF, `get_ai_response` |
| `Database` | database.dfy | the chat store of `blueprints/database.py` |
| `OllamaClient` | ollama_client.dfy | `blueprints/ollama_client.py` |
| `Api` | api.dfy | the JSON endpoints of `blueprints/api.py` |

Time, random tokens, password hashes, message timestamps and the decoding of JSON lines are inputs. The decoder is an arbitrary function from a line to an optional decoded chunk. Network, database and websocket calls are modelled by their effect on the modelled state, or by the list of messages sent to the client.

Where the code and its documentation differ, the model follows the code:
- `compress_chat` accepts any Python `int`, and `True`/`False` are ints, but both are below 10 and so are refused anyway.
- The web login as written reads a column its query does not select (see Findings).
- The "Too many failed attempts" message is always overwritten by "Invalid username or password" before the page renders (web-ui/app.py:221-229).
- A `done` line inside the web relay leaves only the inner loop, so complete lines may stay in the buffer until the next chunk arrives.

## Model

| member | source | states |
|---|---|---|
| CodeBlocks.ExtractCodeBlocks | web-ui/app.py:515-535 | the blocks are those of the pattern's matches, in order, whose stripped code is non-empty; each block's code is non-empty and starts and ends with a character outside the `str.isspace` class, and its language is made of word characters |
| CodeBlocks.MatchAt | web-ui/app.py:520 | a match found at a position starts there, satisfies the pattern (three backticks, a word-character tag, a line feed, code with no fence, a closing fence) and fits the text |
| CodeBlocks.MatchAtComplete | web-ui/app.py:520 | any match of the pattern that starts at a position is the one found there |
| CodeBlocks.FenceMatchesOrdered | web-ui/app.py:524 | the matches found come in increasing order and do not overlap |
| CodeBlocks.FenceMatchesAreMatches | web-ui/app.py:524 | every match found satisfies the pattern |
| CodeBlocks.FenceMatchesCover | web-ui/app.py:524 | every position where the pattern matches lies inside one of the matches found, so none is missed |
| CodeBlocks.BlockLanguage | web-ui/app.py:526 | the language of a block is exactly the word-character tag after the opening fence |
| CodeBlocks.BlockCode | web-ui/app.py:527 | the code of a block, when not empty, starts and ends with a character `str.strip()` keeps (any outside the `str.isspace` class) |
| Text.StripDropsSpace | web-ui/app.py:527 | for every string, a character of the `str.isspace` class (separators and non-ASCII spaces included) added at either end leaves the stripped result unchanged |
| CodeBlocks.ExtensionFor | web-ui/app.py:624-652 | the extension is empty exactly when the lowered language is not in the table, and otherwise is a table value starting with `.` |
| CodeBlocks.ExtensionCaseInsensitive | web-ui/app.py:652 | lowering the language first changes nothing |
| CodeBlocks.ShellAndBashShareExtension | web-ui/app.py:643-652 | `shell` and `Bash` both give `.sh` |
| CodeBlocks.DownloadName | web-ui/app.py:607-611 | the name is the slug or the slug plus the extension; it is the slug exactly when there is no extension or the slug already ends with it; with an extension it ends with it |
| CodeBlocks.DownloadNameIdempotent | web-ui/app.py:607-611 | applying the rule to its own result changes nothing |
| GithubUrls.IsValidGithubUrl | web-ui/app.py:1537-1546 | valid exactly when the host is `github.com` and the `/`-trimmed path holds a `/`, that is splits into at least two segments |
| GithubUrls.GithubTitle | web-ui/app.py:1548-1572 | the title is the fallback exactly when the path has fewer than two segments; otherwise it starts with `owner/repo` and is at most 32 characters longer |
| GithubUrls.TitleSuffix | web-ui/app.py:1556-1568 | `owner/repo: suffix` exactly for blob or tree URLs with more than four segments, the suffix being the rest of the path, or its first 27 characters and `...` when longer than 30; `owner/repo` otherwise |
| GithubUrls.ValidUrlTitled | web-ui/github_connector.py:360-394 | on `github.com` a URL is valid exactly when its title is not the fallback, and a valid URL's title starts with `owner/repo` |
| StreamRelay.TokenOf | web-ui/app.py:434-438 | a line gives a token exactly when it is not blank, decodes, and has a `response` field, and the token is that field |
| StreamRelay.Relay | web-ui/app.py:427-452 | the lines taken and the buffer kept are those of `RelayLines`, which appends each chunk and drains the buffer up to the first line carrying `done`; the reply is the concatenation of the tokens sent, which are the tokens of those lines; those lines, each with its line feed, followed by the buffer are the bytes received; without a `done` line the buffer holds no line feed, and a line feed left in it means the last line taken carried `done` |
| StreamRelay.DrainLines | web-ui/app.py:431-452 | the inner loop takes exactly the lines of `Drain`: lines up to the first line feed, one at a time, stopping after the first line whose token carries `done`; so no line it takes before the last carries `done`, it keeps the relay's invariants, and a line feed stays in the buffer only when its last line carried `done` |
| StreamRelay.DrainFacts | web-ui/app.py:431-450 | a pass takes no line carrying `done` except possibly its last, and a line feed stays buffered only behind such a last line |
| StreamRelay.DrainStopsAtDone | web-ui/app.py:449-450 | of two complete lines of which the first carries `done`, a pass takes only the first and the second stays buffered |
| StreamRelay.RelayStopsAtDone | web-ui/app.py:427-452 | a chunk holding a `done` line and one more line gives a reply of the first line's token alone |
| StreamRelay.SplitFramed | web-ui/app.py:432-433 | splitting on line feeds gives back the lines consumed and the tail |
| StreamRelay.RelayWithoutDone | web-ui/github_connector.py:254-279 | without a `done` line the reply is the tokens of all complete lines of the stream, in order, and the buffer is the bytes after the last line feed |
| StreamRelay.SkippedLines | web-ui/github_connector.py:261-279 | blank lines and lines that do not decode add no token |
| ChatPrompt.Speaker | web-ui/app.py:394 | rendered as `User` exactly for role `user`, and as `Assistant` otherwise |
| ChatPrompt.BuildPrompt | web-ui/app.py:383-398 | the loop's prompt is the text of the system prompt, the rendered window and the new message with the assistant's cue |
| ChatPrompt.WindowIsRecent | web-ui/app.py:388-391 | the window is at most the twenty messages just before the newest, in stored order |
| ChatPrompt.PromptFrame | web-ui/app.py:383-398 | the prompt starts with the system prompt and ends with `User: {content}\n\nAssistant:` |
| ChatPrompt.PromptHoldsTurns | web-ui/app.py:393-395 | each message of the window appears as `{role}: {content}\n\n` right after the turns before it |
| LoginLockout.RemainingMinutes | web-ui/app.py:173-174 | the minutes reported are below one day's worth because `timedelta.seconds` drops whole days |
| LoginLockout.UserTable.Login | web-ui/app.py:148-231 | the outcome and the new table are those of the intended login rule |
| LoginLockout.LockedRefused | web-ui/app.py:171-174 | an account whose lock has not run out is refused, even with the right password, with the minutes of `remaining_time.seconds // 60` (below a day, never more than the whole minutes left), and nothing is written |
| LoginLockout.SuccessResets | web-ui/app.py:175-180 | the right password on an unlocked account logs in, clears the failure count and changes no other row |
| LoginLockout.FailureCounts | web-ui/app.py:206-229 | a wrong password adds one failure and answers "Invalid username or password"; the account is locked for 900 seconds exactly when the count reaches five |
| LoginLockout.FailuresAccumulate | web-ui/app.py:206-227 | from no failures, the lock engages on the fifth wrong password and not before |
| LoginLockout.AsWrittenNeverLocks | web-ui/app.py:166-208 | as written, no request changes the lock fields or raises a failure count |
| LoginLockout.AsWrittenCrashesOnWrongPassword | web-ui/app.py:166-208 | an account one failure short of the lock: as written a wrong password raises `KeyError`, the intended rule locks it |
| GithubImport.StoreArtifacts | web-ui/github_connector.py:289-324 | the rows inserted are the artifacts of the kept files, in order, and one notice with the title and language is sent per row |
| GithubImport.ArtifactsMembership | web-ui/github_connector.py:289-298 | an artifact is stored exactly when some file is a dictionary with content of at most 100000 characters and a language other than empty or `text`, and gives that artifact |
| GithubImport.ArtifactsBounded | web-ui/github_connector.py:289-298 | no more artifacts than files |
| GithubImport.ArtifactTitleShape | web-ui/github_connector.py:301-302 | the title is the path's last segment, which holds no `/` and ends the path, followed by " (GitHub)" |
| GithubImport.AnalysisOrder | web-ui/github_connector.py:204-220 | the analysis prompt starts with the instructions, holds the summary right after its heading and the code right after its heading, and ends with the closing request |
| GithubImport.SectionLayout | web-ui/github_connector.py:217-220 | where each piece of a head, two headed sections and a tail sits in their concatenation |
| UserRecords.NewUser | quart-app/app.py:82-87 | the fields are the arguments, except that an empty or missing creation time becomes the current time |
| UserRecords.ToDict | quart-app/app.py:93-100 | the dictionary has exactly the five fields and `is_admin` is `true` or `false` |
| UserRecords.FromDict | quart-app/app.py:102-110 | admin exactly when `is_admin` lowers to `true`; admin never when it is missing |
| UserRecords.RoundTrip | quart-app/app.py:93-110 | reading back a written user with an id, a name and a password hash gives the same user |
| UserRecords.NoneIsWrittenAsText | quart-app/app.py:90-100 | a user without id is written with the id text `None`, and its authentication id is unchanged by the round trip |
| Sanitize.EscapeChar | quart-app/app.py:129 | a character is replaced exactly when it is one of `& < > " '`, the replacement starts with `&` exactly then, and it holds none of `< > " '` |
| Sanitize.SanitizeHtml | quart-app/app.py:124-129 | `None` stays `None` and nothing else becomes `None` |
| Sanitize.EscapeRoundTrip | quart-app/app.py:129 | unescaping an escaped text gives it back, so escaping loses nothing |
| Sanitize.EscapeSafe | quart-app/app.py:129 | an escaped text holds none of `< > " '` |
| Sanitize.EscapePlain | quart-app/app.py:129 | a text without special characters is unchanged |
| Sanitize.EntriesShape | quart-app/app.py:131-134 | a dictionary keeps its keys, in order, and each value is sanitized |
| Sanitize.ItemsShape | quart-app/app.py:135-136 | a list keeps its length and order and each item is sanitized |
| Sanitize.SanitizeRoundTrip | quart-app/app.py:131-140 | unescaping the strings of a sanitized value gives the value back: shapes, keys and non-string leaves are unchanged |
| Sanitize.SanitizedIsSafe | quart-app/app.py:131-140 | no string inside a sanitized value holds `< > " '` |
| QuartApp.ValidCsrf | quart-app/app.py:119-121 | valid exactly when the token is non-empty and equals the session's token |
| QuartApp.CsrfGate | quart-app/app.py:161-171 | a request carrying the session's own non-empty token is never refused; a state-changing request outside `/ws` and `/api/` carrying no token always is |
| QuartApp.CsrfSession.Generate | quart-app/app.py:113-117 | the session's existing token is returned, or the new one is stored and returned |
| QuartApp.GeneratedTokenValidates | quart-app/app.py:113-121 | the session's token validates and no other token does |
| QuartApp.SaveUserSpec | quart-app/app.py:183-195 | the hash under the user's id is its dictionary, the name index points at the id and the id joins the user set |
| QuartApp.AppStore.SaveUser | quart-app/app.py:183-195 | the store after saving is that of the save rule |
| QuartApp.RegisterValidation | quart-app/app.py:351-384 | success exactly when the escaped name has at least 3 characters, the password at least 6 and the name is free; a refusal changes nothing; on success the id is the next counter value and the user is found again by name, not an admin |
| QuartApp.RegisterSaves | quart-app/app.py:369-382 | the new user is saved under the incremented counter and read back by name as written |
| QuartApp.RegisterMissingField | quart-app/app.py:355-361 | a missing name, or a missing password after a long enough name, raises `TypeError` and changes nothing |
| QuartApp.AppStore.Register | quart-app/app.py:351-384 | the outcome and the store are those of the registration rule |
| QuartApp.AppStore.SaveMessage | quart-app/app.py:228-247 | the store after saving is that of the save rule: the message hash under `{user}:{timestamp}` and the id added to the user's list |
| QuartApp.SavedMessageReadFirst | quart-app/app.py:228-262 | after a save the user's list still has no repeated id, and reading one message returns the one just saved |
| QuartApp.AppStore.GetUserMessages | quart-app/app.py:249-262 | the messages are the stored ones among the newest `limit` ids, oldest first |
| QuartApp.AppStore.CheckRateLimit | quart-app/app.py:264-273 | the answer and the counter are those of the rate rule |
| QuartApp.GetAiResponse | quart-app/app.py:526-584 | the reply is the texts of the lines up to the first `done`, in order, and the client gets the typing start, one stream message per text, and the typing stop |
| QuartApp.AppStore.InitAdmin | quart-app/app.py:295-306 | the store after startup is that of the corrected admin rule: the admin saved under `1` when no user has its name, with the counter moved past `1` |
| QuartApp.AdminOverwrittenAsWritten | quart-app/app.py:295-382 | as written, on a fresh store the first registration of another name gets the id `1`, overwrites the admin's hash, the admin's name then leads to that non-admin user, and `init_admin` restores nothing |
| QuartApp.AdminSurvivesRegistration | quart-app/app.py:295-382 | with the corrected rule, the admin is saved and found by name as an admin, and no registration changes its hash or its name's entry |
| RedisModel.RateStep | quart-app/app.py:264-273 | the count goes up by one, the expiry is set only on the first increment, and the request is allowed exactly while the count is at most 10 |
| RedisModel.RateWindow | quart-app/blueprints/database.py:326-335 | the n-th request of a window sees count n with the 60-second expiry, and is allowed exactly when n is at most 10 |
| LineStream.TextOf | quart-app/app.py:551-556 | a line adds text exactly when it is not empty, decodes and carries a text |
| LineStream.StopIndexIsFirstEnd | quart-app/blueprints/ollama_client.py:74-75 | the loop reads up to and including the first line that ends it, and all lines when none does |
| LineStream.Accumulate | quart-app/blueprints/ollama_client.py:61-78 | the reply is the concatenation of the texts sent, which are the texts of the lines up to the stop |
| Database.ChatStore.SaveUser | quart-app/blueprints/database.py:54-71 | the user and the store after saving are those of the save rule |
| Database.SaveUserIndexes | quart-app/blueprints/database.py:54-71 | an id is drawn from the counter only for a user without one; afterwards the name index gives the id, the id is in the user set and its hash is the user's |
| Database.ChatStore.GetOrCreateUserSession | quart-app/blueprints/database.py:109-132 | the session and the store are those of the session rule |
| Database.SessionIdempotent | quart-app/blueprints/database.py:109-132 | the session id is `{user}_session`; asking again, at any time, returns the same session and changes nothing; messages and users are untouched |
| Database.ChatStore.ClearUserChat | quart-app/blueprints/database.py:143-179 | the result and the store are those of the clear rule |
| Database.ClearEmpties | quart-app/blueprints/database.py:143-179 | without a session: "No chat session found" and nothing changes; otherwise the count is the number of ids, the list is empty, those messages are gone and every other message is kept |
| Database.ChatStore.CompressUserChat | quart-app/blueprints/database.py:181-219 | the result and the store are those of the compress rule |
| Database.OlderPart | quart-app/blueprints/database.py:203 | `ids[:-keep]` is a prefix of the list |
| Database.RemovePrefix | quart-app/blueprints/database.py:206-209 | removing the oldest k ids of a list without repetitions one by one leaves the rest, in order |
| Database.CompressKeepsNewest | quart-app/blueprints/database.py:181-219 | when the total is at most `keep`, nothing is deleted and the kept count is the total; otherwise the list is exactly the newest `keep` ids, the older messages are gone and every other message is kept |
| Database.CompressWellformed | quart-app/blueprints/database.py:181-219 | compression keeps the store well formed |
| Database.ChatStore.SaveMessage | quart-app/blueprints/database.py:227-252 | the store after saving is that of the save rule |
| Database.SaveMessageNewest | quart-app/blueprints/database.py:227-252 | the new id is last in the session's list, its hash is the message, and reading one message returns it |
| Database.ChatStore.GetSessionMessages | quart-app/blueprints/database.py:254-270 | the messages are the stored ones among the newest `limit` ids (100 by default), oldest first |
| Database.SessionMessagesNewest | quart-app/blueprints/database.py:254-270 | with every id stored, the result is exactly the newest `min(limit, total)` messages, oldest first |
| RedisModel.ReadNewest | quart-app/blueprints/database.py:262-270 | reading newest first and reversing gives the stored messages of the newest ids in list order |
| RedisModel.RevRangeCount | quart-app/blueprints/database.py:262 | `ZREVRANGE 0 limit-1` returns `min(limit, size)` ids for a positive limit and all of them for 0 |
| Database.ChatStore.GetUserMessages | quart-app/blueprints/database.py:272-281 | nothing without a session, otherwise the session's messages |
| Database.ChatStore.GetChatStatistics | quart-app/blueprints/database.py:283-323 | the statistics are those of the statistics rule |
| Database.ChatStore.CountRoles | quart-app/blueprints/database.py:310-314 | the counts are the numbers of `user` and of `assistant` messages |
| Database.StatsBounded | quart-app/blueprints/database.py:283-323 | user and assistant counts together are at most the total, which is at most 100; the oldest and newest timestamps are set exactly when there is a message |
| Database.ChatStore.CheckRateLimit | quart-app/blueprints/database.py:326-335 | the answer and the counter are those of the rate rule |
| Database.KeyType | quart-app/blueprints/database.py:370 | the group is the part of the key before the first `:`, or the whole key |
| Database.GroupsAddUp | quart-app/blueprints/database.py:364-373 | the group counts sum to the number of keys, and each group counts exactly its keys |
| Database.GroupKeys | quart-app/blueprints/database.py:364-373 | the loop's total and groups are those of the grouping rule |
| Database.ChatStore.DeleteUser | quart-app/blueprints/database.py:420-482 | the result and the store are those of the deletion rule |
| Database.DeleteUserRefused | quart-app/blueprints/database.py:426-434 | a missing user or an admin is refused with its message and nothing changes |
| Database.DeleteUserCascade | quart-app/blueprints/database.py:436-471 | the user hash, name index entry, set membership, session reference, session, message list, messages and rate counter are gone; other users are kept |
| Database.DeleteUserWellformed | quart-app/blueprints/database.py:420-482 | deleting a user keeps the store well formed |
| Database.ChatStore.DeleteUserMessagesOnly | quart-app/blueprints/database.py:484-521 | the result and the store are those of the message deletion rule |
| Database.DeleteMessagesKeepsAccount | quart-app/blueprints/database.py:484-521 | the account, indexes and session stay; success exactly with a user and a session; the count is the number of ids and the messages are gone |
| OllamaClient.Recent | quart-app/blueprints/ollama_client.py:27 | the last ten history entries, or all when fewer |
| OllamaClient.ToChatsAt | quart-app/blueprints/ollama_client.py:28-31 | each entry keeps its role and its content, a missing content becoming `''` |
| OllamaClient.ConversationShape | quart-app/blueprints/ollama_client.py:25-34 | the conversation is the last `min(10, n)` entries in order, then the prompt as role `user` |
| OllamaClient.BuildConversation | quart-app/blueprints/ollama_client.py:25-34 | the loop builds that conversation |
| OllamaClient.GetAiResponse | quart-app/blueprints/ollama_client.py:16-95 | a status other than 200 gives an empty reply and one error naming the status between the typing start and stop; otherwise the reply is the texts up to the first `done` and one stream message per text |
| OllamaClient.EventsFramed | quart-app/blueprints/ollama_client.py:20-93 | the client always gets the typing start first and the stop last, with error messages exactly on a failed status and stream messages exactly otherwise |
| OllamaClient.FailureUncaughtAsWritten | quart-app/blueprints/ollama_client.py:80-93 | as written, a failure inside the `try` ends in `TypeError`, with no reply, no error message sent, and only the typing start, the texts already streamed and the typing stop |
| OllamaClient.FailureReported | quart-app/blueprints/ollama_client.py:80-93 | with the handlers reached, the failure is reported once, with the timeout or the general message, right before the typing stop; nothing is raised and the reply is what was streamed |
| OllamaClient.TimeoutBeforeStreaming | quart-app/blueprints/ollama_client.py:80-93 | a timeout before any text: only the typing start and stop and a `TypeError` as written; the timeout message between them as intended |
| Api.StatusOf | quart-app/blueprints/api.py:46-49 | 200 exactly on success, 400 otherwise |
| Api.ItemsAt | quart-app/blueprints/api.py:23-30 | each history and export item is formed from the message at the same position, so order is kept |
| Api.HistoryOfUser | quart-app/blueprints/api.py:15-38 | the history names the `{user}_session` session, holds at most 100 messages, leaves messages untouched and is the same when asked again |
| Api.ExportMatchesHistory | quart-app/blueprints/api.py:76-103 | the export names the user and the session, its count is the number of its messages, and it holds the history's messages in order |
| Api.ClearChatStatus | quart-app/blueprints/api.py:40-49 | 200 exactly with a session, and then the list is empty; 400 otherwise, with nothing changed |
| Api.KeepCount | quart-app/blueprints/api.py:56-60 | a missing value gives 50; an int from 10 to 200 is taken as it is; anything else is refused |
| Api.CompressChatOutcome | quart-app/blueprints/api.py:51-67 | 200 exactly for an accepted `keep_count`, a session and more messages than kept, and then the list is the newest ones; a refused value gives 400 with the range error; any failure changes nothing |
| Api.ChatHistory | quart-app/blueprints/api.py:15-38 | the reply and the store are those of the history rule |
| Api.ClearChat | quart-app/blueprints/api.py:40-49 | the status, result and store are those of the clear endpoint |
| Api.CompressChat | quart-app/blueprints/api.py:51-67 | the status, reply and store are those of the compress endpoint |
| Api.ChatStatistics | quart-app/blueprints/api.py:69-74 | the reply is the store's statistics |
| Api.ExportChat | quart-app/blueprints/api.py:76-103 | the reply and the store are those of the export rule |

## Left out

- URL parsing: the title and validity rules take the host and the path of the URL, and the `except` branches of `urlparse` are not modelled.
- `slugify` of the download name: the slug is an input.
- Unicode case mapping: `lower()` is modelled on ASCII letters only.
- Exceptions are not modelled in the web interface, in the quart application's own `get_ai_response` (quart-app/app.py:569-579) or in the Redis helpers: timeouts, connection failures, Redis errors and the `except` paths that turn them into messages or log lines.
- In quart-app/blueprints/ollama_client.py the handlers at lines 80-90 are never reached. The first clause names `aiohttp.ClientTimeout`, the timeout settings class built at line 36, which is not an exception class. Any failure inside the `try` therefore raises `TypeError` while that clause is matched, the `finally` still sends the typing stop, and the `TypeError` leaves `get_ai_response` uncaught. It then ends the `/ws` loop through the catch-all of quart-app/blueprints/chat.py:102-103. The model states this failure path once, as a function of the texts streamed before it (see Findings), and does not thread it through `OllamaClient.GetAiResponse`.
- Database and network plumbing is not modelled: SQL through asyncpg, the Redis clients and pools (quart-app/redis_pool.py), HTTP calls, websockets and template rendering.
- The GET pages of login and registration are not modelled: only the POST logic is.
- Redis deletes a sorted set once its last member is removed. The model keeps an empty list, which reads the same.
- Key expiry over time is not modelled: the rate counter records its expiry but never expires.
- Database.SaveMessageSpec: the score `datetime.utcnow().timestamp()` (quart-app/blueprints/database.py:246, and quart-app/app.py:247 for `QuartApp.SaveMessageSpec`) is taken to be later than every score already in the sorted set, so a saved message goes last. A clock that goes back or repeats a score, where Redis orders equal scores by member, is not modelled; `Database.SaveMessageNewest` and `QuartApp.SavedMessageReadFirst` rest on this.
- Limits read from environment variables are fixed at their defaults: 100 history messages and 10 requests a minute.
- Export and statistics read at most 100 messages, as `get_session_messages(limit=None)` does.
- `blueprints/models.py` is not part of this model. `ChatSession` is modelled as a plain record of id, user, title and times. The blueprints' `User`, with its `to_dict` and `from_dict`, is taken to be the `User` of quart-app/app.py:81-110 (`UserRecords`). `Database.SaveUserSpec`, `Database.UserOf` and `Database.DeleteUserSpec` rest on that assumption, including the admin refusal of `delete_user`.
- The request body of `compress_chat` is modelled only as what `keep_count` can be. A non-dictionary JSON body is not modelled.
- The web chat handler and the quart `/ws` handler are modelled only through their prompt and relay loops. Rendering `chat_history` for the prompt in `quart-app/app.py` is not modelled.
- `blueprints/chat.py`, `blueprints/github.py`, the GraphQL layer (`web-ui/schema.py`, `web-ui/resolvers.py`) and the cached responses are not modelled: they are network clients or plumbing around the modelled rules.
- Database.ChatStore methods do not carry the store's well-formedness invariant: well-formedness is proved about the specification functions they equal.
- The websocket message for an artifact also carries the `id` the database returns and a `created_at` time (web-ui/github_connector.py:318-324). The model's notice holds only the title and the language.
- QuartApp.ValidCsrf: `secrets.compare_digest` raises `TypeError` for a `str` token with non-ASCII characters, so such a request ends in an exception rather than the 403 refusal. The model treats it as an ordinary mismatch.
- CodeBlocks.ExtractCodeBlocks: `\w` in the fence pattern is taken as ASCII letters, digits and underscore. On a `str`, Python's `\w` also accepts non-ASCII letters and digits, so for "```é\nx```" the source finds a block with language `é` and the model finds none.
- CodeBlocks.MatchAt: the tag after the fence accepts only ASCII word characters, for the same reason.
- CodeBlocks.BlockLanguage: the languages it speaks about are those made of ASCII word characters, for the same reason.

## Findings

| source | as written | input that shows it | evidently intended | confidence | as-written member | corrected member |
|---|---|---|---|---|---|---|
| web-ui/app.py:166-208 | the login query selects `id, username, password, is_locked, locked_until` but the failure branch reads `user["login_attempts"]`, which raises `KeyError` | an existing unlocked account with 4 failures and a wrong password | the failure count goes up and the fifth failure locks the account for 15 minutes | not executed | LoginLockout.AttemptAsWritten | LoginLockout.UserTable.Login |
| quart-app/blueprints/ollama_client.py:80-90 | the first `except` names `aiohttp.ClientTimeout`, the timeout settings class of line 36, which is not an exception class; matching any failure against it raises `TypeError`, so neither handler runs and no error message is sent | any exception inside the `try`, such as a refused connection before anything is streamed | a timeout, and any other failure, is reported to the client once and the texts streamed so far are returned | not executed | OllamaClient.FailedAsWritten | OllamaClient.FailedHandled |
| quart-app/app.py:295-380 | `init_admin` saves the admin under the fixed id `1` and leaves `user_id_counter` untouched, so the first registration gets `incr` = 1 and `save_user` overwrites `user:1`, while `username:admin` still points at `1` | a fresh store, then a registration of `alice` | the admin keeps its account and registered users get identifiers after it | not executed | QuartApp.InitAdminAsWritten | QuartApp.AppStore.InitAdmin |
