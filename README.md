# IPA article store and event dispatch, in Dafny

IPA (Integrated Portable Assistant) is a chat assistant. A Node server relays chat messages
from its clients to a language model over socket.io, and keeps the articles the model writes
as Markdown files. There are two clients: a browser client and a console client. This project
models and proves the parts of the system that hold state or make decisions:

- **Server article store** (`server-ubuntu/services/databaseService.js`): a directory of
  files, modelled as a map from name to file. The `ServerStore` module covers:
  - name normalisation to `.md`;
  - save, update, get and delete;
  - the sorted `.md` listing;
  - the statistics fold.
- **Browser article store** (`services/databaseService.ts`), in the `BrowserStore` module:
  - the same store over `localStorage`, with the `ipa_db_` key prefix;
  - the file-name sanitiser;
  - the content search;
  - the `.md` check on uploads.
- **Reply decoding** (`server-ubuntu/services/geminiService.js`), in the `ModelReply` module:
  - the schema's ten actions;
  - trimming and parsing the model's text, with the fallback to a plain chat answer.
- **Server** (`server-ubuntu/server.js`): the `Server` module covers:
  - the registry of chat sessions by socket id;
  - the socket handlers, each sending an ordered list of events back to its socket;
  - the input checks of the REST article routes.
- **Web socket service** (`client-web/src/services/socketService.ts`): the `SocketService`
  module covers:
  - callback lists that only grow and are called in registration order;
  - the socket's state;
  - the fail-fast `sendMessage`;
  - the mapping from socket events to notifications.
- **Console client** (`client-ubuntu/client.js`): the `ConsoleClient` module covers:
  - the connection fields;
  - input-line classification;
  - case-insensitive command dispatch.

Shared modules:

- `Text` holds the JavaScript string built-ins the code relies on: `trim`, `toLowerCase`,
  `split`, the default sort order and match counting.
- `Sorting` holds the two sorts: names ascending, and a numeric key descending. Each comes
  with its permutation and uniqueness lemmas.
- `ArticleNames` holds the `.md` normalisation both stores share.

**How the environment is modelled:**

- A failing file-system or storage call is a `fault` parameter.
- A clock reading is a `now` parameter.
- The language model's answer is a `ModelOutcome` parameter.
- `JSON.parse` is a function parameter from text to an optional parsed value.
- A socket emission is appended to an `out`/`sent` sequence.
- A callback call is appended to a `calls` sequence.

## Model

| member | source | states |
|---|---|---|
| ArticleNames.EnsureMarkdownExtension | services/databaseService.ts:5-10 | the result ends in `.md`, starts with the given name, and adds at most the three characters of `.md`; a name already ending in `.md` is kept unchanged |
| ArticleNames.EnsureMarkdownExtensionIdempotent | server-ubuntu/services/databaseService.js:23 | normalising twice is the same as normalising once |
| ArticleNames.EnsureMarkdownExtensionOfSuffixed | server-ubuntu/services/databaseService.js:23 | a name without `.md` and the same name with `.md` denote the same file |
| ArticleNames.EnsureMarkdownExtensionCollisions | server-ubuntu/services/databaseService.js:23 | two names reach the same file only if they are equal or differ by a trailing `.md` |
| Text.Trim | server-ubuntu/services/geminiService.js:154 | the result is no longer than the input and neither starts nor ends with white space |
| Text.TrimIsSlice | server-ubuntu/services/geminiService.js:154 | the input is some white space, then the trimmed text, then some white space: nothing else is cut off |
| Text.TrimOfPadded | client-ubuntu/client.js:116 | adding white space around a text does not change what `trim` gives |
| Text.ToLower | services/databaseService.ts:125 | lower-cases the ASCII letters, position by position, and keeps the length |
| Text.Split | server-ubuntu/services/databaseService.js:123 | one more piece than there are separators, and no piece contains the separator |
| Text.JoinSplit | server-ubuntu/services/databaseService.js:123 | joining the pieces of a split with the separator gives the text back |
| Text.CountMatchesPositive | services/databaseService.ts:131 | the number of matches is positive exactly when the query occurs in the text |
| Text.StrLeTotal | server-ubuntu/services/databaseService.js:95 | any two names are ordered one way or the other by the default sort order |
| Text.StrLeAntisymmetric | server-ubuntu/services/databaseService.js:95 | names ordered both ways are equal |
| Text.StrLeTransitive | server-ubuntu/services/databaseService.js:95 | the default sort order is transitive |
| Sorting.SortStrings | server-ubuntu/services/databaseService.js:95 | `sort()` returns an ascending permutation of its input |
| Sorting.SortedPermutationUnique | server-ubuntu/services/databaseService.js:93-95 | two ascending permutations of the same names are equal, so a sorted listing does not depend on the order the directory gives |
| Sorting.DistinctOfSet | server-ubuntu/services/databaseService.js:93-95 | a listing of a set of names holds each name once |
| Sorting.SortDescBy | server-ubuntu/services/databaseService.js:134 | sorting by `b.key - a.key` gives a permutation ordered by the key, largest first |
| ServerStore.Listing | server-ubuntu/services/databaseService.js:93-98 | the listing is ascending and free of repeats, and names exactly the stored names ending in `.md` |
| ServerStore.FilterMarkdown | server-ubuntu/services/databaseService.js:94 | keeps every `.md` name as often as it occurs and drops every other name |
| ServerStore.StatOf | server-ubuntu/services/databaseService.js:120-126 | `lines` is the number of newlines plus one |
| ServerStore.SaveThenGet | server-ubuntu/services/databaseService.js:18-52 | after a save, reading the name, or the name with `.md` added, gives the saved text; other articles are unchanged |
| ServerStore.SaveOverwrites | server-ubuntu/services/databaseService.js:23-25 | a second save to the same name replaces the first, and the name is listed once |
| ServerStore.DeleteThenGet | server-ubuntu/services/databaseService.js:69-87 | after a delete, reading the name gives `null`, and other articles are unchanged |
| ServerStore.WritesTouchOnlyMarkdown | server-ubuntu/services/databaseService.js:23 | saves and deletes never create or remove a name that does not end in `.md` |
| ServerStore.TotalSizePermutation | server-ubuntu/services/databaseService.js:128-134 | the total size does not depend on the order of the entries |
| ServerStore.TotalSizeAppend | server-ubuntu/services/databaseService.js:112-128 | accumulating sizes entry by entry sums the sizes |
| ServerStore.MarkdownOfListing | server-ubuntu/services/databaseService.js:109-110 | filtering any listing of the directory gives exactly the `.md` names, each once |
| ServerStore.StatsOfListing | server-ubuntu/services/databaseService.js:109-134 | the sorted entries have one entry per `.md` file, and each is that file's statistics |
| ServerStore.ArticleDirectory.SaveArticle | server-ubuntu/services/databaseService.js:18-32 | writes the text under the normalised name and returns its path; on a failure, it throws "Failed to save article: …" and the directory is unchanged |
| ServerStore.ArticleDirectory.UpdateArticle | server-ubuntu/services/databaseService.js:54-67 | same effect as a save, with the error "Failed to update article: …" |
| ServerStore.ArticleDirectory.GetArticle | server-ubuntu/services/databaseService.js:34-52 | the stored text, or `null` when the file is missing or cannot be read; never changes the directory |
| ServerStore.ArticleDirectory.DeleteArticle | server-ubuntu/services/databaseService.js:69-87 | a missing article gives `{success: false, error: 'Article not found'}` and changes nothing; a present one is removed, alone, with `{success: true}`; a failure throws "Failed to delete article: …" |
| ServerStore.ArticleDirectory.ReadDir | server-ubuntu/services/databaseService.js:93 | returns every name in the directory once, in some order |
| ServerStore.ArticleDirectory.ListArticles | server-ubuntu/services/databaseService.js:89-103 | the ascending `.md` listing, or `[]` when the directory cannot be read |
| ServerStore.ArticleDirectory.StatEntries | server-ubuntu/services/databaseService.js:112-129 | the loop builds one correct entry per listed `.md` file, in listing order, and its running total is the sum of their sizes |
| ServerStore.ArticleDirectory.GetArticleStats | server-ubuntu/services/databaseService.js:105-140 | the count of `.md` files; the total size as the sum of the entries' sizes; one correct entry per `.md` file, newest first; all zero and empty on a failure |
| BrowserStore.GenerateFilenameShape | services/databaseService.ts:13-20 | the generated name ends in `.md`; its body has at most 50 characters, all of `a-z`, `0-9` or `_`; it is already normalised |
| BrowserStore.RemoveSpecial | services/databaseService.ts:16 | keeps only ASCII letters, digits and white space, all from the input |
| BrowserStore.RemoveSpecialCounts | services/databaseService.ts:16 | every ASCII letter, digit and white-space character is kept as often as it occurs in the input; every other character is dropped |
| BrowserStore.RemoveSpecialOfKept | services/databaseService.ts:16 | a text holding only letters, digits and white space comes back unchanged |
| BrowserStore.RemoveSpecialAppend | services/databaseService.ts:16 | the result for two joined texts is the two results joined, so the kept characters stay in their order |
| BrowserStore.CollapseSpace | services/databaseService.ts:17 | the result holds no white space; every character is `_` or comes from the input |
| BrowserStore.CollapseSpaceCounts | services/databaseService.ts:17 | every character other than white space and `_` is kept as often as it occurs in the input |
| BrowserStore.CollapseSpaceRun | services/databaseService.ts:17 | a whole run of white space, up to the next other character or the end, becomes one `_` |
| BrowserStore.CollapseSpaceAppend | services/databaseService.ts:17 | text without white space passes through unchanged and in order, ahead of whatever follows |
| BrowserStore.SaveThenGet | services/databaseService.ts:37-57 | after a save, reading the name, or the name with `.md` added, gives the saved text; other keys are unchanged |
| BrowserStore.StorageKeyInjective | services/databaseService.ts:37 | two names share a storage key exactly when they normalise to the same name |
| BrowserStore.ListedAfterSaveAndDelete | services/databaseService.ts:37-98 | a saved article is listed under its normalised name; a deleted one is not |
| BrowserStore.Listing | services/databaseService.ts:84-98 | the listing is ascending and holds exactly the prefixed keys' names |
| BrowserStore.ListingMembership | services/databaseService.ts:87-92 | a name is listed exactly when the store holds `ipa_db_` followed by it; other keys are ignored |
| BrowserStore.StrippedStep | services/databaseService.ts:87-92 | visiting one key adds its name, if it has the prefix, to the names found so far |
| BrowserStore.HitOf | services/databaseService.ts:128-135 | at most one hit per article, and only with a positive match count |
| BrowserStore.Hits | services/databaseService.ts:127-136 | every collected hit has a positive match count |
| BrowserStore.HitOfExactly | services/databaseService.ts:128-135 | an article yields a hit exactly when its stored text is non-empty and matches; the hit carries its name, text and number of matches |
| BrowserStore.HitsQualify | services/databaseService.ts:127-136 | the collected hits are exactly the qualifying hits of the listed names |
| BrowserStore.HitsExactly | services/databaseService.ts:127-136 | a hit is collected exactly for a listed name that has non-empty text in which the lower-cased query occurs, and it carries the number of matches |
| BrowserStore.LoadArticleFromFile | services/databaseService.ts:101-119 | rejects every name not ending in `.md` with "Only .md files are supported"; otherwise it gives the file's name and text, or "Error reading file" |
| BrowserStore.ArticleStorage.SaveArticle | services/databaseService.ts:23-50 | sets `ipa_db_` + normalised name to the text and returns true; returns false and changes nothing when storage throws |
| BrowserStore.ArticleStorage.UpdateArticle | services/databaseService.ts:65-67 | same effect and result as a save |
| BrowserStore.ArticleStorage.GetArticle | services/databaseService.ts:53-62 | the stored text, or `null` when the key is absent or storage throws |
| BrowserStore.ArticleStorage.DeleteArticle | services/databaseService.ts:70-81 | removes the key whether or not it existed and returns true, after which reading gives `null`; returns false when storage throws |
| BrowserStore.ArticleStorage.CollectNames | services/databaseService.ts:87-92 | whatever order the keys are visited in, the loop collects the stripped name of every prefixed key, each once |
| BrowserStore.ArticleStorage.ListArticles | services/databaseService.ts:84-98 | whatever order the keys are visited in, the result is the ascending listing of the prefixed keys' names, each once |
| BrowserStore.ArticleStorage.CollectHits | services/databaseService.ts:127-136 | the `forEach` collects exactly the hits of the listed articles, in listing order |
| BrowserStore.ArticleStorage.SearchArticles | services/databaseService.ts:122-139 | only hits with a positive match count are returned; they are sorted by match count, largest first; they are a permutation of all the hits, and hits with equal counts keep their listing order (the stable `SortDescBy`) |
| ModelReply.ActionOf | server-ubuntu/services/geminiService.js:17-28 | a recognised action name reads back to itself |
| ModelReply.ActionNameRoundTrip | server-ubuntu/services/geminiService.js:17-28 | the ten schema actions have distinct names, and each name reads back to its action |
| ModelReply.DecodeReply | server-ubuntu/services/geminiService.js:154-169 | a parsed object is returned unchanged; decoding fails, with "Invalid or empty response from AI.", exactly when the trimmed text does not parse to an object and is empty |
| ModelReply.SendMessage | server-ubuntu/services/geminiService.js:132-174 | an error thrown by the chat call propagates; otherwise the answer is decoded |
| ModelReply.DecodeIgnoresPadding | server-ubuntu/services/geminiService.js:154 | white space around the model's text never changes the decoded result |
| ModelReply.FallbackIsChat | server-ubuntu/services/geminiService.js:160-163 | text that is not a JSON object and is not empty becomes exactly `{action: 'CHAT', responseText: text}`, which conforms to the schema |
| ModelReply.BlankAnswerFails | server-ubuntu/services/geminiService.js:164-166 | an answer of only white space fails to decode |
| ModelReply.NonChatActionWasParsed | server-ubuntu/services/geminiService.js:157-163 | any action other than `CHAT` comes from the parsed object itself |
| Server.NoSessionOnlyError | server-ubuntu/server.js:153-158 | a socket without a session gets exactly one "Chat session not found" error |
| Server.AiResponseFirst | server-ubuntu/server.js:170-210 | for a decoded answer, `ai_response` comes first and only once, and carries `responseText` if non-empty, else `text`; at most one `article_saved`, `articles_list` or `error` follows |
| Server.FailedReplyOnlyError | server-ubuntu/server.js:212-218 | a failed model call or decoding gives exactly one "Failed to process message" error carrying the failure |
| Server.ArticleSavedExactly | server-ubuntu/server.js:181-190 | `article_saved` is sent exactly when a session's `CREATE_ARTICLE`/`UPDATE_ARTICLE` answer with a filename and content is written successfully; the file then holds that content |
| Server.StoreWrittenOnlyBySuccessfulSave | server-ubuntu/server.js:181-195 | no other message changes the directory; a failed write sends `ai_response` then "Failed to save article" |
| Server.ListActionSendsListing | server-ubuntu/server.js:198-205 | a `LIST_ARTICLES` answer is followed by the listing, never by an error |
| Server.ListEventsAfterSave | server-ubuntu/server.js:181-205 | an answer that asks for the listing writes nothing, so the listing it gets is that of the directory before the answer |
| Server.OtherActionsOnlyAnswer | server-ubuntu/server.js:180-210 | any other action, `DELETE_ARTICLE` included, sends only `ai_response` and leaves the directory alone |
| Server.DisconnectedSocketHasNoSession | server-ubuntu/server.js:276-279 | after a disconnect, a message on that socket gets only "Chat session not found" |
| Server.IpaServer.Connect | server-ubuntu/server.js:129-147 | on success, stores the session, registers the handlers and sends `connection_established`; if session creation throws, only an `error` is sent, with no session and no handlers; only registered sockets hold sessions |
| Server.IpaServer.SendMessage | server-ubuntu/server.js:150-219 | sends exactly the events of `MessageEvents` to that socket, in order; the directory afterwards is `FilesAfterMessage`; sessions are unchanged |
| Server.IpaServer.Respond | server-ubuntu/server.js:167-218 | the events and the directory write for a found session |
| Server.IpaServer.SaveRequested | server-ubuntu/server.js:181-196 | writes and reports exactly the article a create or update answer names |
| Server.IpaServer.ListRequested | server-ubuntu/server.js:198-210 | sends the listing exactly for a `LIST_ARTICLES` answer |
| Server.IpaServer.GetArticles | server-ubuntu/server.js:222-234 | sends the directory listing, empty when it cannot be read |
| Server.IpaServer.GetArticle | server-ubuntu/server.js:237-255 | sends the content, or "Article not found" when the file is missing or unreadable |
| Server.IpaServer.DeleteArticle | server-ubuntu/server.js:258-273 | `article_deleted` whose `success` is whether the file existed, which is then removed; "Failed to delete article" when the store throws |
| Server.IpaServer.Disconnect | server-ubuntu/server.js:276-279 | removes that socket's session and no other |
| Server.IpaServer.PostArticle | server-ubuntu/server.js:72-86 | 400 "Filename and content are required", with the directory untouched, unless both are non-empty; otherwise the save's result, or 500 |
| Server.IpaServer.PutArticle | server-ubuntu/server.js:88-103 | 400 "Content is required", with the directory untouched, unless the content is non-empty; otherwise the update's result, or 500 |
| SocketService.CallsForAppend | client-web/src/services/socketService.ts:116-118 | a handler registered later is called after all handlers registered before it |
| SocketService.CallsForOnlyItsList | client-web/src/services/socketService.ts:116-134 | a notification calls only its own list's handlers, with its payload, each as many times as it was registered |
| SocketService.ArticlesListPassesPayloadObject | client-web/src/services/socketService.ts:47-49 | as written, an `articles_list` event calls each registered article-list callback once, in order, with the payload object and never with the list of names; whenever a callback is registered, these calls differ from the intended ones |
| SocketService.IntendedArticlesDispatch | client-web/src/services/socketService.ts:47-49 | with the corrected listener, an `articles_list` event calls the article-list callbacks in registration order, each as often as it was registered, and each call carries exactly the names the server sent |
| SocketService.IntendedDiffersOnlyOnArticlesList | client-web/src/services/socketService.ts:20-57 | the corrected listener notifies the same list as the written one for every event, and differs from it exactly on `articles_list` |
| SocketService.NotificationRouting | client-web/src/services/socketService.ts:20-57 | `connect`, `disconnect` and `connect_error` notify only the connection callbacks, `connected` being true only for `connect` and the error present only for `connect_error`; `ai_response` becomes one bot message with its text; a server `error` passes its message on |
| SocketService.SocketClient.On | client-web/src/services/socketService.ts:96-114 | appends the handler to its own list; no other list changes |
| SocketService.SocketClient.Notify | client-web/src/services/socketService.ts:116-134 | calls each handler of the list once, in registration order |
| SocketService.SocketClient.Connect | client-web/src/services/socketService.ts:12-18 | a new, not yet connected socket replaces the current one |
| SocketService.SocketClient.HandleEvent | client-web/src/services/socketService.ts:20-57 | each event, as the written listeners handle it, notifies exactly the callbacks of its kind with that listener's payload; on `articles_list` that payload is the received object; `connect` and `disconnect` set the socket's `connected` flag; a socket set to `null` delivers nothing |
| SocketService.SocketClient.SendMessage | client-web/src/services/socketService.ts:72-94 | fails with "Not connected to server", sending nothing, unless connected; otherwise sends one `send_message` with the message |
| SocketService.SocketClient.Disconnect | client-web/src/services/socketService.ts:65-70 | the socket becomes `null`, so `isConnected()` is false; without a socket nothing changes |
| ConsoleClient.ClassifyLine | client-ubuntu/client.js:115-132 | blank exactly when the trimmed line is empty; a command exactly when it starts with `/`; otherwise a chat message of the trimmed text |
| ConsoleClient.ClassifyIgnoresPadding | client-ubuntu/client.js:116 | white space around a line never changes how it is handled |
| ConsoleClient.ParseCommandIgnoresCase | client-ubuntu/client.js:142-144 | command words that differ only in case give the same command |
| ConsoleClient.QuitAliases | client-ubuntu/client.js:171-173 | `/quit` and `/exit`, in any case, are exactly the commands that close the client |
| ConsoleClient.UnknownKeepsToken | client-ubuntu/client.js:176-178 | a command is unknown exactly when its lower-cased word is none of the eight; it reports the word as typed |
| ConsoleClient.IpaClient.OnConnect | client-ubuntu/client.js:64-68 | `isConnected` becomes true and `reconnectAttempts` 0 |
| ConsoleClient.IpaClient.OnDisconnect | client-ubuntu/client.js:70-73 | `isConnected` becomes false; the attempt count stays |
| ConsoleClient.IpaClient.OnReconnectAttempt | client-ubuntu/client.js:79-82 | `reconnectAttempts` becomes the attempt number |
| ConsoleClient.IpaClient.OnConnectError | client-ubuntu/client.js:75-77 | only a message is shown; the connection fields stay |
| ConsoleClient.IpaClient.SendMessage | client-ubuntu/client.js:183-192 | when not connected, only an error is shown and nothing is sent; when connected, exactly one `send_message` carrying the message |
| ConsoleClient.IpaClient.HandleCommand | client-ubuntu/client.js:141-180 | `/quit` and `/exit` close the input and show nothing; an unknown command shows only an error naming the word as typed, and a hint; any other command runs; nothing is sent |
| ConsoleClient.IpaClient.HandleLine | client-ubuntu/client.js:115-132 | a blank line changes nothing. A command line sends nothing: the trimmed line is parsed as a command, closes the input exactly when it is `/quit` or `/exit`, and shows what that command shows. A chat line, trimmed, is sent and echoed when connected; otherwise only the not-connected notice is shown |

## Left out

- The search query is treated as literal text. `searchArticles` builds a regular expression
  from it, so its metacharacters are not modelled (services/databaseService.ts:131).
- `Text.ToLower` lower-cases only ASCII letters. The wider Unicode case mapping is not modelled.
- `Text.StrLe`: the default sort compares UTF-16 code units, but the model compares characters.
  The order differs only outside the Basic Multilingual Plane.
- `ServerStore.StatOf`: the file size is the text's length in characters, not its size in
  bytes. The `created` (birth time) field is not modelled.
- `ServerStore.FilePath` joins the directory and the name with `/`; `path.join`'s
  normalisation of `..` and duplicate separators is not modelled.
- SaveThenGet: the directory is keyed by the name string, so names that `path.join` resolves
  to the same file (`./a` and `a`, `x/../a` and `a`) are distinct flat files in the model, and
  names with `/` or `..` segments do not leave the directory. "Other articles are unchanged"
  holds for names that are plain file names, without `/`.
- DeleteThenGet: the same keying by the name string; for names that `path.join` resolves to
  the same file, deleting one also deletes the other in the system but not in the model.
- EnsureMarkdownExtensionCollisions: states when two names reach the same key; file identity
  after `path.join`'s normalisation of `.`, `..` and `/` segments is not modelled.
- `BrowserStore.ArticleStorage.ListArticles` has no fault parameter. A `localStorage.key`
  call that throws mid-loop, leaving a partial listing, is not modelled.
- The DOM download in the browser's `saveArticle` and `exportAllArticles` (Blob, anchor
  click) is browser I/O and is not modelled.
- `BrowserStore.LoadArticleFromFile`: the `FileReader` runs asynchronously; only its
  outcome is a parameter.
- The language-model call and the chat session it keeps are foreign services. Their result
  is the `ModelOutcome` parameter, and the session is an opaque handle.
- `ModelReply.DecodeReply`: the fields `url`, `location`, `plotData` and `schematicSvg` are
  not modelled, because the server never forwards them. JSON values that are not objects
  (apart from `null`) are read as objects with no fields.
- `Server.IpaServer.SendMessage`:
  - the message text and the image of the request are inputs to the model call only, so
    they are folded into `outcome`;
  - a request without a payload object is not modelled;
  - the `id` and `timestamp` of every event are clocks and are omitted.
- `Server.IpaServer.DeleteArticle`: the `message` field of `article_deleted` is omitted. It
  is always undefined, because the store's delete result has no `message`.
- `Server.IpaServer.GetArticle` and `DeleteArticle` take the file name as a string. A
  missing `filename` in the request is not modelled.
- The REST routes other than the POST and PUT input checks, and the health route, are thin
  wrappers over the store.
- Concurrency is not modelled: every handler runs to completion before the next event.
  Interleavings between the `await`s of two handlers are left out. Nothing in the code
  limits a client to one message in flight, and the model claims no such limit.
- Reconnection backoff, timeouts and `reconnect_failed` belong to the socket.io library
  options. Only the events' effects on the client fields are modelled.
- `SocketService.SocketClient.Connect`: a second `connect()` replaces the socket without
  disconnecting the first, whose listeners in the system go on firing. The model keeps one
  socket and drops the old one.
- `ServerStore.ArticleDirectory.GetArticleStats`: entries with the same modification time stay
  in `readdir` order (the sort is stable). The model leaves that order to the platform, so it
  states the order by time and which entries appear, not the order among ties.
- `SocketService.SocketClient.Disconnect`: the `disconnect` event the library delivers
  while closing the socket is not modelled.
- `SocketService.SocketClient.HandleEvent` runs the `articles_list` listener as written, so the
  article-list callbacks receive the payload object. The corrected dispatch is the function
  `IntendedNotificationOf` with its lemmas; no method of the client runs it.
- `SocketService.SocketClient.SendMessage`: the image path is not modelled. It reads the
  file with an asynchronous `FileReader` before sending.
- `ConsoleClient.IpaClient.HandleCommand`: what `/list`, `/read`, `/stats`, `/config`,
  `/help` and `/clear` show is REST and console I/O. It is recorded as one `Ran` entry,
  including the interactive article picker of `/read`. The `Goodbye!` message and the
  process exit after the input closes are left out.
- Console output formatting, logging, configuration and the React components are not
  modelled.

## Findings

| source | as written | input that shows it | evidently intended | confidence | as-written member | corrected member |
|---|---|---|---|---|---|---|
| client-web/src/services/socketService.ts:47-49 | The `articles_list` listener hands its argument straight to the article-list callbacks, which are declared to take `string[]`. The server sends the object `{articles, timestamp}` (server-ubuntu/server.js:225-228), so the callbacks receive that object. | any `articles_list` event, for example `{articles: ['a.md'], timestamp: '…'}` | the callbacks receive `data.articles`, the list of names | high, not executed | SocketService.ArticlesListPassesPayloadObject | SocketService.IntendedArticlesDispatch |
