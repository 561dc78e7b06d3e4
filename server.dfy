/** The IPA server (server-ubuntu/server.js): a registry of chat sessions keyed by socket id,
    the socket handlers that answer each client event with an ordered list of events sent back
    to that socket, and the input checks of the REST article routes. The language model, the
    chat session it keeps and `JSON.parse` are parameters; the article directory is the
    `ArticleDirectory` of the server store. Timestamps and message ids are not modelled. */
module Server {
  import opened Wrappers
  import opened ArticleNames
  import opened ModelReply
  import opened ServerStore

  type SocketId = string

  /** An opaque handle to the chat session the language model keeps for one client. */
  type ChatSession = nat

  /** The events the server sends to a client, with the payload fields that are not clocks. */
  datatype ServerEvent =
    | ConnectionEstablished(message: string)
    | AiResponse(replyText: Option<string>, replyAction: Option<string>, replyFilename: Option<string>, replyContent: Option<string>)
    | ArticleSaved(filename: string)
    | ArticlesList(articles: seq<string>)
    | ArticleContent(filename: string, content: string)
    | ArticleDeleted(filename: string, success: bool)
    | Error(message: string, details: Option<string>)

  /** One `socket.emit`: the socket it goes to and the event. */
  datatype Emission = Emission(socket: SocketId, event: ServerEvent)

  /** What a REST route answers: a status code and a JSON body. */
  datatype HttpResponse = HttpResponse(status: nat, body: HttpBody)
  datatype HttpBody = ErrorBody(error: string) | SavedBody(filePath: string)

  // ---------------------------------------------------------------------------------------
  // The `send_message` handler as functions of its inputs

  /** The `ai_response` event for a decoded answer: its text is `responseText` when that is
      a non-empty string, and `text` otherwise. */
  function AiResponseOf(r: Reply): (ev: ServerEvent) {
    AiResponse(if Truthy(r.responseText) then r.responseText else r.text, r.action, r.filename, r.content)
  }

  /** The answer asks for an article to be written, and names it and its content. */
  predicate WritesArticle(r: Reply) {
    (r.action == Some("CREATE_ARTICLE") || r.action == Some("UPDATE_ARTICLE"))
    && Truthy(r.filename) && Truthy(r.content)
  }

  predicate ListsArticles(r: Reply) {
    r.action == Some("LIST_ARTICLES")
  }

  /** The event reporting the write an answer asks for, if it asks for one. */
  function SaveEvents(r: Reply, saveFault: Option<string>): (events: seq<ServerEvent>) {
    if !WritesArticle(r) then []
    else if saveFault.None? then [ArticleSaved(r.filename.value)]
    else [Error("Failed to save article", None)]
  }

  /** The listing an answer asks for, if it asks for one. The directory listing never fails,
      since an unreadable directory lists as empty. */
  ghost function ListEvents(r: Reply, files: map<string, FileEntry>, listFault: Option<string>): (events: seq<ServerEvent>) {
    if ListsArticles(r) then [ArticlesList(if listFault.None? then Listing(files) else [])] else []
  }

  /** The events that follow `ai_response`: the outcome of the write the answer asks for, then
      the listing it asks for. */
  ghost function FollowUp(r: Reply, files: map<string, FileEntry>, saveFault: Option<string>, listFault: Option<string>): (events: seq<ServerEvent>) {
    SaveEvents(r, saveFault) + ListEvents(r, files, listFault)
  }

  /** Everything `send_message` sends back: an error when the socket has no session or the
      model call or decoding failed, otherwise `ai_response` and its follow-up events. */
  ghost function MessageEvents(hasSession: bool, reply: Result<Reply, string>, files: map<string, FileEntry>,
                               saveFault: Option<string>, listFault: Option<string>): (events: seq<ServerEvent>) {
    if !hasSession then [Error("Chat session not found", None)]
    else match reply
      case Failure(e) => [Error("Failed to process message", Some(e))]
      case Success(r) => [AiResponseOf(r)] + FollowUp(r, files, saveFault, listFault)
  }

  /** The article directory after `send_message`: written only for a session's answer that
      asks for a write which succeeds. */
  function FilesAfterMessage(hasSession: bool, reply: Result<Reply, string>, files: map<string, FileEntry>,
                             now: int, saveFault: Option<string>): (r: map<string, FileEntry>) {
    if hasSession && reply.Success? && WritesArticle(reply.value) && saveFault.None?
    then Saved(files, reply.value.filename.value, reply.value.content.value, now)
    else files
  }

  function Emitted(socket: SocketId, events: seq<ServerEvent>): (r: seq<Emission>) {
    seq(|events|, i requires 0 <= i < |events| => Emission(socket, events[i]))
  }

  lemma EmittedConcat(socket: SocketId, a: seq<ServerEvent>, b: seq<ServerEvent>)
    ensures Emitted(socket, a + b) == Emitted(socket, a) + Emitted(socket, b)
  {
  }

  /** The emissions of an answer, event group by event group, are those of `MessageEvents`. */
  lemma EmittedAnswer(socket: SocketId, out0: seq<Emission>, r: Reply, files: map<string, FileEntry>,
                      saveFault: Option<string>, listFault: Option<string>)
    ensures out0 + [Emission(socket, AiResponseOf(r))] + Emitted(socket, SaveEvents(r, saveFault)) + Emitted(socket, ListEvents(r, files, listFault))
            == out0 + Emitted(socket, MessageEvents(true, Success(r), files, saveFault, listFault))
  {
    var a := [AiResponseOf(r)];
    var b := SaveEvents(r, saveFault);
    var c := ListEvents(r, files, listFault);
    assert MessageEvents(true, Success(r), files, saveFault, listFault) == (a + b) + c;
    EmittedConcat(socket, a + b, c);
    EmittedConcat(socket, a, b);
    assert Emitted(socket, a) == [Emission(socket, AiResponseOf(r))];
  }

  /** An answer that asks for the listing writes nothing, so the listing it gets is that of the
      directory before the answer. */
  lemma ListEventsAfterSave(r: Reply, files: map<string, FileEntry>, now: int, saveFault: Option<string>, listFault: Option<string>)
    ensures ListEvents(r, FilesAfterMessage(true, Success(r), files, now, saveFault), listFault) == ListEvents(r, files, listFault)
  {
  }

  predicate IsFollowUpEvent(e: ServerEvent) {
    e.ArticleSaved? || e.ArticlesList? || e.Error?
  }

  // ---------------------------------------------------------------------------------------
  // Properties of `send_message`

  /** A socket without a session gets exactly one error and nothing else. */
  lemma NoSessionOnlyError(reply: Result<Reply, string>, files: map<string, FileEntry>, saveFault: Option<string>, listFault: Option<string>)
    ensures MessageEvents(false, reply, files, saveFault, listFault) == [Error("Chat session not found", None)]
  {
  }

  /** For a decoded answer, `ai_response` comes first, carries `responseText` when it is
      non-empty and `text` otherwise, and is the only `ai_response`; at most one more event
      follows, and it is `article_saved`, `articles_list` or `error`. */
  lemma AiResponseFirst(r: Reply, files: map<string, FileEntry>, saveFault: Option<string>, listFault: Option<string>)
    ensures var events := MessageEvents(true, Success(r), files, saveFault, listFault);
      && 1 <= |events| <= 2
      && events[0] == AiResponseOf(r)
      && events[0].replyText == (if Truthy(r.responseText) then r.responseText else r.text)
      && forall i :: 1 <= i < |events| ==> IsFollowUpEvent(events[i]) && !events[i].AiResponse?
  {
    var save := SaveEvents(r, saveFault);
    var list := ListEvents(r, files, listFault);
    assert MessageEvents(true, Success(r), files, saveFault, listFault) == [AiResponseOf(r)] + save + list;
    if WritesArticle(r) {
      assert list == [];
    } else {
      assert save == [];
    }
  }

  /** A failed model call or decoding gives exactly one error, carrying the failure. */
  lemma FailedReplyOnlyError(e: string, files: map<string, FileEntry>, saveFault: Option<string>, listFault: Option<string>)
    ensures MessageEvents(true, Failure(e), files, saveFault, listFault) == [Error("Failed to process message", Some(e))]
  {
  }

  /** `article_saved` is sent exactly when a session's answer asks for a write that succeeds,
      and it names the written article; the directory then holds the content under that name. */
  lemma ArticleSavedExactly(hasSession: bool, reply: Result<Reply, string>, files: map<string, FileEntry>, now: int,
                            saveFault: Option<string>, listFault: Option<string>, name: string)
    ensures ArticleSaved(name) in MessageEvents(hasSession, reply, files, saveFault, listFault) <==>
              hasSession && reply.Success? && WritesArticle(reply.value) && saveFault.None? && name == reply.value.filename.value
    ensures ArticleSaved(name) in MessageEvents(hasSession, reply, files, saveFault, listFault) ==>
              Lookup(FilesAfterMessage(hasSession, reply, files, now, saveFault), name) == reply.value.content
  {
    if hasSession && reply.Success? && WritesArticle(reply.value) && saveFault.None? {
      SaveThenGet(files, reply.value.filename.value, reply.value.content.value, now, name);
    }
  }

  /** The directory changes only through a successful write, and a failed write leaves it
      as it was while the `ai_response` already sent stands, followed by an error. */
  lemma StoreWrittenOnlyBySuccessfulSave(hasSession: bool, reply: Result<Reply, string>, files: map<string, FileEntry>, now: int,
                                         saveFault: Option<string>, listFault: Option<string>)
    ensures !(hasSession && reply.Success? && WritesArticle(reply.value) && saveFault.None?) ==>
              FilesAfterMessage(hasSession, reply, files, now, saveFault) == files
    ensures hasSession && reply.Success? && WritesArticle(reply.value) && saveFault.Some? ==>
              MessageEvents(hasSession, reply, files, saveFault, listFault) == [AiResponseOf(reply.value), Error("Failed to save article", None)]
  {
  }

  /** A `LIST_ARTICLES` answer is followed by the listing of the directory, never by an error. */
  lemma ListActionSendsListing(r: Reply, files: map<string, FileEntry>, saveFault: Option<string>, listFault: Option<string>)
    requires ListsArticles(r)
    ensures MessageEvents(true, Success(r), files, saveFault, listFault)
            == [AiResponseOf(r), ArticlesList(if listFault.None? then Listing(files) else [])]
  {
  }

  /** Any other action, `DELETE_ARTICLE` included, only produces `ai_response` and leaves the
      directory alone. */
  lemma OtherActionsOnlyAnswer(r: Reply, files: map<string, FileEntry>, now: int, saveFault: Option<string>, listFault: Option<string>)
    requires r.action !in {Some("CREATE_ARTICLE"), Some("UPDATE_ARTICLE"), Some("LIST_ARTICLES")}
    ensures MessageEvents(true, Success(r), files, saveFault, listFault) == [AiResponseOf(r)]
    ensures FilesAfterMessage(true, Success(r), files, now, saveFault) == files
  {
  }

  // ---------------------------------------------------------------------------------------
  // The server

  class IpaServer {
    /** The article directory the handlers read and write. */
    const store: ArticleDirectory
    /** `chatSessions`: the chat session of each connected socket. */
    var sessions: map<SocketId, ChatSession>
    /** The sockets whose event handlers were registered on connection. */
    var registered: set<SocketId>
    /** Every event sent so far, in order. */
    var out: seq<Emission>

    /** Only a socket whose handlers were registered can hold a session. */
    ghost predicate Valid()
      reads this
    {
      sessions.Keys <= registered
    }

    constructor(store: ArticleDirectory)
      ensures this.store == store && sessions == map[] && registered == {} && out == []
      ensures Valid()
    {
      this.store := store;
      sessions := map[];
      registered := {};
      out := [];
    }

    method Emit(socket: SocketId, e: ServerEvent)
      modifies this
      ensures out == old(out) + [Emission(socket, e)]
      ensures sessions == old(sessions) && registered == old(registered)
    {
      out := out + [Emission(socket, e)];
    }

    /** The `connection` handler. `created` is what `createChatSession` gave: a session, or
        `None` when it threw. On success the session is stored, the handlers are registered
        and `connection_established` is sent; on failure only an error is sent. */
    method Connect(socket: SocketId, created: Option<ChatSession>)
      modifies this
      ensures created.Some? ==> sessions == old(sessions)[socket := created.value] && registered == old(registered) + {socket}
      ensures created.Some? ==> out == old(out) + [Emission(socket, ConnectionEstablished("Connected to IPA Server"))]
      ensures created.None? ==> sessions == old(sessions) && registered == old(registered)
      ensures created.None? ==> out == old(out) + [Emission(socket, Error("Failed to create chat session", None))]
      ensures old(Valid()) ==> Valid()
    {
      if created.None? {
        Emit(socket, Error("Failed to create chat session", None));
        return;
      }
      sessions := sessions[socket := created.value];
      Emit(socket, ConnectionEstablished("Connected to IPA Server"));
      registered := registered + {socket};
    }

    /** The `send_message` handler. `outcome` is what the chat call delivered, `parse` is
        `JSON.parse`, `now` the clock at the write, and `saveFault`/`listFault` the file-system
        errors, if any, of the write and of the listing. A socket without registered handlers
        is not listened to. */
    method SendMessage(socket: SocketId, outcome: ModelOutcome, parse: string -> Option<Parsed>, now: int,
                       saveFault: Option<string>, listFault: Option<string>)
      modifies this, store
      ensures socket !in old(registered) ==> out == old(out) && store.files == old(store.files)
      ensures socket in old(registered) ==>
        out == old(out) + Emitted(socket, MessageEvents(socket in old(sessions), ModelReply.SendMessage(outcome, parse), old(store.files), saveFault, listFault))
      ensures socket in old(registered) ==>
        store.files == FilesAfterMessage(socket in old(sessions), ModelReply.SendMessage(outcome, parse), old(store.files), now, saveFault)
      ensures sessions == old(sessions) && registered == old(registered)
    {
      if socket !in registered {
        return;
      }
      if socket !in sessions {
        Emit(socket, Error("Chat session not found", None));
        return;
      }
      var response := ModelReply.SendMessage(outcome, parse);
      Respond(socket, response, now, saveFault, listFault);
    }

    /** The part of `send_message` after the session was found: the events for the decoded
        answer, or the error for a failed model call or decoding. */
    method Respond(socket: SocketId, response: Result<Reply, string>, now: int, saveFault: Option<string>, listFault: Option<string>)
      modifies this, store
      ensures out == old(out) + Emitted(socket, MessageEvents(true, response, old(store.files), saveFault, listFault))
      ensures store.files == FilesAfterMessage(true, response, old(store.files), now, saveFault)
      ensures sessions == old(sessions) && registered == old(registered)
    {
      if response.Failure? {
        Emit(socket, Error("Failed to process message", Some(response.error)));
        return;
      }
      var r := response.value;
      ghost var out0 := out;
      ghost var files0 := store.files;
      Emit(socket, AiResponseOf(r));
      SaveRequested(socket, r, now, saveFault);
      ListEventsAfterSave(r, files0, now, saveFault, listFault);
      ListRequested(socket, r, listFault);
      EmittedAnswer(socket, out0, r, files0, saveFault, listFault);
    }

    /** The part of `send_message` that writes the article an answer asks for and reports it. */
    method SaveRequested(socket: SocketId, r: Reply, now: int, saveFault: Option<string>)
      modifies this, store
      ensures out == old(out) + Emitted(socket, SaveEvents(r, saveFault))
      ensures store.files == FilesAfterMessage(true, Success(r), old(store.files), now, saveFault)
      ensures sessions == old(sessions) && registered == old(registered)
    {
      if r.action == Some("CREATE_ARTICLE") || r.action == Some("UPDATE_ARTICLE") {
        if Truthy(r.filename) && Truthy(r.content) {
          var saved := store.SaveArticle(r.filename.value, r.content.value, now, saveFault);
          if saved.Success? {
            Emit(socket, ArticleSaved(r.filename.value));
          } else {
            Emit(socket, Error("Failed to save article", None));
          }
          return;
        }
      }
      assert SaveEvents(r, saveFault) == [];
    }

    /** The part of `send_message` that sends the listing an answer asks for. */
    method ListRequested(socket: SocketId, r: Reply, listFault: Option<string>)
      modifies this
      ensures out == old(out) + Emitted(socket, ListEvents(r, store.files, listFault))
      ensures sessions == old(sessions) && registered == old(registered)
    {
      if r.action == Some("LIST_ARTICLES") {
        var articles := store.ListArticles(listFault);
        Emit(socket, ArticlesList(articles));
      } else {
        assert ListEvents(r, store.files, listFault) == [];
      }
    }

    /** The `get_articles` handler: the directory listing, empty when it cannot be read. */
    method GetArticles(socket: SocketId, listFault: Option<string>)
      modifies this
      ensures socket in old(registered) ==> out == old(out) + [Emission(socket, ArticlesList(if listFault.None? then Listing(store.files) else []))]
      ensures socket !in old(registered) ==> out == old(out)
      ensures sessions == old(sessions) && registered == old(registered)
    {
      if socket !in registered {
        return;
      }
      var articles := store.ListArticles(listFault);
      Emit(socket, ArticlesList(articles));
    }

    /** The `get_article` handler: the article's content, or the error "Article not found"
        when it is missing or cannot be read. */
    method GetArticle(socket: SocketId, filename: string, fault: Option<string>)
      modifies this
      ensures socket in old(registered) && fault.None? && Lookup(store.files, filename).Some? ==>
        out == old(out) + [Emission(socket, ArticleContent(filename, Lookup(store.files, filename).value))]
      ensures socket in old(registered) && (fault.Some? || Lookup(store.files, filename).None?) ==>
        out == old(out) + [Emission(socket, Error("Article not found", None))]
      ensures socket !in old(registered) ==> out == old(out)
      ensures sessions == old(sessions) && registered == old(registered)
    {
      if socket !in registered {
        return;
      }
      var content := store.GetArticle(filename, fault);
      if content.None? {
        Emit(socket, Error("Article not found", None));
      } else {
        Emit(socket, ArticleContent(filename, content.value));
      }
    }

    /** The `delete_article` handler: `article_deleted` whose `success` is the store's answer,
        or the error "Failed to delete article" when the store throws. */
    method DeleteArticle(socket: SocketId, filename: string, fault: Option<string>)
      modifies this, store
      ensures socket in old(registered) && fault.None? ==>
        && out == old(out) + [Emission(socket, ArticleDeleted(filename, EnsureMarkdownExtension(filename) in old(store.files)))]
        && store.files == Removed(old(store.files), filename)
      ensures socket in old(registered) && fault.Some? ==>
        out == old(out) + [Emission(socket, Error("Failed to delete article", None))] && store.files == old(store.files)
      ensures socket !in old(registered) ==> out == old(out) && store.files == old(store.files)
      ensures sessions == old(sessions) && registered == old(registered)
    {
      if socket !in registered {
        return;
      }
      var result := store.DeleteArticle(filename, fault);
      if result.Failure? {
        Emit(socket, Error("Failed to delete article", None));
      } else {
        Emit(socket, ArticleDeleted(filename, result.value.success));
      }
    }

    /** The `disconnect` handler: that socket's session, and only it, is forgotten. */
    method Disconnect(socket: SocketId)
      modifies this
      ensures socket in old(registered) ==> sessions == old(sessions) - {socket}
      ensures socket !in old(registered) ==> sessions == old(sessions)
      ensures registered == old(registered) && out == old(out)
      ensures old(Valid()) ==> Valid()
    {
      if socket in registered {
        sessions := sessions - {socket};
      }
    }

    /** `POST /api/articles`: 400 unless both `filename` and `content` are non-empty strings,
        before the directory is touched; otherwise the save's result, or 500 when it throws. */
    method PostArticle(filename: Option<string>, content: Option<string>, now: int, fault: Option<string>) returns (resp: HttpResponse)
      modifies store
      ensures !Truthy(filename) || !Truthy(content) ==>
        resp == HttpResponse(400, ErrorBody("Filename and content are required")) && store.files == old(store.files)
      ensures Truthy(filename) && Truthy(content) && fault.None? ==>
        resp == HttpResponse(200, SavedBody(FilePath(EnsureMarkdownExtension(filename.value))))
        && store.files == Saved(old(store.files), filename.value, content.value, now)
      ensures Truthy(filename) && Truthy(content) && fault.Some? ==>
        resp == HttpResponse(500, ErrorBody("Failed to create article")) && store.files == old(store.files)
    {
      if !Truthy(filename) || !Truthy(content) {
        return HttpResponse(400, ErrorBody("Filename and content are required"));
      }
      var result := store.SaveArticle(filename.value, content.value, now, fault);
      if result.Failure? {
        return HttpResponse(500, ErrorBody("Failed to create article"));
      }
      resp := HttpResponse(200, SavedBody(result.value));
    }

    /** `PUT /api/articles/:filename`: 400 unless `content` is a non-empty string, before the
        directory is touched; otherwise the update's result, or 500 when it throws. */
    method PutArticle(filename: string, content: Option<string>, now: int, fault: Option<string>) returns (resp: HttpResponse)
      modifies store
      ensures !Truthy(content) ==> resp == HttpResponse(400, ErrorBody("Content is required")) && store.files == old(store.files)
      ensures Truthy(content) && fault.None? ==>
        resp == HttpResponse(200, SavedBody(FilePath(EnsureMarkdownExtension(filename))))
        && store.files == Saved(old(store.files), filename, content.value, now)
      ensures Truthy(content) && fault.Some? ==>
        resp == HttpResponse(500, ErrorBody("Failed to update article")) && store.files == old(store.files)
    {
      if !Truthy(content) {
        return HttpResponse(400, ErrorBody("Content is required"));
      }
      var result := store.UpdateArticle(filename, content.value, now, fault);
      if result.Failure? {
        return HttpResponse(500, ErrorBody("Failed to update article"));
      }
      resp := HttpResponse(200, SavedBody(result.value));
    }
  }

  /** After a socket disconnects, a message still arriving on it finds no session. */
  lemma DisconnectedSocketHasNoSession(sessions: map<SocketId, ChatSession>, socket: SocketId, reply: Result<Reply, string>,
                                       files: map<string, FileEntry>, saveFault: Option<string>, listFault: Option<string>)
    ensures socket !in sessions - {socket}
    ensures MessageEvents(socket in sessions - {socket}, reply, files, saveFault, listFault) == [Error("Chat session not found", None)]
  {
  }
}
