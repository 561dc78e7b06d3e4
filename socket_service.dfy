/** The web client's socket service (client-web/src/services/socketService.ts): five lists of
    callbacks, one per kind of notification, that only grow and are called in registration
    order; the socket, which is absent, connected or not connected; and the messages sent to
    the server. A callback is identified by a number, and calling it is recorded as a `Call`. */
module SocketService {
  import opened Wrappers

  /** A registered callback, by identity. */
  type Handler = nat

  /** The five callback lists. */
  datatype Category = MessageHandlers | ErrorHandlers | ConnectionHandlers | ArticleHandlers | ArticleSavedHandlers

  /** `ConnectionStatus`. */
  datatype ConnectionStatus = ConnectionStatus(connected: bool, error: Option<string>)

  /** The bot `Message` built from an `ai_response`; its id and timestamp are clocks and are
      not modelled. */
  datatype BotMessage = BotMessage(text: Option<string>)

  /** The value handed to the article-list callbacks: the list of names they are declared to
      take, or the whole `articles_list` payload object. */
  datatype ArticlesArgument = NameList(names: seq<string>) | PayloadObject(articles: seq<string>)

  /** What a callback is called with. */
  datatype Payload =
    | MessageArg(message: BotMessage)
    | ErrorArg(error: string)
    | StatusArg(status: ConnectionStatus)
    | ArticlesArg(articles: ArticlesArgument)
    | SavedArg(filename: string, savedMessage: string)

  /** The events the socket delivers: the library's connection events and the server's events. */
  datatype SocketEvent =
    | Connected
    | Disconnected
    | ConnectFailed(message: string)
    | AiResponseReceived(text: Option<string>)
    | ArticlesListReceived(articles: seq<string>)
    | ArticleSavedReceived(filename: string, message: string)
    | ErrorReceived(message: string)

  /** One callback invocation. */
  datatype Call = Call(category: Category, handler: Handler, arg: Payload)

  /** One `socket.emit('send_message', data)`; only text messages are modelled. */
  datatype Outgoing = SendMessageEmit(message: string)

  function CategoryOf(p: Payload): (r: Category) {
    match p
    case MessageArg(_) => MessageHandlers
    case ErrorArg(_) => ErrorHandlers
    case StatusArg(_) => ConnectionHandlers
    case ArticlesArg(_) => ArticleHandlers
    case SavedArg(_, _) => ArticleSavedHandlers
  }

  /** The calls one notification makes: each handler of the list, once, in order. */
  function CallsFor(c: Category, hs: seq<Handler>, p: Payload): (r: seq<Call>) {
    seq(|hs|, i requires 0 <= i < |hs| => Call(c, hs[i], p))
  }

  /** A handler registered later is called after every handler registered before it. */
  lemma CallsForAppend(c: Category, hs: seq<Handler>, h: Handler, p: Payload)
    ensures CallsFor(c, hs + [h], p) == CallsFor(c, hs, p) + [Call(c, h, p)]
  {
  }

  /** A notification calls only handlers of its own list, each as often as it was registered. */
  lemma {:induction false} CallsForOnlyItsList(c: Category, hs: seq<Handler>, p: Payload, h: Handler)
    ensures forall call :: call in CallsFor(c, hs, p) ==> call.category == c && call.arg == p && call.handler in hs
    ensures multiset(CallsFor(c, hs, p))[Call(c, h, p)] == multiset(hs)[h]
    decreases |hs|
  {
    if hs != [] {
      var init := hs[..|hs| - 1];
      var last := hs[|hs| - 1];
      assert hs == init + [last];
      CallsForOnlyItsList(c, init, p, h);
      CallsForAppend(c, init, last, p);
    }
  }

  /** The notification each event causes, as the listeners set up in `connect` do it. The
      `articles_list` listener hands on the payload object it receives, while the article-list
      callbacks are declared to take the list of names. */
  function NotificationOf(e: SocketEvent): (p: Payload) {
    match e
    case Connected => StatusArg(ConnectionStatus(true, None))
    case Disconnected => StatusArg(ConnectionStatus(false, None))
    case ConnectFailed(message) => StatusArg(ConnectionStatus(false, Some(message)))
    case AiResponseReceived(text) => MessageArg(BotMessage(text))
    case ArticlesListReceived(articles) => ArticlesArg(PayloadObject(articles))
    case ArticleSavedReceived(filename, message) => SavedArg(filename, message)
    case ErrorReceived(message) => ErrorArg(message)
  }

  /** The notification the listeners are meant to cause: the same, except that the article-list
      callbacks receive the payload's `articles` field. */
  function IntendedNotificationOf(e: SocketEvent): (p: Payload) {
    match e
    case ArticlesListReceived(articles) => ArticlesArg(NameList(articles))
    case _ => NotificationOf(e)
  }

  /** As written, every call an `articles_list` event makes goes to an article-list callback and
      carries the payload object; none of them carries the list of names, so the calls differ
      from the intended ones whenever a callback is registered. */
  lemma {:induction false} ArticlesListPassesPayloadObject(articles: seq<string>, hs: seq<Handler>)
    ensures var p := NotificationOf(ArticlesListReceived(articles));
            var calls := CallsFor(CategoryOf(p), hs, p);
            && |calls| == |hs|
            && (forall i :: 0 <= i < |calls| ==> calls[i] == Call(ArticleHandlers, hs[i], ArticlesArg(PayloadObject(articles))))
            && (forall call :: call in calls ==> call.arg.ArticlesArg? && !call.arg.articles.NameList?)
    ensures var q := IntendedNotificationOf(ArticlesListReceived(articles));
            hs != [] ==> CallsFor(CategoryOf(NotificationOf(ArticlesListReceived(articles))), hs, NotificationOf(ArticlesListReceived(articles)))
                         != CallsFor(CategoryOf(q), hs, q)
  {
    var p := NotificationOf(ArticlesListReceived(articles));
    var q := IntendedNotificationOf(ArticlesListReceived(articles));
    if hs != [] {
      assert CallsFor(CategoryOf(p), hs, p)[0].arg != CallsFor(CategoryOf(q), hs, q)[0].arg;
    }
  }

  /** As intended, an `articles_list` event calls the article-list callbacks in registration
      order, each once, and each receives exactly the names the server sent. */
  lemma IntendedArticlesDispatch(articles: seq<string>, hs: seq<Handler>, h: Handler)
    ensures var q := IntendedNotificationOf(ArticlesListReceived(articles));
            var calls := CallsFor(CategoryOf(q), hs, q);
            && |calls| == |hs|
            && (forall i :: 0 <= i < |calls| ==>
                  calls[i].category == ArticleHandlers && calls[i].handler == hs[i]
                  && calls[i].arg.ArticlesArg? && calls[i].arg.articles == NameList(articles))
            && multiset(calls)[Call(ArticleHandlers, h, ArticlesArg(NameList(articles)))] == multiset(hs)[h]
  {
    CallsForOnlyItsList(ArticleHandlers, hs, ArticlesArg(NameList(articles)), h);
  }

  /** The corrected listener differs from the written one on `articles_list` events only. */
  lemma IntendedDiffersOnlyOnArticlesList(e: SocketEvent)
    ensures IntendedNotificationOf(e) == NotificationOf(e) <==> !e.ArticlesListReceived?
    ensures CategoryOf(IntendedNotificationOf(e)) == CategoryOf(NotificationOf(e))
  {
  }

  /** Connection events reach only the connection callbacks, with `connected` true exactly for
      `connect`, and an error only for `connect_error`; an answer reaches the message callbacks
      as one bot message carrying its text; a server error reaches the error callbacks with its
      message. */
  lemma NotificationRouting(e: SocketEvent)
    ensures (e.Connected? || e.Disconnected? || e.ConnectFailed?) <==> CategoryOf(NotificationOf(e)) == ConnectionHandlers
    ensures CategoryOf(NotificationOf(e)) == ConnectionHandlers ==>
              NotificationOf(e).status.connected == e.Connected?
              && NotificationOf(e).status.error == (if e.ConnectFailed? then Some(e.message) else None)
    ensures e.AiResponseReceived? <==> CategoryOf(NotificationOf(e)) == MessageHandlers
    ensures e.AiResponseReceived? ==> NotificationOf(e) == MessageArg(BotMessage(e.text))
    ensures e.ErrorReceived? <==> CategoryOf(NotificationOf(e)) == ErrorHandlers
    ensures e.ErrorReceived? ==> NotificationOf(e) == ErrorArg(e.message)
  {
  }

  class SocketClient {
    var messageHandlers: seq<Handler>
    var errorHandlers: seq<Handler>
    var connectionHandlers: seq<Handler>
    var articleHandlers: seq<Handler>
    var articleSavedHandlers: seq<Handler>
    /** `socket`: `None` for `null`, otherwise whether the socket is connected. */
    var socket: Option<bool>
    /** Every callback invocation so far, in order. */
    var calls: seq<Call>
    /** Every message sent to the server, in order. */
    var sent: seq<Outgoing>

    function Handlers(c: Category): (r: seq<Handler>)
      reads this
    {
      match c
      case MessageHandlers => messageHandlers
      case ErrorHandlers => errorHandlers
      case ConnectionHandlers => connectionHandlers
      case ArticleHandlers => articleHandlers
      case ArticleSavedHandlers => articleSavedHandlers
    }

    /** `isConnected()`: there is a socket and it is connected. */
    function IsConnected(): (r: bool)
      reads this
    {
      socket.Some? && socket.value
    }

    constructor()
      ensures forall c :: Handlers(c) == []
      ensures socket == None && calls == [] && sent == []
    {
      messageHandlers := [];
      errorHandlers := [];
      connectionHandlers := [];
      articleHandlers := [];
      articleSavedHandlers := [];
      socket := None;
      calls := [];
      sent := [];
    }

    /** `onMessage`, `onError`, `onConnectionChange`, `onArticlesList`, `onArticleSaved`: the
        handler is appended to its own list; no other list changes. */
    method On(c: Category, h: Handler)
      modifies this
      ensures Handlers(c) == old(Handlers(c)) + [h]
      ensures forall d :: d != c ==> Handlers(d) == old(Handlers(d))
      ensures socket == old(socket) && calls == old(calls) && sent == old(sent)
    {
      match c
      case MessageHandlers => messageHandlers := messageHandlers + [h];
      case ErrorHandlers => errorHandlers := errorHandlers + [h];
      case ConnectionHandlers => connectionHandlers := connectionHandlers + [h];
      case ArticleHandlers => articleHandlers := articleHandlers + [h];
      case ArticleSavedHandlers => articleSavedHandlers := articleSavedHandlers + [h];
    }

    /** The `notify*` methods: every handler of the payload's list is called once, in
        registration order. */
    method Notify(p: Payload)
      modifies this
      ensures calls == old(calls) + CallsFor(CategoryOf(p), Handlers(CategoryOf(p)), p)
      ensures forall c :: Handlers(c) == old(Handlers(c))
      ensures socket == old(socket) && sent == old(sent)
    {
      var c := CategoryOf(p);
      var hs := Handlers(c);
      var i := 0;
      while i < |hs|
        invariant 0 <= i <= |hs|
        invariant calls == old(calls) + CallsFor(c, hs[..i], p)
        invariant forall d :: Handlers(d) == old(Handlers(d))
        invariant socket == old(socket) && sent == old(sent)
      {
        CallsForAppend(c, hs[..i], hs[i], p);
        assert hs[..i + 1] == hs[..i] + [hs[i]];
        calls := calls + [Call(c, hs[i], p)];
        i := i + 1;
      }
      assert hs[..i] == hs;
    }

    /** `connect(serverUrl)`: a new socket, not yet connected, replaces the current one; the
        listeners it gets are `HandleEvent`. */
    method Connect()
      modifies this
      ensures socket == Some(false)
      ensures forall c :: Handlers(c) == old(Handlers(c))
      ensures calls == old(calls) && sent == old(sent)
    {
      socket := Some(false);
    }

    /** An event delivered by the socket: the library updates its `connected` flag on
        `connect` and `disconnect`, then the listener notifies the callbacks. A socket that was
        set to `null` delivers nothing. */
    method HandleEvent(e: SocketEvent)
      modifies this
      ensures old(socket).None? ==> socket == old(socket) && calls == old(calls)
      ensures old(socket).Some? ==>
        && socket == (if e.Connected? then Some(true) else if e.Disconnected? then Some(false) else old(socket))
        && calls == old(calls) + CallsFor(CategoryOf(NotificationOf(e)), old(Handlers(CategoryOf(NotificationOf(e)))), NotificationOf(e))
      ensures forall c :: Handlers(c) == old(Handlers(c))
      ensures sent == old(sent)
    {
      if socket.None? {
        return;
      }
      if e.Connected? {
        socket := Some(true);
      } else if e.Disconnected? {
        socket := Some(false);
      }
      Notify(NotificationOf(e));
    }

    /** `sendMessage(message)` without an image: fails with "Not connected to server", sending
        nothing, unless there is a connected socket; otherwise sends exactly one
        `send_message` carrying the message. */
    method SendMessage(message: string) returns (r: Result<(), string>)
      modifies this
      ensures !old(IsConnected()) ==> r == Failure("Not connected to server") && sent == old(sent)
      ensures old(IsConnected()) ==> r.Success? && sent == old(sent) + [SendMessageEmit(message)]
      ensures forall c :: Handlers(c) == old(Handlers(c))
      ensures socket == old(socket) && calls == old(calls)
    {
      if socket.None? || !socket.value {
        return Failure("Not connected to server");
      }
      sent := sent + [SendMessageEmit(message)];
      r := Success(());
    }

    /** `disconnect()`: drops the socket, so the client is no longer connected; without a
        socket nothing changes. */
    method Disconnect()
      modifies this
      ensures socket == None && !IsConnected()
      ensures forall c :: Handlers(c) == old(Handlers(c))
      ensures calls == old(calls) && sent == old(sent)
    {
      if socket.Some? {
        socket := None;
      }
    }
  }
}
