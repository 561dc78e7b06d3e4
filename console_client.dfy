/** The console client (client-ubuntu/client.js): the connection fields its socket listeners
    keep, the classification of each input line as blank, command or chat message, and the
    dispatch of commands on their first word. What the commands themselves do over REST and on
    screen is recorded as an `Output` entry rather than modelled. */
module ConsoleClient {
  import opened Text

  /** An input line after trimming. */
  datatype LineKind = Blank | CommandLine(command: string) | ChatLine(message: string)

  /** The commands `handleCommand` recognises; `/quit` and `/exit` are the same command. */
  datatype Command = Help | List | Read(arg: string) | ReadChoose | Stats | Config | Clear | Quit | Unknown(token: string)

  /** What the client shows or does, in order. */
  datatype Output =
    | Status(state: string)
    | ErrorLine(text: string)
    | InfoLine(text: string)
    | UserLine(text: string)
    | Ran(command: Command)

  /** The `line` listener's decision: empty after trimming, a command when the trimmed text
      starts with `/`, a chat message otherwise. */
  function ClassifyLine(input: string): (k: LineKind)
    ensures k.Blank? <==> Trim(input) == []
    ensures k.CommandLine? <==> Trim(input) != [] && Trim(input)[0] == '/'
    ensures k.CommandLine? ==> k.command == Trim(input)
    ensures k.ChatLine? ==> k.message == Trim(input) && k.message != [] && k.message[0] != '/'
  {
    var command := Trim(input);
    if command == [] then Blank
    else if StartsWith(command, "/") then CommandLine(command)
    else ChatLine(command)
  }

  /** White space around a line never changes how it is handled. */
  lemma ClassifyIgnoresPadding(pre: string, s: string, post: string)
    requires AllSpace(pre) && AllSpace(post)
    ensures ClassifyLine(pre + s + post) == ClassifyLine(s)
  {
    TrimOfPadded(pre, s, post);
  }

  /** The command word: the text up to the first space. */
  function FirstToken(command: string): (r: string) {
    Split(command, ' ')[0]
  }

  /** The words after the command word. */
  function Args(command: string): (r: seq<string>) {
    Split(command, ' ')[1..]
  }

  /** The command a lower-cased command word names, with the words after it. */
  function CommandFor(keyword: string, token: string, args: seq<string>): (r: Command) {
    if keyword == "/help" then Help
    else if keyword == "/list" then List
    else if keyword == "/read" then (if |args| > 0 && args[0] != "" then Read(args[0]) else ReadChoose)
    else if keyword == "/stats" then Stats
    else if keyword == "/config" then Config
    else if keyword == "/clear" then Clear
    else if keyword == "/quit" || keyword == "/exit" then Quit
    else Unknown(token)
  }

  /** `handleCommand`'s `switch`: the command word, lower-cased, picks the command. `/read`
      without a non-empty first argument asks the user to pick an article. */
  function ParseCommand(command: string): (r: Command) {
    CommandFor(ToLower(FirstToken(command)), FirstToken(command), Args(command))
  }

  /** Commands are matched without regard to case: two lines whose command words differ only
      in case, followed by the same words, are the same command unless neither is known. */
  lemma ParseCommandIgnoresCase(a: string, b: string)
    requires ToLower(FirstToken(a)) == ToLower(FirstToken(b)) && Args(a) == Args(b)
    ensures ParseCommand(a).Unknown? <==> ParseCommand(b).Unknown?
    ensures !ParseCommand(a).Unknown? ==> ParseCommand(a) == ParseCommand(b)
  {
  }

  /** `/quit` and `/exit`, in any case, are exactly the lines that close the client. */
  lemma QuitAliases(command: string)
    ensures ParseCommand(command) == Quit <==> ToLower(FirstToken(command)) in {"/quit", "/exit"}
  {
  }

  /** An unknown command names the command word exactly as typed. */
  lemma UnknownKeepsToken(command: string)
    ensures ParseCommand(command).Unknown? ==> ParseCommand(command).token == FirstToken(command)
    ensures ParseCommand(command).Unknown? <==>
              ToLower(FirstToken(command)) !in {"/help", "/list", "/read", "/stats", "/config", "/clear", "/quit", "/exit"}
  {
  }

  /** What handling a command shows: nothing for quitting, an error and a hint for an unknown
      command word, and the command's own output otherwise. */
  function CommandOutput(cmd: Command): (r: seq<Output>) {
    match cmd
    case Quit => []
    case Unknown(token) => [ErrorLine("Unknown command: " + token), InfoLine("Type /help for available commands")]
    case _ => [Ran(cmd)]
  }

  /** What sending a chat message shows: the echoed line when connected, the not-connected
      notice otherwise. */
  function ChatOutput(connected: bool, message: string): (r: seq<Output>) {
    if connected then [UserLine(message)] else [ErrorLine("Not connected to server. Using REST API...")]
  }

  class IpaClient {
    var isConnected: bool
    var reconnectAttempts: int
    /** Whether the input reader was closed, which ends the program. */
    var closed: bool
    /** The messages sent with `send_message`, in order. */
    var sent: seq<string>
    /** What the client showed or did, in order. */
    var shown: seq<Output>

    constructor()
      ensures !isConnected && reconnectAttempts == 0 && !closed && sent == [] && shown == []
    {
      isConnected := false;
      reconnectAttempts := 0;
      closed := false;
      sent := [];
      shown := [];
    }

    /** The `connect` listener. */
    method OnConnect()
      modifies this
      ensures isConnected && reconnectAttempts == 0
      ensures shown == old(shown) + [Status("connected")]
      ensures closed == old(closed) && sent == old(sent)
    {
      isConnected := true;
      reconnectAttempts := 0;
      shown := shown + [Status("connected")];
    }

    /** The `disconnect` listener; the count of reconnection attempts is kept. */
    method OnDisconnect()
      modifies this
      ensures !isConnected && reconnectAttempts == old(reconnectAttempts)
      ensures shown == old(shown) + [Status("disconnected")]
      ensures closed == old(closed) && sent == old(sent)
    {
      isConnected := false;
      shown := shown + [Status("disconnected")];
    }

    /** The `reconnect_attempt` listener: the attempt number reported by the library. */
    method OnReconnectAttempt(attemptNumber: int)
      modifies this
      ensures reconnectAttempts == attemptNumber && isConnected == old(isConnected)
      ensures shown == old(shown) + [Status("reconnecting")]
      ensures closed == old(closed) && sent == old(sent)
    {
      reconnectAttempts := attemptNumber;
      shown := shown + [Status("reconnecting")];
    }

    /** The `connect_error` listener: only a message; the connection fields stay. */
    method OnConnectError(message: string)
      modifies this
      ensures shown == old(shown) + [ErrorLine("Connection error: " + message)]
      ensures isConnected == old(isConnected) && reconnectAttempts == old(reconnectAttempts)
      ensures closed == old(closed) && sent == old(sent)
    {
      shown := shown + [ErrorLine("Connection error: " + message)];
    }

    /** `sendMessage(message)`: without a connection only an error is shown and nothing is
        sent; with one, the message is echoed and sent exactly once. */
    method SendMessage(message: string)
      modifies this
      ensures !old(isConnected) ==> sent == old(sent) && shown == old(shown) + [ErrorLine("Not connected to server. Using REST API...")]
      ensures old(isConnected) ==> sent == old(sent) + [message] && shown == old(shown) + [UserLine(message)]
      ensures isConnected == old(isConnected) && reconnectAttempts == old(reconnectAttempts) && closed == old(closed)
    {
      if !isConnected {
        shown := shown + [ErrorLine("Not connected to server. Using REST API...")];
        return;
      }
      shown := shown + [UserLine(message)];
      sent := sent + [message];
    }

    /** `handleCommand(command)`: `/quit` and `/exit` close the input; an unknown command shows
        an error and a hint and changes nothing else; every other command runs. */
    method HandleCommand(command: string)
      modifies this
      ensures ParseCommand(command) == Quit ==> closed && shown == old(shown)
      ensures ParseCommand(command).Unknown? ==>
                && closed == old(closed)
                && shown == old(shown) + [ErrorLine("Unknown command: " + FirstToken(command)), InfoLine("Type /help for available commands")]
      ensures ParseCommand(command) != Quit && !ParseCommand(command).Unknown? ==>
                closed == old(closed) && shown == old(shown) + [Ran(ParseCommand(command))]
      ensures shown == old(shown) + CommandOutput(ParseCommand(command))
      ensures closed == (old(closed) || ParseCommand(command) == Quit)
      ensures isConnected == old(isConnected) && reconnectAttempts == old(reconnectAttempts) && sent == old(sent)
    {
      var cmd := ParseCommand(command);
      match cmd
      case Quit =>
        closed := true;
      case Unknown(token) =>
        shown := shown + [ErrorLine("Unknown command: " + token), InfoLine("Type /help for available commands")];
      case _ =>
        shown := shown + [Ran(cmd)];
    }

    /** The `line` listener: a blank line does nothing, a command line is handled as a
        command, anything else is sent as a chat message. */
    method HandleLine(input: string)
      modifies this
      ensures ClassifyLine(input).Blank? ==>
                shown == old(shown) && sent == old(sent) && closed == old(closed)
      ensures ClassifyLine(input).CommandLine? ==>
                && sent == old(sent)
                && closed == (old(closed) || ParseCommand(Trim(input)) == Quit)
                && shown == old(shown) + CommandOutput(ParseCommand(Trim(input)))
      ensures ClassifyLine(input).ChatLine? ==>
                && closed == old(closed)
                && (if old(isConnected) then sent == old(sent) + [Trim(input)] else sent == old(sent))
                && shown == old(shown) + ChatOutput(old(isConnected), Trim(input))
      ensures isConnected == old(isConnected) && reconnectAttempts == old(reconnectAttempts)
    {
      match ClassifyLine(input)
      case Blank =>
      case CommandLine(command) =>
        HandleCommand(command);
      case ChatLine(message) =>
        SendMessage(message);
    }
  }
}
