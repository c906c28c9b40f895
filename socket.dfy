/** pkg/socket/server.go: the command dispatcher behind the unix socket. The socket,
    JSON decoding and encoding are left out; the daemon is an abstract controller. */
module Socket {
  import opened Wrappers

  /** The daemon's answer to "status". */
  datatype StatusResponse = StatusResponse(
    registered: bool,
    operatorId: string,
    endpointCount: int,
    ingressEndpoint: string)

  /** One bound endpoint as the daemon tracks and lists it. */
  datatype EndpointInfo = EndpointInfo(
    id: string,
    hostname: string,
    ip: string,
    port: int,
    url: string,
    localListener: bool,
    networkPort: int,
    listenInterface: string)

  datatype Command = Command(command: string, args: seq<string>)

  /** The `data` of a response. */
  datatype Data = StatusData(status: StatusResponse) | EndpointsData(endpoints: seq<EndpointInfo>) | Message(text: string) | NoData

  datatype Response = Response(success: bool, data: Data, error: string)

  /** The DaemonController as seen by the dispatcher: what GetStatus and ListEndpoints
      return, and what SetAPIKey answers for a key (None for success, the error text
      otherwise). */
  datatype Controller = Controller(
    status: StatusResponse,
    endpoints: seq<EndpointInfo>,
    setApiKey: string -> Option<string>)

  /** A dispatched command: the response, and the key passed to SetAPIKey if it was called. */
  datatype Dispatch = Dispatch(response: Response, keySet: Option<string>)

  const ApiKeySetMessage: string := "API key set successfully"
  const ApiKeyRequired: string := "API key required"

  /** executeCommand: SetAPIKey is called exactly for "set-api-key" with an argument,
      and with the first argument only; a response carries data exactly when it
      succeeds, and a successful one has no error. */
  function ExecuteCommand(daemon: Controller, cmd: Command): (r: Dispatch)
    ensures r.keySet.Some? <==> cmd.command == "set-api-key" && |cmd.args| > 0
    ensures r.keySet.Some? ==> r.keySet.value == cmd.args[0]
    ensures r.response.success <==> r.response.data != NoData
    ensures r.response.success ==> r.response.error == ""
  {
    if cmd.command == "status" then
      Dispatch(Response(true, StatusData(daemon.status), ""), None)
    else if cmd.command == "list" then
      Dispatch(Response(true, EndpointsData(daemon.endpoints), ""), None)
    else if cmd.command == "set-api-key" then
      if |cmd.args| == 0 then
        Dispatch(Response(false, NoData, ApiKeyRequired), None)
      else
        match daemon.setApiKey(cmd.args[0])
        case None => Dispatch(Response(true, Message(ApiKeySetMessage), ""), Some(cmd.args[0]))
        case Some(e) => Dispatch(Response(false, NoData, e), Some(cmd.args[0]))
    else
      Dispatch(Response(false, NoData, "unknown command: " + cmd.command), None)
  }

  /** "status" and "list" succeed and carry the controller's answer. */
  lemma {:induction false} QueriesSucceed(daemon: Controller, args: seq<string>)
    ensures ExecuteCommand(daemon, Command("status", args)).response == Response(true, StatusData(daemon.status), "")
    ensures ExecuteCommand(daemon, Command("list", args)).response == Response(true, EndpointsData(daemon.endpoints), "")
  {
  }

  /** "set-api-key" succeeds exactly when SetAPIKey reports no error; otherwise the error
      text is passed on. Without an argument it fails with "API key required". */
  lemma {:induction false} SetApiKeyOutcome(daemon: Controller, args: seq<string>)
    ensures |args| == 0 ==>
      ExecuteCommand(daemon, Command("set-api-key", args)).response == Response(false, NoData, ApiKeyRequired)
    ensures |args| > 0 ==>
      (ExecuteCommand(daemon, Command("set-api-key", args)).response.success <==> daemon.setApiKey(args[0]).None?)
    ensures |args| > 0 && daemon.setApiKey(args[0]).Some? ==>
      ExecuteCommand(daemon, Command("set-api-key", args)).response.error == daemon.setApiKey(args[0]).value
  {
  }

  /** Any other command fails with "unknown command: " and the command's name, and
      calls nothing. */
  lemma {:induction false} UnknownCommand(daemon: Controller, cmd: Command)
    requires cmd.command !in {"status", "list", "set-api-key"}
    ensures ExecuteCommand(daemon, cmd) == Dispatch(Response(false, NoData, "unknown command: " + cmd.command), None)
  {
  }
}
