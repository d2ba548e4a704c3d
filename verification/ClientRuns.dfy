/** What holds in every run of the client, whatever the environment does. */
module ClientRuns {
  import opened Wrappers
  import opened ClientWorld
  import opened ClientSession

  datatype Operation =
    | EnsureConnection
    | EnsureSession
    | CheckVersionOrRestartServer
    | SendKey(payload: string)
    | TestSendKey(payload: string)
    | SendCommand(payload: string)
    | CallCommand(kind: CommandType)  // SyncData, Reload, Cleanup, NoOperation and the like
    | Shutdown
    | DeleteSession
    | GetConfig
    | SetConfig(config: string)
    | PingServer
    | EnableCascadingWindow(config: string)
    | SetIPCClientFactory(hasFactory: bool)
    | Reset

  /** Operations that may leave SERVER_FATAL. */
  predicate Revives(op: Operation) {
    op.Reset? || op.CheckVersionOrRestartServer?
  }

  /** The request an operation is there to send. */
  function Request(op: Operation): Option<Body> {
    match op
    case SendKey(payload) => Some(Body(SEND_KEY, payload, None))
    case TestSendKey(payload) => Some(Body(TEST_SEND_KEY, payload, None))
    case SendCommand(payload) => Some(Body(SEND_COMMAND, payload, None))
    case CallCommand(kind) => Some(Body(kind, "", None))
    case Shutdown => Some(Body(SHUTDOWN, "", None))
    case DeleteSession => Some(Body(DELETE_SESSION, "", None))
    case GetConfig => Some(Body(GET_CONFIG, "", None))
    case SetConfig(config) => Some(Body(SET_CONFIG, "", Some(config)))
    case _ => None
  }

  method Send(c: Client, body: Body) returns (ok: bool)
    requires c.Valid()
    modifies c`id, c`status, c`protocolVersion, c`serverIsOlder, c`history, c`lastMode, c.world
    ensures c.Valid() && old(c.world.log) <= c.world.log && Starts(c.world.log) <= old(Starts(c.world.log)) + 5
    ensures old(c.status).SERVER_FATAL? ==> c.status == SERVER_FATAL && c.world.log == old(c.world.log)
    ensures old(c.status).SERVER_OK? && c.hasFactory ==>
              var n := |old(c.world.log)|;
              && n < |c.world.log| && c.world.log[n].Exchange?
              && c.world.log[n].input == Input(old(c.id), WithPreferences(c.preferences, body))
  {
    hide Ran, Answers, Lost, FaultSince, ReplyOf;
    var output;
    ghost var course;
    ok, output, course := c.EnsureCallCommand(body, NoOutput());
  }

  /** Operations of a single exchange at most. */
  method PerformCall(c: Client, op: Operation)
    requires op.CallCommand? || op.Shutdown? || op.DeleteSession? || op.GetConfig? || op.SetConfig? || op.PingServer?
    modifies c`id, c`status, c`protocolVersion, c`serverIsOlder, c`directModeConfig, c.world
    ensures old(c.world.log) <= c.world.log && Starts(c.world.log) == old(Starts(c.world.log))
    ensures Bad(old(c.status)) ==> c.status == old(c.status) && Opened(c.world.log) == old(Opened(c.world.log))
    ensures !Bad(old(c.status)) && c.hasFactory && Request(op).Some? && (op.DeleteSession? ==> old(c.id) != 0) ==>
              var n, b := |old(c.world.log)|, Request(op).value;
              && n < |c.world.log| && c.world.log[n].Exchange?
              && c.world.log[n].input ==
                 Input(old(c.id), if op.SetConfig? then b else WithPreferences(c.preferences, b))
  {
    hide StatusAfter, ReplyOf, IsReplied, Starts, Opened, WithPreferences;
    var ok;
    match op {
      case CallCommand(kind) => ok := c.CallCommand(kind);
      case Shutdown => ok := c.Shutdown();
      case DeleteSession => ok := c.DeleteSession();
      case GetConfig => var config := c.GetConfig();
      case SetConfig(config) => ok := c.SetConfig(config);
      case PingServer => ok := c.PingServer();
      case _ => assert false;
    }
  }

  method Perform(c: Client, op: Operation)
    requires c.Valid()
    modifies c, c.world
    ensures c.Valid() && old(c.world.log) <= c.world.log
    ensures Starts(c.world.log) <= old(Starts(c.world.log)) + 5
    ensures old(c.status).SERVER_FATAL? && !Revives(op) ==>
              c.status == SERVER_FATAL && Opened(c.world.log) == old(Opened(c.world.log))
    // In a session that is OK, the request is the next thing that is sent, to this session and with the preferences.
    ensures old(c.status).SERVER_OK? && old(c.hasFactory) && Request(op).Some?
              && (op.DeleteSession? ==> old(c.id) != 0) ==>
              var n, b := |old(c.world.log)|, Request(op).value;
              && n < |c.world.log| && c.world.log[n].Exchange?
              && c.world.log[n].input ==
                 Input(old(c.id), if op.SetConfig? then b else WithPreferences(c.preferences, b))
    ensures c.preferences == if op.EnableCascadingWindow? then Some(op.config) else old(c.preferences)
    ensures c.hasFactory == if op.SetIPCClientFactory? then op.hasFactory else old(c.hasFactory)
    ensures op.Reset? ==> c.status == SERVER_UNKNOWN
  {
    hide StatusAfter, NewSession, ReplyOf, IsReplied, Starts, Opened, WithPreferences, FaultSince, Created, IsOld;
    var ok;
    ghost var created;
    match op {
      case EnsureConnection => ok := c.EnsureConnection();
      case EnsureSession => ok, created := c.EnsureSession();
      case CheckVersionOrRestartServer => ok := c.CheckVersionOrRestartServer();
      case SendKey(payload) => ok := Send(c, Body(SEND_KEY, payload, None));
      case TestSendKey(payload) => ok := Send(c, Body(TEST_SEND_KEY, payload, None));
      case SendCommand(payload) => ok := Send(c, Body(SEND_COMMAND, payload, None));
      case CallCommand(_) | Shutdown | DeleteSession | GetConfig | SetConfig(_) | PingServer => PerformCall(c, op);
      case EnableCascadingWindow(config) => c.preferences := Some(config);
      case SetIPCClientFactory(hasFactory) => c.hasFactory := hasFactory;
      case Reset => c.Reset();
    }
  }

  /** The journal stays within its bound, and SERVER_FATAL ends all IPC except pings. */
  method Run(c: Client, ops: seq<Operation>)
    requires c.Valid()
    modifies c, c.world
    ensures |c.history| <= 512
    ensures Starts(c.world.log) <= old(Starts(c.world.log)) + 5 * |ops|
    ensures old(c.status).SERVER_FATAL? && (forall op :: op in ops ==> !Revives(op)) ==>
              c.status == SERVER_FATAL && Opened(c.world.log) == old(Opened(c.world.log))
  {
    for i := 0 to |ops|
      invariant c.Valid() && Starts(c.world.log) <= old(Starts(c.world.log)) + 5 * i
      invariant old(c.status).SERVER_FATAL? && (forall op :: op in ops ==> !Revives(op)) ==>
                  c.status == SERVER_FATAL && Opened(c.world.log) == old(Opened(c.world.log))
    {
      Perform(c, ops[i]);
    }
  }
}
