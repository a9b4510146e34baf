/**
  The program's entry point: one configuration holds the fields of both
  gateways and a top-level port; a non-empty server target selects the server
  gateway, otherwise a non-empty client remote selects the client gateway,
  otherwise nothing runs.
 */
module App {
  import opened GoStrings
  import opened Http
  import Server
  import Client

  datatype AppConfig = AppConfig(port: string, server: Server.ServerConfig, client: Client.ClientConfig)

  /** Which gateway `main` starts, with the configuration it starts it with. */
  datatype Mode = ServerMode(serverCfg: Server.ServerConfig) | ClientMode(clientCfg: Client.ClientConfig) | Idle

  /**
    The branch in `main`. Server mode wins whenever the target is set, and the
    server then listens on the top-level port; the client keeps the
    `proxy_port` it was configured with.
   */
  function SelectMode(app: AppConfig): (m: Mode)
    ensures m.ServerMode? <==> app.server.target != ""
    ensures m.ClientMode? <==> app.server.target == "" && app.client.remote != ""
    ensures m.Idle? <==> app.server.target == "" && app.client.remote == ""
    ensures m.ServerMode? ==> m.serverCfg == app.server.(port := app.port)
    ensures m.ClientMode? ==> m.clientCfg == app.client
  {
    if app.server.target != "" then ServerMode(app.server.(port := app.port))
    else if app.client.remote != "" then ClientMode(app.client)
    else Idle
  }

  /** Server mode does not look at the client remote at all. */
  lemma ServerModeIgnoresRemote(app: AppConfig, remote: string)
    requires app.server.target != ""
    ensures SelectMode(app.(client := app.client.(remote := remote))) == SelectMode(app)
  {
  }

  /**
    The two gateways fit together: the header the client gateway attaches is
    read back by the server gateway as exactly the access token, provided the
    token does not itself contain "Bearer ".
   */
  lemma BearerHandoff(remote: Url, t: Client.Token, req: Request)
    requires !Contains(t.accessToken, "Bearer ")
    ensures Server.GetJWTFormHeader(Client.ClientDirector(remote, t, req)) == Server.Found(t.accessToken)
  {
    var fwd := Client.ClientDirector(remote, t, req);
    var auth := Get(fwd.header, Authorization);
    assert auth == "Bearer " + t.accessToken;
    assert HasPrefix(auth, Server.BearerPrefix);
    assert auth[|Server.BearerPrefix|..] == t.accessToken;
  }
}
