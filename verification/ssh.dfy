/**
 * The SSH client and its connection cache (connectors/ssh_client.py).
 *
 * How paramiko's connect ends is an `Outcome`; what a command returns on
 * stdout and stderr, or the exception it raises, is an input.
 */
module Ssh {
  import opened Wrappers
  import Dict
  import Connectors
  import opened Device

  /** How SSHClient.connect ends. */
  datatype Outcome =
    | Accepted
    | AuthRejected                // paramiko.AuthenticationException
    | ProtocolError(reason: string)   // paramiko.SSHException
    | SocketTimeout               // socket.timeout
    | NetworkError(reason: string)    // socket.error
    | OtherError(reason: string)      // any other exception

  const NoConnection := "Нет активного подключения"
  const CommandFailure := "Ошибка выполнения SSH команды: "

  /** The message connect returns with False, one per failure kind; none on success. */
  function ConnectError(host: string, outcome: Outcome): (r: Option<string>)
    ensures r.None? <==> outcome.Accepted?
  {
    match outcome
    case Accepted => None
    case AuthRejected => Some("Ошибка аутентификации SSH к " + host)
    case ProtocolError(e) => Some("SSH ошибка к " + host + ": " + e)
    case SocketTimeout => Some("Таймаут SSH подключения к " + host)
    case NetworkError(e) => Some("Сетевая ошибка SSH к " + host + ": " + e)
    case OtherError(e) => Some("Неизвестная ошибка SSH к " + host + ": " + e)
  }

  class SshClient {
    /** self.connection is not None */
    var connection: bool

    constructor ()
      ensures !connection
    {
      connection := false;
    }

    /**
     * connect: the paramiko client is stored before connecting, so it stays
     * set whatever the outcome; every failure kind yields (False, message)
     * and success yields (True, None).
     */
    method Connect(host: string, c: Credentials, outcome: Outcome) returns (ok: bool, err: Option<string>)
      modifies this
      ensures connection
      ensures ok <==> outcome.Accepted?
      ensures err == ConnectError(host, outcome)
    {
      connection := true;
      match outcome {
        case Accepted =>
          return true, None;
        case AuthRejected =>
          return false, Some("Ошибка аутентификации SSH к " + host);
        case ProtocolError(e) =>
          return false, Some("SSH ошибка к " + host + ": " + e);
        case SocketTimeout =>
          return false, Some("Таймаут SSH подключения к " + host);
        case NetworkError(e) =>
          return false, Some("Сетевая ошибка SSH к " + host + ": " + e);
        case OtherError(e) =>
          return false, Some("Неизвестная ошибка SSH к " + host + ": " + e);
      }
    }

    /**
     * execute_command: without a connection (False, message); otherwise
     * (True, stdout) whatever stderr holds, or (False, message) when the
     * exchange raises. `reply` is (stdout, stderr) or the exception text.
     */
    method ExecuteCommand(command: string, reply: Result<(string, string), string>) returns (ok: bool, out: string)
      ensures ok <==> connection && reply.Success?
      ensures !connection ==> out == NoConnection
      ensures ok ==> out == reply.value.0
      ensures connection && reply.Failure? ==> out == CommandFailure + reply.error
    {
      if !connection {
        return false, NoConnection;
      }
      match reply {
        case Failure(e) =>
          return false, CommandFailure + e;
        case Success((stdout, stderr)) =>
          return true, stdout;
      }
    }

    /** disconnect */
    method Disconnect()
      modifies this
      ensures !connection
    {
      if connection {
        connection := false;
      }
    }
  }

  /** The key of an SSH session in the cache. */
  function SessionKey(host: string, c: Credentials): string
  {
    Connectors.CacheKey(host, c.sshPort, c.username)
  }

  class SshConnectionManager {
    var connections: Dict.Dict<string, SshClient>

    predicate Valid()
      reads this
    {
      Dict.UniqueKeys(connections)
    }

    /** The cached clients. */
    function Clients(): set<SshClient>
      reads this
    {
      set i | 0 <= i < |connections| :: connections[i].1
    }

    constructor ()
      ensures Valid() && connections == []
    {
      connections := [];
    }

    /**
     * get_connection: a cached session is returned without reconnecting;
     * otherwise a new client connects, and only a successful one is cached.
     */
    method GetConnection(host: string, c: Credentials, outcome: Outcome) returns (client: SshClient?)
      requires Valid()
      modifies this
      ensures Valid()
      ensures Dict.HasKey(old(connections), SessionKey(host, c)) ==>
                client == Dict.Get(old(connections), SessionKey(host, c)).value && connections == old(connections)
      ensures !Dict.HasKey(old(connections), SessionKey(host, c)) ==>
                (client != null <==> outcome.Accepted?)
                && (client == null ==> connections == old(connections))
                && (client != null ==> fresh(client) && client.connection
                                       && connections == old(connections) + [(SessionKey(host, c), client)])
    {
      var key := SessionKey(host, c);
      var cached := Dict.Get(connections, key);
      if cached.Some? {
        return cached.value;
      }
      var made := new SshClient();
      var ok, _ := made.Connect(host, c, outcome);
      if ok {
        Dict.PutUnique(connections, key, made);
        connections := Dict.Put(connections, key, made);
        return made;
      }
      made.Disconnect();
      return null;
    }

    /** close_all: every cached session is closed and the cache is emptied. */
    method CloseAll()
      requires Valid()
      modifies this, Clients()
      ensures Valid() && connections == []
      ensures forall cl | cl in old(Clients()) :: !cl.connection
    {
      var cs := connections;
      var i := 0;
      while i < |cs|
        invariant 0 <= i <= |cs| && connections == cs
        invariant forall j | 0 <= j < i :: !cs[j].1.connection
      {
        cs[i].1.Disconnect();
        i := i + 1;
      }
      connections := [];
    }
  }
}
