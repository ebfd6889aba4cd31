/**
 * The Telnet client and its connection cache (connectors/telnet_client.py).
 *
 * The socket is abstract: how the remote end answers the connection attempt
 * is a `Reach` value, and what a command reads back is an input. The client
 * records every line it writes, so that what it sends can be stated.
 */
module Telnet {
  import opened Wrappers
  import Text
  import Dict
  import Connectors
  import opened Device

  /** How the remote end answers telnetlib.Telnet(host, port) and the login exchange. */
  datatype Reach =
    | Refused                     // ConnectionRefusedError
    | SocketTimeout               // socket.timeout
    | Failed(reason: string)      // any other exception
    | Opened(loginPrompt: bool, passwordPrompt: bool, afterLogin: string)

  /** The characters whose presence marks a command-line prompt. */
  const PromptMarkers: set<char> := {'#', '>', '$', '%'}

  /** any(marker in output for marker in ['#', '>', '$', '%']) */
  predicate ShowsPrompt(output: string)
  {
    exists i | 0 <= i < |output| :: output[i] in PromptMarkers
  }

  /** Reading more never hides a prompt already read: the prompt test of the accumulated output. */
  lemma ShowsPromptAppend(a: string, b: string)
    ensures ShowsPrompt(a + b) <==> ShowsPrompt(a) || ShowsPrompt(b)
  {
    if ShowsPrompt(a + b) {
      var i :| 0 <= i < |a + b| && (a + b)[i] in PromptMarkers;
      if i >= |a| {
        assert b[i - |a|] == (a + b)[i];
      }
    }
    if ShowsPrompt(a) {
      var i :| 0 <= i < |a| && a[i] in PromptMarkers;
      assert (a + b)[i] == a[i];
    }
    if ShowsPrompt(b) {
      var i :| 0 <= i < |b| && b[i] in PromptMarkers;
      assert (a + b)[|a| + i] == b[i];
    }
  }

  // ---------------- str.encode('ascii') ----------------

  /** Every character is below 128, so the strict ASCII codec accepts the text. */
  predicate IsAscii(s: string)
  {
    forall i | 0 <= i < |s| :: s[i] as int < 128
  }

  /** The first character at or after `k` that the codec rejects. */
  function FirstNonAscii(s: string, k: nat): (r: nat)
    requires k <= |s| && exists i | k <= i < |s| :: s[i] as int >= 128
    ensures k <= r < |s| && s[r] as int >= 128
    ensures forall i | k <= i < r :: s[i] as int < 128
    decreases |s| - k
  {
    if s[k] as int >= 128 then k else FirstNonAscii(s, k + 1)
  }

  /** The end of the run of rejected characters that starts at `k`. */
  function RunEnd(s: string, k: nat): (r: nat)
    requires k <= |s|
    ensures k <= r <= |s|
    ensures forall i | k <= i < r :: s[i] as int >= 128
    ensures r == |s| || s[r] as int < 128
    decreases |s| - k
  {
    if k < |s| && s[k] as int >= 128 then RunEnd(s, k + 1) else k
  }

  /** `n` in `width` lower-case hexadecimal digits. */
  function Hex(n: nat, width: nat): (r: string)
    ensures |r| == width
  {
    if width == 0 then ""
    else Hex(n / 16, width - 1) + ["0123456789abcdef"[n % 16]]
  }

  /** How an unencodable character appears in the exception text: \xhh, \uhhhh or \Uhhhhhhhh. */
  function CharEscape(c: char): string
  {
    if c as int <= 0xff then "\\x" + Hex(c as int, 2)
    else if c as int <= 0xffff then "\\u" + Hex(c as int, 4)
    else "\\U" + Hex(c as int, 8)
  }

  /**
   * str() of the UnicodeEncodeError the strict ASCII codec raises: it names
   * the first run of characters it cannot encode, by the character itself
   * when the run is one character long and by its span otherwise.
   */
  function EncodeError(s: string): string
    requires !IsAscii(s)
  {
    var start := FirstNonAscii(s, 0);
    var end := RunEnd(s, start);
    "'ascii' codec can't encode "
    + (if end == start + 1 then "character '" + CharEscape(s[start]) + "' in position " + Text.IntToString(start)
       else "characters in position " + Text.IntToString(start) + "-" + Text.IntToString(end - 1))
    + ": ordinal not in range(128)"
  }

  /** The lines connect writes: the username, then the password, up to the first one the codec rejects. */
  function LoginLines(c: Credentials): (r: seq<string>)
    ensures r <= [c.username + "\n", c.password + "\n"]
    ensures |r| == 2 <==> IsAscii(c.username) && IsAscii(c.password)
    ensures |r| == 0 <==> !IsAscii(c.username)
  {
    if !IsAscii(c.username) then []
    else if !IsAscii(c.password) then [c.username + "\n"]
    else [c.username + "\n", c.password + "\n"]
  }

  const NoConnection := "Нет активного подключения"
  const SendFailure := "Ошибка отправки Telnet команды: "

  /** The text before the exception in connect's catch-all error. */
  function ConnectFailure(host: string): string
  {
    "Ошибка Telnet подключения к " + host + ": "
  }

  /** The (False, message) that connect returns when it fails. */
  function ConnectError(host: string, c: Credentials, reach: Reach): (r: Option<string>)
    ensures r.None? <==> reach.Opened? && IsAscii(c.username) && IsAscii(c.password) && ShowsPrompt(reach.afterLogin)
    ensures reach.Opened? && !IsAscii(c.username) ==> r == Some(ConnectFailure(host) + EncodeError(c.username))
    ensures reach.Opened? && IsAscii(c.username) && !IsAscii(c.password) ==>
              r == Some(ConnectFailure(host) + EncodeError(c.password))
  {
    match reach
    case Refused => Some("Telnet порт " + Text.IntToString(c.telnetPort) + " закрыт на " + host)
    case SocketTimeout => Some("Таймаут Telnet подключения к " + host)
    case Failed(e) => Some(ConnectFailure(host) + e)
    case Opened(_, _, output) =>
      if !IsAscii(c.username) then Some(ConnectFailure(host) + EncodeError(c.username))
      else if !IsAscii(c.password) then Some(ConnectFailure(host) + EncodeError(c.password))
      else if ShowsPrompt(output) then None
      else Some("Не удалось войти на " + host + " через Telnet")
  }

  /** A line the echo filter keeps: not blank, and not containing the command. */
  predicate KeepLine(line: string, command: string)
  {
    !Text.Contains(line, command) && Text.Strip(line) != ""
  }

  /** The lines send_command keeps from its output, in their order. */
  function EchoFree(lines: seq<string>, command: string): (r: seq<string>)
    ensures |r| <= |lines|
    decreases |lines|
  {
    if lines == [] then []
    else EchoFree(lines[..|lines| - 1], command)
         + (if KeepLine(lines[|lines| - 1], command) then [lines[|lines| - 1]] else [])
  }

  /** The filter keeps exactly the lines that pass the test. */
  lemma {:induction false} EchoFreeMembers(lines: seq<string>, command: string, line: string)
    ensures line in EchoFree(lines, command) <==> line in lines && KeepLine(line, command)
    decreases |lines|
  {
    if lines != [] {
      EchoFreeMembers(lines[..|lines| - 1], command, line);
      assert lines == lines[..|lines| - 1] + [lines[|lines| - 1]];
    }
  }

  /** Filtering distributes over concatenation, so the kept lines stay in their order. */
  lemma {:induction false} EchoFreeAppend(a: seq<string>, b: seq<string>, command: string)
    ensures EchoFree(a + b, command) == EchoFree(a, command) + EchoFree(b, command)
    decreases |b|
  {
    if b != [] {
      var b' := b[..|b| - 1];
      assert (a + b)[..|a + b| - 1] == a + b';
      EchoFreeAppend(a, b', command);
    } else {
      assert a + b == a;
    }
  }

  /** Every line contains the empty text, so an empty command filters out everything. */
  lemma {:induction false} EmptyCommandKeepsNothing(lines: seq<string>)
    ensures EchoFree(lines, "") == []
    decreases |lines|
  {
    if lines != [] {
      EmptyCommandKeepsNothing(lines[..|lines| - 1]);
      Text.ContainsAt(lines[|lines| - 1], "", 0);
    }
  }

  /** The cleaning loop of send_command: split into lines, drop the echoing and blank ones, join the rest. */
  method DropEcho(output: string, command: string) returns (text: string)
    ensures text == Text.Join(EchoFree(Text.Split(output, '\n'), command), '\n')
  {
    var lines := Text.Split(output, '\n');
    var cleaned: seq<string> := [];
    var i := 0;
    while i < |lines|
      invariant 0 <= i <= |lines|
      invariant cleaned == EchoFree(lines[..i], command)
    {
      if !Text.Contains(lines[i], command) && Text.Strip(lines[i]) != "" {
        cleaned := cleaned + [lines[i]];
      }
      assert lines[..i + 1][..i] == lines[..i];
      i := i + 1;
    }
    assert lines[..i] == lines;
    text := Text.Join(cleaned, '\n');
  }

  class TelnetClient {
    /** self.connection is not None */
    var connected: bool
    /** Every line written on the connection, oldest first. */
    var sent: seq<string>

    constructor ()
      ensures !connected && sent == []
    {
      connected := false;
      sent := [];
    }

    /**
     * connect: once the socket is open, the username and then the password
     * are written whether or not their prompts were recognised; the login
     * counts only when the text read afterwards shows a prompt. Either line
     * may fail to encode as ASCII, which ends the attempt with the codec's
     * error. A failed login keeps the opened connection.
     */
    method Connect(host: string, c: Credentials, reach: Reach) returns (ok: bool, err: Option<string>)
      modifies this
      ensures ok <==> reach.Opened? && IsAscii(c.username) && IsAscii(c.password) && ShowsPrompt(reach.afterLogin)
      ensures err == ConnectError(host, c, reach)
      ensures connected == (old(connected) || reach.Opened?)
      ensures sent == if reach.Opened? then old(sent) + LoginLines(c) else old(sent)
    {
      match reach {
        case Refused =>
          return false, Some("Telnet порт " + Text.IntToString(c.telnetPort) + " закрыт на " + host);
        case SocketTimeout =>
          return false, Some("Таймаут Telnet подключения к " + host);
        case Failed(e) =>
          return false, Some(ConnectFailure(host) + e);
        case Opened(_, _, output) =>
          connected := true;
          // Both branches of each prompt test write the same line.
          if !IsAscii(c.username) {
            return false, Some(ConnectFailure(host) + EncodeError(c.username));
          }
          sent := sent + [c.username + "\n"];
          if !IsAscii(c.password) {
            return false, Some(ConnectFailure(host) + EncodeError(c.password));
          }
          sent := sent + [c.password + "\n"];
          if ShowsPrompt(output) {
            return true, None;
          }
          return false, Some("Не удалось войти на " + host + " через Telnet");
      }
    }

    /**
     * send_command: without a connection nothing is sent and (False,
     * message) comes back; a command that does not encode as ASCII is not
     * sent either and gives the codec's error; otherwise the command is
     * written and the lines of the reply that echo it, or are blank, are
     * dropped.
     */
    method SendCommand(command: string, reply: Result<string, string>) returns (ok: bool, out: string)
      modifies this
      ensures connected == old(connected)
      ensures !connected ==> !ok && out == NoConnection && sent == old(sent)
      ensures connected && !IsAscii(command) ==> !ok && out == SendFailure + EncodeError(command) && sent == old(sent)
      ensures connected && IsAscii(command) ==> sent == old(sent) + [command + "\n"]
      ensures connected && IsAscii(command) && reply.Success? ==>
                ok && out == Text.Join(EchoFree(Text.Split(reply.value, '\n'), command), '\n')
      ensures connected && IsAscii(command) && reply.Failure? ==> !ok && out == SendFailure + reply.error
    {
      if !connected {
        return false, NoConnection;
      }
      if !IsAscii(command) {
        return false, SendFailure + EncodeError(command);
      }
      sent := sent + [command + "\n"];
      match reply {
        case Failure(e) =>
          return false, SendFailure + e;
        case Success(output) =>
          out := DropEcho(output, command);
          return true, out;
      }
    }

    /** disconnect: an open connection is told "exit" and dropped. */
    method Disconnect()
      modifies this
      ensures !connected
      ensures sent == if old(connected) then old(sent) + ["exit\n"] else old(sent)
    {
      if connected {
        sent := sent + ["exit\n"];
        connected := false;
      }
    }
  }

  /** The key of a Telnet session in the cache. */
  function SessionKey(host: string, c: Credentials): string
  {
    Connectors.CacheKey(host, c.telnetPort, c.username)
  }

  class TelnetConnectionManager {
    var connections: Dict.Dict<string, TelnetClient>

    predicate Valid()
      reads this
    {
      Dict.UniqueKeys(connections)
    }

    /** The cached clients. */
    function Clients(): set<TelnetClient>
      reads this
    {
      set i | 0 <= i < |connections| :: connections[i].1
    }

    constructor ()
      ensures Valid() && connections == []
    {
      connections := [];
    }

    /**
     * get_connection: a cached session is returned as it is; otherwise a new
     * client connects, and only a successful one is cached and returned.
     */
    method GetConnection(host: string, c: Credentials, reach: Reach) returns (client: TelnetClient?)
      requires Valid()
      modifies this
      ensures Valid()
      ensures Dict.HasKey(old(connections), SessionKey(host, c)) ==>
                client == Dict.Get(old(connections), SessionKey(host, c)).value && connections == old(connections)
      ensures !Dict.HasKey(old(connections), SessionKey(host, c)) ==>
                (client != null <==> reach.Opened? && IsAscii(c.username) && IsAscii(c.password)
                                     && ShowsPrompt(reach.afterLogin))
                && (client == null ==> connections == old(connections))
                && (client != null ==> fresh(client) && client.connected
                                       && connections == old(connections) + [(SessionKey(host, c), client)])
    {
      var key := SessionKey(host, c);
      var cached := Dict.Get(connections, key);
      if cached.Some? {
        return cached.value;
      }
      var made := new TelnetClient();
      var ok, _ := made.Connect(host, c, reach);
      if ok {
        Dict.PutUnique(connections, key, made);
        connections := Dict.Put(connections, key, made);
        return made;
      }
      made.Disconnect();
      return null;
    }

    /** close_all: every cached session is disconnected and the cache is emptied. */
    method CloseAll()
      requires Valid()
      modifies this, Clients()
      ensures Valid() && connections == []
      ensures forall cl | cl in old(Clients()) :: !cl.connected
      ensures forall cl | cl in old(Clients()) ::
                cl.sent == if old(cl.connected) then old(cl.sent) + ["exit\n"] else old(cl.sent)
    {
      var cs := connections;
      ghost var done: set<TelnetClient> := {};
      var i := 0;
      while i < |cs|
        invariant 0 <= i <= |cs| && connections == cs
        invariant done == set j | 0 <= j < i :: cs[j].1
        invariant forall cl | cl in old(Clients()) && cl in done :: !cl.connected
        invariant forall cl | cl in old(Clients()) && cl !in done :: cl.connected == old(cl.connected)
        invariant forall cl | cl in old(Clients()) ::
                    cl.sent == if old(cl.connected) && cl in done then old(cl.sent) + ["exit\n"] else old(cl.sent)
      {
        cs[i].1.Disconnect();
        done := done + {cs[i].1};
        i := i + 1;
      }
      connections := [];
    }
  }
}
