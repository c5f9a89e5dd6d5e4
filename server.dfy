/** The command-and-control server: a registry of clients keyed by
    identifier, refreshed by every datagram that decodes; a single pending
    command per client, queued from the console and handed out, encrypted
    and wrapped in the client's protocol, when that client next probes.

    Each handler runs atomically. The clock (`now`, in nanoseconds) is a
    parameter, outgoing datagrams are returned rather than sent, and the
    gob encoding of messages is an abstract codec. */
module C2Server {

  import opened Wrappers
  import opened Bytes
  import opened Text
  import opened C2Types
  import opened Protocols
  import Xtea

  // ---------------------------------------------------------------------
  // Configuration

  /** The gob encoding of messages: a pair of functions. */
  datatype Codec = Codec(encode: Message -> seq<byte>, decode: seq<byte> -> Option<Message>)

  /** Every encoding is at least three bytes long, as the DNS wrapper needs
      (gob output always carries a type description before the value). */
  ghost predicate Framed(codec: Codec) {
    forall m :: |codec.encode(m)| >= 3
  }

  /** Decoding an encoding gives the message back. */
  ghost predicate RoundTrips(codec: Codec) {
    forall m :: codec.decode(codec.encode(m)) == Some(m)
  }

  /** The options `NewServer` accepts. */
  datatype ServerOption = WithServerKey(key: seq<byte>) | WithServerAddress(address: string)

  datatype ServerConfig = ServerConfig(key: seq<byte>, address: string)

  /** The 16 zero bytes of the default key. */
  const DefaultKey: seq<byte> := Repeat(0, 16)
  const DefaultAddress: string := "0.0.0.0:9001"

  /** The configuration after applying the options in order to the default. */
  function Configured(opts: seq<ServerOption>): (c: ServerConfig)
    ensures (forall k :: 0 <= k < |opts| ==> !opts[k].WithServerKey?) ==> c.key == DefaultKey
    ensures (forall k :: 0 <= k < |opts| ==> !opts[k].WithServerAddress?) ==> c.address == DefaultAddress
    ensures |opts| > 0 && opts[|opts| - 1].WithServerKey? ==> c.key == opts[|opts| - 1].key
    ensures |opts| > 0 && opts[|opts| - 1].WithServerAddress? ==> c.address == opts[|opts| - 1].address
  {
    if |opts| == 0 then ServerConfig(DefaultKey, DefaultAddress)
    else
      var c := Configured(opts[..|opts| - 1]);
      match opts[|opts| - 1]
      case WithServerKey(k) => c.(key := k)
      case WithServerAddress(a) => c.(address := a)
  }

  datatype ServerError = InvalidKeyLength

  /** `NewServer`: applies the options, then rejects any key that is not 16
      bytes long; the server starts with no clients. */
  method NewServer(opts: seq<ServerOption>, codec: Codec) returns (r: Result<Server, ServerError>)
    requires Framed(codec)
    ensures r.Err? <==> |Configured(opts).key| != 16
    ensures r.Ok? ==> fresh(r.value) && r.value.Valid() && r.value.clients == map[]
    ensures r.Ok? ==> r.value.key == Configured(opts).key && r.value.codec == codec
  {
    var config := ServerConfig(DefaultKey, DefaultAddress);
    var i := 0;
    while i < |opts|
      invariant 0 <= i <= |opts|
      invariant config == Configured(opts[..i])
    {
      match opts[i] {
        case WithServerKey(k) =>
          config := config.(key := k);
        case WithServerAddress(a) =>
          config := config.(address := a);
      }
      assert opts[..i + 1][..i] == opts[..i];
      i := i + 1;
    }
    assert opts[..i] == opts;
    if |config.key| != 16 {
      return Err(InvalidKeyLength);
    }
    var s := new Server(config, codec);
    return Ok(s);
  }

  // ---------------------------------------------------------------------
  // The registry, as values

  /** Every record is filed under its own identifier. */
  ghost predicate Consistent(clients: map<string, ClientInfo>) {
    forall id :: id in clients ==> clients[id].identifier == id
  }

  /** The registry update for a decoded datagram: an unknown identifier gets
      a new record with no pending command; a known one keeps its pending
      command. Either way the record then carries the sender's address, the
      detected protocol and the time of arrival. */
  function Registered(clients: map<string, ClientInfo>, id: string, addr: Addr, protocol: ProtocolType, now: int)
    : (r: map<string, ClientInfo>)
    requires Consistent(clients)
    ensures r.Keys == clients.Keys + {id}
    ensures r[id] == ClientInfo(id, addr, now, if id in clients then clients[id].pendingCmd else "", protocol)
    ensures forall other :: other in clients && other != id ==> r[other] == clients[other]
    ensures Consistent(r)
  {
    var client :=
      if id !in clients then ClientInfo(id, addr, 0, "", protocol)
      else if clients[id].protocol != protocol then clients[id].(protocol := protocol)
      else clients[id];
    clients[id := client.(lastSeen := now, sourceIP := addr)]
  }

  /** The pending command of `id`, "" when there is none. */
  function Pending(clients: map<string, ClientInfo>, id: string): string {
    if id in clients then clients[id].pendingCmd else ""
  }

  /** The registry after a probe from `id`: its pending command is cleared. */
  function Cleared(clients: map<string, ClientInfo>, id: string): (r: map<string, ClientInfo>)
    ensures r.Keys == clients.Keys
    ensures Pending(r, id) == ""
    ensures forall other :: other in clients && other != id ==> r[other] == clients[other]
    ensures id in clients ==> r[id] == clients[id].(pendingCmd := "")
    ensures Pending(clients, id) == "" ==> r == clients
  {
    if id in clients && clients[id].pendingCmd != "" then clients[id := clients[id].(pendingCmd := "")]
    else clients
  }

  /** The registry after `executeCommand`: a known client's pending command
      is replaced; an unknown identifier changes nothing. */
  function Queued(clients: map<string, ClientInfo>, id: string, cmd: string): (r: map<string, ClientInfo>)
    ensures r.Keys == clients.Keys
    ensures id in clients ==> r[id] == clients[id].(pendingCmd := cmd) && Pending(r, id) == cmd
    ensures id !in clients ==> r == clients
    ensures forall other :: other in clients && other != id ==> r[other] == clients[other]
  {
    if id in clients then clients[id := clients[id].(pendingCmd := cmd)] else clients
  }

  /** The protocol an outgoing command is wrapped in: the one stored for
      the identifier, or none for an unknown identifier. */
  function StoredProtocol(clients: map<string, ClientInfo>, id: string): (p: ProtocolType)
    ensures id !in clients ==> p == ProtocolNone
    ensures id in clients ==> p == clients[id].protocol
  {
    if id in clients then clients[id].protocol else ProtocolNone
  }

  // ---------------------------------------------------------------------
  // Datagrams

  /** An outgoing datagram and its destination. */
  datatype Datagram = Datagram(data: seq<byte>, to: Addr)

  datatype DropReason = UnwrapFailed(error: ProtocolError) | DecodeFailed

  /** The Unix seconds of a time in nanoseconds, as `time.Time.Unix`. */
  function UnixSeconds(now: int): int {
    now / 1_000_000_000
  }

  /** The first half of `handleUDPMessage`: the detected protocol and the
      decoded message, or why the datagram is dropped. Raw data (no protocol
      detected) is decoded as it is. */
  function Incoming(codec: Codec, data: seq<byte>): (r: Result<(ProtocolType, Message), DropReason>)
    ensures r.Ok? ==> r.value.0 == DetectProtocol(data)
    ensures DetectProtocol(data) == ProtocolNone ==>
      r == (if codec.decode(data).Some? then Ok((ProtocolNone, codec.decode(data).value)) else Err(DecodeFailed))
  {
    var protocol := DetectProtocol(data);
    var unwrapped :=
      if protocol == ProtocolNone then Ok(data)
      else match GetProtocolWrapper(protocol, [])
        case Some(w) => Unwrap(w, data)
        case None => Ok(data);
    match unwrapped
    case Err(e) => Err(UnwrapFailed(e))
    case Ok(payload) =>
      match codec.decode(payload)
      case None => Err(DecodeFailed)
      case Some(msg) => Ok((protocol, msg))
  }

  /** The datagram `sendCommandToClient` sends: the command's bytes
      encrypted under the key, in a Command message, encoded, and wrapped in
      the protocol stored for the identifier; nothing when encryption fails. */
  function Outgoing(key: seq<byte>, codec: Codec, clients: map<string, ClientInfo>, id: string, addr: Addr, cmd: string, now: int)
    : (d: Option<Datagram>)
    requires Framed(codec)
    ensures d.Some? <==> |key| == 16
    ensures d.Some? ==> d.value.to == addr
    ensures d.Some? ==>
      var bytes := codec.encode(Message(MessageTypeCommand, id, Xtea.Encrypt(key, Utf8(cmd)).value));
      var w := GetProtocolWrapper(StoredProtocol(clients, id), []);
      d.value.data == if w.Some? then Wrapped(w.value, bytes, UnixSeconds(now), UnixSeconds(now)) else bytes
  {
    match Xtea.Encrypt(key, Utf8(cmd))
    case Err(_) => None
    case Ok(ct) =>
      var bytes := codec.encode(Message(MessageTypeCommand, id, ct));
      var protocol := StoredProtocol(clients, id);
      var data :=
        if protocol == ProtocolNone then bytes
        else match GetProtocolWrapper(protocol, [])
          case Some(w) => Wrapped(w, bytes, UnixSeconds(now), UnixSeconds(now))
          case None => bytes;
      Some(Datagram(data, addr))
  }

  // ---------------------------------------------------------------------
  // The server

  /** What handling one datagram did. */
  datatype Outcome =
    | Dropped(reason: DropReason)
    | ProbeAnswered(reply: Option<Datagram>)
    | ResultReceived(identifier: string, output: Result<seq<byte>, Xtea.CipherError>)
    | UnknownType(msgType: MessageType)

  /** What `executeCommand` did: nothing for an unknown client, else the
      command was queued, with a warning when the client is stale. */
  datatype ExecOutcome = ClientNotFound | CommandQueued(stale: bool)

  /** Two minutes, in nanoseconds. */
  const StaleAfter: int := 2 * 60 * 1_000_000_000

  class Server {
    const key: seq<byte>
    const address: string
    const codec: Codec
    var clients: map<string, ClientInfo>

    ghost predicate Valid()
      reads this
    {
      Framed(codec) && Consistent(clients)
    }

    constructor (config: ServerConfig, codec: Codec)
      requires Framed(codec)
      ensures Valid() && clients == map[]
      ensures key == config.key && address == config.address && this.codec == codec
    {
      key := config.key;
      address := config.address;
      this.codec := codec;
      clients := map[];
    }

    /** `handleUDPMessage`: detects and unwraps the protocol, decodes the
        message, refreshes the sender's record, then handles a probe or a
        result. A datagram that fails to unwrap or decode changes nothing. */
    method HandleUDPMessage(data: seq<byte>, addr: Addr, now: int) returns (out: Outcome)
      requires Valid()
      modifies this
      ensures Valid()
      ensures Incoming(codec, data).Err? ==>
        clients == old(clients) && out == Dropped(Incoming(codec, data).error)
      ensures Incoming(codec, data).Ok? ==>
        var (protocol, msg) := Incoming(codec, data).value;
        var reg := Registered(old(clients), msg.identifier, addr, protocol, now);
        if msg.msgType == MessageTypeProbe then
          clients == Cleared(reg, msg.identifier)
          && out == ProbeAnswered(
               if Pending(reg, msg.identifier) == "" then None
               else Outgoing(key, codec, reg, msg.identifier, addr, Pending(reg, msg.identifier), now))
        else
          clients == reg
          && (msg.msgType == MessageTypeResult ==> out == ResultReceived(msg.identifier, Xtea.Decrypt(key, msg.payload)))
          && (msg.msgType != MessageTypeResult ==> out == UnknownType(msg.msgType))
    {
      var protocol := DetectProtocol(data);
      var payload := data;
      if protocol != ProtocolNone {
        var wrapper := GetProtocolWrapper(protocol, []);
        if wrapper.Some? {
          var unwrapped := Unwrap(wrapper.value, data);
          if unwrapped.Err? {
            return Dropped(UnwrapFailed(unwrapped.error));
          }
          payload := unwrapped.value;
        }
      }
      var decoded := codec.decode(payload);
      if decoded.None? {
        return Dropped(DecodeFailed);
      }
      var msg := decoded.value;

      var client: ClientInfo;
      if msg.identifier !in clients {
        client := ClientInfo(msg.identifier, addr, 0, "", protocol);
      } else {
        client := clients[msg.identifier];
        if client.protocol != protocol {
          client := client.(protocol := protocol);
        }
      }
      client := client.(lastSeen := now);
      client := client.(sourceIP := addr);
      clients := clients[msg.identifier := client];

      if msg.msgType == MessageTypeProbe {
        var reply := HandleProbe(msg, addr, now);
        out := ProbeAnswered(reply);
      } else if msg.msgType == MessageTypeResult {
        out := ResultReceived(msg.identifier, Xtea.Decrypt(key, msg.payload));
      } else {
        out := UnknownType(msg.msgType);
      }
    }

    /** `handleProbe`: takes the client's pending command, clearing it, and
        sends it back; with no pending command nothing is sent and nothing
        changes. */
    method HandleProbe(msg: Message, addr: Addr, now: int) returns (reply: Option<Datagram>)
      requires Valid()
      modifies this
      ensures Valid()
      ensures clients == Cleared(old(clients), msg.identifier)
      ensures reply == if Pending(old(clients), msg.identifier) == "" then None
        else Outgoing(key, codec, old(clients), msg.identifier, addr, Pending(old(clients), msg.identifier), now)
    {
      var pendingCmd := "";
      if msg.identifier in clients && clients[msg.identifier].pendingCmd != "" {
        pendingCmd := clients[msg.identifier].pendingCmd;
        clients := clients[msg.identifier := clients[msg.identifier].(pendingCmd := "")];
      }
      reply := None;
      if pendingCmd != "" {
        // Clearing the command does not change the stored protocol.
        assert StoredProtocol(clients, msg.identifier) == StoredProtocol(old(clients), msg.identifier);
        reply := SendCommandToClient(msg.identifier, addr, pendingCmd, now);
      }
    }

    /** `sendCommandToClient`: encrypts and encodes the command and wraps it
        in the protocol stored for the identifier. */
    method SendCommandToClient(id: string, addr: Addr, cmd: string, now: int) returns (d: Option<Datagram>)
      requires Valid()
      ensures d == Outgoing(key, codec, clients, id, addr, cmd, now)
    {
      var encrypted := Xtea.Encrypt(key, Utf8(cmd));
      if encrypted.Err? {
        return None;
      }
      var cmdMsg := Message(MessageTypeCommand, id, encrypted.value);
      var data := codec.encode(cmdMsg);
      var protocol := ProtocolNone;
      if id in clients {
        protocol := clients[id].protocol;
      }
      if protocol != ProtocolNone {
        var wrapper := GetProtocolWrapper(protocol, []);
        if wrapper.Some? {
          data := Wrap(wrapper.value, data, UnixSeconds(now), UnixSeconds(now));
        }
      }
      return Some(Datagram(data, addr));
    }

    /** `executeCommand`: queues the command for a known client, replacing
        any earlier one; a client silent for over two minutes only draws a
        warning. */
    method ExecuteCommand(clientID: string, cmd: string, now: int) returns (out: ExecOutcome)
      requires Valid()
      modifies this
      ensures Valid()
      ensures clients == Queued(old(clients), clientID, cmd)
      ensures clientID !in old(clients) <==> out == ClientNotFound
      ensures clientID in old(clients) ==> out == CommandQueued(now - old(clients)[clientID].lastSeen > StaleAfter)
    {
      if clientID !in clients {
        return ClientNotFound;
      }
      var client := clients[clientID];
      var stale := now - client.lastSeen > StaleAfter;
      clients := clients[clientID := client.(pendingCmd := cmd)];
      return CommandQueued(stale);
    }

    /** `processConsoleCommand`: performs what the console line asks. */
    method ProcessConsoleCommand(input: string, now: int) returns (out: ConsoleOutcome)
      requires Valid()
      modifies this
      ensures Valid()
      ensures ParseConsole(input).Execute? ==>
        clients == Queued(old(clients), ParseConsole(input).clientID, ParseConsole(input).cmd)
      ensures !ParseConsole(input).Execute? ==> clients == old(clients)
      ensures out.action == ParseConsole(input)
    {
      var action := ParseConsole(input);
      var exec := None;
      if action.Execute? {
        var e := ExecuteCommand(action.clientID, action.cmd, now);
        exec := Some(e);
      }
      return ConsoleOutcome(action, exec);
    }
  }

  // ---------------------------------------------------------------------
  // The console

  /** What a console line asks for. */
  datatype ConsoleAction =
    | ShowHelp
    | ShowClients
    | ExecuteUsage
    | Execute(clientID: string, cmd: string)
    | Quit
    | UnknownCommand(command: string)

  datatype ConsoleOutcome = ConsoleOutcome(action: ConsoleAction, exec: Option<ExecOutcome>)

  /** The console line split on single spaces, the first token lowered:
      `execute` needs a client and at least one more token, and the command
      is the rest of the tokens joined by single spaces. */
  function ParseConsole(input: string): (a: ConsoleAction)
    ensures var verb := ToLower(Split(input, ' ')[0]);
      (a == ShowHelp <==> verb == "help")
      && (a == ShowClients <==> verb == "show")
      && (a == Quit <==> verb == "quit" || verb == "exit")
      && (a == ExecuteUsage <==> verb == "execute" && |Split(input, ' ')| < 3)
      && (a.Execute? <==> verb == "execute" && |Split(input, ' ')| >= 3)
      && (a.UnknownCommand? <==> verb != "help" && verb != "show" && verb != "execute" && verb != "quit" && verb != "exit")
    ensures a.Execute? ==> a.clientID == Split(input, ' ')[1] && a.cmd == Join(Split(input, ' ')[2..], ' ')
    ensures a.UnknownCommand? ==> a.command == ToLower(Split(input, ' ')[0])
  {
    var args := Split(input, ' ');
    var command := ToLower(args[0]);
    if command == "help" then ShowHelp
    else if command == "show" then ShowClients
    else if command == "execute" then
      if |args| < 3 then ExecuteUsage else Execute(args[1], Join(args[2..], ' '))
    else if command == "quit" || command == "exit" then Quit
    else UnknownCommand(command)
  }

  /** `<verb> <id> <cmd>`, with a verb that lowers to `execute` (such as
      `execute` or `EXECUTE`), queues `cmd` exactly, spaces included, for a
      client identifier without spaces. */
  lemma {:induction false} ExecuteLine(verb: string, id: string, cmd: string)
    requires ' ' !in verb && ToLower(verb) == "execute"
    requires ' ' !in id
    ensures ParseConsole(verb + " " + id + " " + cmd) == Execute(id, cmd)
  {
    var args := Split(verb + " " + id + " " + cmd, ' ');
    ExecuteArgs(verb, id, cmd);
    assert args[2..] == Split(cmd, ' ');
    JoinSplit(cmd, ' ');
  }

  /** The tokens of an `execute` line. */
  lemma {:induction false} ExecuteArgs(verb: string, id: string, cmd: string)
    requires ' ' !in verb && ' ' !in id
    ensures Split(verb + " " + id + " " + cmd, ' ') == [verb, id] + Split(cmd, ' ')
  {
    assert verb + " " + id + " " + cmd == verb + [' '] + (id + [' '] + cmd);
    SplitCons(verb, id + [' '] + cmd, ' ');
    SplitCons(id, cmd, ' ');
  }

  /** The verb is recognised in any case. */
  lemma ExecuteAnyCase()
    ensures ToLower("execute") == "execute" && ToLower("Execute") == "execute" && ToLower("EXECUTE") == "execute"
  {
  }

  // ---------------------------------------------------------------------
  // Properties across handlers

  /** A probe returns the pending command it clears: after a queued command,
      the client's next probe carries exactly that command and leaves none
      behind. */
  lemma ProbeTakesQueued(key: seq<byte>, codec: Codec, clients: map<string, ClientInfo>, id: string, addr: Addr, cmd: string, now: int)
    requires Framed(codec)
    requires id in clients && cmd != ""
    ensures var q := Queued(clients, id, cmd);
      Pending(q, id) == cmd
      && Pending(Cleared(q, id), id) == ""
      && Cleared(q, id) == clients[id := clients[id].(pendingCmd := "")]
  {
  }

  /** A client that sends a datagram through a wrapper (or raw, when the raw
      bytes are not mistaken for a protocol) is registered under the
      message's identifier with that wrapper's protocol. */
  lemma ClientRegistered(codec: Codec, w: Option<ProtocolWrapper>, m: Message, refSec: int, txSec: int)
    requires Framed(codec) && RoundTrips(codec)
    requires w.Some? && w.value.DNSWrapper? ==> |codec.encode(m)| < 0x1_0000 && ValidDomain(w.value.domain)
    requires w.None? ==> DetectProtocol(codec.encode(m)) == ProtocolNone
    ensures var data := if w.Some? then Wrapped(w.value, codec.encode(m), refSec, txSec) else codec.encode(m);
      var protocol := if w.None? then ProtocolNone else if w.value.DNSWrapper? then ProtocolDNS else ProtocolNTP;
      Incoming(codec, data) == Ok((protocol, m))
  {
    if w.Some? {
      DetectUnwrapWrap(w.value, codec.encode(m), refSec, txSec);
      var data := Wrapped(w.value, codec.encode(m), refSec, txSec);
      // Unwrapping does not depend on the DNS domain.
      assert Unwrap(GetProtocolWrapper(DetectProtocol(data), []).value, data) == Unwrap(w.value, data);
    }
  }

  /** End to end: the datagram sent for a client stored with a protocol is
      recognised as that protocol, unwraps (with any wrapper of that
      protocol, whatever its domain) to the encoded Command message, and its
      payload decrypts under the same key to the command's bytes. */
  lemma CommandDelivered(key: seq<byte>, codec: Codec, clients: map<string, ClientInfo>, id: string, addr: Addr, cmd: string, now: int, params: seq<seq<byte>>)
    requires Framed(codec) && RoundTrips(codec)
    requires |key| == 16
    requires StoredProtocol(clients, id) == ProtocolDNS || StoredProtocol(clients, id) == ProtocolNTP
    requires |codec.encode(Message(MessageTypeCommand, id, Xtea.Encrypt(key, Utf8(cmd)).value))| < 0x1_0000
    ensures var d := Outgoing(key, codec, clients, id, addr, cmd, now);
      var p := StoredProtocol(clients, id);
      d.Some?
      && DetectProtocol(d.value.data) == p
      && Unwrap(GetProtocolWrapper(p, params).value, d.value.data).Ok?
      && var m := codec.decode(Unwrap(GetProtocolWrapper(p, params).value, d.value.data).value);
      m.Some? && m.value.msgType == MessageTypeCommand && m.value.identifier == id
      && Xtea.Decrypt(key, m.value.payload) == Ok(Utf8(cmd))
  {
    var ct := Xtea.Encrypt(key, Utf8(cmd)).value;
    Xtea.DecryptEncrypt(key, Utf8(cmd));
    var msg := Message(MessageTypeCommand, id, ct);
    var bytes := codec.encode(msg);
    var p := StoredProtocol(clients, id);
    var w := GetProtocolWrapper(p, []).value;
    if p == ProtocolDNS {
      DefaultDomainValid();
    }
    DetectUnwrapWrap(w, bytes, UnixSeconds(now), UnixSeconds(now));
    var data := Wrapped(w, bytes, UnixSeconds(now), UnixSeconds(now));
    assert Outgoing(key, codec, clients, id, addr, cmd, now) == Some(Datagram(data, addr));
    assert Unwrap(GetProtocolWrapper(p, params).value, data) == Unwrap(w, data);
  }

  /** A client stored without a protocol is sent the encoded Command
      message as it is, and that message decodes to the command encrypted
      under the key. */
  lemma RawCommandDelivered(key: seq<byte>, codec: Codec, clients: map<string, ClientInfo>, id: string, addr: Addr, cmd: string, now: int)
    requires Framed(codec) && RoundTrips(codec)
    requires |key| == 16
    requires StoredProtocol(clients, id) == ProtocolNone
    ensures var d := Outgoing(key, codec, clients, id, addr, cmd, now);
      d.Some?
      && var m := codec.decode(d.value.data);
      m.Some? && m.value.msgType == MessageTypeCommand && m.value.identifier == id
      && Xtea.Decrypt(key, m.value.payload) == Ok(Utf8(cmd))
  {
    Xtea.DecryptEncrypt(key, Utf8(cmd));
  }

  /** The default domain "example.com" has the labels "example" and "com". */
  lemma DefaultDomainValid()
    ensures ValidDomain(DefaultDomain)
  {
    var example, com := DefaultDomain[..7], DefaultDomain[8..];
    assert Dot !in example && Dot !in com;
    assert DefaultDomain == example + [Dot] + com;
    TwoLabelsValid(example, com);
  }

  /** A domain of two labels of 1 to 255 bytes is valid. */
  lemma TwoLabelsValid(first: seq<byte>, second: seq<byte>)
    requires Dot !in first && Dot !in second
    requires 1 <= |first| <= 0xFF && 1 <= |second| <= 0xFF
    ensures ValidDomain(first + [Dot] + second)
  {
    SplitCons(first, second, Dot);
    assert Split(second, Dot) == [second];
    assert Split(first + [Dot] + second, Dot) == [first, second];
  }

  /** Data that passes the DNS check, announces a question and whose first
      question name runs past the end is dropped before it is decoded,
      whatever the codec: raw data is classified first. */
  lemma HeaderLikeDataDropped(codec: Codec, data: seq<byte>)
    requires DNSIsValid(data) && QDCount(data) > 0
    requires SkipName(data, DNSHeaderSize).Err?
    ensures Incoming(codec, data) == Err(UnwrapFailed(DNSIncomplete))
  {
    assert SkipQuestions(data, DNSHeaderSize, QDCount(data) as nat) == Err(DNSIncomplete);
    assert DNSUnwrapped(data) == Err(DNSIncomplete);
  }

  /** An instance: a 12-byte header with ID 0x0100, one question and
      nothing after it. */
  lemma RawHeaderLikeDataDropped(codec: Codec)
    ensures Incoming(codec, [1, 0, 0, 0, 0, 1, 0, 0, 0, 0, 0, 0]) == Err(UnwrapFailed(DNSIncomplete))
  {
    var data: seq<byte> := [1, 0, 0, 0, 0, 1, 0, 0, 0, 0, 0, 0];
    assert Uint16BE(data[0..2]) == 0x100 && QDCount(data) == 1;
    assert SkipName(data, DNSHeaderSize) == Err(DNSIncomplete);
    HeaderLikeDataDropped(codec, data);
  }
}
