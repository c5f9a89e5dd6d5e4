/** The value types of the command-and-control package: the protocol names,
    the messages exchanged between server and clients, and the record the
    server keeps about each client. */
module C2Types {

  import opened Bytes

  /** A protocol name; the package knows three of them. */
  type ProtocolType = string

  const ProtocolNone: ProtocolType := "none"
  const ProtocolDNS: ProtocolType := "dns"
  const ProtocolNTP: ProtocolType := "ntp"

  /** The kind of a message, a Go `uint8`. */
  type MessageType = byte

  const MessageTypeProbe: MessageType := 0x01
  const MessageTypeCommand: MessageType := 0x02
  const MessageTypeResult: MessageType := 0x03

  /** One message: its kind, the client it concerns and its payload. */
  datatype Message = Message(msgType: MessageType, identifier: string, payload: seq<byte>)

  /** A UDP peer address. */
  datatype Addr = Addr(ip: seq<byte>, port: nat)

  /** What the server knows about one client. `lastSeen` is a time in
      nanoseconds; an empty `pendingCmd` means no command is waiting. */
  datatype ClientInfo = ClientInfo(
    identifier: string,
    sourceIP: Addr,
    lastSeen: int,
    pendingCmd: string,
    protocol: ProtocolType)
}
