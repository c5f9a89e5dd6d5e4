# b1gcat/core — a verified model of its cipher, C2 wrappers, registry and self-upgrade logic

This Dafny project models four deterministic parts of the Go library
`b1gcat/core` and proves what they promise.

- **XTEA with PKCS#7 padding** (`pki/xtea.go`). XTEA has 64-bit blocks, a
  128-bit key and 32 rounds. Padding follows section 6.3 of RFC 5652. The
  package-level `Encrypt`/`Decrypt` use CBC mode and `EncryptCFB`/`DecryptCFB`
  use CFB mode, both with an all-zero IV (sections 6.2 and 6.3 of NIST
  SP 800-38A). Block `Encrypt`/`Decrypt` are methods that run the 32-round
  loop and write into a destination array. The modes are recursive functions
  over any block function, proved to invert each other once the block
  functions do.
- **Protocol-mimicry wrappers** (`c2/protocols.go`). The DNS wrapper builds a
  packet shaped like sections 4.1.1–4.1.4 of RFC 1035: a 12-byte header, one
  question whose name is a hex prefix of the payload followed by the domain,
  and one answer whose RDATA is the payload. The NTP wrapper puts the payload
  after a 48-byte header shaped like section 7.3 of RFC 5905. Both `IsValid`
  sniffers and the ordered classifier `DetectProtocol` are modelled, as is
  the cursor-walking DNS `Unwrap`.
- **The coordinator's registry** (`c2/server.go`). A `Server` class holds the
  `clients` map keyed by identifier. Incoming datagrams are classified,
  unwrapped, decoded and registered. A probe takes and clears the client's
  pending command. The console queues commands with `execute <id> <cmd>`.
- **Self-upgrade** (`upgrade/*.go`). This covers version parsing and the
  three-way comparator, the parser for the "sha256 filename" list, and the
  latest-version selection loop. It also covers the checks made before a
  package is installed, configuration validation with defaults, and the
  download progress writer.

## How the model is organised

The modules follow the source files:

| module | models |
|---|---|
| `Xtea` | `pki/xtea.go` |
| `C2Types` | the types of `c2/types.go` |
| `Protocols` | `c2/protocols.go` |
| `C2Server` | `c2/server.go` |
| `Version` | `upgrade/version.go` |
| `UpgradeConfig` | `upgrade/config.go` and `upgrade/types.go` |
| `UpgradeList` | `parseUpgradeList` and `ProgressWriter` of `upgrade/http.go` |
| `Upgrader` | `upgrade/upgrade.go` |

Three helper modules give the Go library behaviour the core relies on:

- `Wrappers`: `Option` and `Result`.
- `Bytes`: 32-bit wrap-around arithmetic, XOR, big-endian encoding and UTF-8.
- `Text`: `strings.Split`, `Join`, `TrimSpace`, `LastIndex`, `ToLower` and `strconv.Atoi`.

What the model takes as parameters rather than computing:

- Wall-clock time is an integer parameter `now`, in nanoseconds.
- gob encoding is an abstract `Codec` with an `encode` and a partial `decode`.
- Everything the upgrader asks of the host is a `Host` value. This covers probing for the install tool, HTTP with authentication, the executable path, SHA-256 of the download and installation.

## Model

| member | source | states |
|---|---|---|
| Xtea.NewXTEA | pki/xtea.go:24-36 | fails with the key-length error exactly when the key is not 16 bytes; otherwise the four key words are the big-endian words of key[0:4], key[4:8], key[8:12], key[12:16] (their bytes give back the key) |
| Xtea.DecRoundUndoesEncRound | pki/xtea.go:57-61 | one decryption round undoes one encryption round for every key and state |
| Xtea.EncRoundUndoesDecRound | pki/xtea.go:81-87 | one encryption round undoes one decryption round |
| Xtea.StartSumIsFinalSum | pki/xtea.go:78-81 | the decryption start sum 0xC6EF3720 is 32 times the delta 0x9E3779B9 modulo 2^32, the sum left after 32 encryption rounds |
| Xtea.DecIterUndoesEncIter | pki/xtea.go:57-61 | 32 decryption rounds started from that sum undo 32 encryption rounds started from 0 |
| Xtea.EncIterUndoesDecIter | pki/xtea.go:81-87 | 32 encryption rounds undo 32 decryption rounds |
| Xtea.DecryptedEncryptedBlock | pki/xtea.go:44-91 | block Decrypt inverts block Encrypt on every 8-byte block and key |
| Xtea.EncryptedDecryptedBlock | pki/xtea.go:44-91 | block Encrypt inverts block Decrypt on every 8-byte block and key |
| Xtea.EncryptBlock | pki/xtea.go:44-65 | the 32-round loop writes the encryption of src[0..8) into dst at the offset and leaves every other byte of dst unchanged; shorter buffers are a precondition, as the source panics |
| Xtea.DecryptBlock | pki/xtea.go:68-91 | the same for decryption |
| Xtea.Pad | pki/xtea.go:124-128 | appends n bytes each equal to n, 1 ≤ n ≤ 8; the result is a whole number of blocks and an aligned input gains a full block |
| Xtea.Unpadded | pki/xtea.go:131-148 | empty data is the empty-data error; a final byte of 0 or above 8, or larger than the data, or any of the last n bytes differing from n, is the invalid-padding error; on success exactly the final n ≤ 8 bytes are removed |
| Xtea.Unpad | pki/xtea.go:131-148 | the checking loop computes `Unpadded` |
| Xtea.UnpadPad | pki/xtea.go:124-148 | unpad(pad(d)) == d for every d, empty included |
| Xtea.PadUnpad | pki/xtea.go:124-148 | whatever unpad accepts from whole blocks is the padding of what it returns |
| Xtea.EncrypterDecrypterInverse | pki/xtea.go:44-91 | the cipher's block functions invert each other on 8-byte blocks |
| Xtea.CBCDecryptEncrypt | pki/xtea.go:164-166 | CBC decryption undoes CBC encryption of whole blocks for any IV once the block functions invert each other |
| Xtea.CBCEncryptDecrypt | pki/xtea.go:188-190 | CBC encryption undoes CBC decryption of whole blocks |
| Xtea.CFBDecryptEncrypt | pki/xtea.go:94-121 | CFB decryption undoes CFB encryption of any length |
| Xtea.CFBEncryptDecrypt | pki/xtea.go:94-121 | CFB encryption undoes CFB decryption of any length |
| Xtea.EncryptCFB | pki/xtea.go:94-106 | the ciphertext has the plaintext's length |
| Xtea.DecryptCFB | pki/xtea.go:109-121 | the plaintext has the ciphertext's length |
| Xtea.CFBRoundTrip | pki/xtea.go:94-121 | DecryptCFB and EncryptCFB invert each other for every key and input |
| Xtea.Encrypt | pki/xtea.go:151-171 | fails exactly when the key is not 16 bytes; otherwise the output is (len/8 + 1)·8 bytes long |
| Xtea.Decrypt | pki/xtea.go:174-197 | a wrong key length is the key error; misaligned ciphertext is an error; empty ciphertext is the empty-data error; a result is at most one block shorter than the ciphertext |
| Xtea.DecryptEncrypt | pki/xtea.go:151-197 | Decrypt(k, Encrypt(k, d)) == d for every 16-byte key and every d, empty included |
| Xtea.EncryptDecrypt | pki/xtea.go:151-197 | whatever Decrypt accepts is the Encrypt of its result, so the two are inverse bijections |
| Protocols.NewDNSWrapper | c2/protocols.go:56-61 | an empty domain becomes the default "example.com"; any other is kept |
| Protocols.DNSWrap | c2/protocols.go:64-114 | the buffer built step by step is the DNS packet: the header 1234/0100/1/1/0/0, the labels of "<hex p[0..3]>.<domain>." ending in 0, type FF and class 1, then the answer C0 0C, FF, 1, TTL 60, the 16-bit length and the payload |
| Protocols.WriteName | c2/protocols.go:86-93 | the label loop appends the length-prefixed encoding of every label, a zero byte for each empty one |
| Protocols.SkipName | c2/protocols.go:132-142 | a skipped name ends after the start and inside the data; running out of data is the incomplete error |
| Protocols.SkipQuestions | c2/protocols.go:129-145 | skipping questions only moves forward, and fails only by running out of data |
| Protocols.ReadAnswer | c2/protocols.go:147-186 | a payload read is shorter than 65536 bytes and is the bytes that follow, at or after the start position, a big-endian 16-bit length equal to its own length |
| Protocols.DNSUnwrapped | c2/protocols.go:117-189 | shorter than 12 bytes is exactly the too-short error; a payload is returned only when ANCount > 0, is shorter than the packet, and is the bytes after a 16-bit length field past the header that gives its length; the no-answer error arises only when ANCount is 0 |
| Protocols.DNSUnwrap | c2/protocols.go:117-189 | the cursor-walking method computes `DNSUnwrapped` |
| Protocols.SkipNameLoop | c2/protocols.go:132-142 | the label-skipping loop computes `SkipName` |
| Protocols.ReadAnswerAt | c2/protocols.go:147-186 | the answer-reading steps compute `ReadAnswer` |
| Protocols.DNSUnwrapWrap | c2/protocols.go:64-189 | Unwrap(Wrap(p)) == p for 3 ≤ len(p) < 65536 and a domain of 1–255-byte labels |
| Protocols.NTPWrap | c2/protocols.go:234-265 | 48 header bytes followed by the payload verbatim |
| Protocols.NTPUnwrap | c2/protocols.go:268-275 | fails exactly below 48 bytes, otherwise returns everything after the header |
| Protocols.NTPUnwrapWrap | c2/protocols.go:234-275 | NTP Unwrap(Wrap(p)) == p for every payload and time |
| Protocols.NTPVersion | c2/protocols.go:283-284 | the version v is bits 3 to 5 of the byte: 8·v ≤ byte mod 64 < 8·v + 8 |
| Protocols.DNSIsValid | c2/protocols.go:192-204 | true exactly for at least 12 bytes whose ID bytes are not both zero and whose question or answer count bytes are not all zero |
| Protocols.NTPIsValid | c2/protocols.go:278-287 | true exactly for at least 48 bytes whose first byte modulo 64 lies in 0x18–0x27, that is version 3 or 4 |
| Protocols.IsValid | c2/protocols.go:306-320 | the DNS check passes exactly when detection says DNS; the NTP check passes exactly when detection says NTP or the data also passes the DNS check |
| Protocols.GetProtocolWrapper | c2/protocols.go:290-303 | DNS gives a DNS wrapper for the first parameter, or the default domain; NTP gives the NTP wrapper; anything else gives none |
| Protocols.Wrap | c2/protocols.go:64-114 | wrapping with either wrapper produces that wrapper's packet |
| Protocols.Unwrap | c2/protocols.go:117-189 | a payload unwrapped by either wrapper is shorter than its packet |
| Protocols.DetectProtocol | c2/protocols.go:306-320 | DNS exactly when the DNS check holds; NTP exactly when only the NTP check holds; none exactly when neither does |
| Protocols.DetectedWrapperAccepts | c2/protocols.go:306-320 | the wrapper for a detected protocol exists and accepts the data |
| Protocols.DetectDNSPacket | c2/protocols.go:192-204 | every DNS-wrapped packet is detected as DNS |
| Protocols.DetectNTPPacket | c2/protocols.go:239-244 | every NTP-wrapped packet is detected as NTP: bytes 4–7 are zero, so the DNS check fails, and 0x1B carries version 3 |
| Protocols.DetectUnwrapWrap | c2/protocols.go:64-320 | a wrapped payload is detected as its own protocol and unwraps back to itself |
| C2Server.Configured | c2/server.go:27-35 | without options the default key and address are kept; the last option of a kind wins |
| C2Server.NewServer | c2/server.go:27-59 | fails exactly when the key is not 16 bytes; otherwise a server with an empty registry and that key |
| C2Server.Registered | c2/server.go:136-152 | on a consistent registry (every record stored under its own identifier): an unknown identifier gains one record with that identifier, address, time and protocol, and an empty pending command; a known one keeps its pending command and gets the new address, time and protocol; every other record is unchanged and the registry stays consistent |
| C2Server.Cleared | c2/server.go:168-175 | only that client's pending command becomes empty; with nothing pending the registry is unchanged |
| C2Server.Queued | c2/server.go:383-402 | a known client's pending command becomes the command, overwriting; an unknown id leaves the registry unchanged |
| C2Server.StoredProtocol | c2/server.go:218-224 | the stored protocol of a known client, none for an unknown one |
| C2Server.Incoming | c2/server.go:112-133 | a decoded datagram carries the detected protocol; data detected as none is decoded raw |
| C2Server.Outgoing | c2/server.go:194-248 | a datagram is produced exactly when the key is 16 bytes, addressed to the client; its bytes are the encoding of the Command message carrying the encrypted command, wrapped by the wrapper of the stored protocol, or raw when that protocol has no wrapper |
| C2Server.Server.constructor | c2/server.go:46-58 | an empty registry holding the configured key, address and codec |
| C2Server.Server.HandleUDPMessage | c2/server.go:112-192 | an unwrap or decode failure drops the datagram and leaves the registry unchanged; otherwise the sender is registered; a probe then takes and clears the pending command and answers with it; a result is decrypted with the server key; any other type is reported unknown |
| C2Server.Server.HandleProbe | c2/server.go:166-181 | the pending command is cleared and sent, wrapped with the stored protocol; with none pending nothing is sent |
| C2Server.Server.SendCommandToClient | c2/server.go:194-248 | sends the datagram `Outgoing` describes, which `CommandDelivered` and `RawCommandDelivered` show the client decodes and decrypts back to the command |
| C2Server.Server.ExecuteCommand | c2/server.go:383-402 | queues the command for a known client and reports whether it was seen over 2 minutes ago; reports an unknown client and changes nothing otherwise |
| C2Server.Server.ProcessConsoleCommand | c2/server.go:321-353 | only an execute line changes the registry, and it queues exactly the parsed command |
| C2Server.ParseConsole | c2/server.go:321-343 | each action is chosen exactly by the lowered first space-separated token (help, show, quit or exit, execute, anything else); execute with fewer than 3 tokens is exactly the usage error; otherwise the id is the second token and the command the remaining tokens joined by single spaces |
| C2Server.ExecuteLine | c2/server.go:333-341 | a line whose verb lowers to "execute" ("execute", "EXECUTE", ...) followed by an id without spaces queues the rest of the line exactly, its spaces included |
| C2Server.ExecuteArgs | c2/server.go:324 | the tokens of an execute line are the verb, the id and the tokens of the command |
| C2Server.ProbeTakesQueued | c2/server.go:166-181 | a command queued by executeCommand is what the next probe takes, leaving nothing pending |
| C2Server.ClientRegistered | c2/server.go:112-133 | a message sent through a wrapper, or raw, is decoded back with the wrapper's protocol |
| C2Server.CommandDelivered | c2/server.go:194-248 | when the encoded command message is below 65536 bytes, the datagram sent to a DNS or NTP client is detected as that protocol, unwraps and decodes to a command message for that client, and decrypts to the command's bytes |
| C2Server.RawCommandDelivered | c2/server.go:194-248 | the datagram sent to a client stored without a protocol decodes as it is to a command message for that client that decrypts to the command's bytes |
| C2Server.DefaultDomainValid | c2/protocols.go:56-61 | the default domain "example.com" is a valid domain |
| C2Server.TwoLabelsValid | c2/protocols.go:85-93 | a domain of two 1–255-byte labels is valid |
| C2Server.RawHeaderLikeDataDropped | c2/server.go:112-123 | the 12-byte header with ID 0x0100, one question and nothing else is dropped as an incomplete DNS packet |
| C2Server.HeaderLikeDataDropped | c2/server.go:112-123 | any data that passes the DNS check, announces a question and whose first question name runs past the end is dropped as an incomplete DNS packet, whatever the codec |
| Version.FirstWord | upgrade/version.go:20-24 | the trimmed input up to its first space |
| Version.StripVersionWord | upgrade/version.go:27-29 | a leading "version" in any case is removed, anything else is kept |
| Version.SplitPre | upgrade/version.go:35-39 | the text before the first '-' or '_' and, after it, the pre-release |
| Version.PatchDigits | upgrade/version.go:63-66 | the patch part before any '+' or '_' |
| Version.ParseNumeric | upgrade/version.go:42-72 | succeeds exactly when there are at most three dot-separated parts, the first two read as integers and the patch before any '+' or '_' does; the values are those integers, missing ones 0; each error is the first failing step, quoting its part |
| Version.ParseVersion | upgrade/version.go:18-79 | a parsed version carries the text after the first '-' or '_' as its pre-release and the first dotted part's integer as its major; the format error quotes a numeric part of more than three parts; `ParseFormat` gives the round trip |
| Version.Compare | upgrade/version.go:94-125 | lexicographic on (major, minor, patch), then a release above a pre-release, then string order on the pre-release |
| Version.CompareZero | upgrade/version.go:94-125 | the comparison is 0 exactly when the two versions are equal |
| Version.CompareAntisymmetric | upgrade/version.go:94-125 | swapping the arguments negates the comparison |
| Version.CompareTransitive | upgrade/version.go:94-125 | ranking above is transitive |
| Version.CompareVersions | upgrade/version.go:82-126 | a parse error in the first, then in the second argument propagates; otherwise the comparison of the parsed versions, in -1..1 |
| Version.NeedsUpgrade | upgrade/version.go:129-135 | true exactly when compareVersions(latest, current) is 1; comparison errors propagate |
| Version.UpgradeIsStrict | upgrade/version.go:129-135 | two parsable versions never both need upgrading to each other, and neither does exactly when they parse equal |
| Version.Dotted | upgrade/version.go:42-45 | a "major.minor.patch" text is digits and dots |
| Version.Format | upgrade/version.go:35-45 | a formatted version starts with its dotted part |
| Version.ParseFormat | upgrade/version.go:18-79 | parsing a formatted version gives it back, pre-release included |
| Version.ParseFirstWordOnly | upgrade/version.go:20-24 | text after the first space is ignored |
| Version.ParsePrefix | upgrade/version.go:27-32 | "v", "V", "version" and "Version" before the number are ignored |
| Version.ParseMajorOnly | upgrade/version.go:42-72 | "N" parses to N.0.0 |
| Version.ParseMajorMinor | upgrade/version.go:42-72 | "N.M" parses to N.M.0 |
| Version.ParseBuild | upgrade/version.go:63-66 | a "+build" suffix on the patch is ignored |
| Version.NonNumericMinor | upgrade/version.go:53-58 | a middle part that does not read as an integer is the minor-version error quoting that part, whatever the patch |
| Version.ReleaseAbovePre | upgrade/version.go:108-123 | a release ranks above its pre-releases, and pre-releases rank in string order |
| UpgradeList.ParseLine | upgrade/http.go:144-157 | a line blank after trimming is skipped; a non-blank one without a space is malformed; a line is an entry exactly when its trimmed text holds a space, and then the hash and filename are the trimmed text before and after its first space, each trimmed |
| UpgradeList.FoldLastHash | upgrade/http.go:142-161 | the keys of the parsed map are the filenames of the entries, each mapped to the hash on its last line |
| UpgradeList.FoldFails | upgrade/http.go:151-154 | parsing fails exactly when some line is malformed |
| UpgradeList.CollectLastHash | upgrade/http.go:140-162 | the same as FoldLastHash, for the lines of the list |
| UpgradeList.CollectFails | upgrade/http.go:140-162 | the parse fails exactly when some line is malformed, and then no map is returned |
| UpgradeList.ParseUpgradeList | upgrade/http.go:140-162 | the loop computes the parse of the content's lines |
| UpgradeList.ReadLines | upgrade/http.go:143-161 | the loop over lines computes the same |
| UpgradeList.EntryLine | upgrade/http.go:151-157 | "<hash> <filename>" parses to that entry, even when the filename contains spaces |
| UpgradeList.Wrap64 | upgrade/http.go:69 | the int64 wrap-around of a sum, exact inside the int64 range |
| UpgradeList.ProgressWriter.constructor | upgrade/http.go:57-62 | nothing downloaded yet |
| UpgradeList.ProgressWriter.Write | upgrade/http.go:65-75 | the count and error of the underlying write are passed on; only a successful write adds n, with int64 wrap-around, and reports (downloaded, total) to a callback; an error changes nothing |
| UpgradeList.DownloadedExact | upgrade/http.go:69 | below 2^63 bytes the downloaded count is exact |
| UpgradeConfig.ValidationError | upgrade/config.go:37-55 | the first empty field in the order app name, current version, OS, architecture, server URL, then username or password, and none exactly when all are set |
| UpgradeConfig.Config.constructor | upgrade/config.go:9-34 | the zero configuration |
| UpgradeConfig.Config.Validate | upgrade/config.go:37-69 | on failure nothing changes; on success a missing callback becomes allow-all and a missing logger the no-op one, and every other field is kept |
| Upgrader.Candidate | upgrade/upgrade.go:67-78 | the text after the last ".v"; none when there is no ".v" or nothing follows it |
| Upgrader.PackageCandidate | upgrade/upgrade.go:143 | the package name "{os}-{arch}-{app}.v{version}" carries its version back |
| Upgrader.NewerIrreflexive | upgrade/upgrade.go:81-88 | no version is newer than itself |
| Upgrader.NewerTransitive | upgrade/upgrade.go:81-88 | being newer is transitive |
| Upgrader.NewerWhenPositive | upgrade/upgrade.go:84 | compareVersions returning 1 is the same as succeeding with a positive result |
| Upgrader.SelectLatest | upgrade/upgrade.go:65-89 | in any visiting order the loop returns "" exactly when no name carries a version, and otherwise a listed version no candidate is newer than |
| Upgrader.LatestIsMaximum | upgrade/upgrade.go:65-89 | when every candidate parses, the selected version compares ≥ every candidate |
| Upgrader.FetchedList | upgrade/upgrade.go:40-62 | a list is had only when the install tool is found and the list fetched, and it is the parse of its content |
| Upgrader.Verdict | upgrade/upgrade.go:91-113 | no version is an error; a comparison failure is an error; nothing newer gives no information; a newer version gives that version with the whole list |
| Upgrader.InstalledIsListedAndNewer | upgrade/upgrade.go:36-184 | an installed version is a latest one of the fetched list, newer than the running one and confirmed, and its package is listed with the hash the download has |
| Upgrader.Upgrader.constructor | upgrade/upgrade.go:16-33 | holds the validated configuration |
| Upgrader.Upgrader.NewUpgrader | upgrade/upgrade.go:16-33 | fails with the validation error and changes nothing; otherwise the upgrader holds the configuration with a missing callback set to allow everything and a missing logger to the silent one, and every other field kept |
| Upgrader.Upgrader.CheckUpgrade | upgrade/upgrade.go:36-114 | fails on the install tool, fetch or parse; otherwise chooses a latest listed version and reports the verdict on it |
| Upgrader.Upgrader.StartUpgrade | upgrade/upgrade.go:117-184 | a check failure is passed on; up to date installs nothing; otherwise the first failing step is reported: cancelled by the callback, executable path, download of the package URL, package not listed, hash error, hash mismatch, install; with none failing the version is installed at the executable path |
| Upgrader.Upgrader.UpgradeAfterCheck | upgrade/upgrade.go:130-183 | the steps after the check, each failure reported by the first step that fails, as for StartUpgrade |
| Upgrader.Upgrader.SetUpgradeOption | upgrade/upgrade.go:187-190 | stores the strategy and nothing else |
| Upgrader.Upgrader.SetDailyUpgradeTime | upgrade/upgrade.go:193-199 | an hour outside 0–23 or a minute outside 0–59 is refused and changes nothing; otherwise exactly that time is stored |
| Upgrader.Upgrader.UpgradeToVersion | upgrade/upgrade.go:202-206 | records the target version and the specified strategy, then upgrades as StartUpgrade does |

## Left out

- Network I/O and the UDP socket are left out. `NewServer`'s address resolution and listener creation, which can also fail, are left out with them, and so are `Start`, `Stop` (which `quit` and `exit` call) and the listen loop in `c2/server.go`. So is the goroutine per datagram that shares the read buffer, which is also why the 1024-byte read limit is not modelled. Each handler is atomic and sequential.
- The console loop, `showHelp` and `showClients` are left out, because they only print. `help`, `show`, `quit`/`exit` and unknown commands are parsed as actions and change nothing.
- Logging is left out: the `fmt.Printf` calls and the upgrade logger's messages. The logger is kept only as a token that `Validate` sets.
- gob encoding is left out. `Message` goes through an abstract codec that frames every message in at least 3 bytes, as gob's length-prefixed output does.
- Wall-clock time is left out; it is a parameter. The NTP time fields take whole seconds of `now`.
- `c2/client.go`, `c2/payload.go`, `c2/c2.go`, the examples, `mqtt`, `license`, `machineID`, `clog`, `alert`, `shellexec` and `pki/selfcert.go` are not part of this model.
- upgrade/options.go, upgrade/install.go and the HTTP helpers of upgrade/http.go are not part of this model. This covers `fetchWithAuth`, `downloadFileWithAuth`, `calculateSHA256`, `checkInstallTool`, `installFile` and `getExecutablePath`. Their results are fields of the `Host` parameter.
- `StartUpgrade` treats each `Host` field as one fixed answer. The temp-file path and its removal are left out.
- Byte content fetched over HTTP is a string of characters. The upgrade list is text.
- The ProgressWriter callback is not called. `Write` returns the `(downloaded, total)` pair it would receive.
- Xtea.Decrypt: misaligned ciphertext is an explicit error, whereas the source panics inside `CryptBlocks`.
- Xtea.Unpadded: data whose final byte is a padding length from 1 to 8 larger than the data, with every byte equal to it, is a precondition, because the check of the last bytes then indexes before the start and the source panics. With any other byte differing, such a padding length is rejected as invalid padding, as the source does.
- Xtea.EncryptBlock: buffers shorter than 8 bytes are a precondition. The source panics on them.
- Protocols.DNSWrap: payloads shorter than 3 bytes are a precondition, because the source indexes `payload[2]` and panics. Every gob message is longer.
- Protocols.DNSUnwrapWrap: the round trip is stated for domain labels of 1–255 bytes. The wrapper writes a label's length as one byte and checks nothing, so longer labels are a separate case.
- Protocols.NTPWrap: the first byte 0x1B encodes version 3 (LI 0, VN 3, mode 3). The code is followed over its comment, which calls it version 4.
- C2Server.RawHeaderLikeDataDropped: a raw message is classified before it is decoded. So raw data whose first bytes read as a DNS header is unwrapped as DNS and dropped, as the code does.
- Text.ToLower: case mapping is Go's for ASCII and for the few non-ASCII letters that lower to ASCII. Other letters are left as they are, which never changes whether a token equals "execute" or "version".
- Upgrader.SelectLatest: Go's map iteration order is a nondeterministic choice of the next key. When some candidate fails to parse, different orders may choose different versions, and the contract then says only that no candidate is newer.
- Upgrader.Upgrader.UpgradeToVersion: the target version is recorded, but `StartUpgrade` does not read it, as in the source.
- Upgrader.Upgrader.StartUpgrade: Go returns nil for up to date, cancelled and installed alike. The model distinguishes these outcomes.
- `DailyUpgradeTime` is an hour and a minute. Go stores a `time.Time` on the zero date.
