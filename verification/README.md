# A model of socks0

`go/socks0` is a SOCKS library: a codec (`wire`), a client and a server. This project models its
three layers and proves what holds for every byte stream, however it is cut into reads, and for every
interleaving of the calls that share a connection.

- **Codec** (`Wire`, `Layout`, `Framing`, `RoundTrip`). Every parser answers "complete, n bytes",
  "incomplete, n bytes needed" or an error. `Layout` says byte by byte which bytes are which message,
  read and written. `Framing.Framed` is the contract of a parser; each parser is shown to keep it, and
  the machines above use the contract only.
- **Byte machines** (`Net`, `ClientHandshake`, `Buffers`, `ServerSpec`, `ServerConn`, `Session`,
  `EndToEnd`, `Dialogue`). A connection is a byte stream with a terminal error; a read returns any
  non-empty part of it. The client's read-ahead and the server's sliding 2 KiB buffer are classes
  over arrays, proved against specifications that parse the whole stream at once
  (`ClientHandshake.RepliesOutcome`, `ServerSpec.HandshakeOutcome`). `Session` is the connection
  from the request to its end: Early, Peek, the BIND watch, the replies, Read, WriteTo, NetConn.
  `EndToEnd` puts client and server together, `Dialogue` a client that waits for every answer and a
  server. `ServerLaws` and `ClientLaws` say what the specifications come to: who is admitted, who is
  turned away with which bytes, and what a client takes for a success.
- **Concurrent protocols.** `ConnState` says what each critical section of the client `Conn` does to
  the guarded fields, `ClientConn` is the object itself, `ConnRuns` is about all runs of any number of
  calls, and `ConnOrder` about what such a run puts on the wire first and when a success is final;
  `ConnLaws` says which call goes on, waits or returns with what at each step.
  `BufferPool` is the ownership of the pooled buffers, `Slots` and `SlotServer` the accounting of
  connections, `UdpSpec`, `UdpLaws`, `Udp` and `UdpRuns` the UDP association with its caches and its
  two goroutines.

A run is a sequence of events, each one critical section (or the I/O between two); what the world
decides, such as the time or the outcome of an I/O call, is part of the event. A sleeper is a call
that holds the number of a wake channel; a channel is open while it is the current one.

## Where the code does not do what one might expect

- Tunnel data can come ahead of the handshake: `waitWritten` also ends when the handshake is over, and
  a proxy's early answer ends it before its write. `ConnOrder.EagerProxy` is such a run, and
  `ConnOrder.OrderExactly` the condition, for every reachable state: a proxy that from here on waits for
  the handshake can still see data first exactly if the handshake is not on the wire and is established
  already, or a call was let through before. So it cannot if it waited all along
  (`ConnOrder.WriteOrder`).
- An established handshake is not final while its write is under way: `ConnOrder.EstablishedThenShort`.
  Over any continuation it stands exactly if no write of the handshake ends short
  (`ConnOrder.SuccessStands`), and for good once the handshake is on the wire
  (`ConnOrder.FlushedStands`).
- `WriteTo` can lose bytes of the client. `Session.Session.WriteTo` says exactly when: the destination
  has room for what is buffered but not for everything, so that the copy fails on bytes taken straight
  off the connection. `Session.CopyLosesAByte` is such a copy.
- A reply can be a success to the server and a failure to the client, so that one side has a tunnel and
  the other an error. `EndToEnd.AgreeOnSuccess`, and `EndToEnd.Connect` for the two machines: on a first
  reply both agree exactly if a success code is not SOCKS4's 0x5A in a SOCKS5 reply and comes with a bound
  address that the client's command can use. `EndToEnd.Misunderstood` has a reply for either failure.
  In BIND's exchange of two it is the second reply's code and the first one's address that count
  (`EndToEnd.ConnectBind`). A handler that answers BIND with one reply alone has a tunnel whose first
  bytes the client takes for the second (`EndToEnd.ConnectBindOnce`).
- With EndpointIndependent filtering a target can reach a client that has sent nothing at all.
  `UdpRuns.FirstWord`: exactly if the client named its port in the request.
- The UDP relay caches a name without the port it was resolved for. Until the entry is over, a name that
  the filter denied at one port is denied at every port (`UdpSpec.NameForEveryPort`, with
  `UdpSpec.DeniedForAnotherPort` as an instance).

## Model

| member | source | states |
|---|---|---|
| Framing.PrefixIncomplete | go/socks0/wire/doc.go:6-15 | a strict prefix of a message is incomplete and asks for more than it has and for no more than the message |
| Framing.OwnBytes | go/socks0/wire/doc.go:6-15 | a message is decided by its own bytes alone |
| Framing.NeedBounded | go/socks0/wire/doc.go:6-15 | no answer asks for more than the longest message, so a fixed buffer is enough |
| Framing.TailIgnored | go/socks0/wire/doc.go:6-15 | appended bytes change no decided answer |
| Framing.MalformedExactly | go/socks0/wire/doc.go:9-10 | an answer is an error exactly if no message starts with these bytes: no error waits for more bytes |
| Layout.Codes | go/socks0/wire/codes.go:8-126 | the codes of RFC 1928, RFC 1929 and SOCKS4, and the lengths of the longest messages |
| Layout.AddrMessageRead | go/socks0/wire/parse.go:158-191 | which bytes are which address: type, address and port, most significant byte first; which are wrong, and in what; how many more are needed |
| Layout.RequestRead | go/socks0/wire/parse.go:46-56 | a SOCKS5 request is VER 5, its command, any RSV and an address; it is wrong exactly in its version, type or empty name |
| Layout.ReplyRead | go/socks0/wire/parse.go:121-132 | the same of a reply, where only a lookup's may be without an address |
| Layout.UDPHeaderRead | go/socks0/wire/parse.go:150-156 | the same of a UDP header, whose third byte is the fragment |
| Layout.GreetingRead | go/socks0/wire/parse.go:9-25 | a greeting is VER 5, a count that is not 0, and that many methods; the length needed is exact |
| Layout.UserPassRead | go/socks0/wire/parse.go:28-44 | credentials are VER 1 and two texts behind their lengths, either of which may be empty; the length needed is exact |
| Layout.ChoiceRead | go/socks0/wire/parse.go:99-119 | the method selection is 5 and the method, the status 1 and the status |
| Layout.TextRead | go/socks0/wire/parse.go:85-97 | a text ends before the first zero byte; it is wrong if it has too few or over 255 bytes, and how much is needed is exact |
| Layout.Request4Read | go/socks0/wire/parse.go:58-83 | a SOCKS4 request is 4, the command, the port, the IP, the user ID and a zero byte, and for 0.0.0.x a name and another |
| Layout.Request4Wrong | go/socks0/wire/parse.go:58-83 | it is wrong only in its version or in one of its texts |
| Layout.Reply4Read | go/socks0/wire/parse.go:134-148 | a SOCKS4 reply is 0, the code, the port, most significant byte first, and the IP |
| Layout.AddrMessageWritten | go/socks0/wire/encode.go:105-110 | an encoded address is its header, its type 1, 3 or 4, the address and the port, most significant byte first |
| Layout.Written | go/socks0/wire/encode.go:30-33 | the same behind 5, the code and RSV 0 for requests and replies, and behind RSV and FRAG for UDP |
| Layout.GreetingWritten | go/socks0/wire/encode.go:9-18 | a greeting goes out as 5, the count and the methods |
| Layout.UserPassWritten | go/socks0/wire/encode.go:20-28 | credentials go out as 1 and the two texts behind their lengths |
| Layout.ChoiceWritten | go/socks0/wire/encode.go:68-73 | the method selection and the status, byte by byte |
| Layout.Request4Written | go/socks0/wire/encode.go:35-66 | a SOCKS4 request, byte by byte, a name as 0.0.0.1 and at the end; which ones SOCKS4 cannot carry, exactly |
| Layout.Reply4Written | go/socks0/wire/encode.go:80-89 | a SOCKS4 reply, byte by byte; it carries an IPv4 address or 0.0.0.0:0 |
| WireContract.GreetingFramed | go/socks0/wire/parse.go:9-25 | the greeting parser is stable, asks for no more than a valid completion has, and such a completion exists |
| WireContract.UserPassFramed | go/socks0/wire/parse.go:28-44 | the same for username/password, at most 513 bytes |
| WireContract.RequestFramed | go/socks0/wire/parse.go:46-56 | the same for SOCKS5 requests, at most 262 bytes |
| WireContract.Request4Framed | go/socks0/wire/parse.go:58-97 | the same for SOCKS4 and SOCKS4a requests with their two zero-terminated fields, at most 520 bytes |
| WireContract.MethodSelectionFramed | go/socks0/wire/parse.go:99-108 | the same for the method selection |
| WireContract.UserPassStatusFramed | go/socks0/wire/parse.go:110-119 | the same for the username/password status |
| WireContract.ReplyFramed | go/socks0/wire/parse.go:121-132 | the same for replies to every command, the lookup commands with no address included |
| WireContract.Reply4Framed | go/socks0/wire/parse.go:134-148 | the same for SOCKS4 replies |
| WireContract.UDPHeaderFramed | go/socks0/wire/parse.go:150-156 | the same for UDP headers |
| RoundTrip.AddrMessageParses | go/socks0/wire/parse.go:158-191 | bytes laid out as an address message parse to that address and length, which `Layout.AddrMessageRead` says from the bytes |
| RoundTrip.CStringParses | go/socks0/wire/parse.go:87-97 | a text of at most 255 bytes before a zero byte parses to itself, whatever follows |
| RoundTrip.GreetingRoundTrip | go/socks0/wire/encode.go:9-18 | an appended greeting parses to its methods and exact length before any tail; it fails exactly for 0 or over 255 methods and then leaves dst alone |
| RoundTrip.UserPassRoundTrip | go/socks0/wire/encode.go:20-28 | the same for credentials of up to 255 bytes each |
| RoundTrip.SelectionRoundTrip | go/socks0/wire/encode.go:68-73 | the same for the method selection and the status |
| RoundTrip.RequestRoundTrip | go/socks0/wire/encode.go:30-33 | the same for a SOCKS5 request of any valid address |
| RoundTrip.Request4RoundTrip | go/socks0/wire/encode.go:35-66 | the same for SOCKS4 and SOCKS4a; it fails exactly for what SOCKS4 cannot carry |
| RoundTrip.ReplyRoundTrip | go/socks0/wire/encode.go:75-78 | the same for a reply, whatever the command it answers |
| RoundTrip.Reply4RoundTrip | go/socks0/wire/encode.go:80-89 | the same for a SOCKS4 reply, the zero address as 0.0.0.0:0 |
| RoundTrip.UDPHeaderRoundTrip | go/socks0/wire/encode.go:91-103 | the same for a UDP header, whose length UDPHeaderLen tells |
| RoundTrip.AddrMessageRoundTrip | go/socks0/wire/encode.go:105-110 | an appended address message parses back with its header in front, for each of the three address types |
| RoundTrip.ParsedAddrCanonical | go/socks0/wire/addr.go:10-20 | every parsed address is unmapped and fits the wire again |
| RoundTrip.ParsedRequest4Canonical | go/socks0/wire/parse.go:58-83 | so is the address of a SOCKS4 request, with a user ID of at most 255 bytes |
| RoundTrip.RequestReencodes | go/socks0/wire/parse.go:46-56 | encoding a parsed request gives a request that parses to the same value |
| RoundTrip.SameBytes | go/socks0/wire/parse.go:46-56 | and the very bytes, unless RSV was set or an IPv4 address was written as IPv6 |
| Net.NetConn.Read | go/socks0/wire/read.go:83-96 | any non-empty next part of the stream, or its end |
| Net.NetConn.ReadTimed | go/socks0/server/request.go:96-113 | the same under a deadline, which may pass first and then loses nothing |
| Net.NetConn.ReadFull | go/socks0/wire/read.go:83-96 | all that was asked for, or what is left and the stream's error |
| Net.ReadMessage | go/socks0/wire/read.go:83-106 | reads one message into a fixed buffer: the whole stream's outcome, and on success exactly the message's bytes |
| ClientHandshake.Handshake.constructor | go/socks0/handshake.go:184-232 | the messages are laid out as the mode sends them |
| ClientHandshake.Handshake.ReadNext | go/socks0/handshake.go:419-453 | with any read-ahead the result is the whole stream's, unless a parser asks for over 64 KiB, and nothing past the message plus the read-ahead is taken |
| ClientHandshake.Handshake.Fetch | go/socks0/handshake.go:421-453 | one read, into a buffer that grows without losing a byte, of no more than was asked for |
| ClientHandshake.Handshake.NextReply | go/socks0/handshake.go:375-396 | a failure code counts as soon as it is seen; for a success nothing is read past the reply unless it had been read before |
| ClientHandshake.Handshake.ReadReply | go/socks0/handshake.go:360-373 | the final reply with the bound address checked; `ClientLaws.FirstReplies` says what comes of it |
| ClientHandshake.Handshake.ReadReplies | go/socks0/handshake.go:326-342 | for every cut of the stream the outcome of the whole-stream reading; an established handshake read exactly the replies |
| ClientHandshake.Handshake.ReadSecondReply | go/socks0/handshake.go:399-404 | the same for BIND's second reply |
| ClientHandshake.Handshake.Run | go/socks0/handshake.go:255-267 | both modes end as the whole reply stream says, unless a write stops early: then the bytes before it are out, and the error is that of the first message not sent in full; pipelined credentials are wiped in any case |
| ClientHandshake.Handshake.RunSequential | go/socks0/handshake.go:279-297 | message by message, a message goes out once the one before has been answered, so what is sent is a function of the replies; each of the three can be cut off, with its own stage |
| ClientHandshake.Handshake.Authenticate | go/socks0/handshake.go:299-313 | the sub-negotiation reads its status and no byte more |
| ClientHandshake.Handshake.Wipe | go/socks0/handshake.go:269-277 | only the credentials are zeroed |
| ClientHandshake.Config.SameBytes | go/socks0/handshake.go:216-232 | the messages sent one by one are the pipelined bytes |
| ClientHandshake.SeenAgrees | go/socks0/handshake.go:375-396 | a reply code seen when reading stops is the whole stream's |
| ClientLaws.Offers | go/socks0/handshake.go:83-118 | what each configuration offers, byte by byte; a method is accepted exactly if it was offered |
| ClientLaws.Messages | go/socks0/handshake.go:184-232 | the credentials and the request that go out, byte by byte |
| ClientLaws.StopsIn | go/socks0/handshake.go:241-253 | the stage of a write cut off after n bytes is that of the message byte n lies in |
| ClientLaws.Sends | go/socks0/handshake.go:279-313 | what goes out one message at a time, from the bytes that came: the credentials if asked for, the request once the method is settled and a status, if there is one, is 0 |
| ClientLaws.StopsInOne | go/socks0/handshake.go:279-313 | and the message that n bytes of it stop in |
| ClientLaws.Selected | go/socks0/handshake.go:344-358 | a method that was not offered, a wrong version or a stream that ends are each their own failure; otherwise it goes on two bytes further |
| ClientLaws.Authenticated | go/socks0/handshake.go:326-342 | a status is read exactly if credentials were selected, and only zero is a success |
| ClientLaws.Replies | go/socks0/handshake.go:375-396 | a reply is a success exactly with its version's code; any other code ends it as soon as it is there, with the address if that is there too |
| ClientLaws.Usable | go/socks0/handshake.go:405-415 | which address which command cannot use, and with which error it is turned down |
| ClientLaws.FirstReplies | go/socks0/handshake.go:360-373 | a success is established exactly if its address is one the command can use |
| Buffers.InBuffer.Read | go/socks0/server/conn.go:52-58 | one read behind the unread bytes, never into an empty slice, keeping 0 ≤ r ≤ w ≤ 2048 and the high-water mark |
| Buffers.InBuffer.Compact | go/socks0/server/conn.go:493-496 | moving the unread bytes to the front changes none of them |
| Buffers.InBuffer.PutBack | go/socks0/server/conn.go:43-50 | clearing up to the high-water mark leaves the buffer all zero |
| Buffers.InBuffer.Drain | go/socks0/server/conn.go:229-245 | the lingering close drops at most 64 KiB and one buffer's worth, stops only there, at the stream's end or at the deadline, and keeps the high-water mark |
| Buffers.OutBuffer.Append | go/socks0/server/conn.go:446-449 | messages queue up in order |
| Buffers.OutBuffer.PutBack | go/socks0/server/conn.go:43-61 | the output buffer is all zero too |
| ServerSpec.Choose | go/socks0/server/server.go:237-244 | the first configured method that was offered, if any |
| ServerSpec.UserIDInside | go/socks0/server/conn.go:372-390 | the user ID lies inside the consumed request, so clearing it touches nothing else |
| ServerLaws.EndsInside | go/socks0/wire/read.go:98-106 | a stream that ends inside a message is truncated there; any other error is itself |
| ServerLaws.Opens | go/socks0/server/conn.go:285-298 | a client whose first byte is no configured version is turned away without an answer |
| ServerLaws.Admits4 | go/socks0/server/conn.go:372-412 | a SOCKS4 client is admitted if and only if its request is complete, for CONNECT or BIND, and its user is known to UserID or, without that, no authentication is configured; then as whom; any other complete request gets 0x5B |
| ServerLaws.Requests5 | go/socks0/server/conn.go:354-370 | a SOCKS5 request is taken as it is, or answered with 08 if its address is wrong |
| ServerLaws.LogsIn | go/socks0/server/auth.go:124-161 | credentials are answered with status 0 and admitted, or 1 and refused; without authentication nothing is read |
| ServerLaws.Greets5 | go/socks0/server/conn.go:307-329 | the first configured method that is offered is selected, 0xFF if there is none, and the sub-negotiation follows it |
| ServerLaws.Admits5 | go/socks0/server/conn.go:300-329 | the answers of the three parts follow one another, and the request begins where the sub-negotiation ends |
| ServerLaws.Replies | go/socks0/server/conn.go:539-556 | a reply, byte by byte: any code but SOCKS4's four goes out as 0x5B there; without an address as 0.0.0.0:0 |
| ServerLaws.NothingLent | go/socks0/server/conn.go:338-412 | no code of the user's saw the input buffer exactly if there was no trace of the greeting, no Check in use and no UserID |
| ServerConn.ServerConn.Flush | go/socks0/server/conn.go:504-511 | queued output is written once, a write error is kept |
| ServerConn.ServerConn.Fill | go/socks0/server/conn.go:485-502 | reads until enough is there, sending queued output before each read; it stops short only for a failed write or the stream's end, which stays behind the bytes it came with |
| ServerConn.ServerConn.Next | go/socks0/server/conn.go:461-483 | for every segmentation the next message is the whole stream's, and exactly it is consumed; too long a message is refused |
| ServerConn.ServerConn.ClearLastMsg | go/socks0/server/conn.go:513-518 | the last authentication message is zeroed, no unread byte is |
| ServerConn.ServerConn.ReadRequest5 | go/socks0/server/conn.go:354-370 | the request as the whole stream has it; a bad address is answered with 08 |
| ServerConn.ServerConn.Authenticate | go/socks0/server/conn.go:421-444 | no authentication, or one framed username/password exchange whose message is zeroed afterwards |
| ServerConn.ServerConn.UserPassLogin | go/socks0/server/auth.go:124-143 | one message read, its verdict queued |
| ServerConn.ServerConn.Identify | go/socks0/server/auth.go:124-161 | status 0 and an identity, or status 1 and a refusal |
| ServerConn.ServerConn.Authenticate5 | go/socks0/server/conn.go:307-329 | greeting, selection and authentication as the whole stream has them |
| ServerConn.ServerConn.Handshake5 | go/socks0/server/conn.go:300-305 | the SOCKS5 handshake as the whole stream has it |
| ServerConn.ServerConn.Handshake4 | go/socks0/server/conn.go:372-390 | the SOCKS4 handshake as the whole stream has it, which `ServerLaws.Admits4` spells out |
| ServerConn.ServerConn.Admit4 | go/socks0/server/conn.go:372-412 | UserID admits, or NoAuth if it is the library's own; only CONNECT and BIND are served; the user ID is zeroed |
| ServerConn.ServerConn.Negotiate | go/socks0/server/conn.go:285-298 | the version byte decides, and stays unread |
| ServerConn.ServerConn.Handshake | go/socks0/server/conn.go:260-273 | verdict, request, replies and where the tunnel starts are those of the whole-stream reading; only a failed write changes that, into a failure |
| ServerConn.ServerConn.FillCtx | go/socks0/server/request.go:96-113 | a timeout loses no byte and is not kept; nothing else but the stream's end stops it short |
| ServerConn.ServerConn.ReadUntilGone | go/socks0/server/bind.go:138-158 | the BIND watch loses no byte, keeps the client's end, and stops only there, when the buffer is full or when it is called off |
| ServerConn.ServerConn.WriteReply | go/socks0/server/conn.go:521-556 | the reply's bytes, or a part of them and an error; only a refusal lingers |
| Session.Session.constructor | go/socks0/server/conn.go:339-412 | starts behind the request, the buffer counting as seen exactly if the greeting's trace, a user's Check or UserID was shown a piece of it |
| Session.Session.Early | go/socks0/server/request.go:43-52 | the buffered bytes after the request, not consumed |
| Session.Session.Peek | go/socks0/server/request.go:57-80 | the next n bytes, or as many as the buffer, the client's end or the deadline leave, with the error that says which, not consumed |
| Session.Session.Watch | go/socks0/server/bind.go:128-158 | what the client sends before the second reply is the tunnel's first part; the watch ends with the client's end, a full buffer or when it is called off |
| Session.Session.Reply | go/socks0/server/request.go:122-152 | one final reply; the tunnel exactly for a success that was written |
| Session.Session.ReplyListening | go/socks0/server/request.go:154-180 | one first reply, for BIND and before the final one, with its bytes on the wire; only a short write fails it, and that is final |
| Session.Session.Finish | go/socks0/server/conn.go:171-227 | a handler that did not reply gets one fallback: the code as it is, or 01 for a success; the buffers go back all zero unless exposed |
| Session.Session.End | go/socks0/server/conn.go:207-245 | the buffers are put back all zero, or dropped if a slice got out, to the handler or in the handshake; the close lingers exactly after a refusal, up to its bound, the client's end or the deadline |
| Session.Session.TakeBuffered | go/socks0/server/tunnel.go:169-187 | buffered bytes before a kept error before the connection itself |
| Session.Session.Consumed | go/socks0/server/tunnel.go:189-207 | exactly the used bytes are gone; the reader puts the buffers back, all zero, if it is through with them or the connection ended meanwhile |
| Session.Session.Read | go/socks0/server/tunnel.go:20-39 | the next bytes of the client, its end only after all of them |
| Session.Session.WriteTo | go/socks0/server/tunnel.go:48-86 | the destination gets the next bytes in order, and every one that is used up, exactly unless a copy straight off the connection fails |
| Session.Session.WriteBufferedTo | go/socks0/server/tunnel.go:72-86 | of the buffered bytes exactly those the destination took are used up |
| Session.CopyLosesAByte | go/socks0/server/tunnel.go:59-69 | a copy that loses the client's one byte |
| Session.Session.ReadAcross | go/socks0/server/tunnel.go:189-207 | a read under way while the handler returns gets its bytes, as many as it asked for, and then puts the buffers back all zero |
| Session.Session.TakeNetConn | go/socks0/server/tunnel.go:140-153 | the buffered bytes come before what the connection still has, and are handed over once |
| Session.Session.Run | go/socks0/server/tunnel.go:11-207 | in any mix of calls each byte after the request is given once and in order; at most one final reply, before it at most one for BIND, exactly one attempted once the handler replied or returned; only a WriteTo breaks it off |
| Session.Session.Do | go/socks0/server/tunnel.go:11-207 | one call of the mix does what it is for, unless the connection is over, and breaks off exactly as a WriteTo that loses bytes |
| EndToEnd.ServerSees | go/socks0/server/conn.go:285-370 | from a client's pipelined bytes and anything after them the server takes exactly its command, address and credentials, and leaves the rest |
| EndToEnd.ClientSees | go/socks0/handshake.go:326-396 | a client reads the server's answers as they were meant, and no byte after them |
| EndToEnd.Reacts | go/socks0/handshake.go:360-417 | a reply is established exactly with a success code of the client's version and an address its command can use; otherwise the error is the code, or the address's field |
| EndToEnd.Refuse | go/socks0/server/conn.go:285-329 | both machines on a refused client: the server fails as it should, and the client with the stage and error that match what was held against it |
| EndToEnd.ReadBindAnswers | go/socks0/handshake.go:399-415 | the client machine on BIND's two replies: the listening address, then the peer or the refusal, and not a byte of the tunnel |
| EndToEnd.AgreeOnSuccess | go/socks0/handshake.go:360-417 | both sides agree on whether a first reply is a success if and only if a success has a code that is one in the client's version and an address its command can use, as `ClientLaws.UsableFor` has it |
| EndToEnd.Misunderstood | go/socks0/handshake.go:407-417 | 0x5A to a SOCKS5 client, and a success without an address to BIND or UDP ASSOCIATE: a tunnel to the server, a failure to the client |
| EndToEnd.Accept | go/socks0/server/conn.go:260-298 | the server machine on the client's bytes: the client's request, the early data left in front |
| EndToEnd.ReadAnswers | go/socks0/handshake.go:326-373 | the client machine on the server's bytes: its BND, the tunnel bytes left unread |
| EndToEnd.Connect | go/socks0/server/request.go:115-152 | both machines together up to the first reply, for any target, credentials, early data, reply and segmentation: both take it for a success or neither, if and only if it is understood; the tunnel's bytes are left to it |
| EndToEnd.ConnectBind | go/socks0/bind.go:75-115 | both machines through BIND's two replies: the listening address and the peer as they were sent, not a byte of the tunnel read, and both have a tunnel or neither, if and only if the second code is understood and the first address has a port |
| EndToEnd.ConnectBindOnce | go/socks0/bind.go:75-105 | BIND answered with one reply: both have a tunnel or neither if and only if a success is understood and the tunnel's own bytes read as a second success |
| EndToEnd.ModeIrrelevant | go/socks0/handshake.go:255-297 | the replies mean the same in either mode |
| EndToEnd.BothModes | go/socks0/handshake.go:255-297 | on the same replies both modes end alike and, if established, wrote and read the same bytes |
| EndToEnd.Serve | go/socks0/server/conn.go:119-152 | from the first byte to the handler's return: the bytes after the request, once and in order, and orderly replies |
| Dialogue.ServerGoesOn | go/socks0/server/conn.go:485-511 | what the server sends on a stream that ends is the start of what it sends on any stream that goes on so |
| Dialogue.ClientGoesOn | go/socks0/handshake.go:279-313 | the same of a client that sends its messages one at a time |
| Dialogue.OneMethod | go/socks0/server/server.go:237-244 | a client that offers one method settles with the server on what the whole handshake at once would get |
| Dialogue.NoStandstill | go/socks0/server/conn.go:485-502 | over every conversation, the bytes arriving in any order and in any parts, each side has written a start of the one thing it can; both wait if and only if all has been said and heard, and then the server has taken the request or refused it |
| Dialogue.Proceeds | go/socks0/server/conn.go:485-502 | in every conversation whatever was said and has not arrived can arrive next, in any part |
| Dialogue.Ends | go/socks0/handshake.go:279-297 | every conversation gets there, in no more arrivals than there are bytes |
| Dialogue.Moment | go/socks0/handshake.go:279-313 | both machines at any moment of any conversation, each on what has reached it: each has written what the other is due |
| Dialogue.ConnectWaiting | go/socks0/handshake.go:279-313 | both machines to the end for a client that sends one message at a time and offers one method or two |
| ConnState.ClaimRunKeeps | go/socks0/conn.go:459-475 | one call runs the handshake; an aborted one ends before anything is sent; a call that returns is told Closed after Close, else the failure, else nothing |
| ConnState.RunEndKeeps | go/socks0/conn.go:439-457 | the handshake is over, established exactly if nothing failed or was cancelled |
| ConnState.ClaimSendKeeps | go/socks0/conn.go:495-511 | one call claims the write and wakes whoever waits for that |
| ConnState.SendEndKeeps | go/socks0/conn.go:524-546 | after the write HandshakeDone is owed exactly if it is due; a short write fails even an established handshake |
| ConnState.WaitWrittenKeeps | go/socks0/conn.go:548-555 | goes on only if the write is over or the handshake established, without error |
| ConnState.WaitClaimedKeeps | go/socks0/conn.go:586-594 | sleeps only while nobody claimed the handshake |
| ConnState.ClaimReadKeeps | go/socks0/conn.go:596-619 | one call at a time reads replies, under the sooner of the two deadlines; sleepers wait for it or for the write |
| ConnState.AwaitEndKeeps | go/socks0/conn.go:557-584 | the reader gives up its claim and its deadline and ends the handshake |
| ConnState.AbortKeeps | go/socks0/conn.go:653-680 | a cancellation is kept, and ends the handshake once nobody sees to it |
| ConnState.CloseKeeps | go/socks0/conn.go:343-360 | closing wakes everybody and fails a pending handshake |
| ConnState.SetReadDeadlineKeeps | go/socks0/conn.go:391-406 | the underlying deadline is one of the two and past neither, unless an abort has set it |
| ConnState.BlameDecides | go/socks0/conn.go:630-651 | a proxy's message stands, else the cause is reported, else a timeout is renamed exactly if its own deadline passed before the caller's; no error only if there was none |
| ConnState.CheckTells | go/socks0/conn.go:731-743 | a call is told nothing exactly while the conn is open and did not fail, Closed after Close, else the handshake's failure |
| ClientConn.Conn.ClaimRun | go/socks0/conn.go:459-475 | claimRunLocked's loop: the new fields, the answer and whether HandshakeDone is due are ConnState.ClaimRun's |
| ClientConn.Conn.RunEnd | go/socks0/conn.go:439-457 | the end of run: fields, answer and hook are ConnState.RunEnd's |
| ClientConn.Conn.ClaimSend | go/socks0/conn.go:502-511 | claim: fields and answer are ConnState.ClaimSend's |
| ClientConn.Conn.SendEnd | go/socks0/conn.go:524-546 | the end of send: fields, answer and hook are ConnState.SendEnd's |
| ClientConn.Conn.WaitWritten | go/socks0/conn.go:548-555 | a turn of waitWritten: sleep or answer as ConnState.WaitWritten says |
| ClientConn.Conn.WaitClaimed | go/socks0/conn.go:586-594 | a turn of waitClaimedLocked: sleep, time out or go on as ConnState.WaitClaimed says |
| ClientConn.Conn.ClaimRead | go/socks0/conn.go:596-619 | a turn of claimReadLocked and setReplyDeadlineLocked: claim, settle, sleep or answer as ConnState.ClaimRead says |
| ClientConn.Conn.AwaitEnd | go/socks0/conn.go:573-584 | the end of awaitReplies: fields, answer and hook are ConnState.AwaitEnd's |
| ClientConn.Conn.AbortWith | go/socks0/conn.go:653-667 | abortWith: fields and hook are ConnState.Abort's |
| ClientConn.Conn.Close | go/socks0/conn.go:343-360 | Close: fields and hook are ConnState.Close's; an error exactly the second time |
| ClientConn.Conn.SetReadDeadline | go/socks0/conn.go:391-406 | both deadlines are ConnState.SetReadDeadline's: the conn's is the sooner of the two, unless an abort has set it |
| ClientConn.Conn.Settle | go/socks0/conn.go:671-680 | a cancelled handshake ends, with the cancellation, exactly once it is written and nobody reads its replies; the invariant is kept |
| ClientConn.Conn.End | go/socks0/conn.go:690-729 | the first end counts and no other; HandshakeDone is due exactly if it was written by then; the invariant is kept |
| ClientConn.Conn.Blame | go/socks0/conn.go:630-651 | the proxy's message stands, else the cause is reported, else only an expired timeout is renamed; no error only if there was none |
| ConnRuns.Always | go/socks0/conn.go:432-437 | the invariant of every reachable state of any number of calls, on a conn of good or bad configuration |
| ConnRuns.HandshakeDoneOnce | go/socks0/conn.go:521-546 | in every reachable state HandshakeDone ran exactly if the handshake is over and written, so at most once and after WroteHandshake |
| ConnRuns.NobodyLeftAsleep | go/socks0/conn.go:745-770 | no call sleeps on an open channel once what it waits for happened, the handshake ended or the conn was closed |
| ConnRuns.OneAtATime | go/socks0/conn.go:432-437 | one writer of the handshake, one reader of replies; the fast paths say what the state says; an established handshake was not aborted |
| ConnRuns.DeadlineNarrowed | go/socks0/conn.go:615-628 | the conn's read deadline is one of the caller's and ReplyTimeout's and past neither, and the caller's while no replies are read, unless the handshake failed or was aborted |
| ConnRuns.OutcomeStable | go/socks0/conn.go:690-718 | over any run phase and done only advance, an error never changes, and a success stands once the write is over |
| ConnOrder.DataStarts | go/socks0/conn.go:190-282 | tunnel data starts only after the handshake write returned or the handshake was established without error |
| ConnOrder.OrderExactly | go/socks0/conn.go:548-555 | in every reachable state data can come first, with a proxy honest from there on, if and only if the handshake is not on the wire and it is established and not closed, or a call was let through |
| ConnOrder.WriteOrder | go/socks0/conn.go:502-555 | with a proxy that always waits for the whole handshake the wire carries the handshake once, then data |
| ConnOrder.EagerProxy | go/socks0/conn.go:548-555 | without such a proxy, a run in which data comes first |
| ConnOrder.LostExactly | go/socks0/conn.go:524-546 | a step loses an established handshake if and only if it ends a write short of the handshake |
| ConnOrder.SuccessStands | go/socks0/conn.go:524-546 | over every continuation of every run, a success stands if and only if no write of the handshake ends short |
| ConnOrder.FlushedStands | go/socks0/conn.go:532-541 | a success with the handshake on the wire is final |
| ConnOrder.EstablishedThenShort | go/socks0/conn.go:532-541 | a run in which a success is lost, HandshakeDone running once |
| ConnLaws.Fails | go/socks0/conn.go:711-729 | a failure wakes everybody, closes both fast paths and interrupts whoever reads |
| ConnLaws.RunClaims | go/socks0/conn.go:459-475 | a call runs the handshake exactly if it is idle and neither over, closed nor aborted; it waits exactly if another runs it; an abort beforehand is its failure |
| ConnLaws.SendClaims | go/socks0/conn.go:502-511 | a call claims the write exactly if the handshake is idle and neither closed nor failed |
| ConnLaws.SendEnds | go/socks0/conn.go:524-546 | after the write: its own error is the call's; a short one is blamed on the cancellation if there was one; a full one ends an aborted handshake nobody reads |
| ConnLaws.WritesWaited | go/socks0/conn.go:548-555 | a call waits to write data exactly while the handshake is neither written nor over |
| ConnLaws.ClaimsWaited | go/socks0/conn.go:586-594 | a reader waits for a claim, up to its own deadline, exactly while the handshake is idle |
| ConnLaws.ReadClaims | go/socks0/conn.go:596-619 | exactly when a call reads the replies, waits, looks again or returns |
| ConnLaws.RunEnds | go/socks0/conn.go:439-457 | the outcome of a run, a cancellation before its own error unless the proxy said no |
| ConnLaws.ReadEnds | go/socks0/conn.go:557-584 | the same of reading the replies, where an outcome there is already stays and an expired ReplyTimeout has its own name |
| ConnLaws.Aborts | go/socks0/conn.go:653-680 | the first cancellation is kept and interrupts the I/O; it is the failure exactly if the handshake is written and nobody reads |
| ConnLaws.Closes | go/socks0/conn.go:343-360 | Close counts once, wakes everybody and cancels a handshake that is not over |
| ConnLaws.Enters | go/socks0/conn.go:166-189 | which calls take the fast path: data behind a written handshake, and a handshake that is done |
| ConnLaws.StartsRun | go/socks0/conn.go:439-475 | without ModeEarly: the call runs the handshake, sleeps, or goes on as it ended |
| ConnLaws.StartsEarly | go/socks0/conn.go:190-282 | with ModeEarly: Read waits for replies, the others claim the write or wait for it |
| ConnLaws.RunsThrough | go/socks0/conn.go:439-493 | the handshake in one go counts as written once, and the call is told how it ended |
| ConnLaws.Writes | go/socks0/conn.go:524-531 | a write of the handshake puts all of it on the wire or none that counts |
| ConnLaws.WroteIt | go/socks0/conn.go:190-212 | after the write: an error is the call's, else it has more data, is through or waits for the replies |
| ConnLaws.AwaitsWrite | go/socks0/conn.go:548-555 | behind another's handshake a call sleeps, is told of a failure, or writes |
| ConnLaws.AwaitsReplies | go/socks0/conn.go:586-594 | before any claim a Read sleeps under its deadline, times out or goes on |
| ConnLaws.TurnsToReplies | go/socks0/conn.go:596-613 | at the replies a Read reads them, sleeps, looks again or is told |
| ConnLaws.ReadThem | go/socks0/conn.go:557-584 | having read them it is told how the handshake ended |
| ConnLaws.Wakes | go/socks0/conn.go:745-770 | a sleeper goes on exactly once its channel is closed, a Read also once its deadline passed; data goes out once |
| ConnLaws.Outsiders | go/socks0/conn.go:343-406 | Close, a cancellation and SetReadDeadline change the guarded fields and no call's place |
| BufferPool.PutBackOnce | go/socks0/server/tunnel.go:169-207 | in every interleaving the buffers go back at most once, never while a read, a Peek or the lingering close uses them, never once a slice got out |
| BufferPool.BackForGood | go/socks0/server/tunnel.go:198-207 | once back, no call gets at them again |
| BufferPool.Returned | go/socks0/server/conn.go:207-227 | after the end they are back, or dropped exactly if the handler may still hold a slice, whoever was last |
| BufferPool.GetsOut | go/socks0/server/request.go:43-80 | a slice gets out exactly if Early, Peek or NetConn hands over one that is not empty |
| BufferPool.Takes | go/socks0/server/tunnel.go:169-187 | a read takes what is buffered, then the error behind it, then the connection, for which the buffers are given up |
| BufferPool.TakenIs | go/socks0/server/tunnel.go:189-207 | what was copied is gone; the reader gives the buffers up exactly if they are empty and were not handed over, or it is over |
| BufferPool.RepliedOnce | go/socks0/server/request.go:122-152 | one reply counts: a tunnel for a success that was written, a lingering close for a refusal that was |
| BufferPool.Ended | go/socks0/server/conn.go:207-227 | at the end the buffers stay with a read under way, are dropped if a slice got out, else are the end's own |
| UdpSpec.ResolvedAllowed | go/socks0/server/udp.go:413-430 | a name stands for the first of its addresses the filter allows, and for none if there is none |
| UdpSpec.AdmitKeeps | go/socks0/server/udp.go:432-453 | an admission stays within MaxTargets, keeps ips the IPs of admitted ports, and admits only what the filter allows |
| UdpSpec.LookupKeeps | go/socks0/server/udp.go:398-411 | names count toward MaxTargets and are asked again only once expired |
| UdpSpec.NameForEveryPort | go/socks0/server/udp.go:398-430 | until it expires a name's entry answers for every port: as to denial rightly if and only if the filter allows an address at the one port just when it did at the other |
| UdpSpec.DeniedForAnotherPort | go/socks0/server/udp.go:398-430 | a name denied at port 80 because it was denied at port 25 |
| UdpSpec.JudgeKeeps | go/socks0/server/udp.go:382-396 | a datagram without error goes to an admitted target, and admits no other |
| UdpSpec.CacheHit | go/socks0/server/udp.go:350-369 | a header cache hit says what parsing and judging would |
| UdpSpec.CacheFilled | go/socks0/server/udp.go:350-369 | a verdict may be cached until it expires |
| UdpSpec.CacheSurvives | go/socks0/server/udp.go:350-369 | whatever other headers do meanwhile |
| UdpLaws.Unresolved | go/socks0/server/udp.go:413-430 | what a name without an allowed address is reported as: the lookup's own failure, the first denial, or that there is none; the entry lasts 60 s |
| UdpLaws.Looks | go/socks0/server/udp.go:398-411 | when a name is asked for: if it is new and there is room, or if it is over; otherwise the entry or nothing is the answer |
| UdpLaws.Admits | go/socks0/server/udp.go:432-459 | when the filter is asked: once for an IP:port, if there is room; otherwise the answer it gave, or none |
| UdpLaws.Goes | go/socks0/server/udp.go:371-396 | a datagram without error goes to the address in its header, or to the IP its name stands for at the header's port; a fragment and a header that does not parse go nowhere |
| UdpLaws.Drops | go/socks0/server/udp.go:382-396 | which error drops a datagram with a good header |
| UdpLaws.Headroom | go/socks0/wire/encode.go:91-103 | the headroom is the longest header of an IP address |
| UdpLaws.Named | go/socks0/server/udp.go:120-140 | the port a request names counts exactly if it comes with the client's own IP or an unspecified one |
| Udp.Association.constructor | go/socks0/server/udp.go:120-140 | the association starts with empty tables, and with the requested port locked if the request names the client's own IP or none |
| Udp.Association.Up | go/socks0/server/udp.go:267-299 | a turn of up does to tables and port what the two steps of UdpRuns do, and passes on exactly the payload behind the header; a datagram of another host or port, or too large, changes nothing |
| Udp.Association.Down | go/socks0/server/udp.go:301-325 | a turn of down lets through what the steps of UdpRuns deliver, to that port, framed in place |
| Udp.Association.Header | go/socks0/server/udp.go:349-369 | with the cache in front, over any sequence of datagrams and any passage of time, the same destination, length, verdict and tables |
| Udp.Association.Miss | go/socks0/server/udp.go:350-365 | the uncached way, and what is cached after it |
| Udp.Association.Judge | go/socks0/server/udp.go:382-396 | judge: the maps and the verdict are UdpSpec.Judge's |
| Udp.Association.Lookup | go/socks0/server/udp.go:398-411 | lookup: the names and the entry are UdpSpec.Lookup's |
| Udp.Association.Admit | go/socks0/server/udp.go:432-453 | admit: targets, ips and the answer are UdpSpec.Admit's |
| Udp.Association.Solicited | go/socks0/server/udp.go:335-347 | the inbound filter of section 5 of RFC 4787 |
| Udp.Frame | go/socks0/server/udp.go:327-333 | header and untouched payload, written inside the 22 bytes of headroom only |
| UdpRuns.Always | go/socks0/server/udp.go:267-325 | the invariant of every interleaving of up and down, whether or not the request locked the client's port |
| UdpRuns.OnlySolicited | go/socks0/server/udp.go:301-347 | a delivered datagram went to the locked port, and an earlier accepted datagram of the client (`UdpRuns.OwnDatagrams`) named its source as Filtering demands; for EndpointIndependent any datagram will do, or a port in the request |
| UdpRuns.OwnDatagrams | go/socks0/server/udp.go:267-299 | in every run each datagram let through is one that came from the client's own IP, with its port, and goes where that one's header says |
| UdpRuns.Strangers | go/socks0/server/udp.go:279-283 | whatever comes from other hosts: tables, port and what was let through are as at the start |
| UdpRuns.Ignored | go/socks0/server/udp.go:267-294 | a datagram from another host, another port or too large changes nothing |
| UdpRuns.LetThrough | go/socks0/server/udp.go:279-299 | any other with a good verdict is let through and locks the port |
| UdpRuns.PassedOn | go/socks0/server/udp.go:301-325 | a target's datagram is passed on if and only if the client's port is known, the client asked for it and it is not too large |
| UdpRuns.Bounded | go/socks0/server/udp.go:432-459 | targets and names stay within MaxTargets; ips is exactly the IPs with an admitted port |
| UdpRuns.PresetPort | go/socks0/server/udp.go:25-30 | with a port in the request no other port of the client's IP is ever accepted from or sent to |
| UdpRuns.OneSource | go/socks0/server/udp.go:279-294 | without one, all accepted datagrams still come from one port, but for those from port 0, which lock nothing |
| UdpRuns.FirstWord | go/socks0/server/udp.go:314-345 | a target with an IP address reaches a client that has sent nothing if and only if Filtering is EndpointIndependent and the request named the port |
| UdpRuns.PortStays | go/socks0/server/udp.go:279-294 | a non-zero client port never changes |
| Slots.Always | go/socks0/server/server.go:326-351 | slotsUsed is the tracked connections plus the loops between waitSlot and newConn, in every run |
| Slots.NoLoopStuck | go/socks0/server/server.go:327-351 | a loop sleeps on an open channel only while every slot is in use |
| Slots.Limits | go/socks0/server/server.go:309-351 | Serve loops alone never exceed MaxConns, and k of them exceed MaxHandshakes by at most k-1 |
| Slots.AfterStop | go/socks0/server/server.go:380-448 | after stop the tracked connections only get fewer, so Shutdown's success is lasting, and no handshake closed by it comes back |
| Slots.ShutIsFinal | go/socks0/server/server.go:439-448 | over every continuation, a connection Shutdown closed in its handshake is never served |
| Slots.GivesSlot | go/socks0/server/server.go:328-351 | a slot is refused exactly after the stop, and given exactly if one is free |
| Slots.ServesNew | go/socks0/server/conn.go:154-161 | a connection is served exactly if it is still new |
| Slots.ShutsNew | go/socks0/server/server.go:439-448 | Shutdown shuts exactly the new ones |
| Slots.TracksUntilStop | go/socks0/server/server.go:488-508 | a connection is tracked exactly if the server has not stopped; else its slot is given back |
| Slots.LoopsGoOn | go/socks0/server/server.go:309-351 | a loop passes the handshake cap exactly if there is room, and one that is woken while a slot is free takes it |
| Slots.ConnsComeAndEnd | go/socks0/server/server.go:309-372 | what a connection's start, handshake and end do to the counts |
| Slots.SlotFreed | go/socks0/server/server.go:510-519 | a connection that goes frees its slot, wakes every sleeper and touches no other |
| SlotServer.Server.WaitSlot | go/socks0/server/server.go:328-351 | a turn of waitSlot: a slot, a refusal or a sleep as Slots.WaitSlot says |
| SlotServer.Server.NewConn | go/socks0/server/server.go:488-508 | newConn: tracked and counted as Slots.NewConn says, or the slot given back |
| SlotServer.Server.Untrack | go/socks0/server/server.go:510-519 | untrack: the slot is free and the sleeping loops are woken |
| SlotServer.Server.CloseHandshakes | go/socks0/server/server.go:439-448 | shuts every connection still in its handshake and no other |

## Left out

- Sockets, TLS, splice, TCP Fast Open, socket options and goroutine scheduling: a connection is a byte
  stream, a room for writes and a deadline.
- Custom Authenticators and Pipeliners: only no authentication and username/password, the credential
  check being an uninterpreted function. `next`'s branch for a parser that breaks the
  contract is not modelled.
- The growth of the server's `out` after a sticky write error, and AuthConn.Write's flush beyond 1 KiB,
  which no built-in authentication reaches.
- The client's pooled buffer for the handshake with early data (`earlyBuf`): the early data is part of
  the one write that carries the handshake.
- The zero `Conn` and a nil underlying conn, `SetWriteDeadline`, `opError` and the texts of errors.
- Session.Session.Run: ends at a copy that loses bytes, as `Session.Session.WriteTo` has it, because
  what is given after it does not follow what was given before.
- Dialogue.Moment: a side that waits is the machine on what has reached it and then the stream's end; the
  one machine stopped in a read is not followed. That it keeps nothing back there is what
  `ServerConn.ServerConn.ReadOnce` requires.
- ConnOrder.WriteOrder: orders whole writes, not the bytes of two overlapping ones, which the operating
  system serialises.
- The tunnel's own writes, `ReadFrom`, `CloseRead` and `CloseWrite`: they go straight to the conn.
- `handshakeOver`, the Dialer, Listener and resolver clients, `Relayer`, own-host checks: OS calls or
  compositions of what is modelled.
- Traces, `ConnState` hooks and `Admit`: only WroteHandshake and HandshakeDone are counted.
- Handshake timeouts on the server are the stream's terminal error.
- The UDP relay's sockets, datagram pool, idle timeout and panics; `vet` and `allow` are uninterpreted,
  pure functions, the resolver a function of the name and the time.
- BIND's accept loop and the choice of expected peers.
- `ParseAddr`, `String`, `Format`, error kinds and the errno and reply-code tables: case tables.
- The server's listeners, `Close` and `RegisterOnShutdown`.
