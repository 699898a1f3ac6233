# Verified model of hev-socks5-tunnel

This project models the parts of hev-socks5-tunnel whose correctness is least obvious, and proves what
they are there for:

- the intrusive red-black tree with its full insertion, erasure and replacement, and the two
  clients above it: the user authenticator, and the DNS mapper that keeps a name cache in a tree, a list
  and an index array at once and answers DNS messages in place;
- the start/stop protocol on the atomic word of the tunnel, over every interleaving of any number of
  stoppers;
- the zero-copy ring buffer and the TCP splice loop above it;
- UDP datagrams framed in the TCP connection;
- the SOCKS5 handshake, client against server, in its standard and its pipelined form;
- the YAML pipeline: reader, scanner (simple keys and indentation), parser, composer and dumper, up to
  the round trip of a possibly cyclic graph through dump and load.

Code that works in place is modelled by classes over fields, arrays and linked nodes. Each method is
proved against a function or predicate on values, and the main results are lemmas about those. The modules follow the
source files: `RBTree` (with `Records`, `Shapes`, `Links`), `SearchOrder`, `Authenticator`, `List`,
`Lru`, `MappedDns`, `DnsMessage`, `DnsReply`, `Tunnel`, `RingBuffer`, `TcpSplice`, `UdpFraming`,
`Addresses`, `Handshake`, `HandshakeSides`, and `Yaml*`. `Sealing` holds the two predicates by which
some definitions stay closed in proofs. `dafny verify dfyconfig.toml` checks everything.

## How the model reads the source

- The record that the tree and list hooks are embedded in is one class, `Records.Node`; `container_of` is
  the identity. The packed parent-and-colour word is two fields.
- The world is a parameter: the answers of sockets and handlers, allocation success, the connection's
  callbacks, name resolution. All results hold for all of them.
- The DNS code is modelled on a little-endian host, where the bit fields of the flags are swapped by ntohs.
- The mapper's network address has no bit below the netmask, and the mask is contiguous: "net | idx" is then a
  sum. The number of entries is below the number of addresses, as the source checks.
- The parser's error field is set by the scanner as well, so the model's token stream may end in an error
  at any place.
- The comment at the top of parser.c lists a grammar in which a block mapping may have a VALUE without a
  KEY; the code rejects it ("did not find expected key"), and the model follows the code. A flow pair
  with an empty key skips the VALUE, FLOW-ENTRY or FLOW-SEQUENCE-END token that ends it
  (parser.c:1025-1030); so does the model.
- `yaml_parser_load` called again after an error finds no event and runs into its assert; the contract of
  `Loader.Load` says exactly when.
- The header of a framed datagram holds the length of address and header in one byte. Longer addresses
  are cut, and `FrameKept` gives the exact condition under which a datagram survives.
- When the stream fails inside a frame, `hev_socks5_udp_recvmmsg_tcp` can return a positive number that is
  not its number of datagrams; `ResultMisleads` gives the exact condition.

## Model

| member | source | states |
|---|---|---|
| RBTree.HevRBTree.Insert | v2rayNG/hev-socks5-tunnel/src/core/src/hev-rbtree.c:194-333 | linking a leaf at the end of a descent and recolouring keeps all red-black laws and parent links, and adds exactly that node at that place of the in-order sequence |
| RBTree.HevRBTree.LinkNode | v2rayNG/hev-socks5-tunnel/src/core/src/hev-rbtree.h:45-57 | the leaf link puts the node, red and childless, into the hole and nothing else changes |
| RBTree.HevRBTree.InsertColor | v2rayNG/hev-socks5-tunnel/src/core/src/hev-rbtree.c:194-333 | from one red-red edge anywhere on the way up, the loop ends with a valid tree of the same nodes in the same order |
| RBTree.HevRBTree.Erase | v2rayNG/hev-socks5-tunnel/src/core/src/hev-rbtree.c:351-635 | erasing any node leaves a valid tree whose sequence is the old one without that node; the repair loop climbs and so ends |
| RBTree.HevRBTree.EraseColor | v2rayNG/hev-socks5-tunnel/src/core/src/hev-rbtree.c:450-626 | a place that is one black node short is repaired, with the same nodes in the same order |
| RBTree.HevRBTree.EraseFlip | v2rayNG/hev-socks5-tunnel/src/core/src/hev-rbtree.c:487-507 | recolouring a black sibling without red children turns the heap into exactly the flipped tree |
| RBTree.HevRBTree.RotateRight | v2rayNG/hev-socks5-tunnel/src/core/src/hev-rbtree.c:276-293 | a rotation re-links the heap to exactly the rotated tree, whatever hangs below |
| RBTree.HevRBTree.Replace | v2rayNG/hev-socks5-tunnel/src/core/src/hev-rbtree.c:335-349 | the new node takes the old one's place, links and colour; the sequence differs in that place only |
| RBTree.HevRBTree.First | v2rayNG/hev-socks5-tunnel/src/core/src/hev-rbtree.c:168-179 | the first node of the in-order sequence, or null for an empty tree |
| RBTree.HevRBTree.Last | v2rayNG/hev-socks5-tunnel/src/core/src/hev-rbtree.c:181-192 | the last node of the in-order sequence, or null |
| RBTree.HevRBTree.Next | v2rayNG/hev-socks5-tunnel/src/core/src/hev-rbtree.c:136-166 | the node behind the given one in the in-order sequence, or null |
| RBTree.HevRBTree.Prev | v2rayNG/hev-socks5-tunnel/src/core/src/hev-rbtree.c:107-134 | the node before the given one, or null |
| Shapes.SoundIsEqualBlackCounts | v2rayNG/hev-socks5-tunnel/src/core/src/hev-rbtree.c:14-21 | the invariant that the operations keep is the textbook one: no red node has a red child, and all paths down have the same number of black nodes, in both directions |
| Shapes.HeightIsLogarithmic | v2rayNG/hev-socks5-tunnel/src/core/src/hev-rbtree.c:14-21 | a valid tree of n nodes is at most 2 log2 (n + 1) high |
| Shapes.SuccessorContents | v2rayNG/hev-socks5-tunnel/src/core/src/hev-rbtree.c:374-432 | moving the in-order successor to the erased node's place takes exactly that node out of the sequence |
| Authenticator.HevSocks5Authenticator.Add | v2rayNG/hev-socks5-tunnel/src/core/src/hev-socks5-authenticator.c:39-70 | adds the user to the map, or fails and changes nothing if the name is taken |
| Authenticator.HevSocks5Authenticator.Get | v2rayNG/hev-socks5-tunnel/src/core/src/hev-socks5-authenticator.c:104-131 | the user of a name, exactly if the map has one |
| Authenticator.HevSocks5Authenticator.Del | v2rayNG/hev-socks5-tunnel/src/core/src/hev-socks5-authenticator.c:72-102 | takes the name out of the map, or fails and changes nothing if there is none |
| Authenticator.HevSocks5Authenticator.Clear | v2rayNG/hev-socks5-tunnel/src/core/src/hev-socks5-authenticator.c:133-145 | ends with an empty map and tree |
| Authenticator.HevSocks5Authenticator.Check | v2rayNG/hev-socks5-tunnel/src/core/src/hev-socks5-server.c:174-188 | name and password are accepted exactly if a user of the tree has both |
| SearchOrder.DescentInserts | v2rayNG/hev-socks5-tunnel/src/core/src/hev-socks5-authenticator.c:39-70 | inserting where the descent fell off keeps the descending order and adds the name to the map that the order stands for |
| SearchOrder.EraseKeepsOrder | v2rayNG/hev-socks5-tunnel/src/core/src/hev-socks5-authenticator.c:72-102 | erasing a node keeps the order and removes exactly its name from the map |
| List.HevList.AddTail | v2rayNG/hev-socks5-tunnel/src/misc/hev-list.c:14-25 | the node becomes the last one of the doubly linked list |
| List.HevList.Del | v2rayNG/hev-socks5-tunnel/src/misc/hev-list.c:27-39 | the node is unlinked; the others stay linked in order in both directions |
| MappedDns.HevMappedDNS.Find | v2rayNG/hev-socks5-tunnel/src/hev-mapped-dns.c:102-154 | tree, list and index array stay consistent; a known name keeps its index and becomes the most recent, a new one gets the next index or that of the least recent; without memory an unknown name changes nothing |
| MappedDns.HevMappedDNS.Lookup | v2rayNG/hev-socks5-tunnel/src/hev-mapped-dns.c:261-279 | the name whose index is the host part of the address, exactly if a slot has it, and it becomes the most recent |
| Lru.NameKeepsIndex | v2rayNG/hev-socks5-tunnel/src/hev-mapped-dns.c:102-154 | after a name was touched, any run that touches fewer than max other names leaves it its index |
| Lru.MaxOthersEvict | v2rayNG/hev-socks5-tunnel/src/hev-mapped-dns.c:102-154 | the bound is exact: from every state any run that touches max other names, and not the name, evicts it |
| Lru.StaysExactly | v2rayNG/hev-socks5-tunnel/src/hev-mapped-dns.c:102-154 | a name that is not touched again stays if and only if fewer than max others are touched |
| MappedDns.EntriesFine | v2rayNG/hev-socks5-tunnel/src/hev-mapped-dns.c:102-154 | in every state of the mapper names and indices are distinct and the indices are those of the used slots |
| MappedDns.HevMappedDNS.Handle | v2rayNG/hev-socks5-tunnel/src/hev-mapped-dns.c:178-256 | for arbitrary bytes: the mapper stays consistent, every access is in range, and the reply is that of the reference function Respond |
| DnsMessage.ReadName | v2rayNG/hev-socks5-tunnel/src/hev-mapped-dns.c:211-224 | the label walk ends for every buffer; it gives the end of the name or refuses, and leaves the dotted name in the buffer |
| DnsMessage.WriteAnswers | v2rayNG/hev-socks5-tunnel/src/hev-mapped-dns.c:241-253 | the records are written behind the questions exactly if there is room for all of them |
| DnsMessage.ParseKept | v2rayNG/hev-socks5-tunnel/src/hev-mapped-dns.c:207-239 | questions depend only on the bytes from their start to their end, so rewriting the header or appending answers keeps them |
| DnsReply.ReplyReads | v2rayNG/hev-socks5-tunnel/src/hev-mapped-dns.c:178-256 | the reply has the request's id and question bytes, the response bit, and one readable record (section 4.1 of RFC 1035) for each answer |
| DnsReply.EveryWantedAnswered | v2rayNG/hev-socks5-tunnel/src/hev-mapped-dns.c:208-239 | while memory lasts there is one answer, in order, for each A/IN question, and none for others |
| DnsReply.AnswersStay | v2rayNG/hev-socks5-tunnel/src/hev-mapped-dns.c:178-279 | the indices given out stay with their names until the message is served and through any later run that touches at most max names in all |
| DnsReply.AnswersLookUp | v2rayNG/hev-socks5-tunnel/src/hev-mapped-dns.c:178-279 | the round trip: following an answer's pointer (section 4.1.4 of RFC 1035) leads to a wanted question, and looking up its address gives that question's name; for every message of at most 0x4000 bytes, and in longer ones for every question that starts below that |
| DnsReply.PointerReach | v2rayNG/hev-socks5-tunnel/src/hev-mapped-dns.c:241-245 | answer i of a reply belongs to a wanted question, and its pointer leads there if and only if that starts below 0x4000; in a message of at most 0x4000 bytes every question does |
| Tunnel.Safety | v2rayNG/hev-socks5-tunnel/src/hev-socks5-tunnel.c:653-766 | in every interleaving of stoppers with init, run and fini: a stop writes to the event pair only while it is open, at most one stopper is between taking and releasing WAIT, SEND is set throughout a session |
| Tunnel.NoStopDropped | v2rayNG/hev-socks5-tunnel/src/hev-socks5-tunnel.c:687-766 | in every run, a stop taken in a session sees SEND; one that saw SEND returns with fini begun or the session bound to end; one that saw SEND clear returns with STOP set, which stays until a run finds it and does not start |
| Tunnel.StopIsTimely | v2rayNG/hev-socks5-tunnel/src/hev-socks5-tunnel.c:721-766 | after a stop that saw SEND clear, the current session gets as far as its tasks only if a run has used STOP up first; this holds if and only if run has not yet looked at STOP |
| Tunnel.ClearRuns | v2rayNG/hev-socks5-tunnel/src/hev-socks5-tunnel.c:721-741 | it is the stop that does so: from every session state with STOP clear the session can reach its tasks without a run using STOP up |
| Tunnel.LateStopIsLate | v2rayNG/hev-socks5-tunnel/src/hev-socks5-tunnel.c:744-766 | a concrete run in which such a stop does not end the session that is going on |
| Tunnel.StopWakes | v2rayNG/hev-socks5-tunnel/src/hev-socks5-tunnel.c:744-766 | a stop that saw SEND leaves a byte for the event task, or fini has begun |
| Tunnel.WokenRunEnds | v2rayNG/hev-socks5-tunnel/src/hev-socks5-tunnel.c:281-307 | once woken, the run ends after at most four steps of its event task, whatever else happens |
| Tunnel.StopConsumed | v2rayNG/hev-socks5-tunnel/src/hev-socks5-tunnel.c:721-741 | STOP is cleared only by a run that returns without starting its tasks |
| Tunnel.SentCleared | v2rayNG/hev-socks5-tunnel/src/hev-socks5-tunnel.c:281-307 | the event task clears SENT only behind run = 0; otherwise only fini does |
| Tunnel.CloseIsAlone | v2rayNG/hev-socks5-tunnel/src/hev-socks5-tunnel.c:697-718 | when fini closes the pair no stopper is about to write to it, and none can come to |
| RingBuffer.HevRingBuffer.Reading | v2rayNG/hev-socks5-tunnel/src/misc/hev-ring-buffer.c:25-45 | the offered pieces are exactly the bytes not yet handed out, in order, also across the wrap-around |
| RingBuffer.HevRingBuffer.ReadFinish | v2rayNG/hev-socks5-tunnel/src/misc/hev-ring-buffer.c:47-52 | hands out the next bytes and keeps them in place |
| RingBuffer.HevRingBuffer.ReadRelease | v2rayNG/hev-socks5-tunnel/src/misc/hev-ring-buffer.c:54-62 | gives up the oldest handed-out bytes; a full release starts again at zero with nothing lost |
| RingBuffer.HevRingBuffer.Writing | v2rayNG/hev-socks5-tunnel/src/misc/hev-ring-buffer.c:64-85 | the offered region is free: it overlaps no byte that is not yet released, including those already handed out |
| RingBuffer.HevRingBuffer.WriteFinish | v2rayNG/hev-socks5-tunnel/src/misc/hev-ring-buffer.c:87-93 | the written bytes come behind all others in the stream |
| TcpSplice.HevSocks5SessionTCP.TcpSpliceF | v2rayNG/hev-socks5-tunnel/src/hev-socks5-session-tcp.c:44-83 | what the server gets is the next part of what the client sent; its side is shut exactly when the client is done and all has been passed on |
| TcpSplice.HevSocks5SessionTCP.TcpSpliceB | v2rayNG/hev-socks5-tunnel/src/hev-socks5-session-tcp.c:85-131 | what the client gets is the next part of what the server sent; its side is shut exactly when the server is done and nothing is left to hand out |
| TcpSplice.HevSocks5SessionTCP.TcpSentHandler | v2rayNG/hev-socks5-tunnel/src/hev-socks5-session-tcp.c:151-160 | acknowledged bytes, and no others, are released |
| TcpSplice.HevSocks5SessionTCP.Splice | v2rayNG/hev-socks5-tunnel/src/hev-socks5-session-tcp.c:192-227 | the loop ends by itself only if both directions are finished or the yielder fails; without write errors both have passed on everything |
| TcpSplice.HevSocks5SessionTCP.Drain | v2rayNG/hev-socks5-tunnel/src/hev-socks5-session-tcp.c:229-236 | the buffer is given up only when no byte is referred to any more, the connection is gone, or the yielder fails |
| UdpFraming.HevSocks5UDP.SendmmsgTcp | v2rayNG/hev-socks5-tunnel/src/core/src/hev-socks5-udp.c:56-100 | the frames of all datagrams are sent as one stream, or nothing if an address has an unknown type |
| UdpFraming.HevSocks5UDP.RecvmmsgTcp | v2rayNG/hev-socks5-tunnel/src/core/src/hev-socks5-udp.c:160-232 | for arbitrary bytes, any way the reads are answered and buffers of at least 252 bytes: result, consumed bytes and the messages in the callers' buffers are those of the reference function Receive |
| UdpFraming.FrameKept | v2rayNG/hev-socks5-tunnel/src/core/src/hev-socks5-udp.c:56-232 | a frame is read back as its datagram if and only if the address has at most 252 bytes, the data at most 65535, and the buffer holds both |
| UdpFraming.BatchAligned | v2rayNG/hev-socks5-tunnel/src/core/src/hev-socks5-udp.c:160-232 | one call brings the first datagrams in order and, unless the stream fails inside a frame, stops between two frames and returns their number |
| UdpFraming.SessionKeepsOrder | v2rayNG/hev-socks5-tunnel/src/core/src/hev-socks5-udp.c:160-232 | however the stream is split into calls and reads, what is got is the first of what was sent, and alignment is kept |
| UdpFraming.SessionGetsAll | v2rayNG/hev-socks5-tunnel/src/core/src/hev-socks5-udp.c:160-232 | if every read is answered in full, every buffer of every call gets its message and nothing is lost |
| UdpFraming.ResultMisleads | v2rayNG/hev-socks5-tunnel/src/core/src/hev-socks5-udp.c:176-226 | a positive result differs from the number of datagrams if and only if the first header, or the rest of a frame, is cut short in the stated way |
| UdpFraming.OnlyCutsMislead | v2rayNG/hev-socks5-tunnel/src/core/src/hev-socks5-udp.c:176-226 | that takes a stream that fails inside a frame |
| UdpFraming.CutMiscounts | v2rayNG/hev-socks5-tunnel/src/core/src/hev-socks5-udp.c:176-187 | a concrete input for which it happens |
| HandshakeSides.HevSocks5Server.Handshake | v2rayNG/hev-socks5-tunnel/src/core/src/hev-socks5-server.c:477-532 | for arbitrary client bytes: what the server says, its verdict, the command and address it recovers and the bytes it has read are those of the reference function Server |
| HandshakeSides.HevSocks5Server.ReadAuthUser | v2rayNG/hev-socks5-tunnel/src/core/src/hev-socks5-server.c:124-194 | accepts exactly the name and password of a user in the authenticator's tree |
| HandshakeSides.HevSocks5Server.ReadRequest | v2rayNG/hev-socks5-tunnel/src/core/src/hev-socks5-server.c:244-326 | the request's command and address are recovered, or the reply code says why not |
| HandshakeSides.HevSocks5Client.HandshakeStandard | v2rayNG/hev-socks5-tunnel/src/core/src/hev-socks5-client.c:325-362 | what the client says and its verdict, for arbitrary server bytes, in the order of the standard handshake |
| HandshakeSides.HevSocks5Client.HandshakePipeline | v2rayNG/hev-socks5-tunnel/src/core/src/hev-socks5-client.c:364-401 | the same with everything sent first |
| Handshake.Safety | v2rayNG/hev-socks5-tunnel/src/core/src/hev-socks5-client.c:325-401 | in every interleaving, for both modes: a serving server has a client with matching credentials and exactly its command and address; a connected client has such a server; neither has read a byte behind the handshake (sections 3 to 6 of RFC 1928, section 2 of RFC 1929) |
| Handshake.Outcome | v2rayNG/hev-socks5-tunnel/src/core/src/hev-socks5-client.c:325-401 | when nobody has anything left to say, both modes reach the same verdict, and in accepted runs the client has sent the same bytes |
| Handshake.ComesToEnd | v2rayNG/hev-socks5-tunnel/src/core/src/hev-socks5-client.c:325-401 | after any run that point can be reached, in no more steps than there are bytes left, and no run makes those more |
| Handshake.ServerMore | v2rayNG/hev-socks5-tunnel/src/core/src/hev-socks5-server.c:57-326 | what the server has said stays said when more arrives, and once it has decided it reads no more |
| Handshake.CutCreds | v2rayNG/hev-socks5-tunnel/src/core/src/hev-socks5-client.c:58-90 | the server sees the client's own credentials if and only if both texts have 1 to 255 bytes, and refuses those whose length is cut to 0 |
| Addresses.SockaddrBack | v2rayNG/hev-socks5-tunnel/src/core/src/hev-socks5-misc.c:161-228 | an IPv4 or IPv6 address comes back from its socket address if and only if it is not an IPv4 address written as IPv6 |
| YamlReader.Reader.UpdateRawBuffer | v2rayNG/hev-socks5-tunnel/third-part/yaml/src/reader.c:93-134 | raw bytes are neither lost nor reordered, for every size of the handler's answers |
| YamlReader.Reader.DetermineEncoding | v2rayNG/hev-socks5-tunnel/third-part/yaml/src/reader.c:50-87 | the encoding and the mark are those of the text's first bytes, however they come in |
| YamlReader.Reader.DecodeUtf8 | v2rayNG/hev-socks5-tunnel/third-part/yaml/src/reader.c:209-287 | the decoding loop over the raw buffer computes the reference decoding |
| YamlReader.Reader.UpdateBuffer | v2rayNG/hev-socks5-tunnel/third-part/yaml/src/reader.c:141-469 | makes the asked number of characters, at most 6144, available, or all and a NUL; fails only if the handler does, the text is not well-formed, or it is too long; nothing is lost and the buffer does not overflow |
| YamlReader.Reader.ReadAll | v2rayNG/hev-socks5-tunnel/third-part/yaml/src/scanner.c:486-525 | reading a whole text character by character succeeds if and only if it is well-formed, and gives its UTF-8 encoding and one NUL |
| YamlUtf.DecodeExact | v2rayNG/hev-socks5-tunnel/third-part/yaml/src/reader.c:200-392 | a character is decoded exactly where its encoding stands (section 4 of RFC 3629, section 2 of RFC 2781) |
| YamlUtf.NotWellFormed | v2rayNG/hev-socks5-tunnel/third-part/yaml/src/reader.c:200-410 | text that goes on with anything but an allowed character's encoding is not well-formed, whatever follows |
| YamlScanner.Scanner.FetchMoreTokens | v2rayNG/hev-socks5-tunnel/third-part/yaml/src/scanner.c:800-854 | a token is handed out only when nothing can be inserted in front of it; keys, indentation and block balance stay in order; a possible key for an old token was there before and still names it |
| YamlScanner.Scanner.FetchNextToken | v2rayNG/hev-socks5-tunnel/third-part/yaml/src/scanner.c:860-1048 | the same for one token; at the end of input outside flow context every block start has its end |
| YamlScanner.Scanner.FetchValue | v2rayNG/hev-socks5-tunnel/third-part/yaml/src/scanner.c:1683-1759 | KEY, and BLOCK-MAPPING-START if a mapping begins, go in front of the token that the key names, and VALUE to the end |
| YamlScanner.Scanner.InsertKey | v2rayNG/hev-socks5-tunnel/third-part/yaml/src/scanner.c:1692-1716 | the insertion lands inside the queue and changes no other possible key or the token it names |
| YamlScanner.Scanner.SaveSimpleKey | v2rayNG/hev-socks5-tunnel/third-part/yaml/src/scanner.c:1097-1128 | a key that may start here names the next token to be queued |
| YamlScanner.Scanner.StaleSimpleKeys | v2rayNG/hev-socks5-tunnel/third-part/yaml/src/scanner.c:1056-1091 | keys out of reach are given up, and it fails exactly if one of them was required |
| YamlScanner.Scanner.UnrollIndent | v2rayNG/hev-socks5-tunnel/third-part/yaml/src/scanner.c:1258-1285 | one BLOCK-END for each level that is deeper than the column |
| YamlScanner.Scanner.RollIndent | v2rayNG/hev-socks5-tunnel/third-part/yaml/src/scanner.c:1205-1249 | the levels stay strictly increasing, and each has its block start |
| YamlScanner.Scanner.FetchStreamEnd | v2rayNG/hev-socks5-tunnel/third-part/yaml/src/scanner.c:1329-1361 | outside flow context as many BLOCK-ENDs as block starts have been queued |
| YamlScanner.KeysInsert | v2rayNG/hev-socks5-tunnel/third-part/yaml/src/scanner.c:1205-1249 | an insertion behind all possible keys leaves their tokens in place |
| YamlScanner.BlocksInsert | v2rayNG/hev-socks5-tunnel/third-part/yaml/src/scanner.c:1205-1249 | a token that opens or closes no block can be inserted anywhere without unbalancing the blocks |
| YamlParser.Parser.StateMachine | v2rayNG/hev-socks5-tunnel/third-part/yaml/src/parser.c:225-306 | each call does what the state's production says, on the parser's own fields |
| YamlParser.Parser.Parse | v2rayNG/hev-socks5-tunnel/third-part/yaml/src/parser.c:169-189 | every event extends the part of the grammar that has been read; stacks are never popped when empty; no event comes behind an error or the end |
| YamlSafety.StepSound | v2rayNG/hev-socks5-tunnel/third-part/yaml/src/parser.c:225-1199 | every production, for every token stream, emits an event that the grammar allows next and leaves a state that fits, or fails |
| YamlRun.RunInGrammar | v2rayNG/hev-socks5-tunnel/third-part/yaml/src/parser.c:225-1199 | the events before any error are a prefix of STREAM-START (DOCUMENT-START node DOCUMENT-END)* STREAM-END with keys and values alternating, complete if there is no error |
| YamlRun.StepProgress | v2rayNG/hev-socks5-tunnel/third-part/yaml/src/parser.c:225-1199 | every production consumes a token or moves to a lighter state, so runs end |
| YamlRun.StreamEndMarked | v2rayNG/hev-socks5-tunnel/third-part/yaml/src/parser.c:342-437 | the end state is entered only with STREAM-END |
| YamlEvents.ReadableInGrammar | v2rayNG/hev-socks5-tunnel/third-part/yaml/src/parser.c:225-1199 | what can be read event by event is a prefix of the grammar |
| YamlEvents.GrammarReadable | v2rayNG/hev-socks5-tunnel/third-part/yaml/src/parser.c:225-1199 | and every sequence of the grammar can be read |
| YamlLoader.Loader.Load | v2rayNG/hev-socks5-tunnel/third-part/yaml/src/loader.c:86-132 | an assert of the loader fires if and only if an error is still recorded from an earlier call and the stream has not ended; a loaded document is a good graph with its root first, nothing open, and every node reached from the root; a failed call leaves the error recorded |
| YamlLoader.FailThenAbort | v2rayNG/hev-socks5-tunnel/third-part/yaml/src/loader.c:86-132 | the assert is reached: a call that finds no token fails and the next one aborts |
| YamlGraph.EventComposes | v2rayNG/hev-socks5-tunnel/third-part/yaml/src/loader.c:216-344 | with events in the order of the grammar no assert of the composer can fail, and its stack of collections is the grammar's |
| YamlGraph.RootedIsGood | v2rayNG/hev-socks5-tunnel/third-part/yaml/src/loader.c:216-258 | at DOCUMENT-END every stored id is in range and every pair has key and value |
| YamlCompose.DocumentComposes | v2rayNG/hev-socks5-tunnel/third-part/yaml/src/loader.c:184-543 | the imperative composer computes the recursive reference: one node for each node of the tree, ids in order, aliases resolved |
| YamlReload.LoadedIsNumbered | v2rayNG/hev-socks5-tunnel/third-part/yaml/src/loader.c:184-543 | a loaded graph is good, has the root event's node first, and numbers its nodes in the order of first visits from there, so all of them are reached |
| YamlDumper.Emitter.AnchorNode | v2rayNG/hev-socks5-tunnel/third-part/yaml/src/dumper.c:206-241 | counts references up to two and numbers anchors in the order of second visits, for cyclic graphs as well |
| YamlDumper.Emitter.DumpNode | v2rayNG/hev-socks5-tunnel/third-part/yaml/src/dumper.c:263-294 | emits a node at its first visit and an alias at every other |
| YamlDumper.Emitter.Dump | v2rayNG/hev-socks5-tunnel/third-part/yaml/src/dumper.c:111-160 | the events are those of the document's tree, or the end of the stream for an empty document |
| YamlDumper.DumpInGrammar | v2rayNG/hev-socks5-tunnel/third-part/yaml/src/dumper.c:111-160 | what is dumped continues the grammar by one document |
| YamlDump.AnchorNamesDiffer | v2rayNG/hev-socks5-tunnel/third-part/yaml/src/dumper.c:243-257 | different anchor ids have different names, so anchors are never duplicated |
| YamlDump.AnchorNameFits | v2rayNG/hev-socks5-tunnel/third-part/yaml/src/dumper.c:243-257 | every name fits the buffer of sixteen bytes with its NUL |
| YamlDump.AliasFound | v2rayNG/hev-socks5-tunnel/third-part/yaml/src/dumper.c:206-309 | every alias that is emitted finds the node it was made for |
| YamlRoundTrip.DumpThenLoad | v2rayNG/hev-socks5-tunnel/third-part/yaml/src/dumper.c:206-393 | loading what is dumped gives a graph isomorphic to the part reachable from the root, shared and cyclic nodes included |
| YamlRoundTrip.WholeIsReachable | v2rayNG/hev-socks5-tunnel/third-part/yaml/src/dumper.c:206-241 | what is dumped is exactly what can be reached from the root |
| YamlRoundTrip.TagsSurvive | v2rayNG/hev-socks5-tunnel/third-part/yaml/src/loader.c:374-543 | the tags survive if and only if no reachable node has the tag "!" |
| YamlReload.LoadDumpLoad | v2rayNG/hev-socks5-tunnel/third-part/yaml/src/dumper.c:206-393 | a document that has been loaded comes back from its dump with the same nodes, numbers, order and tags |

## Left out

- Sockets, TUN devices, lwIP, timers, the task scheduler and memory: their answers are parameters, and what happens to memory after a failed allocation is only modelled where the source handles it by returning.
- Tunnel.NoStopDropped: does not say that the event task is ever scheduled; it says that four of its steps are enough.
- MappedDns.HevMappedDNS.Handle: request and response buffers are different arrays, as the only caller passes them.
- UdpFraming.HevSocks5UDP.RecvmmsgTcp: the callers' buffers hold at least 252 bytes (they pass 1500); for shorter ones the size_t in the source would wrap around.
- UDP-in-UDP framing and the forwarding loops around the receive calls: one branch each.
- HandshakeSides.HevSocks5Server.Handshake: sends always succeed; a failing send ends the handshake on either side.
- Handshake.Outcome: a side that gives up on a read that times out is one that says nothing more. Safety covers such runs; Outcome is about runs in which nobody gives up.
- Object reference counts, class tables, loggers, configuration, JNI and the session limit of the tunnel.
- The text of scalars, tags, directives and comments: the scanner's input is a sequence of lexemes with their places, and each scalar is one lexeme.
- The emitter's text output and the writer's UTF-16 output: the dump and load round trip is stated on events.
- Out-of-memory returns of the YAML code, event marks, and the growth of its queues and stacks in api.c.
- YamlReader.Reader.UpdateBuffer: at most 6144 characters may be asked for at a time; the scanner asks for at most a few.
- The parser's events are not derived from a grammar of tokens; what is proved is that they always are in the grammar of events.
