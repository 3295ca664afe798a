# A verified model of the cps706 UDP name resolver

This project models, in Dafny, the name-resolution core of a small course project (a web client,
a web server and a home-made DNS over UDP):

- `src/Dns.java` — the resolver. It holds record tables (kind → name → value for A, V, CNAME and
  NS) and a map of pending delegations (name → `"orig:ip:port"` record of the waiting
  requester). A request is answered from the tables, chased through an alias, or handed to a
  name server. A later response to a delegated request resumes the waiting requester.
- `src/NewDns.java` — an earlier revision of the same resolver with a different alias and
  response policy. It shares the same wire codec.
- `src/dns/DNS.java`, `src/dns/DNSRequestTracker.java`, `src/dns/db/DNSDatabase.java` — a second,
  text-based server (`"request <url>"` packets), its tracker of pending requests and its
  case-lowering record database.
- `src/Client.java` — the client's pure helpers: the literal-IP test, file-name helpers, URL
  normalisation, how a resolver reply is read, and where `get` connects.

Files and modules:

| file | module | contents |
|---|---|---|
| `java_text.dfy` | `JavaText` | the `java.lang.String` / `Integer` operations the code relies on: `indexOf`, `lastIndexOf`, `trim`, `split` on one character (trailing empty strings dropped), ASCII `toLowerCase`, `%d`, `Integer.parseInt` |
| `codec.dfy` | `Codec` | payload bytes of `createRequest` / `createResponse`, the reused 1026-byte receive buffer, `findNIndex`, `parseUrl` / `parseType` / `parseValue`, the `"orig:ip:port"` record, `"host[:port]"` endpoints, outbound datagrams |
| `record_tables.dfy` | `RecordTables` | `getNsDomain`, the reference "first hit" reading of a lookup, and the two branches both resolvers share (answer the requester, delegate) |
| `dns_server.dfy` | `DnsServer` | `Dns.java`: each handler as a function returning a `Step`, lemmas about them, and the class `Dns` whose methods move its fields exactly as those functions say |
| `new_dns_server.dfy` | `NewDnsServer` | the same for `NewDns.java` |
| `comparison.dfy` | `Revisions` | how the two resolvers differ on the same records, and what the client makes of each one's delegated answer |
| `client.dfy` | `WebClient` | `Client.java`'s helpers |
| `request_tracker.dfy` | `RequestTracker` | `DNSRequestTracker` as a class over a map |
| `database.dfy` | `DnsDatabase` | `DNSDatabase` as a class over a map, plus the loader's lower-casing |
| `dns_package.dfy` | `DnsPackage` | `dns/DNS.java`: packet classification, host-name extraction, and the server class |

How state and failure are modelled:

- **Sent datagrams.** Every datagram a server sends is appended to a `sent` sequence.
- **Escaping exceptions.** An exception that escapes a resolver's receive loop ends the loop. Examples: a requester record that does not parse, a port outside 0..65535, the `NullPointerException` in `NewDns.handleResponse`, a receive failure in `Dns.run`. The class sets `halted` and from then on does nothing.
- **Handler functions.** Each handler's function returns `Step(requests, out, crashed)`.
- **Alias recursion.** Recursion through aliases carries the set of names the Java call stack is already processing. Meeting one of them again is the `StackOverflowError` of an alias cycle, and it also ends the loop. The recursion is therefore total, with no fuel and no acyclicity precondition.
- **Bytes and text.** Bytes and text convert as US-ASCII.

Behaviour worth knowing, modelled as the code has it:

- Dns.java chases an alias whenever its target has *any* local result (A, V, CNAME or NS), not only an A record (`src/Dns.java:180`).
- A delegated A answer is sent with the response value in the type field (`src/Dns.java:222`), not with `"A"`. `Revisions.DnsDelegatedAnswerRejected` shows that the client then rejects the answer.
- A receive failure in `Dns.run` throws and ends the loop (`src/Dns.java:113`); it is not logged and skipped.
- An unparsable requester record or a bad NS port is fatal, not dropped.

## Model

| member | source | states |
|---|---|---|
| JavaText.IndexOf | src/Dns.java:260 | -1 exactly when the character is absent; otherwise its first position |
| JavaText.LastIndexOf | src/Client.java:223 | -1 exactly when the character is absent; otherwise its last position |
| JavaText.Trim | src/Dns.java:348 | the input with its leading and trailing blanks (characters up to ' ') removed and nothing else: empty for an all-blank text, otherwise the slice from the first to the last non-blank, so it starts and ends with a non-blank |
| JavaText.TrimStripsBlankEnds | src/Dns.java:348 | for any blanks around any text that starts and ends with a non-blank, trim gives back exactly that text |
| JavaText.TrimDropsTrailingBlanks | src/Dns.java:348 | trimming a text that starts and ends with a non-blank, followed by blanks, gives back that text |
| JavaText.Pieces | src/Dns.java:160 | at least one piece, no piece contains the separator, and exactly one piece when the separator is absent |
| JavaText.PiecesOfJoin | src/Dns.java:160 | splitting pieces glued with the separator gives back the pieces |
| JavaText.JoinOfPieces | src/dns/DNS.java:121 | gluing the pieces of a text gives back the text |
| JavaText.LastPieceNotEmpty | src/dns/DNS.java:121 | a text that does not end in the separator has a non-empty last piece |
| JavaText.DropTrailingEmpty | src/Dns.java:160 | keeps a prefix, removes only empty strings, and leaves no empty string at the end |
| JavaText.Split | src/Dns.java:160 | String.split on one character: no token contains it, and a text without it is a single token |
| JavaText.SplitJoinsBack | src/dns/DNS.java:121 | split of a text not ending in the separator loses nothing: at least one token, and the tokens join back to the text |
| JavaText.SplitOfJoin | src/Dns.java:160-164 | split gives back any two or more separator-free pieces whose last one is not empty |
| JavaText.ToLower | src/dns/db/DNSDatabase.java:23 | same length, each character lower-cased on its own |
| JavaText.NatToString | src/Dns.java:144 | %d of a non-negative number is one or more digits |
| JavaText.NatToStringValue | src/Dns.java:144 | reading the digits back gives the number |
| JavaText.ParseInt | src/Dns.java:164 | Integer.parseInt: a value exactly when the text is an optional sign and one or more digits whose signed value lies in the int range, and then that value; otherwise the NumberFormatException |
| JavaText.ParseIntOfNatToString | src/Dns.java:164 | parseInt inverts %d on the int range |
| Codec.Bytes | src/Dns.java:314 | getBytes: one byte per character, the character's code for ASCII |
| Codec.Text | src/Dns.java:348 | new String: one character per byte |
| Codec.FieldBytes | src/Dns.java:334 | a printable-ASCII field has no space byte, reads back unchanged, and has nothing trim removes |
| Codec.EncodeRequest | src/Dns.java:314 | the payload is the tag byte 2 and one byte per url character; a printable url leaves no space byte and reads back unchanged |
| Codec.EncodeResponse | src/Dns.java:334 | the payload is the tag byte 1 and the three fields with two separators; for printable fields the only spaces are right after the url and right after the type |
| Codec.Zeros | src/Dns.java:127 | k bytes, all zero |
| Codec.Frame | src/Dns.java:106-127 | the reused buffer after a receive: exactly 1026 bytes, the datagram followed by the zeros of the previous fill |
| Codec.NthIndex | src/Dns.java:384-391 | -1 or an index inside the data |
| Codec.NthIndexCounts | src/Dns.java:384-391 | findNIndex gives -1 exactly when there are at most max(nth, 0) matches, and otherwise a match with exactly max(nth, 0) matches before it |
| Codec.NthIndexOrdered | src/Dns.java:384-391 | if the (n+2)-th match exists, so does the (n+1)-th, and it comes first |
| Codec.NthIndexSkip | src/Dns.java:384-391 | a match-free prefix only shifts the result |
| Codec.FindNIndex | src/Dns.java:384-391 | the counting-down loop returns the NthIndex of its inputs |
| Codec.NoMatchBeforeFirst | src/Dns.java:384-391 | no match precedes the first one findNIndex reports, and with none reported there is no match at all |
| Codec.NoMatchInGap | src/Dns.java:384-391 | no match lies between the (n+1)-th and the (n+2)-th reported match, or the end |
| Codec.BetweenWithoutSpace | src/Dns.java:348 | copying a range without a space byte and trimming it gives a text without a space |
| Codec.EndIndex | src/Dns.java:358-373 | a field's end lies in the buffer and never before the previous space, so copyOfRange never throws in parseType or parseValue |
| Codec.UrlField | src/Dns.java:345-349 | what parseUrl computes never holds a space and is trimmed |
| Codec.TypeField | src/Dns.java:356-362 | what parseType computes never holds a space, even without any space in the buffer, and is trimmed |
| Codec.ValueField | src/Dns.java:369-375 | what parseValue computes is trimmed, and holds no space when the buffer has at least two |
| Codec.OneSpaceFields | src/Dns.java:356-375 | with exactly one space in the buffer, parseType gives the trimmed text after it, and parseValue, whose copy then starts at index 0, the whole buffer trimmed |
| Codec.ParseUrl | src/Dns.java:345-349 | parseUrl returns the url field: from after the tag to the first space or the end, trimmed |
| Codec.ParseType | src/Dns.java:356-362 | parseType returns the type field: between the first and second space (or the end), trimmed |
| Codec.ParseValue | src/Dns.java:369-375 | parseValue returns the value field: between the second and third space (or the end), trimmed |
| Codec.ZeroFill | src/Dns.java:127 | Arrays.fill leaves every byte of the buffer zero |
| Codec.TrimFieldThenZeros | src/Dns.java:348 | a field followed by zero padding trims back to the field |
| Codec.RequestFrameRoundTrip | src/Dns.java:314 | parseUrl of a request payload 0x02 url on a zero-filled buffer gives the url back |
| Codec.BytesOfResponse | src/Dns.java:334 | the response text's bytes are the fields' bytes separated by space bytes |
| Codec.SpacePositions | src/Dns.java:384-391 | in a b c with space-free parts the first two spaces are found after a and after b, and there is no third |
| Codec.ResponseFrameLayout | src/Dns.java:334 | the response payload 0x01 url type value in a zero-filled buffer has its spaces right after the url and the type |
| Codec.BetweenOfField | src/Dns.java:348 | copying and trimming exactly a field's bytes gives the field |
| Codec.BetweenOfPaddedField | src/Dns.java:374 | copying and trimming a field's bytes plus zero padding gives the field |
| Codec.ResponseUrl | src/Dns.java:345-349 | parseUrl recovers the url of a response payload |
| Codec.ResponseKind | src/Dns.java:356-362 | parseType recovers the type of a response payload |
| Codec.ResponseValue | src/Dns.java:369-375 | parseValue recovers the value of a response payload |
| Codec.ResponseFrameRoundTrip | src/Dns.java:328-375 | a response payload in a zero-filled buffer parses back to its three fields |
| Codec.RequestInBuffer | src/Dns.java:106-119 | a request datagram that fits the buffer arrives with tag 2 and its url |
| Codec.ResponseInBuffer | src/Dns.java:106-123 | a response datagram that fits arrives with tag 1 and its three fields |
| Codec.RequestRecord | src/Dns.java:144 | the "url:ip:port" record splits on ':' into exactly url, ip and the port's digits when url and ip hold no ':' |
| Codec.ParseRecord | src/Dns.java:160-164 | a parsed requester's url and ip contain no ':' |
| Codec.RecordRoundTrip | src/Dns.java:144 | the "orig:ip:port" record splits back into the same triple when url and ip contain no ':' |
| Codec.HostPort | src/Dns.java:187-193 | a value without ':' is a host on the default port; a host read from "host:port" has no ':' |
| Codec.HostPortExplicit | src/Dns.java:189-193 | "host:port" reads back as that host and port, not the default |
| Codec.RequestDatagram | src/Dns.java:308-316 | a request for the url to a port in 0..65535 or nothing (createRequest throws); for a destination without ':' exactly that host and port, present exactly when the port is valid |
| Codec.ResponseDatagram | src/Dns.java:328-338 | a response carrying the url, type and value to a valid port or nothing; for a destination without ':' the host with one leading '/' dropped and that port, present exactly when the port is valid |
| RecordTables.Parent | src/Dns.java:260 | without a '.', the whole name; otherwise the text after the first '.', whose prefix holds no '.' |
| RecordTables.NsDomain | src/Dns.java:254-264 | the exact name's NS value first, else its parent's, and nothing exactly when both are missing |
| RecordTables.NsDomainSingleLabel | src/Dns.java:254-258 | a name without a '.' is looked up exactly and nowhere else |
| RecordTables.NsDomainStripsOneLabel | src/Dns.java:259-263 | for first.rest, only first.rest and rest are tried, never any further ancestor |
| RecordTables.Get | src/Dns.java:238-243 | containsKey plus get: a value exactly when the name is present |
| RecordTables.FirstHit | src/Dns.java:236-247 | the first probe that has a value, and nothing only when every probe misses |
| RecordTables.Reply | src/Dns.java:291-298 | sendResponse: the pending map is unchanged, and one response goes to the requester (leading '/' dropped) with the original url, unless the port is out of range, which is fatal |
| RecordTables.Delegate | src/Dns.java:185-197 | the NS branch: a bad "host:port" is fatal; otherwise the record is pending under the name (replacing any earlier one) and one request for the name goes to host:port |
| RecordTables.DelegateDefaultPort | src/Dns.java:187-188 | a server without a port is asked on this server's port |
| RecordTables.DelegateExplicitPort | src/Dns.java:189-193 | "host:port" sends to that port |
| DnsServer.LocalUrlLookup | src/Dns.java:236-247 | every hit is backed by its table (NS by getNsDomain), and its kind is A, V, CNAME or NS |
| DnsServer.LookupIsFirstHit | src/Dns.java:236-247 | localUrlLookup is the first hit in the order A, V, CNAME, NS, and null only when all four miss |
| DnsServer.Process | src/Dns.java:156-199 | processRequest sends at most one datagram and nothing when it throws; an unparsable record is fatal with no change; no pending entry is dropped, and every entry is kept or now holds this record |
| DnsServer.Serve | src/Dns.java:137-147 | handleRequest keeps every pending entry and sends at most one datagram; for a url and sender address without ':' and an int port, unless fatal exactly one goes out: an answer about that url to the sender's address and port, or a delegation with the sender's record pending |
| DnsServer.Respond | src/Dns.java:208-229 | handleResponse sends at most one datagram, nothing when it throws; a response nobody waits for is a no-op; every other waiting requester keeps waiting |
| DnsServer.Dispatch | src/Dns.java:116-127 | the tag switch: at most one datagram, none when fatal; a request never drops a pending entry; any other tag is a no-op |
| DnsServer.Handle | src/Dns.java:107-128 | one turn of run: at most one datagram, none when the loop ends; a receive failure ends the loop with nothing changed |
| DnsServer.ProcessShape | src/Dns.java:156-199 | for any tables and any alias chain: a bad record is fatal with nothing sent; otherwise, unless fatal, exactly one datagram goes out, either an A, alias or NONE answer to the stored requester with the pending map unchanged, or a request with the record pending under its name |
| DnsServer.UnknownNameAnsweredNone | src/Dns.java:166-170 | no local result: exactly one (orig, NONE, NONE) response and no pending entry |
| DnsServer.AHitAnswered | src/Dns.java:173-176 | an A hit: exactly one (orig, "A", value) response, pending map unchanged |
| DnsServer.AliasChased | src/Dns.java:177-181 | a V or CNAME hit whose target resolves locally continues with the target, same record |
| DnsServer.AliasAnswered | src/Dns.java:182-183 | a V or CNAME hit whose target has no local result answers (orig, kind, target) |
| DnsServer.NsHitDelegates | src/Dns.java:185-197 | an NS hit puts the record under the name and sends one request for it to the name server |
| DnsServer.SelfAliasOverflows | src/Dns.java:180-181 | a name that is its own V alias recurses until the stack overflows |
| DnsServer.StaleResponseIgnored | src/Dns.java:210-211 | a response nobody waits for changes nothing and sends nothing |
| DnsServer.DelegatedAnswerCarriesValueAsType | src/Dns.java:220-223 | an A response is forwarded as (orig, value, value), and the entry is removed |
| DnsServer.NonAResponseResumes | src/Dns.java:224-227 | any other response type resumes processRequest on the value with the same record, the entry removed |
| DnsServer.RepeatedResponseIsNoOp | src/Dns.java:208-229 | after a response has been handled, the same response again is a no-op unless the resumed request was delegated again |
| DnsServer.LocalAnswerReturnsToSender | src/Dns.java:137-147 | a request from "/ip" for a name with an A record is answered to ip, on its port, with ("A", address) |
| DnsServer.RequestDatagramServed | src/Dns.java:116-119 | a request datagram reaches handleRequest with its url |
| DnsServer.ResponseDatagramRouted | src/Dns.java:121-123 | a response datagram reaches handleResponse with its three fields |
| DnsServer.OtherTagsIgnored | src/Dns.java:116-127 | an empty datagram or another tag byte has no effect |
| DnsServer.Dns.constructor | src/Dns.java:49-52 | the tables as given, nothing pending or sent, a zeroed 1026-byte buffer |
| DnsServer.Dns.SendResponse | src/Dns.java:291-298 | appends the createResponse datagram, or halts when createResponse throws |
| DnsServer.Dns.SendRequest | src/Dns.java:273-280 | appends the createRequest datagram, or halts when createRequest throws |
| DnsServer.Dns.ProcessRequest | src/Dns.java:156-199 | pending map, sent datagrams and halted flag move exactly as processRequest's step says |
| DnsServer.Dns.HandleRequest | src/Dns.java:137-147 | the same for handleRequest, with the "url:ip:port" record built from the sender |
| DnsServer.Dns.HandleResponse | src/Dns.java:208-229 | the same for handleResponse |
| DnsServer.Dns.Receive | src/Dns.java:107-128 | one turn of run: the step of the dispatched handler, and the buffer is zero again whenever the loop goes on |
| NewDnsServer.LocalUrlLookup | src/NewDns.java:159-170 | hits backed by the A, CNAME or NS tables; no V kind |
| NewDnsServer.LookupIsFirstHit | src/NewDns.java:159-170 | the first hit in the order A, CNAME, NS, and null only when all miss |
| NewDnsServer.Process | src/NewDns.java:82-134 | handleRequest sends at most one datagram and nothing when it throws; an unparsable record is fatal with no change; no pending entry is dropped, and every entry is kept or now holds this record |
| NewDnsServer.Serve | src/NewDns.java:72-80 | keeps every pending entry; for a url and sender address without ':' and an int port, unless fatal exactly one datagram goes out: an answer about that url to the sender, or a delegation with the sender's record pending |
| NewDnsServer.Respond | src/NewDns.java:136-157 | at most one datagram, none when it throws; with nobody waiting, an A or CNAME response dereferences null and is fatal, any other is a no-op that sends nothing; every other waiting requester keeps waiting |
| NewDnsServer.Dispatch | src/NewDns.java:57-67 | the tag switch: at most one datagram, none when fatal; a request never drops a pending entry; any other tag is a no-op |
| NewDnsServer.Handle | src/NewDns.java:47-69 | one turn of run: at most one datagram, none when the loop ends; a receive failure changes nothing and the loop goes on |
| NewDnsServer.ProcessShape | src/NewDns.java:82-134 | as for Dns, except that an answer is only ever A or NONE: an alias is never returned |
| NewDnsServer.DanglingAliasAnswersNone | src/NewDns.java:112-115 | a CNAME whose target has no local result ends in (orig, NONE, NONE) |
| NewDnsServer.AHitAnswered | src/NewDns.java:102-111 | an A hit sends (orig, "A", value), pending map unchanged |
| NewDnsServer.NsHitDelegates | src/NewDns.java:116-132 | an NS hit stores the record and sends one request to host:port or PORT |
| NewDnsServer.ResponseWithoutPendingCrashes | src/NewDns.java:136-155 | an A or CNAME response with nothing pending dereferences null and ends the loop |
| NewDnsServer.OtherResponseDropsRequester | src/NewDns.java:136-157 | an NS or NONE response sends nothing but still removes the entry, so the requester is never answered |
| NewDnsServer.DelegatedAnswerCarriesA | src/NewDns.java:139-152 | an A response is forwarded as (orig, "A", value) |
| NewDnsServer.CnameResponseResumes | src/NewDns.java:153-155 | a CNAME response resumes handleRequest on its value for the same requester |
| NewDnsServer.ReceiveFailureContinues | src/NewDns.java:49-55 | a receive failure changes nothing and the loop goes on |
| NewDnsServer.ResponseDatagramRouted | src/NewDns.java:62-65 | a response datagram reaches handleResponse with its three fields |
| NewDnsServer.NewDns.constructor | src/NewDns.java:29-32 | the tables as given, nothing pending or sent, a zeroed buffer |
| NewDnsServer.NewDns.SendResponse | src/NewDns.java:105-110 | appends the createResponse datagram, or halts when it throws |
| NewDnsServer.NewDns.SendRequest | src/NewDns.java:126-131 | appends the createRequest datagram, or halts when it throws |
| NewDnsServer.NewDns.HandleRequest | src/NewDns.java:82-134 | fields move exactly as handleRequest's step says |
| NewDnsServer.NewDns.HandlePacket | src/NewDns.java:72-80 | the same, with the record built from the sender |
| NewDnsServer.NewDns.HandleResponse | src/NewDns.java:136-157 | the same for handleResponse |
| NewDnsServer.NewDns.Receive | src/NewDns.java:47-69 | one turn of run, the buffer zero again afterwards |
| Revisions.LookupsAgree | src/NewDns.java:159-170 | without V records the two lookups coincide |
| Revisions.ProcessDiffersOnlyAtDanglingAlias | src/Dns.java:177-184 | without V records the two revisions take the same step, except where Dns answers with a CNAME whose target has no record; there NewDns answers NONE to the same requester |
| Revisions.DnsDelegatedAnswerRejected | src/Dns.java:222 | the client accepts Dns's delegated A answer only when the address is literally "A" |
| Revisions.NewDnsDelegatedAnswerAccepted | src/NewDns.java:147 | the client accepts NewDns's delegated A answer as the address |
| WebClient.NewClient | src/Client.java:36-41 | the settings as given, with the client's own DNS port equal to the server's |
| WebClient.OctetPattern | src/Client.java:196-200 | a group the regex alternative accepts is one to three digits |
| WebClient.IsIp | src/Client.java:195-203 | a literal IP has four groups, so it contains '.' and is 7 to 15 characters long |
| WebClient.ShortDigitsValue | src/Client.java:197 | the value of one to three digits |
| WebClient.OctetPatternValue | src/Client.java:196-200 | a group matches the regex exactly when it is one to three digits of value at most 255 |
| WebClient.SmallNatDigits | src/Client.java:197 | numbers up to 255 print as one to three digits |
| WebClient.DottedQuadIsIp | src/Client.java:195-203 | any a.b.c.d printed from numbers up to 255 passes isIp |
| WebClient.GetExtension | src/Client.java:221-226 | ".txt" without a '.', else the suffix from the last '.', which holds no other '.' |
| WebClient.GetLocalFileName | src/Client.java:210-214 | "downloaded_" and the file with one leading '/' removed |
| WebClient.ToUrl | src/Client.java:65-72 | always starts with "http://", prefixing only when it is missing |
| WebClient.ToUrlIdempotent | src/Client.java:68 | normalising twice is normalising once |
| WebClient.DnsLookup | src/Client.java:178-188 | "localhost" without a query; otherwise the value exactly when the reply's type is "A", failure otherwise |
| WebClient.Destination | src/Client.java:81-108 | the URL port unless -1 (then the web port), a literal IP as is and any other host through dnsLookup, "/" for an empty path |
| WebClient.LiteralIpBypassesDns | src/Client.java:85-92 | for a literal IP the resolver's reply does not matter |
| WebClient.AnswerAccepted | src/Client.java:185-186 | a reply ("A", address) gives the address |
| WebClient.OtherTypeRejected | src/Client.java:185-187 | a reply of any other type fails |
| RequestTracker.Rekeyed | src/dns/DNSRequestTracker.java:35-38 | to holds what from held (null if absent), from is gone when it differs from to, no other key changes |
| RequestTracker.RekeyedSameKey | src/dns/DNSRequestTracker.java:36-37 | re-keying a name to itself keeps its request |
| RequestTracker.RekeyedBack | src/dns/DNSRequestTracker.java:35-38 | moving to a free name and back restores the map |
| RequestTracker.Tracker.constructor | src/dns/DNSRequestTracker.java:18-20 | a new tracker is empty |
| RequestTracker.Tracker.UpdateRequest | src/dns/DNSRequestTracker.java:35-38 | the map is re-keyed, and the result is what to held before (null when from equals to) |
| RequestTracker.Tracker.AddRequest | src/dns/DNSRequestTracker.java:40-42 | url now maps to the request, and the result is the previous mapping |
| DnsDatabase.Find | src/dns/db/DNSDatabase.java:22-24 | the entry under the lower-cased name, else the empty entry, never null |
| DnsDatabase.LowerHasNoUpper | src/dns/db/DNSDatabase.java:23 | a lower-cased name has no upper-case letter |
| DnsDatabase.LowerIdempotent | src/dns/db/DNSDatabase.java:23 | lower-casing twice is lower-casing once |
| DnsDatabase.UppercaseKeyNeverFound | src/dns/db/DNSDatabase.java:18-24 | an entry stored under a name with an upper-case letter affects no lookup |
| DnsDatabase.FindIgnoresCase | src/dns/db/DNSDatabase.java:23 | a name and its lower-case form find the same entry |
| DnsDatabase.Loaded | src/dns/DNS.java:64-76 | the loaded names are exactly the lower-cased first tokens of the lines |
| DnsDatabase.LoadedIsLowerCase | src/dns/DNS.java:70-73 | every loaded entry sits under its own lower-case name and is lower case throughout |
| DnsDatabase.LoadedLineFound | src/dns/DNS.java:64-76 | a loaded line is found under any casing of its name unless a later line has the same name |
| DnsDatabase.Database.constructor | src/dns/db/DNSDatabase.java:14-16 | a new database is empty |
| DnsDatabase.Database.AddEntry | src/dns/db/DNSDatabase.java:18-20 | stores DBEntry(url, type, entry) under url verbatim and returns the previous entry |
| DnsDatabase.Database.FindEntry | src/dns/db/DNSDatabase.java:22-24 | a read of the current map, never null |
| DnsDatabase.Populate | src/dns/DNS.java:64-76 | the loop builds exactly the lower-cased map of the lines |
| DnsPackage.ReceiveBuffer | src/dns/DNS.java:84-87 | a 1500-byte buffer, the datagram followed by zeros |
| DnsPackage.ParsedDataFrom | src/dns/DNS.java:118-122 | no token contains a space |
| DnsPackage.ParsedDataJoinsBack | src/dns/DNS.java:118-122 | at least one token, and the tokens joined with spaces are the trimmed text |
| DnsPackage.PacketType | src/dns/DNS.java:124-137 | REQUEST exactly for two or more tokens starting "request", RESPONSE exactly for "response", MALFORMED otherwise |
| DnsPackage.JoinOfWords | src/dns/DNS.java:118-122 | words of printable ASCII joined with spaces start and end with a non-blank |
| DnsPackage.WordsRoundTrip | src/dns/DNS.java:118-122 | a packet of such words, padded with zeros, parses back to the words |
| DnsPackage.RequestRecognised | src/dns/DNS.java:124-137 | "request url" is classified as a request whose second token is url |
| DnsPackage.EmptyBufferMalformed | src/dns/DNS.java:84-92 | the zero buffer handled after a failed receive is malformed |
| DnsPackage.HostName | src/dns/DNS.java:186-195 | a value exactly when there are two or more labels; a name without '.' has none |
| DnsPackage.HostNameOfLabels | src/dns/DNS.java:186-195 | for labels l1...ln (n at least 2, ln not empty) the result is l(n-1).ln |
| DnsPackage.HostNameIdempotent | src/dns/DNS.java:186-195 | the host name of a host name is itself |
| DnsPackage.Server.constructor | src/dns/DNS.java:54-58 | an empty tracker and the loaded database |
| DnsPackage.Server.HandleReceivedRequest | src/dns/DNS.java:139-158 | exactly one answer with findEntry's entry goes to the sender; the tracker is untouched |
| DnsPackage.Server.StartRecursiveQuery | src/dns/DNS.java:197-213 | the request is recorded under its url, then one query goes to the NS entry's host on this port |
| DnsPackage.Server.HandleReceivedPacket | src/dns/DNS.java:97-116 | a request packet is answered with the entry for its second token; responses (handleReceivedResponse, 215-216) and malformed packets send nothing |
| DnsPackage.Server.Receive | src/dns/DNS.java:83-94 | a failed receive sends nothing; otherwise the packet in the 1500-byte buffer is handled |

## Left out

- Sockets and datagram I/O are not modelled. The endless receive loops are modelled one turn at a time (`Receive`), and sent datagrams are appended to `sent`.
- Host-name resolution (`InetAddress.getByName`) is not modelled. Its `UnknownHostException` is an `IOException` that the send helpers catch, so every host is treated as resolvable.
- `readRecordsFromFile` in `src/Dns.java` is not modelled. The tables are a constructor argument, and the constructor requires all the kind tables the resolver reads. Without one, `localUrlLookup` would throw.
- `Dns.request` and `NewDns.request` are not modelled: they are a socket round trip with a timeout. `WebClient.DnsLookup` takes the reply buffer as a parameter, with None for a failed exchange.
- `Client.run`, `Client.get` after its choice of host, port and path (TCP, streams, `pipe`, `readString`, `Desktop`), and `new URL(...)` parsing are not modelled. `ToUrl`, `GetExtension`, `GetLocalFileName` and `Destination` take the URL's parts as strings.
- `src/Web.java` and `src/Main.java` are not part of this model.
- `dns/DNS.java`'s unreachable branches are not modelled: `getNameServerRecordForUrl`, `sendNoneResponse` and the NS / NONE branches of `handleReceivedRequest`. `findEntry` never returns null, so these are never taken.
- `dns/DNS.java` calls a `DNSRequest(data, address, port)` constructor and `getUrl` / `packetFormattedRequest` / `DNSResponse(entry)` members that the protocol classes lack. Requests are modelled as `RequestTracker.DnsRequest(url, senderIp, senderPort)`, with the url taken as the packet's second token. Outbound packets are `DnsPackage.Packet` values rather than bytes.
- The StringTokenizer / Scanner line reading of the loaders, and the `NoSuchElementException` on a short line, are not modelled. The loader takes already tokenised triples.
- Charsets other than US-ASCII, logging and `printf` are not modelled.
- JavaText.ToLower: lower-cases ASCII letters only. Java's `toLowerCase()` also lowers non-ASCII letters, and it uses the default locale: under a Turkish or Azerbaijani locale 'I' becomes a dotless 'ı'. The case-insensitivity lemmas (`DnsDatabase.FindIgnoresCase`, `DnsDatabase.LoadedLineFound`) hold for this ASCII, locale-neutral reading.
- JavaText.ParseInt: accepts ASCII digits only. `Integer.parseInt` also accepts other Unicode decimal digits.
- `NewDns.run`'s failure to open its socket is not modelled. The socket stays null, and the next receive throws.
- Codec.FindNIndex, Codec.ParseUrl, Codec.ParseType, Codec.ParseValue: they take the buffer's contents as a sequence rather than the array, because they only read it. `Receive` passes `buff[..]`.
- DnsServer.Dns.constructor: `run` allocates the receive buffer when it starts. The model allocates it, zeroed, at construction, which is the same state the loop starts in.
