# Smack: Stream Management decoders and the dummy test connection

A Dafny model of two independent pieces of the Smack XMPP client library.

**`ParseStreamManagement`** decodes the XEP-0198 (Stream Management)
elements a server sends: `<enabled/>` (section 3 of XEP-0198), `<failed/>`,
`<resumed/>` (section 5) and the acknowledgement `<a h=".."/>` (section 4),
reading them from an XML pull parser. Here the parser is a sequence of
events (`StartTag(name, namespace, attributes)`, `EndTag(name)`,
`Text(text)`) and a cursor index into it; the index `|events|` stands for
the end of the document, and `parser.next()` is "cursor + 1". Each decoder
takes the events and the cursor and returns a `Step`: either the decoded
value or a `DecodeError` (not at a start tag, not at an end tag, a missing
or malformed attribute, the end of the events), together with the cursor
it leaves behind.

- `DecodeEnabled` reads `resume` (default false), `id`, `location` and
  `max` (default -1), advances once and requires an end tag there.
- `DecodeFailed` is the source's event loop, written as a `while` loop over
  the cursor. It is proved against a specification: the condition is the
  name of the last start tag in the stanza-error namespace
  (`urn:ietf:params:xml:ns:xmpp-stanzas`) before the first end tag named
  `failed`, or the placeholder `"unkown"` when there is none, and the
  cursor stops on that end tag.
- `DecodeResumed` and `DecodeAckAnswer` read the mandatory `h` (a Java
  `long`) and, for `resumed`, the optional `previd`, without moving the
  cursor.

Renderers (`EnabledEvents`, `ResumedEvents`, `AckAnswerEvents`) write an
element back as events. The round-trip lemmas show that decoding what was
rendered gives back every field. Numbers are read and written as Java's
`Integer.valueOf`, `Long.valueOf` and `toString` do (module `Decimal`).

**`DummyConnection`** is the connection used by Smack's unit tests. It is
a class with the fields `authenticated`, `anonymous`, `reconnect`, `user`,
`connectionID`, `roster` and the outbound `queue` (a `seq`). Its methods
change these fields as the Java methods do:
- `Login` and `LoginAnonymously` are refused once authenticated;
- `Shutdown` resets everything except the queue and sets the sticky
  `reconnect` flag;
- `ConnectInternal` sets a new connection id and, once `reconnect` is set,
  announces a reconnection;
- `GetRoster`, `GetUser` and `GetConnectionID` fill their fields lazily;
- sending appends to the queue, and `GetSentPacket` takes from its front.

The callbacks the base class's listeners and collectors receive are kept
in a ghost log, `notifications`. The invariant `Valid()` holds across all
operations: anonymous implies authenticated, a named login has a user and
a roster, and a connection id starts with `dummy-`. Apart from
`GetConnectionID`, whose result is a `dummy-` id because of it, no
contract depends on `Valid()`: it is an invariant the operations
preserve.

Inputs the code takes from outside are parameters:
- the random draw behind a connection id is an `Int32` nonce;
- the registered connection listeners, packet collectors and packet
  listeners belong to the base class `AbstractXMPPConnection`, which is
  not part of this model. Each is passed in as the sequence that the
  method's loop visits.

Details of the code that the model keeps:
- The code spells the placeholder condition `"unkown"`.
- The code reads `h` as a signed 64-bit Java `long`, so a negative `h` is
  accepted, although XEP-0198 defines `h` as unsigned.
- `enabled` checks only that the event after the start tag is an end tag,
  not that this end tag is named `enabled`.
- Packet listeners are visited in the iteration order of the base class's
  listener map, which is not necessarily their registration order.

## Model

| member | source | states |
|---|---|---|
| `StreamManagement.DecodeEnabled` | smack-tcp/src/main/java/org/jivesoftware/smack/tcp/sm/provider/ParseStreamManagement.java:32-41 | fails with NotAtStartTag, cursor unmoved, unless at a start tag; on success the cursor advanced exactly once onto an end tag; `id` and `location` are the attributes verbatim (absent is None); absent `resume` gives false and absent `max` gives -1, present ones are their parsed values; with readable attributes it succeeds exactly when the next event is an end tag, and fails with NotAtEndTag otherwise; a child element or text after the start tag makes it fail |
| `StreamManagement.EnabledRoundTrip` | smack-tcp/src/main/java/org/jivesoftware/smack/tcp/sm/provider/ParseStreamManagement.java:32-41 | decoding a rendered `<enabled/>` (any id, resume, location, and any 32-bit max) returns that value field for field, with the cursor on the end tag |
| `StreamManagement.FirstFailedEnd` | smack-tcp/src/main/java/org/jivesoftware/smack/tcp/sm/provider/ParseStreamManagement.java:58-62 | the index found is an end tag named `failed` with no such end tag between the start and it; None means there is none up to the end of the events |
| `StreamManagement.LastConditionIndex` | smack-tcp/src/main/java/org/jivesoftware/smack/tcp/sm/provider/ParseStreamManagement.java:51-56 | None exactly when no start tag in the error namespace occurs; otherwise the index of such a tag with none after it (the last match) |
| `StreamManagement.ConditionSnoc` | smack-tcp/src/main/java/org/jivesoftware/smack/tcp/sm/provider/ParseStreamManagement.java:51-56 | one more event changes the condition only if it is an error-namespace start tag, and then to that tag's name (the loop body's assignment) |
| `StreamManagement.DecodeFailed` | smack-tcp/src/main/java/org/jivesoftware/smack/tcp/sm/provider/ParseStreamManagement.java:43-68 | NotAtStartTag unless at a start tag; otherwise, if an end tag named `failed` follows, the result is `Failed(XmppError(c))` where c is the name of the last error-namespace start tag before the first such end tag (or `"unkown"`), and the cursor is on that end tag; other end tags do not stop the scan; with no such end tag, EndOfEvents at the end of the document |
| `StreamManagement.LastConditionWins` | smack-tcp/src/main/java/org/jivesoftware/smack/tcp/sm/provider/ParseStreamManagement.java:48-65 | if the error-namespace start tag at j has none after it, the condition is its name, whatever came before |
| `StreamManagement.NoConditionIsUnknown` | smack-tcp/src/main/java/org/jivesoftware/smack/tcp/sm/provider/ParseStreamManagement.java:46 | with no error-namespace start tag, the condition is the placeholder `"unkown"` |
| `StreamManagement.UnknownIsNotAStanzaCondition` | smack-tcp/src/main/java/org/jivesoftware/smack/tcp/sm/provider/ParseStreamManagement.java:46 | the placeholder is none of the conditions defined in section 8.3.3 of RFC 6120 |
| `StreamManagement.SecondOfTwoConditionsWins` | smack-tcp/src/main/java/org/jivesoftware/smack/tcp/sm/provider/ParseStreamManagement.java:48-65 | with two condition children followed by no other condition, the second one is reported |
| `StreamManagement.FailedTwoConditions` | smack-tcp/src/main/java/org/jivesoftware/smack/tcp/sm/provider/ParseStreamManagement.java:43-68 | on `<failed><unexpected-request/><item-not-found/> </failed>` the decoder reports `item-not-found` and stops on `</failed>` (index 6) |
| `StreamManagement.DecodeResumed` | smack-tcp/src/main/java/org/jivesoftware/smack/tcp/sm/provider/ParseStreamManagement.java:70-75 | never moves the cursor; NotAtStartTag unless at a start tag; a missing or unparseable `h` is MalformedAttribute("h"), and a start tag whose `h` parses is decoded; on success `h` is the parsed 64-bit value and `previd` the attribute verbatim (absent is None) |
| `StreamManagement.DecodeAckAnswer` | smack-tcp/src/main/java/org/jivesoftware/smack/tcp/sm/provider/ParseStreamManagement.java:77-81 | never moves the cursor; NotAtStartTag unless at a start tag; a missing or unparseable `h` is MalformedAttribute("h"), and a start tag whose `h` parses is decoded; on success `h` is the parsed 64-bit value |
| `StreamManagement.OverflowingHRejected` | smack-tcp/src/main/java/org/jivesoftware/smack/tcp/sm/provider/ParseStreamManagement.java:72-79 | `h="18446744073709551616"` (2^64) makes both `resumed` and `a` fail rather than wrap |
| `StreamManagement.ResumedRoundTrip` | smack-tcp/src/main/java/org/jivesoftware/smack/tcp/sm/provider/ParseStreamManagement.java:70-75 | decoding a rendered `<resumed/>` with any 64-bit `h` and any previd returns that value, cursor unmoved |
| `StreamManagement.AckAnswerRoundTrip` | smack-tcp/src/main/java/org/jivesoftware/smack/tcp/sm/provider/ParseStreamManagement.java:77-81 | decoding a rendered `<a/>` with any 64-bit `h` returns that value, cursor unmoved |
| `Decimal.ParseDecimalNumeral` | smack-tcp/src/main/java/org/jivesoftware/smack/tcp/sm/provider/ParseStreamManagement.java:72 | the numeral syntax of `Long.valueOf`, before its range check, gives n exactly on the spellings of n: an optional sign (`+` only when n >= 0, `-` only when n <= 0), any leading zeros, then the shortest digits of the magnitude, so `"+5"`, `"007"` and `"-0"` are accepted and nothing else is |
| `Decimal.ParseIntNumeral` | smack-tcp/src/main/java/org/jivesoftware/smack/tcp/sm/provider/ParseStreamManagement.java:37 | `Integer.valueOf` gives n exactly when the string is a spelling of n and n fits in 32 bits |
| `Decimal.ParseLongNumeral` | smack-tcp/src/main/java/org/jivesoftware/smack/tcp/sm/provider/ParseStreamManagement.java:72 | `Long.valueOf` gives n exactly when the string is a spelling of n and n fits in 64 bits |
| `Decimal.ParseIntToString` | smack-tcp/src/main/java/org/jivesoftware/smack/tcp/sm/provider/ParseStreamManagement.java:37 | every 32-bit integer reads back from its decimal rendering |
| `Decimal.ParseLongToString` | smack-tcp/src/main/java/org/jivesoftware/smack/tcp/sm/provider/ParseStreamManagement.java:72 | every 64-bit integer reads back from its decimal rendering |
| `Decimal.LongRejectsTwentyDigits` | smack-tcp/src/main/java/org/jivesoftware/smack/tcp/sm/provider/ParseStreamManagement.java:72 | an unsigned numeral of 20 or more digits without a leading zero is rejected |
| `Dummy.DummyConnection.constructor` | smack-core/src/test/java/org/jivesoftware/smack/DummyConnection.java:55-75 | a new connection: not authenticated, not anonymous, no reconnect, no user, id or roster, an empty queue, the configured service name |
| `Dummy.DummyConnection.Default` | smack-core/src/test/java/org/jivesoftware/smack/DummyConnection.java:65-67 | the same initial state with service name `example.com` |
| `Dummy.Roster.constructor` | smack-core/src/test/java/org/jivesoftware/smack/DummyConnection.java:171 | a roster bound to the connection that creates it |
| `Dummy.DummyConnection.IsConnected` | smack-core/src/test/java/org/jivesoftware/smack/DummyConnection.java:142-145 | always connected, so the "Not connected" branches of login, loginAnonymously and getConnectionID never run |
| `Dummy.DummyConnection.NotifyAll` | smack-core/src/test/java/org/jivesoftware/smack/DummyConnection.java:96-98 | the log grows by one notification per recipient, in the order visited, and nothing else changes |
| `Dummy.FanOutOncePerRecipient` | smack-core/src/test/java/org/jivesoftware/smack/DummyConnection.java:82-84 | the notifications of a loop are exactly one per recipient, the k-th going to the k-th recipient |
| `Dummy.DummyConnection.ConnectInternal` | smack-core/src/test/java/org/jivesoftware/smack/DummyConnection.java:77-86 | the id becomes `dummy-<nonce>`; every listener hears reconnectionSuccessful exactly when `reconnect` is set; `reconnect` and the other fields are not changed |
| `Dummy.DummyConnection.Shutdown` | smack-core/src/test/java/org/jivesoftware/smack/DummyConnection.java:88-100 | user, id and roster cleared, both auth flags false, `reconnect` true, each listener hears connectionClosed once; the queue is kept |
| `Dummy.DummyConnection.GetConnectionID` | smack-core/src/test/java/org/jivesoftware/smack/DummyConnection.java:102-111 | always an id starting with `dummy-` (by the invariant `Valid()` for a stored one): the existing one unchanged, or a new `dummy-<nonce>` that is stored |
| `Dummy.DummyConnection.GetRoster` | smack-core/src/test/java/org/jivesoftware/smack/DummyConnection.java:113-122 | null and no change while anonymous; otherwise the stored roster, created bound to this connection when there was none |
| `Dummy.DummyConnection.GetUser` | smack-core/src/test/java/org/jivesoftware/smack/DummyConnection.java:124-130 | the stored user unchanged, or `dummy@<service>/Test` stored on first use |
| `Dummy.DummyConnection.Login` | smack-core/src/test/java/org/jivesoftware/smack/DummyConnection.java:157-174 | already authenticated: AlreadyLoggedIn and the whole state unchanged; otherwise user `(username or dummy)@<service>/(resource or Test)`, a fresh roster, not anonymous, authenticated |
| `Dummy.DummyConnection.LoginAnonymously` | smack-core/src/test/java/org/jivesoftware/smack/DummyConnection.java:176-186 | already authenticated: AlreadyLoggedIn and the state unchanged; otherwise anonymous and authenticated, and no other field changes |
| `Dummy.DummyConnection.SendStreamElement` | smack-core/src/test/java/org/jivesoftware/smack/DummyConnection.java:188-194 | the element is appended to the back of the queue; nothing else changes |
| `Dummy.DummyConnection.SendPacketInternal` | smack-core/src/test/java/org/jivesoftware/smack/DummyConnection.java:196-202 | the packet is appended to the back of the queue; nothing else changes |
| `Dummy.DummyConnection.NumberOfSentPackets` | smack-core/src/test/java/org/jivesoftware/smack/DummyConnection.java:210-212 | the number of queued elements not yet taken |
| `Dummy.DummyConnection.GetSentPacket` | smack-core/src/test/java/org/jivesoftware/smack/DummyConnection.java:221-223 | on an empty queue, no packet and no change; otherwise the front element is removed and returned (a non-packet front element is removed and reported as a cast failure) |
| `Dummy.DummyConnection.ProcessPacket` | smack-core/src/test/java/org/jivesoftware/smack/DummyConnection.java:245-268 | null: no effect at all; otherwise every collector, then every packet listener, is offered the packet once, in order; the connection's fields do not change |
| `Dummy.SendAndPollScenario` | smack-core/src/test/java/org/jivesoftware/smack/DummyConnection.java:189-223 | after connect, login and two sends the count is 2 and polling gives the first packet, the second, then nothing |
| `Dummy.RosterScenario` | smack-core/src/test/java/org/jivesoftware/smack/DummyConnection.java:113-122 | no roster while anonymous; after shutdown, connect and login two calls give the same non-null roster |
| `Dummy.DoubleLoginScenario` | smack-core/src/test/java/org/jivesoftware/smack/DummyConnection.java:163-174 | a second login is refused, and the user stays the one from the first login |
| `Dummy.ReconnectScenario` | smack-core/src/test/java/org/jivesoftware/smack/DummyConnection.java:78-99 | the first connect notifies nobody; shutdown then two connects give closed, reconnected, reconnected to every listener |

## Left out

- The XML pull parser and `ParserUtils` are not part of this model. The cursor is an index into an event list. Attributes are the ones without a namespace, looked up by name. The parser's own exceptions for malformed XML are not modelled.
- `ParserUtils.assertAtStartTag` and `assertAtEndTag` are modelled as checks that fail the decode. In the library they may be Java `assert` statements, which run only with assertions enabled.
- `ParserUtils` boolean and integer reading is not part of this model. It is modelled as XML Schema booleans ("true", "1", "false", "0") and Java `Integer.valueOf`. A present `resume` or `max` that this reading rejects (for example `resume="TRUE"`) fails the decode with MalformedAttribute. The library's own reading (letter case, the spellings it accepts, whether it fails or falls back to the default) is not known here and may differ.
- Java's acceptance of non-ASCII decimal digits in `Long.valueOf` is not modelled; only ASCII digits are read.
- `DecodeFailed`: when the document ends before `</failed>`, the source calls `next()` at the end of the document (it spins or the parser throws). The model stops with EndOfEvents instead.
- `XMPPError` is reduced to its condition string, and `Roster` to an object bound to its connection. The packet classes are opaque values.
- The wrap of `h` modulo 2^32 is done by consumers of these values, not by the decoder, so it is not modelled.
- `getSentPacket(int wait)` is not modelled: it is a blocking timeout over the thread-safe `LinkedBlockingQueue`, and the concurrency is not modelled either. The queue is a plain sequence. Its capacity limit of `Integer.MAX_VALUE` and the `int` width of its size are not modelled.
- The connection ids seeded from `Random` and `Date` are replaced by an arbitrary 32-bit nonce parameter.
- Collector and listener dispatch belongs to the base class, which is not part of this model. Its collector filters, its `ListenerWrapper` filters and its caught `NotConnectedException` are reduced to "each recipient is offered the packet once, and the loop always goes on".
- Debug printing to `System.out`, the `ConnectionCreationListener` calls in the constructor, and the base class's `connect()` and `login` wrappers are not modelled.
- `isSecureConnection` and `isUsingCompression` are not modelled: they always return false and no modelled operation uses them. `isAnonymous` and `isAuthenticated` are the fields themselves.
