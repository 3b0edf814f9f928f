/**
 * The unit-test connection `DummyConnection`: a connection that is always
 * "connected", keeps its login state in a few fields, and puts every
 * outbound stream element on a first-in-first-out queue that a test can
 * inspect.
 *
 * The registries owned by the base connection class (connection
 * listeners, packet collectors, packet listeners) are passed to the
 * methods that iterate them, as the sequence that iteration visits. The
 * callbacks they receive are recorded, in order, in the ghost log
 * `notifications`.
 */
module Dummy {
  import opened Wrappers
  import Decimal

  /** The service name of the default configuration. */
  const DefaultServiceName: string := "example.com"
  const IdPrefix: string := "dummy-"

  /** An opaque stanza. */
  datatype Packet = Packet(id: nat)

  /** What the connection sends: a stanza, or another top-level stream element. */
  datatype StreamElement = Stanza(packet: Packet) | Nonza(tag: nat)

  /** The callback a registered recipient receives. */
  datatype Signal =
    | ConnectionClosed                      // ConnectionListener.connectionClosed()
    | ReconnectionSuccessful                // ConnectionListener.reconnectionSuccessful()
    | OfferedToCollector(packet: Packet)    // PacketCollector.processPacket(packet)
    | OfferedToListener(packet: Packet)     // ListenerWrapper.notifyListener(packet)

  datatype Notification = Notification(recipient: nat, signal: Signal)

  /** `IllegalStateException` from the login methods. */
  datatype LoginError = NotConnected | AlreadyLoggedIn

  datatype Outcome = Pass | Fail(error: LoginError)

  /** What `getSentPacket()` gives: `null`, a packet, or a `ClassCastException` for a non-packet element. */
  datatype Polled = NoPacket | Got(packet: Packet) | NotAPacket(element: StreamElement)

  /** One callback per recipient, in iteration order. */
  function FanOut(recipients: seq<nat>, signal: Signal): seq<Notification> {
    if recipients == [] then []
    else FanOut(recipients[..|recipients| - 1], signal) + [Notification(recipients[|recipients| - 1], signal)]
  }

  /** Every recipient gets the signal exactly once, and in the order it was visited. */
  lemma {:induction false} FanOutOncePerRecipient(recipients: seq<nat>, signal: Signal)
    ensures |FanOut(recipients, signal)| == |recipients|
    ensures forall k | 0 <= k < |recipients| :: FanOut(recipients, signal)[k] == Notification(recipients[k], signal)
  {
    if recipients != [] {
      FanOutOncePerRecipient(recipients[..|recipients| - 1], signal);
    }
  }

  /** The full address `login` derives: `username@service/resource`, with placeholders for null. */
  function UserAddress(username: Option<string>, serviceName: string, resource: Option<string>): string {
    username.GetOr("dummy") + "@" + serviceName + "/" + resource.GetOr("Test")
  }

  /** `"dummy-" + new Random(...).nextInt()`, the random draw being `nonce`. */
  function ConnectionIdFor(nonce: Decimal.Int32): string {
    IdPrefix + Decimal.ToString(nonce as int)
  }

  predicate IsDummyId(id: string) {
    |id| >= |IdPrefix| && id[..|IdPrefix|] == IdPrefix
  }

  /** The connection's fields, for stating that an operation changed none of them. */
  datatype Snapshot = Snapshot(
    authenticated: bool, anonymous: bool, reconnect: bool,
    user: Option<string>, connectionID: Option<string>, roster: Roster?,
    queue: seq<StreamElement>)

  /** An opaque contact list, bound to the connection that created it. */
  class Roster {
    const connection: DummyConnection

    constructor (connection: DummyConnection)
      ensures this.connection == connection
    {
      this.connection := connection;
    }
  }

  class DummyConnection {
    const serviceName: string
    var authenticated: bool
    var anonymous: bool
    var reconnect: bool
    var user: Option<string>
    var connectionID: Option<string>
    var roster: Roster?
    var queue: seq<StreamElement>
    /** The callbacks made to connection listeners, collectors and packet listeners. */
    ghost var notifications: seq<Notification>

    /** What the operations keep true of the fields. */
    ghost predicate Valid()
      reads this
    {
      && (anonymous ==> authenticated)
      && (authenticated && !anonymous ==> user.Some? && roster != null)
      && (connectionID.Some? ==> IsDummyId(connectionID.value))
    }

    function State(): Snapshot
      reads this
    {
      Snapshot(authenticated, anonymous, reconnect, user, connectionID, roster, queue)
    }

    /** `DummyConnection(ConnectionConfiguration)`. */
    constructor (serviceName: string)
      ensures Valid() && this.serviceName == serviceName
      ensures State() == Snapshot(false, false, false, None, None, null, [])
      ensures notifications == []
    {
      this.serviceName := serviceName;
      authenticated, anonymous, reconnect := false, false, false;
      user, connectionID, roster := None, None, null;
      queue := [];
      notifications := [];
    }

    /** `DummyConnection()`: the configuration for "example.com". */
    constructor Default()
      ensures Valid() && serviceName == DefaultServiceName
      ensures State() == Snapshot(false, false, false, None, None, null, [])
      ensures notifications == []
    {
      serviceName := DefaultServiceName;
      authenticated, anonymous, reconnect := false, false, false;
      user, connectionID, roster := None, None, null;
      queue := [];
      notifications := [];
    }

    /** The harness never leaves the connected state. */
    function IsConnected(): (connected: bool)
      ensures connected
    {
      true
    }

    /** One callback to each recipient, in order (the for-each loops over the base class's registries). */
    method NotifyAll(recipients: seq<nat>, signal: Signal)
      modifies this`notifications
      ensures notifications == old(notifications) + FanOut(recipients, signal)
    {
      var i := 0;
      while i < |recipients|
        invariant 0 <= i <= |recipients|
        invariant notifications == old(notifications) + FanOut(recipients[..i], signal)
      {
        assert recipients[..i + 1][..i] == recipients[..i];
        notifications := notifications + [Notification(recipients[i], signal)];
        i := i + 1;
      }
      assert recipients[..i] == recipients;
    }

    /**
     * `connectInternal`: a fresh connection id, and a reconnection callback
     * to every listener when a shutdown has happened before. `reconnect`
     * is not touched.
     */
    method ConnectInternal(nonce: Decimal.Int32, listeners: seq<nat>)
      requires Valid()
      modifies this`connectionID, this`notifications
      ensures Valid()
      ensures connectionID == Some(ConnectionIdFor(nonce))
      ensures notifications == old(notifications) + (if reconnect then FanOut(listeners, ReconnectionSuccessful) else [])
    {
      connectionID := Some(ConnectionIdFor(nonce));
      if reconnect {
        NotifyAll(listeners, ReconnectionSuccessful);
      }
    }

    /**
     * `shutdown`: forgets the user, the connection id and the roster, logs
     * out, tells every listener the connection closed, and marks the next
     * connect as a reconnection. The outbound queue is kept.
     */
    method Shutdown(listeners: seq<nat>)
      requires Valid()
      modifies this`user, this`connectionID, this`roster, this`authenticated, this`anonymous,
               this`reconnect, this`notifications
      ensures Valid()
      ensures user == None && connectionID == None && roster == null
      ensures !authenticated && !anonymous && reconnect
      ensures notifications == old(notifications) + FanOut(listeners, ConnectionClosed)
    {
      user := None;
      connectionID := None;
      roster := null;
      authenticated := false;
      anonymous := false;
      NotifyAll(listeners, ConnectionClosed);
      reconnect := true;
    }

    /** `getConnectionID`: the current id, or a fresh one when there is none. */
    method GetConnectionID(nonce: Decimal.Int32) returns (id: Option<string>)
      requires Valid()
      modifies this`connectionID
      ensures Valid()
      ensures id.Some? && IsDummyId(id.value)
      ensures old(connectionID).Some? ==> id == old(connectionID) && connectionID == old(connectionID)
      ensures old(connectionID).None? ==> id == Some(ConnectionIdFor(nonce)) && connectionID == id
    {
      if !IsConnected() {
        return None;
      }
      if connectionID == None {
        connectionID := Some(ConnectionIdFor(nonce));
      }
      id := connectionID;
    }

    /** `getRoster`: none while anonymous; otherwise created on first use and the same object after. */
    method GetRoster() returns (r: Roster?)
      requires Valid()
      modifies this`roster
      ensures Valid()
      ensures anonymous ==> r == null && roster == old(roster)
      ensures !anonymous ==> r != null && r == roster
      ensures !anonymous && old(roster) != null ==> r == old(roster)
      ensures !anonymous && old(roster) == null ==> fresh(r) && r.connection == this
    {
      if anonymous {
        return null;
      }
      if roster == null {
        roster := new Roster(this);
      }
      r := roster;
    }

    /** `getUser`: the user, or `dummy@service/Test` fixed on first use. */
    method GetUser() returns (u: string)
      requires Valid()
      modifies this`user
      ensures Valid()
      ensures old(user).Some? ==> u == old(user).value && user == old(user)
      ensures old(user).None? ==> u == UserAddress(None, serviceName, None) && user == Some(u)
    {
      if user == None {
        user := Some("dummy@" + serviceName + "/Test");
      }
      u := user.value;
    }

    /**
     * `login`: refused when already authenticated (nothing changes);
     * otherwise sets the full address and a new roster and authenticates
     * as a named user.
     */
    method Login(username: Option<string>, password: Option<string>, resource: Option<string>) returns (r: Outcome)
      requires Valid()
      modifies this`user, this`roster, this`anonymous, this`authenticated
      ensures Valid()
      ensures r != Fail(NotConnected)
      ensures old(authenticated) ==> r == Fail(AlreadyLoggedIn) && State() == old(State())
      ensures !old(authenticated) ==>
                r == Pass && user == Some(UserAddress(username, serviceName, resource)) &&
                roster != null && fresh(roster) && roster.connection == this &&
                !anonymous && authenticated
    {
      if !IsConnected() {
        return Fail(NotConnected);
      }
      if authenticated {
        return Fail(AlreadyLoggedIn);
      }
      user := Some(username.GetOr("dummy") + "@" + serviceName + "/" + resource.GetOr("Test"));
      roster := new Roster(this);
      anonymous := false;
      authenticated := true;
      r := Pass;
    }

    /** `loginAnonymously`: refused when already authenticated; otherwise only the two flags change. */
    method LoginAnonymously() returns (r: Outcome)
      requires Valid()
      modifies this`anonymous, this`authenticated
      ensures Valid()
      ensures r != Fail(NotConnected)
      ensures old(authenticated) ==> r == Fail(AlreadyLoggedIn) && State() == old(State())
      ensures !old(authenticated) ==> r == Pass && anonymous && authenticated
    {
      if !IsConnected() {
        return Fail(NotConnected);
      }
      if authenticated {
        return Fail(AlreadyLoggedIn);
      }
      anonymous := true;
      authenticated := true;
      r := Pass;
    }

    /** `sendStreamElement`: to the back of the queue. */
    method SendStreamElement(element: StreamElement)
      modifies this`queue
      ensures queue == old(queue) + [element]
    {
      queue := queue + [element];
    }

    /** `sendPacketInternal`: a stanza to the back of the queue. */
    method SendPacketInternal(packet: Packet)
      modifies this`queue
      ensures queue == old(queue) + [Stanza(packet)]
    {
      queue := queue + [Stanza(packet)];
    }

    /** `getNumberOfSentPackets`: what is sent and not yet taken out. */
    function NumberOfSentPackets(): (n: nat)
      reads this
      ensures n == |queue|
    {
      |queue|
    }

    /**
     * `getSentPacket()`: takes the front element off the queue; nothing
     * on an empty queue. The element is removed before the cast to
     * `Packet`, so a non-packet element is lost to a cast failure.
     */
    method GetSentPacket() returns (r: Polled)
      modifies this`queue
      ensures old(queue) == [] ==> r == NoPacket && queue == []
      ensures old(queue) != [] ==> queue == old(queue)[1..]
      ensures old(queue) != [] && old(queue)[0].Stanza? ==> r == Got(old(queue)[0].packet)
      ensures old(queue) != [] && old(queue)[0].Nonza? ==> r == NotAPacket(old(queue)[0])
    {
      if queue == [] {
        return NoPacket;
      }
      var head := queue[0];
      queue := queue[1..];
      r := if head.Stanza? then Got(head.packet) else NotAPacket(head);
    }

    /**
     * `processPacket`: nothing for null; otherwise the packet is offered
     * to every collector, then to every packet listener. A listener's
     * NotConnectedException is caught, so every listener is reached.
     */
    method ProcessPacket(packet: Option<Packet>, collectors: seq<nat>, listeners: seq<nat>)
      modifies this`notifications
      ensures packet.None? ==> notifications == old(notifications)
      ensures packet.Some? ==>
                notifications == old(notifications) + FanOut(collectors, OfferedToCollector(packet.value))
                                                    + FanOut(listeners, OfferedToListener(packet.value))
    {
      if packet == None {
        return;
      }
      NotifyAll(collectors, OfferedToCollector(packet.value));
      NotifyAll(listeners, OfferedToListener(packet.value));
    }
  }

  // -----------------------------------------------------------------------
  // Client scenarios

  /** Connect, log in, send two packets: both are counted, and come back first-in-first-out. */
  method SendAndPollScenario(p1: Packet, p2: Packet, nonce: Decimal.Int32)
    returns (count: nat, first: Polled, second: Polled, third: Polled)
    ensures count == 2
    ensures first == Got(p1) && second == Got(p2) && third == NoPacket
  {
    var c := new DummyConnection.Default();
    c.ConnectInternal(nonce, []);
    var outcome := c.Login(Some("alice"), Some("pw"), Some("phone"));
    c.SendPacketInternal(p1);
    c.SendPacketInternal(p2);
    count := c.NumberOfSentPackets();
    first := c.GetSentPacket();
    second := c.GetSentPacket();
    third := c.GetSentPacket();
  }

  /**
   * No roster while anonymous; after shutdown, reconnect and a named
   * login, the same roster on every call.
   */
  method RosterScenario(nonce: Decimal.Int32) returns (whileAnonymous: Roster?, first: Roster?, second: Roster?)
    ensures whileAnonymous == null
    ensures first != null && first == second
  {
    var c := new DummyConnection.Default();
    c.ConnectInternal(nonce, []);
    var outcome := c.LoginAnonymously();
    whileAnonymous := c.GetRoster();
    c.Shutdown([]);
    c.ConnectInternal(nonce, []);
    outcome := c.Login(None, None, None);
    first := c.GetRoster();
    second := c.GetRoster();
  }

  /** A second login on an authenticated connection is refused. */
  method DoubleLoginScenario(nonce: Decimal.Int32) returns (firstLogin: Outcome, secondLogin: Outcome, user: string)
    ensures firstLogin == Pass && secondLogin == Fail(AlreadyLoggedIn)
    ensures user == UserAddress(Some("bob"), DefaultServiceName, None)
  {
    var c := new DummyConnection.Default();
    c.ConnectInternal(nonce, []);
    firstLogin := c.Login(Some("bob"), None, None);
    secondLogin := c.Login(Some("mallory"), None, Some("x"));
    user := c.GetUser();
  }

  /**
   * The first connect notifies nobody; after a shutdown every connect is a
   * reconnection, and the listeners hear "closed" then "reconnected".
   */
  method ReconnectScenario(listeners: seq<nat>, nonce: Decimal.Int32) returns (c: DummyConnection)
    ensures fresh(c) && c.reconnect
    ensures c.notifications ==
              FanOut(listeners, ConnectionClosed) + FanOut(listeners, ReconnectionSuccessful) +
              FanOut(listeners, ReconnectionSuccessful)
  {
    c := new DummyConnection.Default();
    c.ConnectInternal(nonce, listeners);
    assert c.notifications == [];
    c.Shutdown(listeners);
    assert c.reconnect;
    ghost var closed := c.notifications;
    assert closed == FanOut(listeners, ConnectionClosed);
    c.ConnectInternal(nonce, listeners);
    assert c.notifications == closed + FanOut(listeners, ReconnectionSuccessful);
    ghost var once := c.notifications;
    c.ConnectInternal(nonce, listeners);
    assert c.notifications == once + FanOut(listeners, ReconnectionSuccessful);
  }
}
