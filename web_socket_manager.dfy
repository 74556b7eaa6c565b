/**
 * The component that opens the notification socket of a logged-in user.
 * The user store's fields and the sockets the effect has created are the
 * state of a class; the browser calls `OnOpen` and `OnClose` on a created
 * socket, and re-runs `Effect` whenever one of its dependencies changes.
 */
module WebSocketManager {
  import opened Wrappers

  /** The one endpoint every socket connects to. */
  const WebSocketUrl := "ws://localhost:8090/"

  /** A created socket: its endpoint and the user id its handlers captured. */
  datatype Connection = Connection(url: string, userId: string)

  /** A message sent on socket number `socket`. */
  datatype Message = Message(socket: nat, kind: string, userId: string)

  /** The effect's guard: logged in, with a user id, and no socket in the store yet. */
  predicate ShouldConnect(isLoggedOut: bool, userId: Option<string>, socket: Option<nat>)
  {
    !isLoggedOut && Truthy(userId) && socket.None?
  }

  class Manager {
    var isLoggedOut: bool
    var userId: Option<string>
    /** The store's `socket`, as the number of a created socket. */
    var socket: Option<nat>
    var sockets: seq<Connection>
    var sent: seq<Message>

    /** Every message names a created socket and is the registration of that socket's user. */
    predicate Valid()
      reads this
    {
      && (socket.Some? ==> socket.value < |sockets|)
      && (forall s <- sockets :: s.url == WebSocketUrl)
      && (forall m <- sent :: m.socket < |sockets| && m.kind == "register" && m.userId == sockets[m.socket].userId)
    }

    constructor (isLoggedOut: bool, userId: Option<string>)
      ensures Valid()
      ensures this.isLoggedOut == isLoggedOut && this.userId == userId
      ensures socket == None && sockets == [] && sent == []
    {
      this.isLoggedOut := isLoggedOut;
      this.userId := userId;
      socket := None;
      sockets := [];
      sent := [];
    }

    /** The effect: a new socket only when the guard holds; nothing is sent yet. */
    method Effect()
      requires Valid()
      modifies this
      ensures Valid()
      ensures isLoggedOut == old(isLoggedOut) && userId == old(userId) && socket == old(socket) && sent == old(sent)
      ensures ShouldConnect(old(isLoggedOut), old(userId), old(socket)) ==>
                sockets == old(sockets) + [Connection(WebSocketUrl, userId.value)]
      ensures !ShouldConnect(old(isLoggedOut), old(userId), old(socket)) ==> sockets == old(sockets)
    {
      if !isLoggedOut && Truthy(userId) && socket.None? {
        sockets := sockets + [Connection(WebSocketUrl, userId.value)];
      }
    }

    /** `onopen`: the socket goes into the store first, then its one registration is sent. */
    method OnOpen(s: nat)
      requires Valid() && s < |sockets|
      modifies this
      ensures Valid()
      ensures socket == Some(s)
      ensures sent == old(sent) + [Message(s, "register", sockets[s].userId)]
      ensures isLoggedOut == old(isLoggedOut) && userId == old(userId) && sockets == old(sockets)
    {
      socket := Some(s);
      sent := sent + [Message(s, "register", sockets[s].userId)];
    }

    /** `onclose`: the store keeps the closed socket, so the guard stays shut. */
    method OnClose(s: nat)
      requires Valid() && s < |sockets|
      modifies this
      ensures Valid()
      ensures socket == Some(s) && !ShouldConnect(isLoggedOut, userId, socket)
      ensures isLoggedOut == old(isLoggedOut) && userId == old(userId) && sockets == old(sockets) && sent == old(sent)
    {
      socket := Some(s);
    }
  }
}
