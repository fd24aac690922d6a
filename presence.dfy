/** The presence map of `backend/server.js`: `onlineUsers` maps a user id
    to the id of that user's socket. Socket delivery itself is not
    modelled; `SendNotification` answers which socket the payload is
    emitted to. */
module Presence {
  import opened Wrappers

  /** One `io.to(socketId).emit("notification", payload)`. */
  datatype Emit = Emit(socketId: string, payload: string)

  class OnlineUsers {
    /** userId -> socketId; several users may share one socket. */
    var sockets: map<string, string>

    constructor ()
      ensures sockets == map[]
    {
      sockets := map[];
    }

    /** `register`: the user now maps to this socket, replacing any older
        one; no other entry changes. */
    method Register(userId: string, socketId: string)
      modifies this
      ensures sockets == old(sockets)[userId := socketId]
    {
      sockets := sockets[userId := socketId];
    }

    /** `sendNotification`: emits to exactly the socket the target user
        maps to, when there is one (a falsy id counts as none), and does
        nothing otherwise. */
    method SendNotification(toUserId: string, payload: string) returns (e: Option<Emit>)
      ensures e.Some? <==> toUserId in sockets && sockets[toUserId] != ""
      ensures e.Some? ==> e.value == Emit(sockets[toUserId], payload)
    {
      if toUserId in sockets && sockets[toUserId] != "" {
        e := Some(Emit(sockets[toUserId], payload));
      } else {
        e := None;
      }
    }

    /** `disconnect`: walks the entries and deletes every user mapped to
        the closing socket; afterwards no user maps to it and every other
        entry is as it was. */
    method Disconnect(socketId: string)
      modifies this
      ensures forall u :: u in sockets <==> u in old(sockets) && old(sockets)[u] != socketId
      ensures forall u :: u in sockets ==> sockets[u] == old(sockets)[u]
      ensures socketId !in sockets.Values
    {
      var pending := sockets.Keys;
      while pending != {}
        invariant pending <= old(sockets).Keys
        invariant forall u :: u in sockets <==> u in old(sockets) && (u in pending || old(sockets)[u] != socketId)
        invariant forall u :: u in sockets ==> sockets[u] == old(sockets)[u]
        decreases pending
      {
        var u :| u in pending;
        if sockets[u] == socketId {
          sockets := sockets - {u};
        }
        pending := pending - {u};
      }
    }
  }
}
