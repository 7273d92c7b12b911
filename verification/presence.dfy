/** The server's in-memory typing-presence table (`typingUsers`): which
    connection each typing participant is typing from. It is shared by every
    board and every connection. */
module Presence {
  import opened Messages

  /** The entries that survive the disconnection of `socket`. */
  function Released(typing: map<string, string>, socket: string): (r: map<string, string>)
    ensures forall u :: u in r ==> r[u] != socket
    ensures forall u :: u in typing && typing[u] != socket ==> u in r && r[u] == typing[u]
    ensures r.Keys <= typing.Keys
  {
    map u | u in typing && typing[u] != socket :: typing[u]
  }

  /** The participants whose entry points at `socket`. */
  function HeldBy(typing: map<string, string>, socket: string): (r: set<string>)
    ensures forall u :: u in r <==> u in typing && typing[u] == socket
  {
    set u | u in typing && typing[u] == socket
  }

  function StoppedTyping(userId: string, socket: string): Event
  {
    Event(MemberStoppedTyping, MemberIdText(userId), AllExcept(socket))
  }

  /** A table and the entries one disconnection removes partition the
      original entries. */
  lemma ReleasedPartition(typing: map<string, string>, socket: string)
    ensures Released(typing, socket).Keys + HeldBy(typing, socket) == typing.Keys
    ensures Released(typing, socket).Keys * HeldBy(typing, socket) == {}
    ensures |Released(typing, socket).Keys| + |HeldBy(typing, socket)| == |typing.Keys|
  {
    var kept, held := Released(typing, socket).Keys, HeldBy(typing, socket);
    assert kept + held == typing.Keys;
    assert kept * held == {};
    assert |kept + held| == |kept| + |held| by { DisjointUnionSize(kept, held); }
  }

  lemma {:induction false} DisjointUnionSize<T>(a: set<T>, b: set<T>)
    requires a * b == {}
    ensures |a + b| == |a| + |b|
    decreases |a|
  {
    if a != {} {
      var x :| x in a;
      DisjointUnionSize(a - {x}, b);
      assert (a - {x}) + b == (a + b) - {x};
    }
  }

  /** Typing and then disconnecting from the same connection leaves no entry
      for that participant; entries of other connections are untouched. */
  lemma StartThenDisconnect(typing: map<string, string>, userId: string, socket: string)
    ensures userId !in Released(typing[userId := socket], socket)
    ensures Released(typing[userId := socket], socket) == Released(typing, socket) - {userId}
  {
  }

  /** A disconnection of a connection that holds nothing changes nothing. */
  lemma DisconnectIdle(typing: map<string, string>, socket: string)
    requires HeldBy(typing, socket) == {}
    ensures Released(typing, socket) == typing
  {
  }

  class PresenceTable {
    /** `typingUsers`: participant id to the connection it types from. */
    var typing: map<string, string>

    constructor ()
      ensures typing == map[]
    {
      typing := map[];
    }

    /** `memberTyping`: the entry is overwritten and the other connections are told. */
    method StartTyping(socket: string, userId: string) returns (events: seq<Event>)
      modifies this
      ensures typing == old(typing)[userId := socket]
      ensures events == [Event(MemberTyping, MemberIdText(userId), AllExcept(socket))]
    {
      typing := typing[userId := socket];
      events := [Event(MemberTyping, MemberIdText(userId), AllExcept(socket))];
    }

    /** `memberStoppedTyping`: the entry is deleted, whichever connection
        held it, and the other connections are told. */
    method StopTyping(socket: string, userId: string) returns (events: seq<Event>)
      modifies this
      ensures typing == old(typing) - {userId}
      ensures events == [StoppedTyping(userId, socket)]
    {
      typing := typing - {userId};
      events := [StoppedTyping(userId, socket)];
    }

    /** `disconnect`: every entry held by the connection is deleted, with one
        `memberStoppedTyping` per deleted entry. */
    method Disconnect(socket: string) returns (events: seq<Event>)
      modifies this
      ensures typing == Released(old(typing), socket)
      ensures |events| == |HeldBy(old(typing), socket)|
      ensures forall u :: u in HeldBy(old(typing), socket) ==> StoppedTyping(u, socket) in events
      ensures forall k :: 0 <= k < |events| ==>
        events[k].payload.MemberIdText? && events[k].payload.userId in HeldBy(old(typing), socket) &&
        events[k] == StoppedTyping(events[k].payload.userId, socket)
    {
      var pending := typing.Keys;
      events := [];
      ghost var removed: set<string> := {};
      ghost var users: seq<string> := [];
      while pending != {}
        invariant forall u :: u in pending ==> u in old(typing)
        invariant forall u :: u in removed <==> u in old(typing) && old(typing)[u] == socket && u !in pending
        invariant forall u :: u in typing <==> u in old(typing) && (u in pending || old(typing)[u] != socket)
        invariant forall u :: u in typing ==> typing[u] == old(typing)[u]
        invariant |events| == |users| == |removed|
        invariant forall u :: u in users <==> u in removed
        invariant forall k :: 0 <= k < |users| ==> events[k] == StoppedTyping(users[k], socket)
        decreases pending
      {
        var userId :| userId in pending;
        if typing[userId] == socket {
          typing := typing - {userId};
          events := events + [StoppedTyping(userId, socket)];
          users := users + [userId];
          removed := removed + {userId};
        }
        pending := pending - {userId};
      }
      assert typing == Released(old(typing), socket);
      assert removed == HeldBy(old(typing), socket);
      forall u | u in HeldBy(old(typing), socket)
        ensures StoppedTyping(u, socket) in events
      {
        var k :| 0 <= k < |users| && users[k] == u;
        assert events[k] == StoppedTyping(u, socket);
      }
    }
  }
}
