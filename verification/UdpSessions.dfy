/**
 The critical sections of `opennotrd/core/udpforward.go` on the session table itself: a map of shared
 session objects, updated in place under `udpsessLock`. Each method is proved to do to the table's
 value what the action of UdpForward with the same lines does.
 */
module UdpSessions {
  import opened UdpForward

  class UdpSession {
    const stream: StreamId
    var lastActive: nat

    constructor (stream: StreamId, lastActive: nat)
      ensures this.stream == stream && this.lastActive == lastActive
    {
      this.stream, this.lastActive := stream, lastActive;
    }
  }

  class SessionTable {
    var udpSessions: map<Flow, UdpSession>

    // No two keys share a session object.
    ghost predicate Valid()
      reads this
    {
      forall j, k :: j in udpSessions && k in udpSessions && j != k ==> udpSessions[j] != udpSessions[k]
    }

    ghost function View(): map<Flow, Session>
      reads this, udpSessions.Values
    {
      map k | k in udpSessions :: Session(udpSessions[k].stream, udpSessions[k].lastActive)
    }

    constructor ()
      ensures Valid() && View() == map[]
    {
      udpSessions := map[];
    }

    /** Lines 150-154, and 238-243 where the result is not used. */
    method LookUp(key: Flow, now: nat) returns (udpsess: UdpSession?)
      requires Valid()
      modifies udpSessions.Values
      ensures Valid() && udpSessions == old(udpSessions)
      // the session of the key has been active now, and nothing else has changed
      ensures key in old(View()) ==> key in View() && View()[key] == Session(old(View())[key].stream, now)
      ensures View().Keys == old(View()).Keys && forall k :: k in old(View()) && k != key ==> View()[k] == old(View())[k]
      ensures View() == Touched(old(View()), key, now)
      ensures if key in udpSessions then udpsess == udpSessions[key] && udpsess.stream == View()[key].stream
              else udpsess == null
    {
      udpsess := if key in udpSessions then udpSessions[key] else null;
      if udpsess != null {
        udpsess.lastActive := now;
      }
    }

    /** Lines 169-172. */
    method Insert(key: Flow, stream: StreamId, created: nat) returns (udpsess: UdpSession)
      requires Valid()
      modifies this
      ensures Valid() && fresh(udpsess) && udpsess.stream == stream
      ensures View() == old(View())[key := Session(stream, created)]
    {
      udpsess := new UdpSession(stream, created);
      udpSessions := udpSessions[key := udpsess];
    }

    /** Lines 204-206. */
    method Delete(key: Flow)
      requires Valid()
      modifies this
      ensures Valid() && View() == old(View()) - {key}
    {
      udpSessions := udpSessions - {key};
    }

    /**
     Lines 250-257: the walk over the map, in any order, deleting as it goes. The clock is read for every
     session and may go on meanwhile; `end` is what it shows when the walk is over.
     */
    method Recycle(c: Config, start: nat) returns (end: nat, removed: set<Flow>)
      requires Valid()
      modifies this
      ensures Valid() && end >= start && View() == old(View()) - removed
      // what was removed had timed out by the end, what is left had not at the start
      ensures forall k :: k in removed ==> k in old(View()) && end - old(View())[k].lastActive > c.timeout
      ensures forall k :: k in View() ==> start - View()[k].lastActive <= c.timeout
    {
      var left := udpSessions.Keys;
      ghost var all := udpSessions;
      end, removed := start, {};
      while left != {}
        invariant left <= all.Keys && end >= start && removed <= all.Keys - left
        invariant udpSessions == all - removed
        invariant forall k :: k in removed ==> end - all[k].lastActive > c.timeout
        invariant forall k :: k in all && k !in left && k !in removed ==> start - all[k].lastActive <= c.timeout
        decreases left
      {
        var k :| k in left;
        var passed :| passed >= 0;
        end := end + passed;
        if end - udpSessions[k].lastActive > c.timeout {
          udpSessions, removed := udpSessions - {k}, removed + {k};
        }
        left := left - {k};
      }
    }
  }
}
