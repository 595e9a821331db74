/**
 * RoomPresenceService: who is in which chat room, kept as two maps of sets
 * (room id to session ids, session id to room ids) that the STOMP
 * subscribe, unsubscribe and disconnect events update. Events are handled
 * one at a time; the presence broadcasts an event causes are returned as a
 * list of notices instead of being sent.
 */
module RoomPresence {
  import opened Wrappers
  import opened JavaText

  /** The destination prefix of ^/topic/rooms/([^/]+)$. */
  const ROOM_PREFIX := "/topic/rooms/"

  /** The capture group [^/]+: at least one character and no '/'. */
  predicate IsRoomId(id: string) {
    id != [] && forall i :: 0 <= i < |id| ==> id[i] != '/'
  }

  /** ROOM_DEST.matcher(dest).matches(), with group(1) as the value. */
  function MatchRoom(dest: string): (r: Option<string>)
    ensures r.Some? ==> dest == ROOM_PREFIX + r.value && IsRoomId(r.value)
  {
    if StartsWith(dest, ROOM_PREFIX) && IsRoomId(dest[|ROOM_PREFIX|..]) then
      assert dest == ROOM_PREFIX + dest[|ROOM_PREFIX|..];
      Some(dest[|ROOM_PREFIX|..])
    else None
  }

  /** A destination matches exactly when it is the prefix followed by a room id, and then yields that id. */
  lemma MatchRoomExactly(id: string)
    ensures MatchRoom(ROOM_PREFIX + id) == if IsRoomId(id) then Some(id) else None
  {
    ConcatEnds(ROOM_PREFIX, id);
    assert (ROOM_PREFIX + id)[|ROOM_PREFIX|..] == id;
  }

  /** The room's own presence topic also matches, as a room named id + ".presence". */
  lemma PresenceTopicIsARoom(id: string)
    requires IsRoomId(id)
    ensures MatchRoom(PresenceTopic(id)) == Some(id + ".presence")
  {
    assert PresenceTopic(id) == ROOM_PREFIX + (id + ".presence");
    MatchRoomExactly(id + ".presence");
  }

  /** Where notifyPresence broadcasts a room's count. */
  function PresenceTopic(id: string): string {
    ROOM_PREFIX + id + ".presence"
  }

  /** One PresencePayload sent by notifyPresence. */
  datatype Notice = Notice(roomId: string, count: nat)

  type Links = map<string, set<string>>

  /** getOrDefault(key, emptySet()).size() */
  function Count(m: Links, key: string): nat {
    if key in m then |m[key]| else 0
  }

  /** The sessions that list `room` among their rooms. */
  function Members(sessionRooms: Links, room: string): set<string> {
    set s | s in sessionRooms && room in sessionRooms[s]
  }

  /** compute(key, ...): create the set when absent, then add v. */
  function Link(m: Links, key: string, v: string): (r: Links)
    ensures r.Keys == m.Keys + {key} && v in r[key]
    ensures forall k :: k in m ==> m[k] <= r[k]
    ensures forall k :: k in r ==> r[k] <= (if k in m then m[k] else {}) + (if k == key then {v} else {})
    ensures NoEmpty(m) ==> NoEmpty(r)
  {
    m[key := (if key in m then m[key] else {}) + {v}]
  }

  /** computeIfPresent(key, ...): remove v, and drop the key once its set is empty. */
  function Drop(m: Links, key: string, v: string): (r: Links)
    ensures r.Keys <= m.Keys
    ensures forall k :: k in r ==> r[k] == m[k] - (if k == key then {v} else {})
    ensures forall k :: k in m && k !in r ==> k == key && m[k] <= {v}
    ensures NoEmpty(m) ==> NoEmpty(r)
  {
    if key !in m then m
    else if m[key] - {v} == {} then m - {key}
    else m[key := m[key] - {v}]
  }

  /** Sessions `s` removed from each of the rooms `keys` by Drop, one room at a time. */
  function Detach(m: Links, keys: set<string>, v: string): Links {
    map k | k in m && (k !in keys || m[k] - {v} != {}) :: if k in keys then m[k] - {v} else m[k]
  }

  /** The rooms `vs` removed from the set under `key` by Drop, one room at a time. */
  function Unlink(m: Links, key: string, vs: set<string>): Links {
    if key !in m then m
    else if m[key] - vs == {} then m - {key}
    else m[key := m[key] - vs]
  }

  /** s is in roomSessions[r] exactly when r is in sessionRooms[s]. */
  predicate Inverse(roomSessions: Links, sessionRooms: Links) {
    && (forall r, s :: r in roomSessions && s in roomSessions[r] ==> s in sessionRooms && r in sessionRooms[s])
    && (forall r, s :: s in sessionRooms && r in sessionRooms[s] ==> r in roomSessions && s in roomSessions[r])
  }

  /** No key is kept with an empty set. */
  predicate NoEmpty(m: Links) {
    forall k :: k in m ==> m[k] != {}
  }

  predicate Consistent(roomSessions: Links, sessionRooms: Links) {
    Inverse(roomSessions, sessionRooms) && NoEmpty(roomSessions) && NoEmpty(sessionRooms)
  }

  /** A room's count is the number of sessions that list the room. */
  lemma CountIsMembers(roomSessions: Links, sessionRooms: Links, room: string)
    ensures Consistent(roomSessions, sessionRooms) ==> Count(roomSessions, room) == |Members(sessionRooms, room)|
    ensures Consistent(roomSessions, sessionRooms) ==> (Count(roomSessions, room) == 0 <==> room !in roomSessions)
  {
    if !Consistent(roomSessions, sessionRooms) {
    } else if room in roomSessions {
      assert roomSessions[room] == Members(sessionRooms, room);
    } else {
      assert Members(sessionRooms, room) == {};
    }
  }

  /** Subscribing pairs the session with the room in both maps and keeps them consistent. */
  lemma SubscribeKeepsConsistent(roomSessions: Links, sessionRooms: Links, room: string, s: string)
    requires Consistent(roomSessions, sessionRooms)
    ensures Consistent(Link(roomSessions, room, s), Link(sessionRooms, s, room))
    ensures s in Link(roomSessions, room, s)[room] && room in Link(sessionRooms, s, room)[s]
  {
  }

  /** The same subscribe a second time changes nothing. */
  lemma SubscribeIdempotent(m: Links, key: string, v: string)
    ensures Link(Link(m, key, v), key, v) == Link(m, key, v)
  {
    assert Link(m, key, v)[key] + {v} == Link(m, key, v)[key];
  }

  /** A subscribe raises the room's count by one, unless the session was already in it. */
  lemma SubscribeCount(roomSessions: Links, room: string, s: string)
    ensures Count(Link(roomSessions, room, s), room)
            == Count(roomSessions, room) + (if room in roomSessions && s in roomSessions[room] then 0 else 1)
  {
    if room in roomSessions && s in roomSessions[room] {
      assert roomSessions[room] + {s} == roomSessions[room];
    }
  }

  /** Removing the session from any set of rooms, in both maps, keeps them consistent. */
  lemma UnsubscribeKeepsConsistent(roomSessions: Links, sessionRooms: Links, rooms: set<string>, s: string)
    requires Consistent(roomSessions, sessionRooms)
    ensures Consistent(Detach(roomSessions, rooms, s), Unlink(sessionRooms, s, rooms))
    ensures forall r :: r in rooms && r in Detach(roomSessions, rooms, s) ==> s !in Detach(roomSessions, rooms, s)[r]
  {
    var rs, sr := Detach(roomSessions, rooms, s), Unlink(sessionRooms, s, rooms);
    forall r, x | r in rs && x in rs[r] ensures x in sr && r in sr[x] {
      assert x in roomSessions[r] && !(r in rooms && x == s);
      assert r in sessionRooms[x];
      if x == s {
        assert r in sessionRooms[s] - rooms;
      }
    }
    forall r, x | x in sr && r in sr[x] ensures r in rs && x in rs[r] {
      if x == s {
        assert s in sessionRooms && sr[s] == sessionRooms[s] - rooms;
        assert r in sessionRooms[s] && r !in rooms;
        assert s in roomSessions[r];
      } else {
        assert sr[x] == sessionRooms[x];
        assert x in roomSessions[r];
        assert x in roomSessions[r] - {s};
      }
    }
  }

  /** Disconnecting removes the session from every room it was in and keeps the maps consistent. */
  lemma DisconnectForgetsSession(roomSessions: Links, sessionRooms: Links, s: string)
    requires Consistent(roomSessions, sessionRooms) && s in sessionRooms
    ensures Consistent(Detach(roomSessions, sessionRooms[s], s), sessionRooms - {s})
    ensures forall r :: r in Detach(roomSessions, sessionRooms[s], s) ==> s !in Detach(roomSessions, sessionRooms[s], s)[r]
  {
    assert Unlink(sessionRooms, s, sessionRooms[s]) == sessionRooms - {s};
    UnsubscribeKeepsConsistent(roomSessions, sessionRooms, sessionRooms[s], s);
  }

  /** One more room processed by the removal loop. */
  lemma DetachStep(m: Links, done: set<string>, r: string, v: string)
    requires r !in done
    ensures Drop(Detach(m, done, v), r, v) == Detach(m, done + {r}, v)
  {
  }

  /** One more room removed from the session's own set. */
  lemma UnlinkStep(m: Links, key: string, done: set<string>, r: string)
    ensures Drop(Unlink(m, key, done), key, r) == Unlink(m, key, done + {r})
  {
    if key in m {
      assert m[key] - done - {r} == m[key] - (done + {r});
    }
  }

  /** The rooms handled so far grow by the one just taken from those left. */
  lemma TakeOne(rooms: set<string>, todo: set<string>, r: string)
    requires r in todo && todo <= rooms
    ensures r !in rooms - todo && (rooms - todo) + {r} == rooms - (todo - {r})
  {
  }

  /** The rooms the notices name. */
  function NoticedRooms(notes: seq<Notice>): set<string> {
    set i | 0 <= i < |notes| :: notes[i].roomId
  }

  /** Each of `rooms` noticed exactly once, with its count in `roomSessions`. */
  predicate Announced(notes: seq<Notice>, rooms: set<string>, roomSessions: Links) {
    && NoticedRooms(notes) == rooms
    && (forall i, j :: 0 <= i < j < |notes| ==> notes[i].roomId != notes[j].roomId)
    && (forall i :: 0 <= i < |notes| ==> notes[i].count == Count(roomSessions, notes[i].roomId))
  }

  /** The notices so far stay right after a Drop on a room none of them names. */
  lemma AnnouncedStep(notes: seq<Notice>, done: set<string>, roomSessions: Links, r: string, s: string)
    requires Announced(notes, done, roomSessions) && r !in done
    ensures Announced(notes + [Notice(r, Count(Drop(roomSessions, r, s), r))], done + {r}, Drop(roomSessions, r, s))
  {
    var after := notes + [Notice(r, Count(Drop(roomSessions, r, s), r))];
    forall i | 0 <= i < |notes| ensures notes[i].roomId in done {
      assert notes[i].roomId in NoticedRooms(notes);
    }
    forall x | x in NoticedRooms(after) ensures x in NoticedRooms(notes) + {r} {
      var i :| 0 <= i < |after| && after[i].roomId == x;
      if i < |notes| { assert notes[i].roomId in NoticedRooms(notes); }
    }
    forall x | x in NoticedRooms(notes) + {r} ensures x in NoticedRooms(after) {
      if x == r {
        assert after[|notes|].roomId == r;
      } else {
        var i :| 0 <= i < |notes| && notes[i].roomId == x;
        assert after[i].roomId == x;
      }
    }
  }

  /**
   * The rooms onUnsubscribe removes the session from: the one the
   * destination names, if it names one, else all the session's rooms.
   */
  function UnsubscribeRooms(sessionRooms: Links, dest: Option<string>, s: string): (r: set<string>)
    ensures dest.Some? && MatchRoom(dest.value).Some? ==> r == {MatchRoom(dest.value).value}
    ensures !(dest.Some? && MatchRoom(dest.value).Some?) ==> r == (if s in sessionRooms then sessionRooms[s] else {})
  {
    if dest.Some? && MatchRoom(dest.value).Some? then {MatchRoom(dest.value).value}
    else if s in sessionRooms then sessionRooms[s]
    else {}
  }

  class RoomPresenceService {
    var roomSessions: Links
    var sessionRooms: Links

    predicate Valid()
      reads this
    {
      Consistent(roomSessions, sessionRooms)
    }

    constructor ()
      ensures Valid() && roomSessions == map[] && sessionRooms == map[]
    {
      roomSessions := map[];
      sessionRooms := map[];
    }

    /** getCount: the number of sessions in the room, 0 for a room nobody is in. */
    function GetCount(roomId: string): (n: nat)
      reads this
      ensures Valid() ==> n == |Members(sessionRooms, roomId)|
      ensures Valid() ==> (n == 0 <==> roomId !in roomSessions)
    {
      CountIsMembers(roomSessions, sessionRooms, roomId);
      Count(roomSessions, roomId)
    }

    /**
     * onSubscribe: a session subscribing to /topic/rooms/<id> joins room id
     * and the room's new count is announced; any other subscription, or one
     * without a destination or session, changes nothing.
     */
    method OnSubscribe(dest: Option<string>, sessionId: Option<string>) returns (notes: seq<Notice>)
      requires Valid()
      modifies this
      ensures Valid()
      ensures dest.None? || sessionId.None? || MatchRoom(dest.value).None? ==>
                roomSessions == old(roomSessions) && sessionRooms == old(sessionRooms) && notes == []
      ensures dest.Some? && sessionId.Some? && MatchRoom(dest.value).Some? ==>
                var room := MatchRoom(dest.value).value;
                && roomSessions == Link(old(roomSessions), room, sessionId.value)
                && sessionRooms == Link(old(sessionRooms), sessionId.value, room)
                && notes == [Notice(room, Count(roomSessions, room))]
    {
      if dest.None? || sessionId.None? {
        return [];
      }
      var m := MatchRoom(dest.value);
      if m.None? {
        return [];
      }
      var room, s := m.value, sessionId.value;
      SubscribeKeepsConsistent(roomSessions, sessionRooms, room, s);
      roomSessions := Link(roomSessions, room, s);
      sessionRooms := Link(sessionRooms, s, room);
      notes := [Notice(room, Count(roomSessions, room))];
    }

    /**
     * onUnsubscribe: a destination naming a room removes the session from
     * that room only; otherwise the session leaves every room it is in.
     * Each room handled is announced once, with its count after the change,
     * in no particular order. Without a session nothing changes.
     */
    method OnUnsubscribe(dest: Option<string>, sessionId: Option<string>) returns (notes: seq<Notice>)
      requires Valid()
      modifies this
      ensures Valid()
      ensures sessionId.None? ==> roomSessions == old(roomSessions) && sessionRooms == old(sessionRooms) && notes == []
      ensures sessionId.Some? ==>
                var s := sessionId.value;
                var rooms := UnsubscribeRooms(old(sessionRooms), dest, s);
                && roomSessions == Detach(old(roomSessions), rooms, s)
                && sessionRooms == Unlink(old(sessionRooms), s, rooms)
                && Announced(notes, rooms, roomSessions)
    {
      if sessionId.None? {
        return [];
      }
      var s := sessionId.value;
      var rooms := if s in sessionRooms then sessionRooms[s] else {};
      if dest.Some? {
        var m := MatchRoom(dest.value);
        if m.Some? {
          rooms := {m.value};
        }
      }
      assert rooms == UnsubscribeRooms(sessionRooms, dest, s);
      UnsubscribeKeepsConsistent(roomSessions, sessionRooms, rooms, s);
      notes := LeaveRooms(s, rooms);
    }

    /** The loop of onUnsubscribe: for each of `rooms`, drop the pairing in both maps and announce the room. */
    method LeaveRooms(s: string, rooms: set<string>) returns (notes: seq<Notice>)
      requires NoEmpty(sessionRooms)
      modifies this
      ensures roomSessions == Detach(old(roomSessions), rooms, s)
      ensures sessionRooms == Unlink(old(sessionRooms), s, rooms)
      ensures Announced(notes, rooms, roomSessions)
    {
      ghost var rs0, sr0 := roomSessions, sessionRooms;
      var todo := rooms;
      notes := [];
      assert rooms - todo == {};
      assert roomSessions == Detach(rs0, {}, s);
      assert sessionRooms == Unlink(sr0, s, {}) by {
        if s in sr0 { assert sr0[s] - {} == sr0[s]; }
      }
      while todo != {}
        invariant todo <= rooms
        invariant roomSessions == Detach(rs0, rooms - todo, s)
        invariant sessionRooms == Unlink(sr0, s, rooms - todo)
        invariant Announced(notes, rooms - todo, roomSessions)
        decreases |todo|
      {
        var r :| r in todo;
        ghost var done := rooms - todo;
        TakeOne(rooms, todo, r);
        DetachStep(rs0, done, r, s);
        UnlinkStep(sr0, s, done, r);
        AnnouncedStep(notes, done, roomSessions, r, s);
        roomSessions := Drop(roomSessions, r, s);
        sessionRooms := Drop(sessionRooms, s, r);
        notes := notes + [Notice(r, Count(roomSessions, r))];
        todo := todo - {r};
      }
      assert rooms - todo == rooms;
    }

    /**
     * onDisconnect: the session's entry is removed and the session leaves
     * every room it was in, each announced once with its new count; an
     * unknown or missing session changes nothing.
     */
    method OnDisconnect(sessionId: Option<string>) returns (notes: seq<Notice>)
      requires Valid()
      modifies this
      ensures Valid()
      ensures sessionId.None? || sessionId.value !in old(sessionRooms) ==>
                roomSessions == old(roomSessions) && sessionRooms == old(sessionRooms) && notes == []
      ensures sessionId.Some? && sessionId.value in old(sessionRooms) ==>
                var s := sessionId.value;
                && roomSessions == Detach(old(roomSessions), old(sessionRooms)[s], s)
                && sessionRooms == old(sessionRooms) - {s}
                && Announced(notes, old(sessionRooms)[s], roomSessions)
    {
      if sessionId.None? || sessionId.value !in sessionRooms {
        return [];
      }
      var s := sessionId.value;
      var rooms := sessionRooms[s];
      ghost var rs0, sr0 := roomSessions, sessionRooms;
      DisconnectForgetsSession(rs0, sr0, s);
      sessionRooms := sessionRooms - {s};
      var todo := rooms;
      notes := [];
      assert rooms - todo == {};
      assert roomSessions == Detach(rs0, {}, s);
      while todo != {}
        invariant todo <= rooms
        invariant roomSessions == Detach(rs0, rooms - todo, s)
        invariant sessionRooms == sr0 - {s}
        invariant Announced(notes, rooms - todo, roomSessions)
        decreases |todo|
      {
        var r :| r in todo;
        ghost var done := rooms - todo;
        TakeOne(rooms, todo, r);
        DetachStep(rs0, done, r, s);
        AnnouncedStep(notes, done, roomSessions, r, s);
        roomSessions := Drop(roomSessions, r, s);
        notes := notes + [Notice(r, Count(roomSessions, r))];
        todo := todo - {r};
      }
      assert rooms - todo == rooms;
      assert Consistent(Detach(rs0, sr0[s], s), sr0 - {s});
    }
  }
}
