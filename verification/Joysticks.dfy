/** GLFWJoystickManager: user ids for connected gamepads. */
module Joysticks {
  /** The ids smaller than `n`. */
  function Below(n: nat): (r: set<nat>) {
    if n == 0 then {} else Below(n - 1) + {n - 1}
  }

  lemma {:induction false} BelowMembers(n: nat, i: nat)
    ensures i in Below(n) <==> i < n
  {
    if n > 0 { BelowMembers(n - 1, i); }
  }

  lemma {:induction false} BelowSize(n: nat)
    ensures |Below(n)| == n
  {
    if n > 0 {
      BelowSize(n - 1);
      BelowMembers(n - 1, n - 1);
    }
  }

  lemma {:induction false} SubsetSize(a: set<nat>, b: set<nat>)
    requires a <= b
    ensures |a| <= |b|
  {
    if a != {} {
      var x :| x in a;
      SubsetSize(a - {x}, b - {x});
    }
  }

  /** The ids held by connected joysticks. */
  function IdsOf(connected: map<int, nat>): set<nat> { set j | j in connected :: connected[j] }

  datatype Note = Note(userId: nat, connected: bool)

  class JoystickManager {
    var connectedJoysticks: map<int, nat>
    var userIds: set<nat>
    /** What the windows were told. */
    var notes: seq<Note>

    /** The taken ids are those of the connected joysticks, and no two share one. */
    ghost predicate Valid()
      reads this
    {
      userIds == IdsOf(connectedJoysticks)
      && forall a, b :: a in connectedJoysticks && b in connectedJoysticks ==>
           (connectedJoysticks[a] == connectedJoysticks[b] ==> a == b)
    }

    constructor ()
      ensures Valid() && connectedJoysticks == map[] && notes == []
    {
      connectedJoysticks, userIds, notes := map[], {}, [];
    }

    /** The least id that is not taken; the search ends because a set of n ids cannot contain n + 1. */
    method NextUnassignedUserId() returns (i: nat)
      ensures i !in userIds && Below(i) <= userIds && i <= |userIds|
    {
      i := 0;
      while i in userIds
        invariant Below(i) <= userIds && i <= |userIds|
        decreases |userIds| - i
      {
        BelowSize(i + 1);
        SubsetSize(Below(i + 1), userIds);
        i := i + 1;
      }
      BelowSize(i);
      SubsetSize(Below(i), userIds);
    }

    /** The connect callback; `recognized` says whether a gamepad mapping was found in the end. */
    method OnConnected(joystick: int, recognized: bool)
      requires Valid()
      modifies this
      ensures Valid()
      ensures !recognized || joystick in old(connectedJoysticks) ==>
                connectedJoysticks == old(connectedJoysticks) && userIds == old(userIds) && notes == old(notes)
      ensures recognized && joystick !in old(connectedJoysticks) ==>
                exists id: nat :: id !in old(userIds) && Below(id) <= old(userIds) && userIds == old(userIds) + {id}
                                  && connectedJoysticks == old(connectedJoysticks)[joystick := id]
                                  && notes == old(notes) + [Note(id, true)]
    {
      if !recognized || joystick in connectedJoysticks {
        return;
      }
      var userId := NextUnassignedUserId();
      userIds := userIds + {userId};
      connectedJoysticks := connectedJoysticks[joystick := userId];
      notes := notes + [Note(userId, true)];
      IdAdded(old(connectedJoysticks), joystick, userId);
    }

    /** The disconnect callback frees exactly the joystick's own id. */
    method OnDisconnected(joystick: int)
      requires Valid()
      modifies this
      ensures Valid() && connectedJoysticks == old(connectedJoysticks) - {joystick}
      ensures if joystick in old(connectedJoysticks)
              then userIds == old(userIds) - {old(connectedJoysticks)[joystick]}
                   && notes == old(notes) + [Note(old(connectedJoysticks)[joystick], false)]
              else userIds == old(userIds) && notes == old(notes)
    {
      if joystick !in connectedJoysticks {
        return;
      }
      var userId := connectedJoysticks[joystick];
      userIds := userIds - {userId};
      connectedJoysticks := connectedJoysticks - {joystick};
      notes := notes + [Note(userId, false)];
      IdRemoved(old(connectedJoysticks), joystick);
    }
  }

  lemma IdAdded(m: map<int, nat>, j: int, id: nat)
    requires j !in m
    ensures IdsOf(m[j := id]) == IdsOf(m) + {id}
  {
    var m' := m[j := id];
    assert m'[j] in IdsOf(m');
    forall k | k in m ensures m[k] in IdsOf(m') { assert m'[k] in IdsOf(m'); }
  }

  lemma IdRemoved(m: map<int, nat>, j: int)
    requires j in m && forall a, b :: a in m && b in m && m[a] == m[b] ==> a == b
    ensures IdsOf(m - {j}) == IdsOf(m) - {m[j]}
  {
    var m' := m - {j};
    forall k | k in m && k != j ensures m[k] in IdsOf(m') { assert m'[k] in IdsOf(m'); }
  }

  // ---- whole runs ----

  datatype Event = Connect(joystick: int, recognized: bool) | Disconnect(joystick: int)

  /** The joysticks that are connected after an event. */
  function Present(e: Event, on: set<int>): set<int> {
    match e
    case Connect(j, recognized) => if recognized then on + {j} else on
    case Disconnect(j) => on - {j}
  }

  function AllPresent(events: seq<Event>, on: set<int>): set<int> {
    if events == [] then on else Present(events[|events| - 1], AllPresent(events[..|events| - 1], on))
  }

  /** The most joysticks that are connected at once, or `least` if that is more. */
  function Peak(events: seq<Event>, on: set<int>, least: nat): nat {
    var now := |AllPresent(events, on)|;
    var before := if events == [] then least else Peak(events[..|events| - 1], on, least);
    if before < now then now else before
  }

  lemma AnyOf<T>(s: set<T>) returns (x: T)
    requires s != {}
    ensures x in s
  {
    x :| x in s;
  }

  /** The ids in use are as many as the connected joysticks. */
  lemma {:induction false} IdsSize(m: map<int, nat>)
    requires forall a, b :: a in m && b in m && m[a] == m[b] ==> a == b
    ensures |IdsOf(m)| == |m.Keys|
    decreases |m.Keys|
  {
    if m.Keys == {} {
      assert IdsOf(m) == {};
    } else {
      var j := AnyOf(m.Keys);
      IdRemoved(m, j);
      assert (m - {j}).Keys == m.Keys - {j};
      IdsSize(m - {j});
      assert m[j] in IdsOf(m);
    }
  }

  method Handle(m: JoystickManager, e: Event)
    requires m.Valid()
    modifies m
    ensures m.Valid() && m.connectedJoysticks.Keys == Present(e, old(m.connectedJoysticks.Keys))
    ensures forall id :: id in m.userIds ==> id in old(m.userIds) || id < |m.connectedJoysticks.Keys|
    ensures forall j :: j in old(m.connectedJoysticks) && e != Disconnect(j) ==>
              j in m.connectedJoysticks && m.connectedJoysticks[j] == old(m.connectedJoysticks)[j]
  {
    IdsSize(m.connectedJoysticks);
    match e
    case Connect(joystick, recognized) =>
      ghost var ids := m.userIds;
      m.OnConnected(joystick, recognized);
      forall id | id in m.userIds && id !in ids ensures id < |m.connectedJoysticks.Keys| {
        BelowSize(id);
        SubsetSize(Below(id), ids);
        IdsSize(m.connectedJoysticks);
      }
    case Disconnect(joystick) => m.OnDisconnected(joystick);
  }

  /** Over every run: exactly the recognized joysticks that were not unplugged since are connected, each has an id of
      its own and keeps it for as long as it stays plugged in, and every id is below the largest number of joysticks
      that were ever connected at once, or below `least` if all were so before. */
  method Run(m: JoystickManager, events: seq<Event>, ghost least: nat)
    requires m.Valid() && forall id :: id in m.userIds ==> id < least
    modifies m
    ensures m.Valid() && m.connectedJoysticks.Keys == AllPresent(events, old(m.connectedJoysticks.Keys))
    ensures forall id :: id in m.userIds ==> id < Peak(events, old(m.connectedJoysticks.Keys), least)
    ensures forall j :: j in old(m.connectedJoysticks) && Disconnect(j) !in events ==>
              j in m.connectedJoysticks && m.connectedJoysticks[j] == old(m.connectedJoysticks)[j]
  {
    ghost var on := m.connectedJoysticks.Keys;
    for i := 0 to |events|
      invariant m.Valid() && m.connectedJoysticks.Keys == AllPresent(events[..i], on)
      invariant forall id :: id in m.userIds ==> id < Peak(events[..i], on, least)
      invariant forall j :: j in old(m.connectedJoysticks) && Disconnect(j) !in events[..i] ==>
                  j in m.connectedJoysticks && m.connectedJoysticks[j] == old(m.connectedJoysticks)[j]
    {
      assert events[..i + 1] == events[..i] + [events[i]] && events[..i + 1][..i] == events[..i];
      Handle(m, events[i]);
    }
    assert events[..|events|] == events;
  }
}
