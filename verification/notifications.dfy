/** The notifications kept in process memory by the controller module: a list
    that `createNotification` appends to and `getAllNotifications` returns. */
module Notifications {
  import opened Js
  import opened Http

  /** `createdAt` is the instant (milliseconds) of `new Date()` at creation.
      Title, message and type are stored as given, without validation. */
  datatype Notification = Notification(id: int, title: Field<string>, message: Field<string>,
                                       kind: Field<string>, createdAt: int)

  /** Every entry's id is its position plus one. */
  predicate NumberedFromOne(entries: seq<Notification>) {
    forall i :: 0 <= i < |entries| ==> entries[i].id == i + 1
  }

  function Ids(entries: seq<Notification>): (ids: set<int>) {
    set e | e in entries :: e.id
  }

  /** The ids are exactly 1..n, so no two entries share one. */
  lemma IdsAreOneToN(entries: seq<Notification>)
    requires NumberedFromOne(entries)
    ensures forall k :: k in Ids(entries) <==> 1 <= k <= |entries|
    ensures forall i, j :: 0 <= i < j < |entries| ==> entries[i].id != entries[j].id
  {
    var ids := Ids(entries);
    forall k | 1 <= k <= |entries| ensures k in ids {
      assert entries[k - 1] in entries;
    }
    forall k | k in ids ensures 1 <= k <= |entries| {
      var e :| e in entries && e.id == k;
      var i :| 0 <= i < |entries| && entries[i] == e;
    }
  }

  class NotificationList {
    var entries: seq<Notification>

    ghost predicate Valid()
      reads this
    {
      NumberedFromOne(entries)
    }

    constructor ()
      ensures Valid() && entries == []
    {
      entries := [];
    }

    /** `createNotification` */
    method Create(title: Field<string>, message: Field<string>, kind: Field<string>, now: int)
      returns (r: Reply<Notification>)
      requires Valid()
      modifies this
      ensures Valid()
      ensures r.status == Created && r.body.Some?
      ensures r.body.value == Notification(|old(entries)| + 1, title, message, kind, now)
      ensures entries == old(entries) + [r.body.value]
    {
      var n := Notification(|entries| + 1, title, message, kind, now);
      entries := entries + [n];
      r := Reply(Created, Some(n));
    }

    /** `getAllNotifications` */
    method GetAll() returns (r: Reply<seq<Notification>>)
      ensures r.status == NotFound <==> entries == []
      ensures r.status != NotFound ==> r.status == OK && r.body == Some(entries)
    {
      if |entries| == 0 {
        return Reply(NotFound, None);
      }
      r := Reply(OK, Some(entries));
    }
  }
}
