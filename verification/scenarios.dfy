/** Sequences of requests against a fresh store, and what their answers must be. */
module Scenarios {
  import opened Js
  import opened Http
  import opened Calendar
  import opened Store
  import opened Notifications
  import opened Assets

  /** Registering the same email twice: the second attempt is refused and inserts nothing. */
  method RegisterTwice(email: string, password: string, hash: string -> string) returns (first: int, second: int, users: nat)
    ensures first == Created && second == BadRequest && users == 1
  {
    var store := new HrStore(0);
    first := store.Register(Given("first"), email, Given(password), Given(password), hash);
    second := store.Register(Given("second"), email, Given(password), Given(password), hash);
    users := |store.users|;
  }

  /** Granting the whole balance leaves 0; a further day is refused. */
  method GrantUntilExhausted(balance: nat, password: string, hash: string -> string)
    returns (granted: Reply<int>, refused: Reply<int>)
    ensures granted == Reply(OK, Some(0))
    ensures refused.status == BadRequest
  {
    var store := new HrStore(balance);
    var _ := store.Register(Given("n"), "e", Given(password), Given(password), hash);
    granted := store.CheckLeaveBalance(Given(1), Given(balance));
    refused := store.CheckLeaveBalance(Given(1), Given(1));
  }

  /** A leave request starting this month turns the monthly balance from 1 to 0. */
  method LeaveThisMonth(userId: int, start: string, end: string, month: int, year: int,
                        parseDate: string -> Option<Date>) returns (before: Reply<int>, after: Reply<int>)
    requires userId != 0 && start != "" && end != ""
    requires parseDate(start).Some? && parseDate(end).Some?
    requires parseDate(start).value.month == month && parseDate(start).value.year == year
    ensures before == Reply(OK, Some(1)) && after == Reply(OK, Some(0))
  {
    var store := new HrStore(0);
    before := store.GetLeaveBalance(Given(userId), month, year);
    var applied := store.ApplyForLeave(Given(userId), Given("casual"), Given(start), Given(end), Undefined, parseDate);
    assert Leave.StartsIn(store.leaveRequests[0], userId, month, year);
    after := store.GetLeaveBalance(Given(userId), month, year);
  }

  /** An asset out to one user cannot be allotted to another. */
  method AllotTwice(assetId: int, owner: int, other: int, today: Date) returns (first: int, second: int)
    ensures first == Created && second == BadRequest
  {
    var store := new HrStore(0);
    first := store.AllotAsset(owner, assetId, today);
    assert IsOpenFor(store.allotments[0], assetId);
    second := store.AllotAsset(other, assetId, today);
  }

  /** A freshly allotted asset, not yet returned or acknowledged, is listed as overdue. */
  method FreshAllotmentListedOverdue(userId: int, assetId: int, today: Date, now: int, instant: Date -> int)
    returns (listed: Reply<seq<Allotment>>)
    requires now > 0
    ensures listed.status == OK && listed.body.Some? && |listed.body.value| == 1 && listed.body.value[0].overdue
  {
    var store := new HrStore(0);
    var _ := store.AllotAsset(userId, assetId, today);
    assert store.allotments[0].userId == userId;
    listed := store.GetUserAssets(userId, now, instant);
    assert AllotmentsOf(store.allotments, userId) == store.allotments;
  }

  /** Inserting then updating a type leaves one entry holding the newer content. */
  method UpsertTwice(kind: string, v1: string, v2: string) returns (first: int, second: int, read: Reply<CompanyInfo>)
    requires kind != "" && v1 != "" && v2 != ""
    ensures first == Created && second == OK
    ensures read == Reply(OK, Some(CompanyInfo(kind, v2)))
  {
    var store := new HrStore(0);
    first := store.UpsertCompanyInfo(Given(kind), Given(v1));
    second := store.UpsertCompanyInfo(Given(kind), Given(v2));
    read := store.GetCompanyInfo(kind);
  }

  /** Three notifications get the ids 1, 2 and 3; the empty list answers 404. */
  method ThreeNotifications(now: int) returns (empty: int, ids: seq<int>)
    ensures empty == NotFound && ids == [1, 2, 3]
  {
    var list := new NotificationList();
    var none := list.GetAll();
    empty := none.status;
    var a := list.Create(Given("a"), Undefined, Null, now);
    var b := list.Create(Given("b"), Undefined, Null, now);
    var c := list.Create(Given("c"), Undefined, Null, now);
    var all := list.GetAll();
    ids := [all.body.value[0].id, all.body.value[1].id, all.body.value[2].id];
  }
}
