/** The tables the handlers of the auth controller read and write, as one
    object, with one method per handler. Each method follows its handler's
    branches and returns the HTTP status it answers with. Calls are taken one
    at a time: the check-then-act sequences here are not atomic in the
    handlers, and nothing below says they are. */
module Store {
  import opened Js
  import opened Http
  import opened Calendar
  import opened Rows
  import opened Leave
  import opened Assets
  import RowCount

  /** A row of `users`. */
  datatype User = User(name: Field<string>, email: string, passwordHash: string, leaveBalance: int)

  /** What `getUserById` returns of a user. */
  datatype UserSummary = UserSummary(id: int, name: Field<string>, email: string)

  /** A row of `company_info`; `kind` is the `type` column. */
  datatype CompanyInfo = CompanyInfo(kind: string, content: string)

  predicate UniqueEmails(users: map<int, User>) {
    forall a, b :: a in users && b in users && a != b ==> users[a].email != users[b].email
  }

  predicate EmailTaken(users: map<int, User>, email: string) {
    exists id :: id in users && users[id].email == email
  }

  /** The ids `SELECT * FROM users WHERE email = $1` returns. */
  function UsersWithEmail(users: map<int, User>, email: string): (ids: set<int>)
    ensures |ids| > 0 <==> EmailTaken(users, email)
  {
    var ids := set id | id in users && users[id].email == email;
    if EmailTaken(users, email) then
      var id :| id in users && users[id].email == email;
      assert id in ids;
      ids
    else
      assert forall x :: x !in ids;
      assert ids == {};
      ids
  }

  predicate UniqueKinds(rows: seq<CompanyInfo>) {
    forall i, j :: 0 <= i < j < |rows| ==> rows[i].kind != rows[j].kind
  }

  predicate HasKind(rows: seq<CompanyInfo>, kind: string) {
    exists i :: 0 <= i < |rows| && rows[i].kind == kind
  }

  /** `UPDATE company_info SET content = $1 WHERE type = $2` */
  function SetContent(rows: seq<CompanyInfo>, kind: string, content: string): (r: seq<CompanyInfo>)
    ensures |r| == |rows|
    ensures forall i :: 0 <= i < |rows| ==> r[i].kind == rows[i].kind
    ensures forall i :: 0 <= i < |rows| ==> r[i].content == if rows[i].kind == kind then content else rows[i].content
  {
    seq(|rows|, i requires 0 <= i < |rows| => if rows[i].kind == kind then rows[i].(content := content) else rows[i])
  }

  /** After an upsert the type has exactly one entry, which holds the new content. */
  predicate HoldsOnly(rows: seq<CompanyInfo>, kind: string, content: string) {
    exists i :: 0 <= i < |rows| && rows[i] == CompanyInfo(kind, content)
                && forall j :: 0 <= j < |rows| && j != i ==> rows[j].kind != kind
  }

  /** `leave_days` as the comparison and subtraction see it: `null` becomes 0. */
  function DaysRequested(leaveDays: Field<int>): (days: int)
    requires !leaveDays.Undefined?
  {
    if leaveDays.Null? then 0 else leaveDays.value
  }

  class HrStore {
    var users: map<int, User>
    /** The next value of the `users.id` sequence. */
    var nextUserId: int
    /** The `leave_balance` a newly inserted user gets from the column default. */
    const defaultLeaveBalance: nat
    var leaveRequests: seq<LeaveRequest>
    var allotments: seq<Allotment>
    var companyInfo: seq<CompanyInfo>

    ghost predicate Valid()
      reads this
    {
      && UniqueEmails(users)
      && (forall id :: id in users ==> id < nextUserId)
      && (forall id :: id in users ==> users[id].leaveBalance >= 0)
      && AtMostOneOpen(allotments)
      && UniqueKinds(companyInfo)
    }

    constructor (defaultLeaveBalance: nat)
      ensures Valid()
      ensures users == map[] && nextUserId == 1 && leaveRequests == [] && allotments == [] && companyInfo == []
      ensures this.defaultLeaveBalance == defaultLeaveBalance
    {
      users := map[];
      nextUserId := 1;
      this.defaultLeaveBalance := defaultLeaveBalance;
      leaveRequests := [];
      allotments := [];
      companyInfo := [];
    }

    /** `register`. `hash` is bcrypt's hash with the salt it draws; bcrypt
        rejects a password that is not a string, which surfaces as 500. */
    method Register(name: Field<string>, email: string, password: Field<string>,
                    confirmPassword: Field<string>, hash: string -> string) returns (status: int)
      requires Valid()
      modifies this`users, this`nextUserId
      ensures Valid()
      ensures status == BadRequest <==> password != confirmPassword || EmailTaken(old(users), email)
      ensures status == InternalError <==>
                password == confirmPassword && !EmailTaken(old(users), email) && !password.Given?
      ensures status == Created <==>
                password == confirmPassword && !EmailTaken(old(users), email) && password.Given?
      ensures status == Created ==>
                && old(nextUserId) !in old(users)
                && users == old(users)[old(nextUserId) := User(name, email, hash(password.value), defaultLeaveBalance)]
                && nextUserId == old(nextUserId) + 1
      ensures status != Created ==> users == old(users) && nextUserId == old(nextUserId)
    {
      if password != confirmPassword {
        return BadRequest;
      }
      var rowCount := |UsersWithEmail(users, email)|;
      if RowCount.EmailExists(Some(rowCount)) {
        return BadRequest;
      }
      if !password.Given? {
        return InternalError;
      }
      users := users[nextUserId := User(name, email, hash(password.value), defaultLeaveBalance)];
      nextUserId := nextUserId + 1;
      status := Created;
    }

    /** `getUserById` */
    method GetUserById(id: int) returns (r: Reply<UserSummary>)
      ensures r.status == NotFound <==> id !in users
      ensures r.status != NotFound ==>
                r.status == OK && id in users && r.body == Some(UserSummary(id, users[id].name, users[id].email))
    {
      if id !in users {
        return Reply(NotFound, None);
      }
      r := Reply(OK, Some(UserSummary(id, users[id].name, users[id].email)));
    }

    /** `checkLeaveBalance`: grants `leave_days` out of the stored balance when it suffices. */
    method CheckLeaveBalance(userId: Field<int>, leaveDays: Field<int>) returns (r: Reply<int>)
      requires Valid()
      modifies this`users
      ensures Valid()
      ensures userId.Undefined? || leaveDays.Undefined? ==> r.status == BadRequest
      ensures r.status == NotFound <==>
                !userId.Undefined? && !leaveDays.Undefined? && !(userId.Given? && userId.value in old(users))
      ensures r.status == OK <==>
                && !leaveDays.Undefined? && userId.Given? && userId.value in old(users)
                && old(users)[userId.value].leaveBalance >= DaysRequested(leaveDays)
      ensures r.status in {OK, BadRequest, NotFound}
      ensures r.status == OK ==>
                var granted := old(users)[userId.value].leaveBalance - DaysRequested(leaveDays);
                && granted >= 0
                && r.body == Some(granted)
                && users == old(users)[userId.value := old(users)[userId.value].(leaveBalance := granted)]
      ensures r.status != OK ==> users == old(users) && r.body == None
    {
      if userId.Undefined? || leaveDays.Undefined? {
        return Reply(BadRequest, None);
      }
      if !userId.Given? || userId.value !in users {
        return Reply(NotFound, None);
      }
      var id := userId.value;
      var balance := users[id].leaveBalance;
      var days := DaysRequested(leaveDays);
      if balance >= days {
        var granted := balance - days;
        users := users[id := users[id].(leaveBalance := granted)];
        r := Reply(OK, Some(granted));
      } else {
        r := Reply(BadRequest, None);
      }
    }

    /** `applyForLeave`: inserts the request once every required field is truthy.
        `parseDate` stands for the database's reading of a date text; a text it
        refuses makes the insert fail (500). */
    method ApplyForLeave(userId: Field<int>, leaveType: Field<string>, startDate: Field<string>,
                         endDate: Field<string>, comments: Field<string>,
                         parseDate: string -> Option<Date>) returns (r: Reply<LeaveRequest>)
      modifies this`leaveRequests
      ensures r.status == BadRequest <==>
                !TruthyNumber(userId) || !TruthyText(leaveType) || !TruthyText(startDate) || !TruthyText(endDate)
      ensures r.status == Created <==>
                && TruthyNumber(userId) && TruthyText(leaveType) && TruthyText(startDate) && TruthyText(endDate)
                && parseDate(startDate.value).Some? && parseDate(endDate.value).Some?
      ensures r.status == Created ==>
                r.body == Some(LeaveRequest(userId.value, leaveType.value, parseDate(startDate.value).value,
                                            parseDate(endDate.value).value, comments))
                && leaveRequests == old(leaveRequests) + [r.body.value]
      ensures r.status == InternalError <==>
                && TruthyNumber(userId) && TruthyText(leaveType) && TruthyText(startDate) && TruthyText(endDate)
                && (parseDate(startDate.value).None? || parseDate(endDate.value).None?)
      ensures r.status != Created ==> leaveRequests == old(leaveRequests) && r.body == None
    {
      if !TruthyNumber(userId) || !TruthyText(leaveType) || !TruthyText(startDate) || !TruthyText(endDate) {
        return Reply(BadRequest, None);
      }
      var start, end := parseDate(startDate.value), parseDate(endDate.value);
      if start.None? || end.None? {
        return Reply(InternalError, None);
      }
      var request := LeaveRequest(userId.value, leaveType.value, start.value, end.value, comments);
      leaveRequests := leaveRequests + [request];
      r := Reply(Created, Some(request));
    }

    /** `getLeaveBalance`. `userId` is the query parameter (Undefined when absent
        or empty); `month` (1-12) and `year` are today's. */
    method GetLeaveBalance(userId: Field<int>, month: int, year: int) returns (r: Reply<int>)
      ensures r.status == BadRequest <==> !userId.Given?
      ensures r.status != BadRequest ==> r.status == OK && r.body.Some?
      ensures r.body.Some? ==> r.body.value == 0 || r.body.value == 1
      ensures r.body == Some(0) <==>
                userId.Given? && exists i :: 0 <= i < |leaveRequests| && StartsIn(leaveRequests[i], userId.value, month, year)
    {
      if !userId.Given? {
        return Reply(BadRequest, None);
      }
      var leaveCount := LeaveCount(leaveRequests, userId.value, month, year);
      r := Reply(OK, Some(if leaveCount > 0 then 0 else 1));
      assert r.body.value == MonthlyBalance(leaveRequests, userId.value, month, year);
    }

    /** `allotAsset`: refuses an asset that is still out, otherwise records an
        open, unacknowledged allotment dated `today`. */
    method AllotAsset(userId: int, assetId: int, today: Date) returns (status: int)
      requires Valid()
      modifies this`allotments
      ensures Valid()
      ensures status == BadRequest <==> exists i :: 0 <= i < |old(allotments)| && IsOpenFor(old(allotments)[i], assetId)
      ensures status != BadRequest ==>
                status == Created
                && allotments == old(allotments) + [Allotment(userId, assetId, today, None, false, false)]
      ensures status == BadRequest ==> allotments == old(allotments)
    {
      var rowCount := OpenCount(allotments, assetId);
      CountPositive(allotments, (a: Allotment) => IsOpenFor(a, assetId));
      if RowCount.AssetAllotted(Some(rowCount)) {
        return BadRequest;
      }
      var a := Allotment(userId, assetId, today, None, false, false);
      AllotKeepsOneOpen(allotments, a);
      allotments := allotments + [a];
      status := Created;
    }

    /** `getUserAssets`: the user's allotments, marked overdue as the handler does it. */
    method GetUserAssets(userId: int, now: int, instant: Date -> int) returns (r: Reply<seq<Allotment>>)
      ensures r.status == NotFound <==> forall i :: 0 <= i < |allotments| ==> allotments[i].userId != userId
      ensures r.status != NotFound ==>
                r.status == OK && r.body == Some(MarkOverdueAsWritten(AllotmentsOf(allotments, userId), now, instant))
    {
      var rows := AllotmentsOf(allotments, userId);
      if |rows| == 0 {
        CountPositive(allotments, (a: Allotment) => a.userId == userId);
        return Reply(NotFound, None);
      }
      assert rows[0] in allotments;
      r := Reply(OK, Some(MarkOverdueAsWritten(rows, now, instant)));
    }

    /** `getUserAssets` with the corrected marking: a row without a return date is never overdue. */
    method GetUserAssetsCorrected(userId: int, now: int, instant: Date -> int) returns (r: Reply<seq<Allotment>>)
      ensures r.status == NotFound <==> forall i :: 0 <= i < |allotments| ==> allotments[i].userId != userId
      ensures r.status != NotFound ==>
                r.status == OK && r.body == Some(MarkOverdue(AllotmentsOf(allotments, userId), now, instant))
    {
      var rows := AllotmentsOf(allotments, userId);
      if |rows| == 0 {
        CountPositive(allotments, (a: Allotment) => a.userId == userId);
        return Reply(NotFound, None);
      }
      assert rows[0] in allotments;
      r := Reply(OK, Some(MarkOverdue(rows, now, instant)));
    }

    /** `upsertCompanyInfo`: updates the entry of the type if there is one, inserts it otherwise. */
    method UpsertCompanyInfo(kind: Field<string>, content: Field<string>) returns (status: int)
      requires Valid()
      modifies this`companyInfo
      ensures Valid()
      ensures status == BadRequest <==> !TruthyText(kind) || !TruthyText(content)
      ensures status == OK <==> TruthyText(kind) && TruthyText(content) && HasKind(old(companyInfo), kind.value)
      ensures status == Created <==> TruthyText(kind) && TruthyText(content) && !HasKind(old(companyInfo), kind.value)
      ensures status == BadRequest ==> companyInfo == old(companyInfo)
      ensures status != BadRequest ==>
                && HoldsOnly(companyInfo, kind.value, content.value)
                && |companyInfo| == |old(companyInfo)| + (if status == Created then 1 else 0)
                && forall i :: 0 <= i < |old(companyInfo)| && old(companyInfo)[i].kind != kind.value ==>
                     companyInfo[i] == old(companyInfo)[i]
    {
      if !TruthyText(kind) || !TruthyText(content) {
        return BadRequest;
      }
      var t, c := kind.value, content.value;
      var rowCount := Count(companyInfo, (row: CompanyInfo) => row.kind == t);
      CountPositive(companyInfo, (row: CompanyInfo) => row.kind == t);
      if RowCount.TypeExists(Some(rowCount)) {
        var i :| 0 <= i < |companyInfo| && companyInfo[i].kind == t;
        companyInfo := SetContent(companyInfo, t, c);
        assert companyInfo[i] == CompanyInfo(t, c);
        status := OK;
      } else {
        companyInfo := companyInfo + [CompanyInfo(t, c)];
        assert companyInfo[|companyInfo| - 1] == CompanyInfo(t, c);
        status := Created;
      }
    }

    /** `getCompanyInfo` */
    method GetCompanyInfo(kind: string) returns (r: Reply<CompanyInfo>)
      requires Valid()
      ensures r.status == NotFound <==> !HasKind(companyInfo, kind)
      ensures r.status != NotFound ==>
                r.status == OK && r.body.Some? && r.body.value.kind == kind && r.body.value in companyInfo
      ensures r.status == OK ==> HoldsOnly(companyInfo, kind, r.body.value.content)
    {
      var rows := Filter(companyInfo, (row: CompanyInfo) => row.kind == kind);
      CountPositive(companyInfo, (row: CompanyInfo) => row.kind == kind);
      if |rows| == 0 {
        return Reply(NotFound, None);
      }
      var i :| 0 <= i < |companyInfo| && companyInfo[i].kind == kind;
      assert rows[0] in companyInfo;
      r := Reply(OK, Some(rows[0]));
    }
  }
}
