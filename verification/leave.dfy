/** Leave requests and the 0/1 "leave balance" of `getLeaveBalance`. */
module Leave {
  import opened Js
  import opened Calendar
  import opened Rows

  /** A row of `leave_requests`. The status column keeps its default and is not modelled. */
  datatype LeaveRequest = LeaveRequest(userId: int, leaveType: string, start: Date, end: Date, comments: Field<string>)

  /** The WHERE clause of the count: the request is the user's and starts in the given month of the given year. */
  predicate StartsIn(r: LeaveRequest, userId: int, month: int, year: int) {
    r.userId == userId && r.start.month == month && r.start.year == year
  }

  /** `COUNT(*)` of the user's requests starting in that month. */
  function LeaveCount(requests: seq<LeaveRequest>, userId: int, month: int, year: int): (n: nat) {
    Count(requests, (r: LeaveRequest) => StartsIn(r, userId, month, year))
  }

  /** 0 when the user already has a request starting in the month, 1 otherwise. */
  function MonthlyBalance(requests: seq<LeaveRequest>, userId: int, month: int, year: int): (balance: int)
    ensures balance == 0 || balance == 1
    ensures balance == 0 <==> exists i :: 0 <= i < |requests| && StartsIn(requests[i], userId, month, year)
  {
    CountPositive(requests, (r: LeaveRequest) => StartsIn(r, userId, month, year));
    if LeaveCount(requests, userId, month, year) > 0 then 0 else 1
  }

  /** Another request can only take the balance from 1 to 0, never back. */
  lemma MonthlyBalanceAfterInsert(requests: seq<LeaveRequest>, r: LeaveRequest,
                                  userId: int, month: int, year: int)
    ensures MonthlyBalance(requests + [r], userId, month, year)
            == if StartsIn(r, userId, month, year) then 0 else MonthlyBalance(requests, userId, month, year)
  {
  }
}
