/** The overtime check of `checkAttendance`: instants are integer milliseconds
    since the epoch, and a stamp that does not parse has no instant (JavaScript's NaN). */
module Attendance {
  import opened Js
  import opened Http

  const MsPerHour := 3_600_000
  /** 9.5 hours in milliseconds. */
  const OvertimeThresholdMs := 34_200_000

  /** Whether the shift from `punchIn` to `punchOut` lasted more than 9.5 hours.
      A NaN on either side makes the comparison false. */
  function Overtime(punchIn: Option<int>, punchOut: Option<int>): (flag: bool)
    ensures flag <==> punchIn.Some? && punchOut.Some?
                      && (punchOut.value - punchIn.value) as real / MsPerHour as real > 9.5
  {
    punchIn.Some? && punchOut.Some? && punchOut.value - punchIn.value > OvertimeThresholdMs
  }

  /** The handler: every request field must be truthy, then the stamps are parsed
      (`parse` stands for `new Date(text).getTime()`) and the flag is returned. */
  function CheckAttendance(userId: Field<int>, punchIn: Field<string>, punchOut: Field<string>,
                           parse: string -> Option<int>): (r: Reply<bool>)
    ensures r.status == BadRequest <==>
              !TruthyNumber(userId) || !TruthyText(punchIn) || !TruthyText(punchOut)
    ensures r.status == BadRequest ==> r.body == None
    ensures r.status != BadRequest ==>
              r.status == OK && r.body.Some?
              && (r.body.value <==> Overtime(parse(punchIn.value), parse(punchOut.value)))
  {
    if !TruthyNumber(userId) || !TruthyText(punchIn) || !TruthyText(punchOut) then
      Reply(BadRequest, None)
    else
      Reply(OK, Some(Overtime(parse(punchIn.value), parse(punchOut.value))))
  }

  /** Exactly 9.5 hours, one millisecond more, a negative shift and a NaN stamp. */
  lemma OvertimeBoundaries(t: int)
    ensures !Overtime(Some(t), Some(t + 34_200_000))
    ensures Overtime(Some(t), Some(t + 34_200_001))
    ensures !Overtime(Some(t), Some(t - 1))
    ensures !Overtime(None, Some(t)) && !Overtime(Some(t), None)
  {
  }

  /** An unparseable stamp is not a client error: the answer is 200 with a false flag. */
  lemma UnparseableStampIsNotAnError(userId: int, punchIn: string, punchOut: string,
                                      parse: string -> Option<int>)
    requires userId != 0 && punchIn != "" && punchOut != ""
    requires parse(punchIn) == None || parse(punchOut) == None
    ensures CheckAttendance(Given(userId), Given(punchIn), Given(punchOut), parse) == Reply(OK, Some(false))
  {
  }
}
