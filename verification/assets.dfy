/** Asset allotments: the open-allotment test of `allotAsset` and the overdue
    marking that `getUserAssets` applies to the rows it returns. */
module Assets {
  import opened Js
  import opened Calendar
  import opened Rows

  /** A row of `asset_allotment`; `returnDate` is None (NULL) while the asset is out. */
  datatype Allotment = Allotment(userId: int, assetId: int, allotmentDate: Date,
                                 returnDate: Option<Date>, acknowledge: bool, overdue: bool)

  /** `asset_id = $1 AND return_date IS NULL` */
  predicate IsOpenFor(a: Allotment, assetId: int) {
    a.assetId == assetId && a.returnDate.None?
  }

  function OpenCount(rows: seq<Allotment>, assetId: int): (n: nat) {
    Count(rows, (a: Allotment) => IsOpenFor(a, assetId))
  }

  /** Each asset is out to at most one user. */
  predicate AtMostOneOpen(rows: seq<Allotment>) {
    forall i, j :: 0 <= i < j < |rows| && rows[i].assetId == rows[j].assetId ==>
      rows[i].returnDate.Some? || rows[j].returnDate.Some?
  }

  /** `aa.user_id = $1` */
  function AllotmentsOf(rows: seq<Allotment>, userId: int): (mine: seq<Allotment>) {
    Filter(rows, (a: Allotment) => a.userId == userId)
  }

  /** Appending an open allotment keeps at most one open allotment per asset
      exactly when the asset had none. */
  lemma AllotKeepsOneOpen(rows: seq<Allotment>, a: Allotment)
    requires AtMostOneOpen(rows)
    requires a.returnDate.None?
    ensures AtMostOneOpen(rows + [a]) <==> OpenCount(rows, a.assetId) == 0
  {
    var p := (x: Allotment) => IsOpenFor(x, a.assetId);
    CountPositive(rows, p);
    var s := rows + [a];
    if OpenCount(rows, a.assetId) != 0 {
      var i :| 0 <= i < |rows| && p(rows[i]);
      assert s[i].assetId == s[|rows|].assetId && s[i].returnDate.None? && s[|rows|].returnDate.None?;
    } else {
      forall i, j | 0 <= i < j < |s| && s[i].assetId == s[j].assetId
        ensures s[i].returnDate.Some? || s[j].returnDate.Some?
      {
        if j == |rows| {
          assert !p(rows[i]);
        }
      }
    }
  }

  // Overdue marking. `instant` is the JavaScript instant (milliseconds) of a
  // DATE value as the driver delivers it; `now` is `new Date()`.

  /** As written: `new Date(asset.return_date)` with a NULL return date is the
      epoch (instant 0), so an open allotment counts as overdue. */
  function MarkRowAsWritten(a: Allotment, now: int, instant: Date -> int): (marked: Allotment) {
    var returnAt := match a.returnDate case None => 0 case Some(d) => instant(d);
    if !a.acknowledge && now > returnAt then a.(overdue := true) else a
  }

  function MarkOverdueAsWritten(rows: seq<Allotment>, now: int, instant: Date -> int): (r: seq<Allotment>)
    ensures |r| == |rows|
    ensures forall i :: 0 <= i < |rows| ==> r[i].(overdue := rows[i].overdue) == rows[i]
    ensures forall i :: 0 <= i < |rows| ==>
              (r[i].overdue <==> rows[i].overdue
                                 || (!rows[i].acknowledge && (rows[i].returnDate.None? ==> now > 0)
                                     && (rows[i].returnDate.Some? ==> now > instant(rows[i].returnDate.value))))
  {
    seq(|rows|, i requires 0 <= i < |rows| => MarkRowAsWritten(rows[i], now, instant))
  }

  /** An asset that is still out and unacknowledged is reported overdue at any time after the epoch. */
  lemma OpenAllotmentReportedOverdue(a: Allotment, now: int, instant: Date -> int)
    requires a.returnDate.None? && !a.acknowledge && now > 0
    ensures MarkOverdueAsWritten([a], now, instant)[0].overdue
  {
  }

  /** Overdue: not acknowledged, and a return date that lies before now. */
  predicate IsOverdue(a: Allotment, now: int, instant: Date -> int) {
    !a.acknowledge && a.returnDate.Some? && now > instant(a.returnDate.value)
  }

  function MarkRow(a: Allotment, now: int, instant: Date -> int): (marked: Allotment) {
    if IsOverdue(a, now, instant) then a.(overdue := true) else a
  }

  /** The rows with the overdue flag set on every overdue row; nothing else changes,
      and a flag already stored is kept. */
  function MarkOverdue(rows: seq<Allotment>, now: int, instant: Date -> int): (r: seq<Allotment>)
    ensures |r| == |rows|
    ensures forall i :: 0 <= i < |rows| ==> r[i].(overdue := rows[i].overdue) == rows[i]
    ensures forall i :: 0 <= i < |rows| ==> (r[i].overdue <==> rows[i].overdue || IsOverdue(rows[i], now, instant))
  {
    seq(|rows|, i requires 0 <= i < |rows| => MarkRow(rows[i], now, instant))
  }

  /** The corrected marking agrees with the written one on every row that has a return date. */
  lemma MarkingsAgreeOnReturnedRows(rows: seq<Allotment>, now: int, instant: Date -> int)
    requires forall i :: 0 <= i < |rows| ==> rows[i].returnDate.Some?
    ensures MarkOverdue(rows, now, instant) == MarkOverdueAsWritten(rows, now, instant)
  {
  }

  /** Marking twice is marking once. */
  lemma MarkOverdueIdempotent(rows: seq<Allotment>, now: int, instant: Date -> int)
    ensures MarkOverdue(MarkOverdue(rows, now, instant), now, instant) == MarkOverdue(rows, now, instant)
  {
  }

  /** A row overdue at some time is still overdue later. */
  lemma MarkOverdueMonotone(rows: seq<Allotment>, earlier: int, later: int, instant: Date -> int, i: int)
    requires earlier <= later && 0 <= i < |rows|
    requires MarkOverdue(rows, earlier, instant)[i].overdue
    ensures MarkOverdue(rows, later, instant)[i].overdue
  {
  }
}
