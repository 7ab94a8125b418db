/** How three handlers read the `rowCount` of a SELECT. The driver types it as
    `number | null`; None is the null case. */
module RowCount {
  import opened Js

  /** `register`: `result.rowCount ?? 0 > 0`, which parses as
      `result.rowCount ?? (0 > 0)`: the count itself, taken as truthy. */
  function EmailExists(rowCount: Option<nat>): (exists_: bool)
    ensures exists_ <==> rowCount.GetOr(0) > 0
  {
    match rowCount
    case None => 0 > 0
    case Some(n) => n != 0
  }

  /** `allotAsset`: `checkAllotment.rowCount && checkAllotment.rowCount > 0`. */
  function AssetAllotted(rowCount: Option<nat>): (allotted: bool)
    ensures allotted <==> rowCount.GetOr(0) > 0
  {
    rowCount.Some? && rowCount.value != 0 && rowCount.value > 0
  }

  /** `upsertCompanyInfo`: `rowCount === null || rowCount > 0` takes the update branch,
      so an unknown count is treated as an existing entry. */
  function TypeExists(rowCount: Option<nat>): (update: bool)
    ensures update <==> rowCount != Some(0)
  {
    rowCount.None? || rowCount.value > 0
  }
}
