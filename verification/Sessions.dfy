/** The status of an escrow session's row. */
module Sessions {

  datatype SessionStatus = Open | Closed | Expired | Cancelled
}
