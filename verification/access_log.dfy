/** One entry of the access log: a record of a login attempt. */
module AccessLogModel {
  import opened Common

  datatype AccessLogEntry = AccessLogEntry(
    timestamp: Time,
    accessCode: Option<Id>,
    codeUsed: string,
    customerName: string,
    ipAddress: string,
    userAgent: string,
    success: bool)

  /** An entry created with no fields set: the schema defaults. `success`
      defaults to true, so a handler logging a failure must clear it. */
  function NewLogEntry(now: Time): (e: AccessLogEntry)
    ensures e.timestamp == now && e.accessCode == None
    ensures e.codeUsed == e.customerName == e.ipAddress == e.userAgent == ""
    ensures e.success
  {
    AccessLogEntry(now, None, "", "", "", "", true)
  }
}
