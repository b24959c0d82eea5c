/** What a route handler sends back. */
module Http {
  import opened Tables

  /** The JSON (or HTML) payload of a reply. */
  datatype Body =
    | Message(text: string)
    | EventRows(rows: seq<Event>)
    | PaymentOrder(orderId: string, amount: int, currency: string)
    | QrPass(qrDataUrl: string)
    | Html(markup: string)
    | Session(token: string, userId: nat, role: string)

  /**
    A reply with its status code, or `Aborted` when the handler throws before
    replying (no response is written and the tables are left as they were).
   */
  datatype Response = Reply(status: nat, body: Body) | Aborted
}
