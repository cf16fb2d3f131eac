/** What an API handler sends back: a status code and the part of the JSON body that
    carries data. Error and success messages are not modelled. */
module Http {
  import opened Wrappers
  import Legacy

  datatype Payload =
    | NoData
    | Migrated(count: nat)
    | Listing(categories: seq<Legacy.Category>)
    | Document(doc: Option<Legacy.Category>)

  /** `NoResponse` is a branch that returns without writing any response. */
  datatype Response = NoResponse | Reply(status: nat, payload: Payload)
}
