/** What both indices store about a document and return for a query. */
module Documents {

  datatype Metadata = Metadata(url: string, title: string)

  datatype Hit = Hit(docId: nat, score: real, meta: Metadata)

  function Ids(hits: seq<Hit>): seq<nat> {
    seq(|hits|, i requires 0 <= i < |hits| => hits[i].docId)
  }
}
