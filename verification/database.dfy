/** The records the pages receive from the backend (types/database.ts). */
module Database {

  /** The chamber union `"house" | "senate"`. */
  datatype Chamber = House | Senate

  /** The string a chamber is stored and displayed as. */
  function ChamberName(c: Chamber): (s: string)
    ensures |s| > 0 && forall k :: 0 <= k < |s| ==> 'a' <= s[k] <= 'z'
  {
    match c
    case House => "house"
    case Senate => "senate"
  }

  /** A published recording of one legislative proceeding. */
  datatype Session = Session(
    id: string,
    slug: string,
    youtubeVideoId: string,
    youtubeUrl: string,
    chamber: Chamber,
    title: string,
    sessionDate: string,
    durationSeconds: int,
    isPublished: bool,
    chamberVerified: bool)

  /** One row of the full-text search procedure's answer. */
  datatype SearchResult = SearchResult(
    sessionId: string,
    sessionSlug: string,
    sessionTitle: string,
    sessionDate: string,
    chamber: Chamber,
    segmentId: int,
    segmentSeq: int,
    startSeconds: int,
    endSeconds: int,
    text: string)
}
