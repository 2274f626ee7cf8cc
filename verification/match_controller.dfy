/**
 * MatchController.uploadJsonData: refuse an absent or empty body, save the
 * document, and evict every cache only once the save has returned normally.
 * An exception from the save becomes a 500 response and leaves the caches as
 * they were.
 */
module MatchController {
  import opened Base
  import opened Entities
  import opened Store
  import opened IngestSpec
  import opened MatchService
  import opened QueryService

  /** ResponseEntity<String>: an HTTP status and a body. */
  datatype Response = Response(status: int, body: string)

  const EmptyContentMessage := "JSON content cannot be null or empty"
  const UploadedMessage := "JSON data uploaded and processed successfully"
  const IoFailurePrefix := "Failed to process the JSON data: "
  const UnexpectedPrefix := "An unexpected error occurred: "

  /** The response for each way saveMatchData can end: 200, or 500 with the exception's message. */
  function ResponseFor(outcome: SaveOutcome): (r: Response)
  {
    match outcome
    case Saved => Response(200, UploadedMessage)
    case IoFailure(message) => Response(500, IoFailurePrefix + message)
    case Unexpected(message) => Response(500, UnexpectedPrefix + message)
  }

  /** Reads the outcome back from a response: the status, then the message after the prefix. */
  function OutcomeOf(r: Response): (o: Option<SaveOutcome>)
  {
    if r.status == 200 && r.body == UploadedMessage then Some(Saved)
    else if r.status == 500 && IoFailurePrefix <= r.body then Some(IoFailure(r.body[|IoFailurePrefix|..]))
    else if r.status == 500 && UnexpectedPrefix <= r.body then Some(Unexpected(r.body[|UnexpectedPrefix|..]))
    else None
  }

  /** Every ending of the save can be read back from its response, message included. */
  lemma ResponseForRoundTrip(outcome: SaveOutcome)
    ensures OutcomeOf(ResponseFor(outcome)) == Some(outcome)
  {
    match outcome
    case Saved =>
    case IoFailure(message) =>
      assert IoFailurePrefix + message == ResponseFor(outcome).body;
      assert (IoFailurePrefix + message)[|IoFailurePrefix|..] == message;
    case Unexpected(message) =>
      var body := UnexpectedPrefix + message;
      assert body[0] == 'A' && IoFailurePrefix[0] == 'F';
      assert body[|UnexpectedPrefix|..] == message;
  }

  /** Only a normal return answers 200, and different endings never share a response. */
  lemma ResponseForDistinguishes(a: SaveOutcome, b: SaveOutcome)
    ensures ResponseFor(a).status == 200 <==> a.Saved?
    ensures ResponseFor(a) == ResponseFor(b) ==> a == b
  {
    ResponseForRoundTrip(a);
    ResponseForRoundTrip(b);
  }

  /**
   * POST /api/matches/upload. The body is None when the request carries none.
   * saveMatchData and clearAllCaches both go through the shared store and the
   * query service's caches.
   */
  method UploadJsonData(queryService: QueryService, jsonContent: Option<string>, codec: Codec) returns (response: Response)
    requires queryService.Valid()
    modifies queryService.store, queryService`cache
    ensures queryService.Valid()
    ensures old(queryService.Coherent()) ==> queryService.Coherent()
    ensures Valid(old(queryService.store.State())) ==> Valid(queryService.store.State())
    ensures jsonContent.None? || jsonContent == Some("") ==>
      && response == Response(400, EmptyContentMessage)
      && queryService.store.State() == old(queryService.store.State())
      && queryService.cache == old(queryService.cache)
    ensures jsonContent.Some? && jsonContent.value != "" && codec.readTree(jsonContent.value).Failure? ==>
      && response == Response(500, IoFailurePrefix + codec.readTree(jsonContent.value).error)
      && queryService.store.State() == old(queryService.store.State())
      && queryService.cache == old(queryService.cache)
    ensures jsonContent.Some? && jsonContent.value != "" && codec.readTree(jsonContent.value).Success? ==>
      && response == Response(200, UploadedMessage)
      && queryService.cache == map[]
      && queryService.store.State().(matchTeams := old(queryService.store.matchTeams))
         == Ingest(old(queryService.store.State()), codec.readTree(jsonContent.value).value, codec)
      && MatchTeamsAdded(old(queryService.store.matchTeams), queryService.store.matchTeams,
                         |old(queryService.store.matches)|,
                         RowsFrom(queryService.store.teams, |old(queryService.store.teams)|))
  {
    if jsonContent.None? || jsonContent.value == "" {
      return Response(400, EmptyContentMessage);
    }
    var outcome := SaveMatchData(queryService.store, jsonContent.value, codec);
    if outcome.Saved? {
      queryService.ClearAllCaches();
    }
    response := ResponseFor(outcome);
  }
}
