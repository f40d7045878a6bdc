/**
 * SyncTracker: the sync ledger file in the solutions repository. Its JSON
 * encoding is abstract: a codec (encode, decode) with a round-trip property
 * stated where it is used.
 */
module SyncTracker {

  import opened Models
  import opened GitHubSync

  /** What `JsonSerializer.Deserialize<SyncState>` makes of a text. */
  datatype Decoded = Value(state: SyncState) | Null | Invalid

  datatype StateCodec = StateCodec(encode: SyncState -> string, decode: string -> Decoded)

  /** Decoding the encoding of any state gives that state back. */
  ghost predicate RoundTrips(codec: StateCodec) {
    forall s :: codec.decode(codec.encode(s)) == Value(s)
  }

  /** Why the ledger could not be loaded: the read failed, or the text does not decode. */
  datatype LoadError = StateUnreadable | StateCorrupt

  /**
   * `LoadStateAsync`: a missing file, or one that decodes to null, is a fresh
   * empty ledger; a read failure other than "not found", or text that does not
   * decode, is an error and is never taken for an empty ledger.
   */
  function LoadState(content: ReadResult, codec: StateCodec): (r: Result<SyncState, LoadError>)
    ensures content.NotFound? ==> r == Success(EmptyState())
    ensures content.ReadFailed? ==> r == Failure(StateUnreadable)
    ensures r.Failure? ==> !content.NotFound?
    ensures content.Found? ==> match codec.decode(content.content)
      case Value(s) => r == Success(s)
      case Null => r == Success(EmptyState())
      case Invalid => r == Failure(StateCorrupt)
  {
    match content
    case ReadFailed => Failure(StateUnreadable)
    case NotFound => Success(EmptyState())
    case Found(text) =>
      match codec.decode(text)
      case Value(s) => Success(s)
      case Null => Success(EmptyState())
      case Invalid => Failure(StateCorrupt)
  }

  /** `GetSyncStateFilePath`: the configured path, unchanged. */
  function GetSyncStateFilePath(options: Options): (path: string)
    ensures options == DefaultOptions() ==> path == ".leetkhata/sync-state.json"
  {
    options.syncStateFilePath
  }

  /** The state `SerializeState` encodes: the same IDs, stamped with the current time. */
  function Stamp(state: SyncState, now: Instant): (s: SyncState)
    ensures s.syncedSubmissionIds == state.syncedSubmissionIds && s.lastSyncUtc == now
  {
    state.(lastSyncUtc := now)
  }

  /** `SerializeState`: stamp the time, then encode. */
  function SerializeState(codec: StateCodec, state: SyncState, now: Instant): (text: string)
    ensures RoundTrips(codec) ==> codec.decode(text) == Value(SyncState(state.syncedSubmissionIds, now))
  {
    codec.encode(Stamp(state, now))
  }

  /** Loading the text `SerializeState` produced gives the same synced IDs back. */
  lemma LoadSerializedState(codec: StateCodec, state: SyncState, now: Instant)
    requires RoundTrips(codec)
    ensures LoadState(Found(SerializeState(codec, state, now)), codec)
      == Success(SyncState(state.syncedSubmissionIds, now))
  {
  }
}
