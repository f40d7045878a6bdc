/**
 * The records of LeetKhata: what the LeetCode API returns, the sync ledger
 * kept in the solutions repository, and the configuration options.
 */
module Models {

  import Text

  datatype Result<+T, +E> = Success(value: T) | Failure(error: E)

  /** A point in time, as `DateTime` ticks; `DateTime.MinValue` is tick 0. */
  type Instant = nat

  const MinInstant: Instant := 0

  /** One entry of the recent-submissions list. */
  datatype Submission = Submission(
    id: string,
    title: string,
    titleSlug: string,
    timestamp: string,
    statusDisplay: string,
    lang: string,
    runtime: Text.Option<string>,
    memory: Text.Option<string>)

  datatype TopicTag = TopicTag(name: string, slug: string)

  datatype SubmissionLang = SubmissionLang(name: string, verboseName: string)

  datatype SubmissionQuestion = SubmissionQuestion(questionId: string, titleSlug: string)

  /**
   * The full record of one submission. The two percentile fields of the
   * source are floating point and are read only by the README generator,
   * which this model treats as opaque; they are not carried here. `lang` is
   * `None` when the reply held JSON null there, which the deserializer lets
   * through.
   */
  datatype SubmissionDetail = SubmissionDetail(
    id: int,
    code: string,
    timestamp: int,
    runtimeDisplay: Text.Option<string>,
    memoryDisplay: Text.Option<string>,
    lang: Text.Option<SubmissionLang>,
    question: SubmissionQuestion,
    topicTags: Text.Option<seq<TopicTag>>)

  /** Problem metadata; `topicTags` is `None` when the reply held JSON null there. */
  datatype Problem = Problem(
    questionId: string,
    questionFrontendId: string,
    title: string,
    titleSlug: string,
    content: Text.Option<string>,
    difficulty: string,
    topicTags: Text.Option<seq<TopicTag>>)

  /** The sync ledger: IDs already committed, and when the last commit was prepared. */
  datatype SyncState = SyncState(syncedSubmissionIds: set<string>, lastSyncUtc: Instant)

  /** `new SyncState()`: nothing synced yet, last sync at `DateTime.MinValue`. */
  function EmptyState(): (s: SyncState)
    ensures s.syncedSubmissionIds == {} && s.lastSyncUtc == MinInstant
  {
    SyncState({}, MinInstant)
  }

  /** `LeetKhataOptions`. */
  datatype Options = Options(
    leetCodeSession: string,
    leetCodeCsrfToken: string,
    gitHubToken: string,
    leetCodeUsername: string,
    gitHubOwner: string,
    gitHubRepo: string,
    gitHubBranch: string,
    fetchLimit: int,
    syncStateFilePath: string)

  /** The property initialisers of `LeetKhataOptions`. */
  function DefaultOptions(): (o: Options)
    ensures o.syncStateFilePath == ".leetkhata/sync-state.json"
    ensures o.fetchLimit == 20 && o.gitHubBranch == "main" && o.gitHubRepo == "leetcode-solutions"
    ensures o.leetCodeSession == o.leetCodeCsrfToken == o.gitHubToken == ""
    ensures o.leetCodeUsername == o.gitHubOwner == ""
  {
    Options("", "", "", "", "", "leetcode-solutions", "main", 20, ".leetkhata/sync-state.json")
  }
}
