/**
 * SyncOrchestrator: one incremental sync pass. It loads the ledger, lists
 * recent submissions, keeps the accepted ones not yet synced, prepares the
 * files of each (skipping any that fail), and commits the files together with
 * the updated ledger in a single commit.
 *
 * The pure functions below (Candidates, ProcessItem, ProcessAll, PlanRun,
 * ExpectedRun, CommitMessage) specify the pass; `Orchestrator.RunAsync` is the
 * step-by-step pass, proved to do what they describe.
 */
module SyncOrchestrator {

  import opened Text
  import opened Models
  import opened LeetCodeClient
  import opened GitHubSync
  import opened SyncTracker
  import opened SolutionOrganizer

  /** The collaborators and settings a pass runs with. */
  datatype Config = Config(api: LeetCodeApi, options: Options, codec: StateCodec, readme: ReadmeGenerator)

  // ---------------------------------------------------------------- candidates

  predicate IsAccepted(s: Submission) {
    s.statusDisplay == "Accepted"
  }

  /** `accepted`: the accepted submissions, in list order. */
  function AcceptedOnly(subs: seq<Submission>): (r: seq<Submission>)
    ensures forall s :: s in r <==> s in subs && IsAccepted(s)
    ensures |r| <= |subs|
  {
    if subs == [] then []
    else (if IsAccepted(subs[0]) then [subs[0]] else []) + AcceptedOnly(subs[1..])
  }

  /** `newSubmissions`: the submissions whose ID is not in the ledger, in list order. */
  function NotYetSynced(subs: seq<Submission>, synced: set<string>): (r: seq<Submission>)
    ensures forall s :: s in r <==> s in subs && s.id !in synced
    ensures |r| <= |subs|
  {
    if subs == [] then []
    else (if subs[0].id !in synced then [subs[0]] else []) + NotYetSynced(subs[1..], synced)
  }

  /** The submissions a pass works on. */
  function Candidates(subs: seq<Submission>, synced: set<string>): (r: seq<Submission>)
    ensures forall s :: s in r <==> s in subs && IsAccepted(s) && s.id !in synced
    ensures |r| <= |subs|
  {
    NotYetSynced(AcceptedOnly(subs), synced)
  }

  /** Filtering keeps the list order: the candidates of a concatenation are the concatenation of the candidates. */
  lemma {:induction false} CandidatesAppend(a: seq<Submission>, b: seq<Submission>, synced: set<string>)
    ensures Candidates(a + b, synced) == Candidates(a, synced) + Candidates(b, synced)
  {
    AcceptedOnlyAppend(a, b);
    NotYetSyncedAppend(AcceptedOnly(a), AcceptedOnly(b), synced);
  }

  lemma {:induction false} AcceptedOnlyAppend(a: seq<Submission>, b: seq<Submission>)
    ensures AcceptedOnly(a + b) == AcceptedOnly(a) + AcceptedOnly(b)
  {
    if a != [] {
      assert (a + b)[1..] == a[1..] + b;
      AcceptedOnlyAppend(a[1..], b);
    } else {
      assert a + b == b;
    }
  }

  lemma {:induction false} NotYetSyncedAppend(a: seq<Submission>, b: seq<Submission>, synced: set<string>)
    ensures NotYetSynced(a + b, synced) == NotYetSynced(a, synced) + NotYetSynced(b, synced)
  {
    if a != [] {
      assert (a + b)[1..] == a[1..] + b;
      NotYetSyncedAppend(a[1..], b, synced);
    } else {
      assert a + b == b;
    }
  }

  // ---------------------------------------------------------------- one item

  /** The IDs of a list, as a set. */
  function IdSet(ids: seq<string>): (r: set<string>)
    ensures forall x :: x in r <==> x in ids
  {
    set x | x in ids
  }

  /** The (id, title, difficulty) triple recorded for a synced problem. */
  datatype ProblemLine = ProblemLine(id: string, title: string, difficulty: string)

  /** What a successfully processed submission contributes. */
  datatype Prepared = Prepared(files: map<string, string>, id: string, line: ProblemLine)

  /**
   * Why an item was skipped: its ID is not a 32-bit integer, a fetch failed,
   * or building its files threw.
   */
  datatype ItemFailure = BadSubmissionId | DetailFailed(error: ApiError) | ProblemFailed(error: ApiError) | BuildFailed

  /**
   * The body of the per-item `try` block: parse the ID, fetch the detail, fetch
   * the problem, build the files. Every failure, a session expiry included, is
   * caught by the block, so it only marks the item as failed.
   */
  function ProcessItem(cfg: Config, sub: Submission): (r: Result<Prepared, ItemFailure>)
    ensures ParseInt32(sub.id).None? ==> r == Failure(BadSubmissionId)
    ensures ParseInt32(sub.id).Some? ==>
      var detail := GetSubmissionDetail(cfg.api, ParseInt32(sub.id).value);
      detail.Failure? ==> r == Failure(DetailFailed(detail.error))
    ensures ParseInt32(sub.id).Some? && GetSubmissionDetail(cfg.api, ParseInt32(sub.id).value).Success? ==>
      var problem := GetProblem(cfg.api, sub.titleSlug);
      problem.Failure? ==> r == Failure(ProblemFailed(problem.error))
    ensures r.Success? <==>
      && ParseInt32(sub.id).Some?
      && GetSubmissionDetail(cfg.api, ParseInt32(sub.id).value).Success?
      && GetProblem(cfg.api, sub.titleSlug).Success?
      && ReadmeRenders(GetProblem(cfg.api, sub.titleSlug).value, GetSubmissionDetail(cfg.api, ParseInt32(sub.id).value).value)
    ensures r.Success? ==>
      var detail := GetSubmissionDetail(cfg.api, ParseInt32(sub.id).value).value;
      var problem := GetProblem(cfg.api, sub.titleSlug).value;
      var files := BuildFilesForSubmission(detail, problem, cfg.options.leetCodeUsername, cfg.readme);
      && files.Some?
      && r.value == Prepared(files.value, sub.id, ProblemLine(problem.questionFrontendId, problem.title, problem.difficulty))
  {
    match ParseInt32(sub.id)
    case None => Failure(BadSubmissionId)
    case Some(n) =>
      match GetSubmissionDetail(cfg.api, n)
      case Failure(e) => Failure(DetailFailed(e))
      case Success(detail) =>
        match GetProblem(cfg.api, sub.titleSlug)
        case Failure(e) => Failure(ProblemFailed(e))
        case Success(problem) =>
          match BuildFilesForSubmission(detail, problem, cfg.options.leetCodeUsername, cfg.readme)
          case None => Failure(BuildFailed)
          case Some(files) =>
            Success(Prepared(files, sub.id, ProblemLine(problem.questionFrontendId, problem.title, problem.difficulty)))
  }

  /** A session expiry while fetching one item's detail skips that item; it does not stop the pass. */
  lemma SessionExpiryOnDetailSkipsItem(cfg: Config, sub: Submission)
    requires ParseInt32(sub.id).Some?
    requires cfg.api.submissionDetail(ParseInt32(sub.id).value).response.statusCode in {Unauthorized, Forbidden}
    ensures ProcessItem(cfg, sub) == Failure(DetailFailed(SessionExpired))
  {
  }

  /** The same holds for a session expiry while fetching the item's problem. */
  lemma SessionExpiryOnProblemSkipsItem(cfg: Config, sub: Submission)
    requires ParseInt32(sub.id).Some?
    requires GetSubmissionDetail(cfg.api, ParseInt32(sub.id).value).Success?
    requires cfg.api.problem(sub.titleSlug).response.statusCode in {Unauthorized, Forbidden}
    ensures ProcessItem(cfg, sub) == Failure(ProblemFailed(SessionExpired))
  {
  }

  /** A submission with a null language, or one whose README cannot be rendered, is skipped too. */
  lemma UnrenderableItemIsSkipped(cfg: Config, sub: Submission)
    requires ParseInt32(sub.id).Some?
    requires GetSubmissionDetail(cfg.api, ParseInt32(sub.id).value).Success?
    requires GetProblem(cfg.api, sub.titleSlug).Success?
    requires !ReadmeRenders(GetProblem(cfg.api, sub.titleSlug).value, GetSubmissionDetail(cfg.api, ParseInt32(sub.id).value).value)
    ensures ProcessItem(cfg, sub) == Failure(BuildFailed)
  {
  }

  // ---------------------------------------------------------------- the loop

  /** `allFiles`, `syncedIds` and `syncedProblems` as the loop builds them. */
  datatype Batch = Batch(files: map<string, string>, ids: seq<string>, problems: seq<ProblemLine>)

  const EmptyBatch: Batch := Batch(map[], [], [])

  /** One turn of the loop, given what the item's `try` block produced: a failure leaves the batch as it was. */
  function Step(b: Batch, r: Result<Prepared, ItemFailure>): (s: Batch)
    ensures r.Failure? ==> s == b
    ensures r.Success? ==>
      && s.ids == b.ids + [r.value.id]
      && s.problems == b.problems + [r.value.line]
      && s.files.Keys == b.files.Keys + r.value.files.Keys
      && (forall path :: path in r.value.files ==> s.files[path] == r.value.files[path])
      && (forall path :: path in b.files && path !in r.value.files ==> s.files[path] == b.files[path])
  {
    match r
    case Failure(_) => b
    case Success(p) => Batch(b.files + p.files, b.ids + [p.id], b.problems + [p.line])
  }

  /** The batch after the loop has run over `subs`, in order. */
  function ProcessAll(cfg: Config, subs: seq<Submission>): (b: Batch)
    ensures |b.ids| == |b.problems| <= |subs|
    decreases |subs|
  {
    if subs == [] then EmptyBatch
    else Step(ProcessAll(cfg, subs[..|subs| - 1]), ProcessItem(cfg, subs[|subs| - 1]))
  }

  lemma ProcessAllSnoc(cfg: Config, subs: seq<Submission>, sub: Submission)
    ensures ProcessAll(cfg, subs + [sub]) == Step(ProcessAll(cfg, subs), ProcessItem(cfg, sub))
  {
    assert (subs + [sub])[..|subs|] == subs;
  }

  /** Two batches one after the other: files of the second overwrite those of the first. */
  function Combine(x: Batch, y: Batch): Batch {
    Batch(x.files + y.files, x.ids + y.ids, x.problems + y.problems)
  }

  lemma StepCombine(x: Batch, y: Batch, r: Result<Prepared, ItemFailure>)
    ensures Step(Combine(x, y), r) == Combine(x, Step(y, r))
  {
    match r
    case Failure(_) =>
    case Success(p) =>
      assert (x.files + y.files) + p.files == x.files + (y.files + p.files);
      assert (x.ids + y.ids) + [p.id] == x.ids + (y.ids + [p.id]);
      assert (x.problems + y.problems) + [p.line] == x.problems + (y.problems + [p.line]);
  }

  /**
   * Processing `a` then `b` is processing each on its own and putting `b`'s
   * results after `a`'s: on a path both write, `b`'s file wins.
   */
  lemma {:induction false} ProcessAllAppend(cfg: Config, a: seq<Submission>, b: seq<Submission>)
    ensures ProcessAll(cfg, a + b) == Combine(ProcessAll(cfg, a), ProcessAll(cfg, b))
    decreases |b|
  {
    var x := ProcessAll(cfg, a);
    if b == [] {
      AppendEmpty(a);
      assert x.files + map[] == x.files;
      AppendEmpty(x.ids);
      AppendEmpty(x.problems);
    } else {
      var b', last := b[..|b| - 1], b[|b| - 1];
      AppendLast(a, b);
      ProcessAllAppend(cfg, a, b');
      ProcessAllAppendStep(cfg, a, b', last);
    }
  }

  /** The inductive step of `ProcessAllAppend`: one more item at the end of `b`. */
  lemma ProcessAllAppendStep(cfg: Config, a: seq<Submission>, b: seq<Submission>, last: Submission)
    requires ProcessAll(cfg, a + b) == Combine(ProcessAll(cfg, a), ProcessAll(cfg, b))
    ensures ProcessAll(cfg, (a + b) + [last]) == Combine(ProcessAll(cfg, a), ProcessAll(cfg, b + [last]))
  {
    ProcessAllSnoc(cfg, a + b, last);
    ProcessAllSnoc(cfg, b, last);
    StepCombine(ProcessAll(cfg, a), ProcessAll(cfg, b), ProcessItem(cfg, last));
  }

  /** A failed item contributes no ID, no problem line and no file. */
  lemma FailedItemContributesNothing(cfg: Config, a: seq<Submission>, sub: Submission, b: seq<Submission>)
    requires ProcessItem(cfg, sub).Failure?
    ensures ProcessAll(cfg, a + [sub] + b) == ProcessAll(cfg, a + b)
  {
    ProcessAllAppend(cfg, a + [sub], b);
    ProcessAllSnoc(cfg, a, sub);
    ProcessAllAppend(cfg, a, b);
  }

  /** The IDs of the submissions that pass `ok`, in list order. */
  function IdsWhere(subs: seq<Submission>, ok: Submission -> bool): seq<string>
    decreases |subs|
  {
    if subs == [] then []
    else
      var last := subs[|subs| - 1];
      IdsWhere(subs[..|subs| - 1], ok) + (if ok(last) then [last.id] else [])
  }

  /** An ID is listed exactly when some submission with that ID passes `ok`. */
  lemma {:induction false} IdsWhereMembers(subs: seq<Submission>, ok: Submission -> bool)
    ensures forall x :: x in IdsWhere(subs, ok) <==> exists s :: s in subs && s.id == x && ok(s)
    decreases |subs|
  {
    if subs != [] {
      var init, last := subs[..|subs| - 1], subs[|subs| - 1];
      IdsWhereMembers(init, ok);
      assert subs == init + [last];
      forall x | x in IdsWhere(subs, ok)
        ensures exists s :: s in subs && s.id == x && ok(s)
      {
        if x in IdsWhere(init, ok) {
          var s :| s in init && s.id == x && ok(s);
          assert s in subs;
        } else {
          assert last in subs;
        }
      }
      forall x, s | s in subs && s.id == x && ok(s)
        ensures x in IdsWhere(subs, ok)
      {
        if s != last {
          assert s in init;
        }
      }
    }
  }

  /** The IDs that were prepared successfully, in processing order. */
  function SucceededIds(cfg: Config, subs: seq<Submission>): seq<string> {
    IdsWhere(subs, s => ProcessItem(cfg, s).Success?)
  }

  /** An ID was prepared exactly when some submission with that ID was processed successfully. */
  lemma SucceededIdsMembers(cfg: Config, subs: seq<Submission>)
    ensures forall x :: x in SucceededIds(cfg, subs) <==>
      exists s :: s in subs && s.id == x && ProcessItem(cfg, s).Success?
  {
    IdsWhereMembers(subs, s => ProcessItem(cfg, s).Success?);
  }

  /**
   * What the loop leaves behind: the synced IDs are those of the items that
   * were prepared successfully, in order; there is one problem line per ID;
   * and there are files exactly when some item succeeded.
   */
  lemma {:induction false} BatchShape(cfg: Config, subs: seq<Submission>)
    ensures var b := ProcessAll(cfg, subs);
      && b.ids == SucceededIds(cfg, subs)
      && |b.ids| == |b.problems|
      && (b.files == map[] <==> b.ids == [])
    decreases |subs|
  {
    if subs != [] {
      var init, last := subs[..|subs| - 1], subs[|subs| - 1];
      BatchShape(cfg, init);
      var r := ProcessItem(cfg, last);
      assert ProcessAll(cfg, subs) == Step(ProcessAll(cfg, init), r);
      assert SucceededIds(cfg, subs) == SucceededIds(cfg, init) + (if r.Success? then [last.id] else []);
      StepShape(ProcessAll(cfg, init), r, last.id);
    }
  }

  /** One turn of the loop adds the item's ID and line when it succeeds, and files with them. */
  lemma StepShape(b: Batch, r: Result<Prepared, ItemFailure>, id: string)
    requires r.Success? ==> r.value.id == id && |r.value.files| == 2
    requires |b.ids| == |b.problems| && (b.files == map[] <==> b.ids == [])
    ensures Step(b, r).ids == b.ids + (if r.Success? then [id] else [])
    ensures |Step(b, r).ids| == |Step(b, r).problems|
    ensures Step(b, r).files == map[] <==> Step(b, r).ids == []
  {
    if r.Success? {
      var k :| k in r.value.files;
      assert k in Step(b, r).files;
    }
  }

  /** Every file of the batch was built for some item that was prepared successfully. */
  lemma {:induction false} BatchFilesProvenance(cfg: Config, subs: seq<Submission>)
    ensures forall k :: k in ProcessAll(cfg, subs).files ==>
      exists s :: s in subs && ProcessItem(cfg, s).Success? && k in ProcessItem(cfg, s).value.files
    decreases |subs|
  {
    if subs != [] {
      var init, last := subs[..|subs| - 1], subs[|subs| - 1];
      BatchFilesProvenance(cfg, init);
      assert subs == init + [last];
      ProcessAllSnoc(cfg, init, last);
      forall k | k in ProcessAll(cfg, subs).files
        ensures exists s :: s in subs && ProcessItem(cfg, s).Success? && k in ProcessItem(cfg, s).value.files
      {
        if k in ProcessAll(cfg, init).files {
          var s :| s in init && ProcessItem(cfg, s).Success? && k in ProcessItem(cfg, s).value.files;
          assert s in subs;
        } else {
          assert last in subs;
        }
      }
    }
  }

  /** When every item fails, the loop prepares nothing. */
  lemma {:induction false} AllFailedPreparesNothing(cfg: Config, subs: seq<Submission>)
    requires forall s :: s in subs ==> ProcessItem(cfg, s).Failure?
    ensures ProcessAll(cfg, subs) == EmptyBatch
    decreases |subs|
  {
    if subs != [] {
      var init, last := subs[..|subs| - 1], subs[|subs| - 1];
      assert subs == init + [last];
      assert last in subs;
      AllFailedPreparesNothing(cfg, init);
    }
  }

  // ---------------------------------------------------------------- commit message

  /** "{id}. {title} ({difficulty})". */
  function ProblemLabel(p: ProblemLine): string {
    p.id + ". " + p.title + " (" + p.difficulty + ")"
  }

  function SummaryHeader(n: nat): string {
    "LeetKhata: Add " + NatToString(n) + " solutions"
  }

  /** The bullet lines "- {id}. {title} ({difficulty})", in processing order. */
  function BulletLines(problems: seq<ProblemLine>): (lines: seq<string>)
    ensures |lines| == |problems|
    ensures forall i :: 0 <= i < |problems| ==> lines[i] == "- " + ProblemLabel(problems[i])
  {
    seq(|problems|, i requires 0 <= i < |problems| => "- " + ProblemLabel(problems[i]))
  }

  /**
   * The commit message: one line naming the problem when exactly one was
   * synced; otherwise a summary line with the count, a blank line and one
   * bullet per problem, without trailing white space.
   */
  function CommitMessage(problems: seq<ProblemLine>): (m: string)
    ensures |problems| == 1 ==> m == "LeetKhata: Add " + ProblemLabel(problems[0])
    ensures |problems| != 1 ==> StartsWith(m, SummaryHeader(|problems|))
    ensures |problems| >= 2 ==> m == JoinWith([SummaryHeader(|problems|), ""] + BulletLines(problems), '\n')
  {
    if |problems| == 1 then "LeetKhata: Add " + ProblemLabel(problems[0])
    else if |problems| == 0 then SummaryHeader(0)
    else
      var lines := [SummaryHeader(|problems|), ""] + BulletLines(problems);
      assert lines[1..][1..] == BulletLines(problems);
      assert JoinWith(lines, '\n') == SummaryHeader(|problems|) + "\n" + ("" + "\n" + JoinWith(BulletLines(problems), '\n'));
      SummaryHeader(|problems|) + "\n\n" + JoinWith(BulletLines(problems), '\n')
  }

  /**
   * When no title, ID or difficulty holds a line break, a message for any
   * number of problems other than one reads, line by line: the summary line,
   * a blank line, then one bullet per problem in processing order.
   */
  lemma CommitMessageLines(problems: seq<ProblemLine>)
    requires |problems| >= 2
    requires forall i :: 0 <= i < |problems| ==> '\n' !in ProblemLabel(problems[i])
    ensures Split(CommitMessage(problems), '\n') == [SummaryHeader(|problems|), ""] + BulletLines(problems)
  {
    var lines := [SummaryHeader(|problems|), ""] + BulletLines(problems);
    forall k | 0 <= k < |lines| ensures '\n' !in lines[k] {
      if k == 0 {
        assert '\n' !in NatToString(|problems|);
      } else if k >= 2 {
        assert lines[k] == "- " + ProblemLabel(problems[k - 2]);
      }
    }
    SplitJoinWith(lines, '\n');
  }

  /** A message for one problem is a single line when the label has no line break. */
  lemma SingleCommitMessageIsOneLine(p: ProblemLine)
    requires '\n' !in ProblemLabel(p)
    ensures '\n' !in CommitMessage([p])
  {
  }

  /** `AppendLine` for each line: every line followed by a line break. */
  function AppendedLines(lines: seq<string>): string {
    if lines == [] then "" else lines[0] + "\n" + AppendedLines(lines[1..])
  }

  lemma {:induction false} AppendedLinesSnoc(lines: seq<string>, line: string)
    ensures AppendedLines(lines + [line]) == AppendedLines(lines) + line + "\n"
    decreases |lines|
  {
    if lines == [] {
      assert [] + [line] == [line];
    } else {
      assert (lines + [line])[1..] == lines[1..] + [line];
      AppendedLinesSnoc(lines[1..], line);
    }
  }

  lemma {:induction false} AppendedLinesIsJoin(lines: seq<string>)
    requires |lines| >= 1
    ensures AppendedLines(lines) == JoinWith(lines, '\n') + "\n"
    decreases |lines|
  {
    if |lines| > 1 {
      AppendedLinesIsJoin(lines[1..]);
    }
  }

  /**
   * The `StringBuilder` code: append the single line, or the summary line, a
   * blank line and one bullet line per problem; then trim trailing white space.
   */
  method BuildCommitMessage(problems: seq<ProblemLine>) returns (message: string)
    ensures message == CommitMessage(problems)
  {
    var sb := "";
    if |problems| == 1 {
      sb := sb + "LeetKhata: Add " + ProblemLabel(problems[0]);
    } else {
      sb := sb + SummaryHeader(|problems|) + "\n";
      sb := sb + "\n";
      sb := AppendLines(sb, BulletLines(problems));
    }
    message := TrimEnd(sb);
    TrimmedBuilderIsMessage(problems, sb);
  }

  /** `AppendLine` for each line in turn: the line, then a line break. */
  method AppendLines(sb0: string, lines: seq<string>) returns (sb: string)
    ensures sb == sb0 + AppendedLines(lines)
  {
    sb := sb0;
    for i := 0 to |lines|
      invariant sb == sb0 + AppendedLines(lines[..i])
    {
      AppendedLinesSnoc(lines[..i], lines[i]);
      TakeSnoc(lines, i);
      sb := sb + lines[i] + "\n";
    }
    assert lines[..|lines|] == lines;
  }

  /** Trimming what the builder holds gives the commit message. */
  lemma TrimmedBuilderIsMessage(problems: seq<ProblemLine>, sb: string)
    requires |problems| == 1 ==> sb == "" + "LeetKhata: Add " + ProblemLabel(problems[0])
    requires |problems| != 1 ==>
      sb == SummaryHeader(|problems|) + "\n\n" + AppendedLines(BulletLines(problems))
    ensures TrimEnd(sb) == CommitMessage(problems)
  {
    var header := SummaryHeader(|problems|);
    if |problems| == 1 {
      assert sb == "LeetKhata: Add " + ProblemLabel(problems[0]);
      TrimEndOfNonBlankTail(sb);
    } else if |problems| == 0 {
      assert sb == header + "\n\n";
      TrimEndDropsAppendedSpace(header, "\n\n");
    } else {
      var bullets := BulletLines(problems);
      AppendedLinesIsJoin(bullets);
      var body := header + "\n\n" + JoinWith(bullets, '\n');
      assert sb == body + "\n";
      LastBulletEndsTheJoin(bullets, problems);
      TrimEndDropsAppendedSpace(body, "\n");
    }
  }

  /** A joined list of bullets ends with the closing parenthesis of the last one. */
  lemma {:induction false} LastBulletEndsTheJoin(bullets: seq<string>, problems: seq<ProblemLine>)
    requires |problems| >= 1 && bullets == BulletLines(problems)
    ensures |JoinWith(bullets, '\n')| > 0 && JoinWith(bullets, '\n')[|JoinWith(bullets, '\n')| - 1] == ')'
  {
    JoinEndsWithLast(bullets, '\n');
    var last := bullets[|bullets| - 1];
    assert last == "- " + ProblemLabel(problems[|problems| - 1]);
  }

  lemma {:induction false} JoinEndsWithLast(parts: seq<string>, sep: char)
    requires |parts| >= 1
    ensures |JoinWith(parts, sep)| >= |parts[|parts| - 1]|
    ensures var j := JoinWith(parts, sep);
      j[|j| - |parts[|parts| - 1]|..] == parts[|parts| - 1]
    decreases |parts|
  {
    if |parts| > 1 {
      JoinEndsWithLast(parts[1..], sep);
    }
  }

  // ---------------------------------------------------------------- the whole pass

  /** What a pass decides once it knows the ledger and the list of submissions. */
  datatype Plan =
    | UpToDate
    | NothingPrepared
    | CommitPlan(files: map<string, string>, message: string, state: SyncState, ids: seq<string>)

  /** Steps 3 to 6 of `RunAsync`, given the loaded ledger and the listed submissions. */
  function PlanRun(cfg: Config, state: SyncState, subs: seq<Submission>, now: Instant): (p: Plan)
    ensures p == UpToDate <==> Candidates(subs, state.syncedSubmissionIds) == []
    ensures p.CommitPlan? ==>
      var path := GetSyncStateFilePath(cfg.options);
      var b := ProcessAll(cfg, Candidates(subs, state.syncedSubmissionIds));
      && p.ids == b.ids != []
      && p.state == SyncState(state.syncedSubmissionIds + IdSet(b.ids), now)
      && p.files == b.files[path := SerializeState(cfg.codec, p.state, now)]
      && p.message == CommitMessage(b.problems)
    ensures p.NothingPrepared? <==>
      var cands := Candidates(subs, state.syncedSubmissionIds);
      cands != [] && ProcessAll(cfg, cands).ids == []
    ensures p.CommitPlan? <==>
      var cands := Candidates(subs, state.syncedSubmissionIds);
      cands != [] && ProcessAll(cfg, cands).ids != []
  {
    var cands := Candidates(subs, state.syncedSubmissionIds);
    if cands == [] then UpToDate
    else
      BatchShape(cfg, cands);
      PlanBatch(cfg, state, ProcessAll(cfg, cands), now)
  }

  /** Steps 5 and 6 of `RunAsync` for a non-empty candidate list, given the batch the loop built. */
  function PlanBatch(cfg: Config, state: SyncState, b: Batch, now: Instant): (p: Plan)
    requires b.files == map[] <==> b.ids == []
    ensures p != UpToDate
    ensures p.CommitPlan? ==>
      var path := GetSyncStateFilePath(cfg.options);
      && p.ids == b.ids != []
      && p.state == SyncState(state.syncedSubmissionIds + IdSet(b.ids), now)
      && p.files == b.files[path := SerializeState(cfg.codec, p.state, now)]
      && p.message == CommitMessage(b.problems)
    ensures p.NothingPrepared? <==> b.files == map[]
  {
    if b.files == map[] then NothingPrepared
    else
      var updated := state.(syncedSubmissionIds := state.syncedSubmissionIds + IdSet(b.ids));
      var path := GetSyncStateFilePath(cfg.options);
      CommitPlan(
        b.files[path := SerializeState(cfg.codec, updated, now)],
        CommitMessage(b.problems),
        Stamp(updated, now),
        b.ids)
  }

  /** Why a pass stopped with an error. */
  datatype RunError = LoadFailed(loadError: LoadError) | ListFailed(apiError: ApiError) | CommitRejected

  /** How a pass ended. */
  datatype RunOutcome = NothingNew | AllItemsFailed | Synced(count: nat) | Failed(error: RunError)

  /**
   * The whole pass before the commit: load the ledger (a failure stops the
   * pass), list the recent submissions (a failure, a session expiry included,
   * stops the pass), and plan.
   */
  function ExpectedRun(cfg: Config, ledger: ReadResult, now: Instant): (r: Result<Plan, RunError>)
    ensures LoadState(ledger, cfg.codec).Failure? ==> r == Failure(LoadFailed(LoadState(ledger, cfg.codec).error))
    ensures LoadState(ledger, cfg.codec).Success? ==>
      var listed := GetRecentSubmissions(cfg.api, 0, cfg.options.fetchLimit);
      && (listed.Failure? ==> r == Failure(ListFailed(listed.error)))
      && (listed.Success? ==> r == Success(PlanRun(cfg, LoadState(ledger, cfg.codec).value, listed.value, now)))
    ensures r.Success? <==>
      LoadState(ledger, cfg.codec).Success? && GetRecentSubmissions(cfg.api, 0, cfg.options.fetchLimit).Success?
  {
    match LoadState(ledger, cfg.codec)
    case Failure(e) => Failure(LoadFailed(e))
    case Success(state) =>
      match GetRecentSubmissions(cfg.api, 0, cfg.options.fetchLimit)
      case Failure(e) => Failure(ListFailed(e))
      case Success(subs) => Success(PlanRun(cfg, state, subs, now))
  }

  /** The pass's outcome given its plan and whether the repository accepts the commit. */
  function OutcomeOf(expected: Result<Plan, RunError>, accepting: bool): (o: RunOutcome)
    ensures o.Failed? <==> expected.Failure? || (expected.value.CommitPlan? && !accepting)
    ensures expected.Failure? ==> o == Failed(expected.error)
    ensures o.Synced? <==> expected.Success? && expected.value.CommitPlan? && accepting
    ensures o.Synced? ==> o.count == |expected.value.ids|
    ensures o == NothingNew <==> expected == Success(UpToDate)
    ensures o == AllItemsFailed <==> expected == Success(NothingPrepared)
  {
    match expected
    case Failure(e) => Failed(e)
    case Success(UpToDate) => NothingNew
    case Success(NothingPrepared) => AllItemsFailed
    case Success(CommitPlan(_, _, _, ids)) => if accepting then Synced(|ids|) else Failed(CommitRejected)
  }

  /** The ledger as the repository holds it after a pass. */
  function LedgerAfter(cfg: Config, tree: map<string, string>, readable: bool): Result<SyncState, LoadError> {
    LoadState(FileAt(tree, readable, GetSyncStateFilePath(cfg.options)), cfg.codec)
  }

  /**
   * After a committed pass, the ledger in the repository is the old ledger
   * plus the IDs of this pass: the synced set only grows, and none of this
   * pass's IDs was synced before.
   */
  lemma CommittedLedgerGrows(cfg: Config, tree: map<string, string>, readable: bool, now: Instant)
    requires RoundTrips(cfg.codec)
    requires LedgerAfter(cfg, tree, readable).Success?
    requires ExpectedRun(cfg, FileAt(tree, readable, GetSyncStateFilePath(cfg.options)), now).Success?
    requires ExpectedRun(cfg, FileAt(tree, readable, GetSyncStateFilePath(cfg.options)), now).value.CommitPlan?
    ensures var before := LedgerAfter(cfg, tree, readable).value.syncedSubmissionIds;
      var plan := ExpectedRun(cfg, FileAt(tree, readable, GetSyncStateFilePath(cfg.options)), now).value;
      var after := LedgerAfter(cfg, tree + plan.files, readable);
      && after.Success?
      && after.value.syncedSubmissionIds == before + IdSet(plan.ids)
      && before <= after.value.syncedSubmissionIds
      && (forall x :: x in plan.ids ==> x !in before)
  {
    var path := GetSyncStateFilePath(cfg.options);
    var state := LedgerAfter(cfg, tree, readable).value;
    var subs := GetRecentSubmissions(cfg.api, 0, cfg.options.fetchLimit).value;
    var cands := Candidates(subs, state.syncedSubmissionIds);
    var plan := PlanRun(cfg, state, subs, now);
    assert (tree + plan.files)[path] == SerializeState(cfg.codec, plan.state, now);
    BatchShape(cfg, cands);
    SucceededIdsMembers(cfg, cands);
    forall x | x in plan.ids ensures x !in state.syncedSubmissionIds {
      var s :| s in cands && s.id == x && ProcessItem(cfg, s).Success?;
    }
  }

  /**
   * Running the pass again against the repository a committed pass left
   * behind, with the same LeetCode replies, commits nothing: the IDs of the
   * first pass are filtered out, and every remaining candidate is one that
   * failed before and fails again. When nothing failed the first time, the
   * second pass finds no candidates at all.
   */
  lemma SecondRunCommitsNothing(cfg: Config, tree: map<string, string>, readable: bool, now1: Instant, now2: Instant)
    requires RoundTrips(cfg.codec)
    requires ExpectedRun(cfg, FileAt(tree, readable, GetSyncStateFilePath(cfg.options)), now1).Success?
    requires ExpectedRun(cfg, FileAt(tree, readable, GetSyncStateFilePath(cfg.options)), now1).value.CommitPlan?
    ensures var plan := ExpectedRun(cfg, FileAt(tree, readable, GetSyncStateFilePath(cfg.options)), now1).value;
      var again := ExpectedRun(cfg, FileAt(tree + plan.files, readable, GetSyncStateFilePath(cfg.options)), now2);
      again.Success? && !again.value.CommitPlan?
    ensures var plan := ExpectedRun(cfg, FileAt(tree, readable, GetSyncStateFilePath(cfg.options)), now1).value;
      var state := LedgerAfter(cfg, tree, readable).value;
      var subs := GetRecentSubmissions(cfg.api, 0, cfg.options.fetchLimit).value;
      (forall s :: s in Candidates(subs, state.syncedSubmissionIds) ==> ProcessItem(cfg, s).Success?) ==>
        ExpectedRun(cfg, FileAt(tree + plan.files, readable, GetSyncStateFilePath(cfg.options)), now2) == Success(UpToDate)
  {
    var state := LedgerAfter(cfg, tree, readable).value;
    var subs := GetRecentSubmissions(cfg.api, 0, cfg.options.fetchLimit).value;
    var plan := PlanRun(cfg, state, subs, now1);
    CommittedLedgerGrows(cfg, tree, readable, now1);
    var state2 := LedgerAfter(cfg, tree + plan.files, readable).value;
    assert ExpectedRun(cfg, FileAt(tree + plan.files, readable, GetSyncStateFilePath(cfg.options)), now2)
      == Success(PlanRun(cfg, state2, subs, now2));
    ReplanCommitsNothing(cfg, state, subs, now1, state2, now2);
  }

  /** Planning again over a ledger that holds the first plan's IDs gives no commit. */
  lemma ReplanCommitsNothing(cfg: Config, state: SyncState, subs: seq<Submission>, now1: Instant, state2: SyncState, now2: Instant)
    requires PlanRun(cfg, state, subs, now1).CommitPlan?
    requires state2.syncedSubmissionIds == state.syncedSubmissionIds + IdSet(PlanRun(cfg, state, subs, now1).ids)
    ensures !PlanRun(cfg, state2, subs, now2).CommitPlan?
    ensures (forall s :: s in Candidates(subs, state.syncedSubmissionIds) ==> ProcessItem(cfg, s).Success?) ==>
      PlanRun(cfg, state2, subs, now2) == UpToDate
  {
    var cands := Candidates(subs, state.syncedSubmissionIds);
    RemainingCandidatesFailed(cfg, subs, state.syncedSubmissionIds);
    var cands2 := Candidates(subs, state2.syncedSubmissionIds);
    AllFailedPreparesNothing(cfg, cands2);
  }

  /**
   * Once the IDs a batch prepared are added to the ledger, every submission
   * still a candidate was a candidate before and failed.
   */
  lemma RemainingCandidatesFailed(cfg: Config, subs: seq<Submission>, synced: set<string>)
    ensures var cands := Candidates(subs, synced);
      forall s :: s in Candidates(subs, synced + IdSet(ProcessAll(cfg, cands).ids)) ==>
        s in cands && ProcessItem(cfg, s).Failure?
  {
    var cands := Candidates(subs, synced);
    BatchShape(cfg, cands);
    SucceededIdsMembers(cfg, cands);
  }

  /**
   * A worked case: ledger {"A"}; the list holds "A" and "B"
   * accepted and "C" with a wrong answer; only "B" is a candidate.
   */
  lemma OnlyNewAcceptedSubmissionIsCandidate(a: Submission, b: Submission, c: Submission)
    requires a.id == "A" && b.id == "B" && c.id == "C"
    requires IsAccepted(a) && IsAccepted(b) && c.statusDisplay == "Wrong Answer"
    ensures Candidates([a, b, c], {"A"}) == [b]
  {
    assert [a, b, c][1..] == [b, c];
    assert [b, c][1..] == [c];
    assert [c][1..] == [];
    assert AcceptedOnly([c]) == [];
    assert AcceptedOnly([b, c]) == [b];
    assert AcceptedOnly([a, b, c]) == [a, b];
    assert [a, b][1..] == [b];
    assert [b][1..] == [];
  }

  // ---------------------------------------------------------------- the class

  /** `SyncOrchestrator`: its injected collaborators and the one pass it runs. */
  class Orchestrator {
    const leetcode: LeetCodeApi
    const github: Repository
    const readme: ReadmeGenerator
    const codec: StateCodec
    const options: Options

    constructor (leetcode: LeetCodeApi, github: Repository, readme: ReadmeGenerator, codec: StateCodec, options: Options)
      ensures this.leetcode == leetcode && this.github == github && this.readme == readme
      ensures this.codec == codec && this.options == options
    {
      this.leetcode := leetcode;
      this.github := github;
      this.readme := readme;
      this.codec := codec;
      this.options := options;
    }

    function Setup(): Config {
      Config(leetcode, options, codec, readme)
    }

    /** The inner `foreach` over one item's files: each assignment overwrites what is there. */
    static method MergeFiles(allFiles: map<string, string>, files: map<string, string>) returns (merged: map<string, string>)
      ensures merged == allFiles + files
    {
      merged := allFiles;
      var pending := files.Keys;
      while pending != {}
        invariant pending <= files.Keys
        invariant merged.Keys == allFiles.Keys + (files.Keys - pending)
        invariant forall k :: k in files.Keys - pending ==> merged[k] == files[k]
        invariant forall k :: k in allFiles && k !in files.Keys - pending ==> merged[k] == allFiles[k]
        decreases pending
      {
        var k :| k in pending;
        merged := merged[k := files[k]];
        pending := pending - {k};
      }
    }

    /** The per-item `try` block: parse the ID, fetch the detail and the problem, build the files. */
    method PrepareItem(sub: Submission) returns (r: Result<Prepared, ItemFailure>)
      ensures r == ProcessItem(Setup(), sub)
    {
      var id := ParseInt32(sub.id);
      if id.None? {
        return Failure(BadSubmissionId);
      }
      var detail := GetSubmissionDetail(leetcode, id.value);
      if detail.Failure? {
        return Failure(DetailFailed(detail.error));
      }
      var problem := GetProblem(leetcode, sub.titleSlug);
      if problem.Failure? {
        return Failure(ProblemFailed(problem.error));
      }
      var files := BuildFilesForSubmission(detail.value, problem.value, options.leetCodeUsername, readme);
      if files.None? {
        return Failure(BuildFailed);
      }
      var line := ProblemLine(problem.value.questionFrontendId, problem.value.title, problem.value.difficulty);
      r := Success(Prepared(files.value, sub.id, line));
    }

    /**
     * The `foreach` over the new submissions: the files, IDs and problem lines
     * of every item that was prepared, in order, skipping the ones that failed.
     */
    method PrepareAll(newSubmissions: seq<Submission>)
      returns (allFiles: map<string, string>, syncedIds: seq<string>, syncedProblems: seq<ProblemLine>)
      ensures Batch(allFiles, syncedIds, syncedProblems) == ProcessAll(Setup(), newSubmissions)
    {
      allFiles, syncedIds, syncedProblems := map[], [], [];
      for i := 0 to |newSubmissions|
        invariant Batch(allFiles, syncedIds, syncedProblems) == ProcessAll(Setup(), newSubmissions[..i])
      {
        var sub := newSubmissions[i];
        ProcessAllSnoc(Setup(), newSubmissions[..i], sub);
        TakeSnoc(newSubmissions, i);
        var r := PrepareItem(sub);
        if r.Success? {
          allFiles := MergeFiles(allFiles, r.value.files);
          syncedIds := syncedIds + [r.value.id];
          syncedProblems := syncedProblems + [r.value.line];
        }
      }
      assert newSubmissions[..|newSubmissions|] == newSubmissions;
    }

    /** The `foreach` that adds each synced ID to the ledger's set. */
    static method AddIds(synced: set<string>, ids: seq<string>) returns (r: set<string>)
      ensures r == synced + IdSet(ids)
      ensures forall x :: x in r <==> x in synced || x in ids
    {
      r := synced;
      for k := 0 to |ids|
        invariant r == synced + IdSet(ids[..k])
      {
        TakeSnoc(ids, k);
        r := r + {ids[k]};
      }
      assert ids[..|ids|] == ids;
    }

    /**
     * `RunAsync`: one sync pass at time `now`. The repository changes only by
     * the single commit of the plan, and only when that commit is accepted.
     */
    method RunAsync(now: Instant) returns (outcome: RunOutcome)
      modifies github
      ensures var expected := ExpectedRun(Setup(), old(github.Lookup(GetSyncStateFilePath(options))), now);
        && outcome == OutcomeOf(expected, github.accepting)
        && (if expected.Success? && expected.value.CommitPlan? && github.accepting
            then github.tree == old(github.tree) + expected.value.files
              && github.log == old(github.log) + [Commit(expected.value.files, expected.value.message)]
            else github.tree == old(github.tree) && github.log == old(github.log))
    {
      var cfg := Setup();
      var path := GetSyncStateFilePath(options);
      var ledger := github.GetFileContent(path);
      var loaded := LoadState(ledger, codec);
      if loaded.Failure? {
        return Failed(LoadFailed(loaded.error));
      }
      var state := loaded.value;

      var listed := GetRecentSubmissions(leetcode, 0, options.fetchLimit);
      if listed.Failure? {
        return Failed(ListFailed(listed.error));
      }
      var submissions := listed.value;
      var newSubmissions := Candidates(submissions, state.syncedSubmissionIds);
      if |newSubmissions| == 0 {
        return NothingNew;
      }

      var allFiles, syncedIds, syncedProblems := PrepareAll(newSubmissions);
      if |allFiles| == 0 {
        BatchShape(cfg, newSubmissions);
        return AllItemsFailed;
      }

      var synced := AddIds(state.syncedSubmissionIds, syncedIds);
      var updated := state.(syncedSubmissionIds := synced);
      allFiles := allFiles[path := SerializeState(codec, updated, now)];

      var message := BuildCommitMessage(syncedProblems);
      var ok := github.CommitFiles(allFiles, message);
      outcome := if ok then Synced(|syncedIds|) else Failed(CommitRejected);
    }
  }
}
