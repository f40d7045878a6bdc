/**
 * SolutionOrganizer: where the files of one synced submission go in the
 * solutions repository, and which extension its source file gets.
 */
module SolutionOrganizer {

  import opened Text
  import opened Models

  /**
   * `ReadmeGenerator.GenerateProblemReadme`: the README text as a function of
   * the problem, the submission and the LeetCode user name. Its formatting
   * (floating-point percentiles, dates) is not part of this model; when it
   * throws is, see `ReadmeRenders`.
   */
  type ReadmeGenerator = (Problem, SubmissionDetail, string) -> string

  /** The range `DateTimeOffset.FromUnixTimeSeconds` accepts: 0001-01-01 to 9999-12-31. */
  const MinUnixSeconds: int := -62135596800
  const MaxUnixSeconds: int := 253402300799

  /**
   * The README generator returns rather than throws: it counts the problem's
   * topic tags, reads the language's verbose name and converts the
   * submission's timestamp to a date, and each of those throws on a null
   * list, a null language or a timestamp out of range.
   */
  predicate ReadmeRenders(problem: Problem, submission: SubmissionDetail) {
    problem.topicTags.Some?
    && submission.lang.Some?
    && MinUnixSeconds <= submission.timestamp <= MaxUnixSeconds
  }

  /** The lower-case language names that have an entry of their own in the extension table. */
  function KnownLanguageNames(): set<string> {
    {"c#", "csharp", "python", "python3", "java", "javascript", "typescript", "c++", "cpp", "c",
     "go", "golang", "rust", "ruby", "swift", "kotlin", "scala", "php", "dart",
     "sql", "mysql", "mssql", "oraclesql"}
  }

  /** Every extension the table can produce. */
  function KnownExtensions(): set<string> {
    {".cs", ".py", ".java", ".js", ".ts", ".cpp", ".c", ".go", ".rs", ".rb", ".swift", ".kt",
     ".scala", ".php", ".dart", ".sql", ".txt"}
  }

  /** The source-file extension for a LeetCode language name, looked up case-insensitively. */
  function GetFileExtension(langName: string): (ext: string)
    ensures ext in KnownExtensions()
    ensures |ext| >= 2 && ext[0] == '.' && '/' !in ext
    ensures ext == ".txt" <==> Lower(langName) !in KnownLanguageNames()
  {
    ExtensionTable(Lower(langName))
  }

  /** The `switch` on the lower-cased name; anything else is ".txt". */
  function ExtensionTable(name: string): (ext: string)
    ensures ext in KnownExtensions()
    ensures |ext| >= 2 && ext[0] == '.' && '/' !in ext
    ensures ext == ".txt" <==> name !in KnownLanguageNames()
  {
    if name == "c#" || name == "csharp" then ".cs"
    else if name == "python" || name == "python3" then ".py"
    else if name == "java" then ".java"
    else if name == "javascript" then ".js"
    else if name == "typescript" then ".ts"
    else if name == "c++" || name == "cpp" then ".cpp"
    else if name == "c" then ".c"
    else if name == "go" || name == "golang" then ".go"
    else if name == "rust" then ".rs"
    else if name == "ruby" then ".rb"
    else if name == "swift" then ".swift"
    else if name == "kotlin" then ".kt"
    else if name == "scala" then ".scala"
    else if name == "php" then ".php"
    else if name == "dart" then ".dart"
    else if name == "sql" || name == "mysql" || name == "mssql" || name == "oraclesql" then ".sql"
    else ".txt"
  }

  /** The lookup ignores case: two names that lower-case alike get the same extension. */
  lemma FileExtensionIgnoresCase(a: string, b: string)
    requires Lower(a) == Lower(b)
    ensures GetFileExtension(a) == GetFileExtension(b)
    ensures GetFileExtension(a) == GetFileExtension(Lower(a))
  {
    LowerIdempotent(a);
  }

  /** Names that lower-case to a known alias share its extension. */
  lemma FileExtensionAliases(s: string)
    ensures Lower(s) in {"c#", "csharp"} ==> GetFileExtension(s) == ".cs"
    ensures Lower(s) in {"python", "python3"} ==> GetFileExtension(s) == ".py"
    ensures Lower(s) in {"c++", "cpp"} ==> GetFileExtension(s) == ".cpp"
    ensures Lower(s) in {"go", "golang"} ==> GetFileExtension(s) == ".go"
    ensures Lower(s) in {"sql", "mysql", "mssql", "oraclesql"} ==> GetFileExtension(s) == ".sql"
  {
    CSharpAliases(Lower(s));
    PythonAliases(Lower(s));
    CppAliases(Lower(s));
    GoAliases(Lower(s));
    SqlAliases(Lower(s));
  }

  lemma CSharpAliases(name: string)
    ensures name in {"c#", "csharp"} ==> ExtensionTable(name) == ".cs"
  {
  }

  lemma PythonAliases(name: string)
    ensures name in {"python", "python3"} ==> ExtensionTable(name) == ".py"
  {
  }

  lemma CppAliases(name: string)
    ensures name in {"c++", "cpp"} ==> ExtensionTable(name) == ".cpp"
  {
  }

  lemma GoAliases(name: string)
    ensures name in {"go", "golang"} ==> ExtensionTable(name) == ".go"
  {
  }

  lemma SqlAliases(name: string)
    ensures name in {"sql", "mysql", "mssql", "oraclesql"} ==> ExtensionTable(name) == ".sql"
  {
  }

  /** `BuildFolderName`: "{frontend id}. {title}". */
  function BuildFolderName(problem: Problem): string {
    problem.questionFrontendId + ". " + problem.title
  }

  /** The directory of a problem: "{difficulty}/{frontend id}. {title}". */
  function BasePath(problem: Problem): string {
    problem.difficulty + "/" + BuildFolderName(problem)
  }

  /**
   * `BuildFilesForSubmission`: a new dictionary filled by two assignments,
   * the source file and the generated README, side by side in the problem's
   * folder. `None` stands for the exception thrown on the way: reading the
   * name of a null language, or any of the generator's own failures.
   */
  function BuildFilesForSubmission(
    submission: SubmissionDetail, problem: Problem, username: string, readme: ReadmeGenerator)
    : (files: Option<map<string, string>>)
    ensures files.Some? <==> ReadmeRenders(problem, submission)
    ensures files.Some? ==>
      var base := problem.difficulty + "/" + problem.questionFrontendId + ". " + problem.title;
      var source := base + "/solution" + GetFileExtension(submission.lang.value.name);
      && files.value.Keys == {source, base + "/README.md"}
      && files.value[source] == submission.code
      && files.value[base + "/README.md"] == readme(problem, submission, username)
      && |files.value| == 2
  {
    var basePath := BasePath(problem);
    assert basePath == problem.difficulty + "/" + problem.questionFrontendId + ". " + problem.title;
    match submission.lang
    case None => None
    case Some(lang) =>
      var extension := GetFileExtension(lang.name);
      if !ReadmeRenders(problem, submission) then None
      else
        var files: map<string, string> := map[];
        var files := files[basePath + "/solution" + extension := submission.code];
        var files := files[basePath + "/README.md" := readme(problem, submission, username)];
        SolutionAndReadmeDiffer(basePath, extension);
        Some(files)
  }

  /** The two paths of one submission never collide, whatever the extension. */
  lemma SolutionAndReadmeDiffer(base: string, ext: string)
    ensures base + "/solution" + ext != base + "/README.md"
  {
    var i := |base| + 1;
    assert (base + "/solution" + ext)[i] == 's';
    assert (base + "/README.md")[i] == 'R';
  }
}
