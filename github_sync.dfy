/**
 * The solutions repository as the sync pass sees it through
 * `IGitHubSyncClient`: the files at the branch tip, the commits made so far,
 * a read that tells "not found" apart from other failures, and a commit that
 * writes a whole path-to-content map at once or nothing at all. Blobs, trees
 * and reference updates are not modelled.
 */
module GitHubSync {

  /** `GetFileContentAsync`: the content, null for `NotFoundException`, or a propagated failure. */
  datatype ReadResult = Found(content: string) | NotFound | ReadFailed

  datatype Commit = Commit(files: map<string, string>, message: string)

  /** What reading `path` from a branch tip gives. */
  function FileAt(tree: map<string, string>, readable: bool, path: string): (r: ReadResult)
    ensures r.ReadFailed? <==> !readable
    ensures r.NotFound? <==> readable && path !in tree
    ensures r.Found? ==> path in tree && r.content == tree[path]
  {
    if !readable then ReadFailed
    else if path in tree then Found(tree[path])
    else NotFound
  }

  class Repository {
    /** The files at the tip of the configured branch. */
    var tree: map<string, string>
    /** The commits made through this client, oldest first. */
    var log: seq<Commit>
    /** Whether reads reach the repository; when false every read fails with an error other than "not found". */
    const readable: bool
    /** Whether the repository accepts commits; when false every commit fails and changes nothing. */
    const accepting: bool

    constructor (tree: map<string, string>, readable: bool, accepting: bool)
      ensures this.tree == tree && this.log == []
      ensures this.readable == readable && this.accepting == accepting
    {
      this.tree := tree;
      this.log := [];
      this.readable := readable;
      this.accepting := accepting;
    }

    function Lookup(path: string): ReadResult
      reads this
    {
      FileAt(tree, readable, path)
    }

    /** `GetFileContentAsync(path)`. */
    method GetFileContent(path: string) returns (r: ReadResult)
      ensures r == Lookup(path)
      ensures r.NotFound? ==> readable && path !in tree
    {
      if !readable {
        r := ReadFailed;
      } else if path in tree {
        r := Found(tree[path]);
      } else {
        r := NotFound;
      }
    }

    /** `CommitFilesAsync(files, message)`: one new commit holding every file, or no change. */
    method CommitFiles(files: map<string, string>, message: string) returns (ok: bool)
      modifies this
      ensures ok == accepting
      ensures ok ==> tree == old(tree) + files && log == old(log) + [Commit(files, message)]
      ensures !ok ==> tree == old(tree) && log == old(log)
    {
      ok := accepting;
      if ok {
        tree := tree + files;
        log := log + [Commit(files, message)];
      }
    }
  }
}
