/**
 * The records the core passes around: the types of models.go, and the thread-era
 * types (review threads, their comments, general comments, fetch options and the
 * extended summary) as the GraphQL fetcher and the formatter build and read them.
 * Go's `*int` is `Option<int>`; timestamps are the already formatted strings.
 */
module Models {
  import opened Wrappers

  /** Go's `ChangeType`/`Type` strings; `Unset` is the empty string a fresh
      ParsedComment starts with. */
  datatype ChangeType = Unset | Addition | Deletion | Context | Modification
  {
    /** The string the Go code stores. */
    function Name(): string
    {
      match this
      case Unset => ""
      case Addition => "addition"
      case Deletion => "deletion"
      case Context => "context"
      case Modification => "modification"
    }
  }

  /**
   * One record of a parsed hunk (DiffLine). In Go its OldLine and NewLine fields are
   * pointers, and the parser only ever stores the address of one of its two counter
   * variables there. So a record does not hold a number of its own: it says WHETHER
   * it points at the old-side and at the new-side counter, and reading it yields what
   * that counter holds at the time of reading (DiffHunkInfo.counters).
   */
  datatype DiffLine = DiffLine(lineType: ChangeType, content: string, hasOldLine: bool, hasNewLine: bool)

  /** The parser's two counter variables, shared by every record that points at them. */
  datatype Counters = Counters(oldLine: nat, newLine: nat)

  /** DiffHunkInfo, together with the two counter variables its records point into. */
  datatype DiffHunkInfo = DiffHunkInfo(
    oldStart: nat, oldCount: nat, newStart: nat, newCount: nat,
    lines: seq<DiffLine>,
    counters: Counters)

  /** A REST review comment (PRComment), reduced to the fields the parser reads;
      `author` is `User.Login`. */
  datatype PRComment = PRComment(
    id: int, diffHunk: string, path: string, author: string, body: string,
    createdAt: string, htmlUrl: string,
    line: Option<int>, originalLine: Option<int>, side: string)

  /** A review comment with its diff context recovered (ParsedComment). */
  datatype ParsedComment = ParsedComment(
    id: int, file: string,
    lineNew: Option<int>, lineOld: Option<int>,
    changeType: ChangeType, lineContent: string,
    comment: string, context: string,
    htmlUrl: string, diffHunk: string, author: string, createdAt: string)

  /** One comment of a review thread. */
  datatype ThreadComment = ThreadComment(
    id: string, body: string, author: string, createdAt: string, htmlUrl: string,
    isReply: bool)

  /** A review conversation anchored to a file and, when known, to lines. */
  datatype ReviewThread = ReviewThread(
    id: string, file: string, isResolved: bool, isOutdated: bool,
    lineNew: Option<int>, lineOld: Option<int>,
    startLineNew: Option<int>, startLineOld: Option<int>,
    diffHunk: string,
    comments: seq<ThreadComment>)

  /** A pull-request comment with no file or line anchor. */
  datatype GeneralComment = GeneralComment(
    id: string, body: string, author: string, createdAt: string, htmlUrl: string)

  /** Which threads and comments the fetch keeps (FetchOptions). */
  datatype FetchOptions = FetchOptions(includeResolved: bool, includeOutdated: bool, includeGeneral: bool)

  /** CommentsSummary with the thread counts the thread-based path fills in. */
  datatype CommentsSummary = CommentsSummary(
    totalComments: nat,
    unresolvedThreads: nat, resolvedThreads: nat, outdatedThreads: nat,
    generalComments: nat,
    filesAffected: seq<string>, authors: seq<string>)
}
