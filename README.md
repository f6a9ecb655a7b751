# pr-review-cli core, modelled in Dafny

pr-review-cli fetches the review comments of a GitHub pull request and prints them for a
person or a coding assistant. This project models the three pieces of it that carry logic,
and proves what each of them promises:

- **Hunk parsing and comment correlation** (`github.go`):
  - `ParseDiffHunk` reads the `@@ -a[,b] +c[,d] @@` header of a unified-diff hunk. An
    omitted count means 1, as in GNU diffutils' unified format. It then walks the body with an
    old-line counter and a new-line counter, emitting one typed record per non-blank line.
  - `ParseComments` maps each comment's `Line`/`OriginalLine` onto new/old coordinates by its
    `Side` and looks for the record the comment is on. It describes the change with
    `generateContext` and otherwise falls back to a type inferred from which numbers are
    present.
- **Thread aggregation over paginated GraphQL results** (`github_graphql.go`):
  - filtering of resolved and outdated threads;
  - side-dependent line fields;
  - reply detection and capture of the representative hunk;
  - per-thread comment continuation;
  - draining of the general comments;
  - whole-fetch error handling.
- **Ordering and summaries** (`formatter.go`): the stable sorts of threads and of parsed
  comments, their line-number keys, and the two summary builders. The builders count and
  collect deduplicated, sorted file and author lists.

Modules, one file each:

| module | file | contents |
|---|---|---|
| `Wrappers` | `wrappers.dfy` | `Option`, `Result` |
| `Text` | `text.dfy` | Go's byte-wise string order; `strings.Split`; decimal rendering; `strings.ToUpper` |
| `Models` | `models.dfy` | the records of `models.go`, plus the thread-era records rebuilt from their uses |
| `DiffHunk` | `diff_hunk.dfy` | `ParseDiffHunk` |
| `Correlator` | `correlator.dfy` | `ParseComments`, `generateContext` |
| `Ordering` | `ordering.dfy` | the sorts and line-number keys |
| `Summary` | `summary.dfy` | `GenerateSummary`, `GenerateThreadSummary` |
| `PageSource` | `page_source.dfy` | the GraphQL endpoint as a script of responses |
| `ThreadFetch` | `thread_fetch.dfy` | the fetch loops, and the functions that specify them |
| `FetchProperties` | `fetch_properties.dfy` | what the fetch loops achieve |

**Hunk records and their counters.** In `ParseDiffHunk` every record stores the address of
one of two shared counter variables, not a copy of the counter's value (github.go:98-99,
113-131). A record's line number, read after parsing, is therefore the counter's final value.
The model keeps this:

- a `DiffLine` says which counters it points at;
- `DiffHunkInfo.counters` holds the final counter values;
- `CreatedOld`/`CreatedNew` give the value each counter had when the record was made.

`ParseComments` compares comments against these aliased reads, as the code does, so a
comment on a recorded line never finds its record (see "## Findings"). The corrected
correlation, which compares with each record's own creation-time numbers, is modelled
beside it as `ParseCommentsIntended`.

**The GraphQL endpoint.** Each `c.client.Query` becomes a step on a `PageSource.Server`. The
server holds, for each kind of query, the responses still to come (a page, or a failure) and
a log of the queries asked. Every fetch loop is a `method` with the source's loop structure,
proved equal to a recursive specification function. The properties are proved about those
functions.

## Model

| member | source | states |
|---|---|---|
| DiffHunk.ParseDiffHunk | github.go:64-140 | the result is the hunk specification `ParseHunk`; it is an error exactly when line 0 holds no header; on success the two counters end at start plus the number of records that advanced them |
| DiffHunk.ParseBody | github.go:98-137 | the records are those of the non-blank body lines after line 0; each counter ends at its start plus the records that advance it |
| DiffHunk.Classify | github.go:110-133 | a record is an addition, deletion or context line; it has an old-line number unless it is an addition and a new-line number unless it is a deletion; one prefix character is stripped exactly when the line starts with `+`, `-` or space |
| DiffHunk.ClassifyRoundTrip | github.go:110-126 | a prefixed line is recovered from its record's type and content |
| DiffHunk.ClassifyUnprefixed | github.go:127-132 | a line with any other first character is a context line kept whole, with both numbers |
| DiffHunk.RejectsEmptyHunk | github.go:65-75 | the empty string is rejected with an invalid-header error |
| DiffHunk.RejectsHunkWithoutHeader | github.go:65-75 | a hunk whose first line has no `@` is rejected with that line in the error |
| DiffHunk.NoHeaderWithoutAt | github.go:71-75 | the header search finds nothing on a line without `@` |
| DiffHunk.FindHeader | github.go:71-75 | the header found is the pattern's match at the leftmost position where it matches; none is found exactly when it matches nowhere in the line |
| DiffHunk.MatchYieldsHeader | github.go:71-75 | every match of the header pattern yields four groups with both starts present, so the `len(matches) < 4` guard never rejects a match |
| DiffHunk.MatchCapturesGroups | github.go:71-72 | a match yields one group per capturing element of the pattern, and every group that is not optional is present |
| DiffHunk.MatchConcat | github.go:71-72 | matching a concatenated pattern matches the first part, then the second on what is left |
| DiffHunk.RangeRendered | github.go:71-87 | a rendered ` -start[,count]` (or `+`) range is matched back as its start and count |
| DiffHunk.MatchAtNeedsAt | github.go:71-72 | a match at a position needs `@` there |
| DiffHunk.FindHeaderSkips | github.go:71-72 | the search passes over a leading character that is not `@` |
| DiffHunk.ParsesHeaderLine | github.go:64-140 | a hunk whose line 0 is a rendered header parses to that header and the records of the lines after it |
| DiffHunk.HeaderHasNoNewline | github.go:65-72 | a rendered header lies within one line |
| DiffHunk.MatchAtRendered | github.go:71-87 | a header rendered from any start/count values, with or without counts, is read back as those values |
| DiffHunk.FindHeaderRendered | github.go:71-75 | the search is unanchored: leading text without `@` and any trailing text are tolerated |
| DiffHunk.ParsesRenderedHunk | github.go:64-140 | a rendered header followed by body lines parses; starts are taken verbatim, an omitted count defaults to 1, and the records are those of the body |
| DiffHunk.RecordsOfNonBlankLines | github.go:101-136 | blank body lines emit nothing; every other line emits exactly one record, in input order |
| DiffHunk.BlankBodyHasNoRecords | github.go:101-139 | a header-only or blank body gives no records, and the counters stay at the starts |
| DiffHunk.CreatedFirst | github.go:98-99 | the first record is made when the counters are still at oldStart and newStart |
| DiffHunk.CreatedStep | github.go:110-133 | between two records, each counter advances once per record on its side |
| DiffHunk.CreatedNumbersIncrease | github.go:110-133 | records on one side are made with strictly increasing line numbers |
| DiffHunk.AliasedReadPassesEveryRecord | github.go:98-131 | every record reads the final counter value, which is larger than the value at its creation |
| DiffHunk.ExampleDeletionsThenAdditions | github.go:64-140 | `-10,3 +20,2` with three deletions and two additions: records made at old 10-12 and new 20-21, yet the counters end at 13 and 22 |
| DiffHunk.ExampleOmittedCounts | github.go:64-140 | the hunk `@@ -5 +5 @@` + newline + ` context` parses with both counts 1, one context record made at line 5 on both sides, and counters ending at 6 |
| Text.JoinSplit | github.go:65 | `strings.Split` loses nothing: joining its pieces gives the input back |
| Text.SplitJoin | github.go:65 | splitting pieces that contain no separator, once joined, returns them |
| Text.SplitHasNoSeparator | github.go:65 | no piece of a split contains the separator |
| Text.SplitNoSeparator | github.go:65 | a string without the separator splits into itself alone |
| Text.DigitRunDigits | github.go:71 | every character of the leading digit run is a digit |
| Text.SpaceRunSpaces | github.go:71 | every character of the leading whitespace run is whitespace |
| Text.NatToDecimalDigits | github.go:206-218 | a rendered natural number is a non-empty run of digits |
| Text.DecimalRoundTrip | github.go:78-87 | the digit run a natural number renders as reads back as that number |
| Text.IntToDecimalRoundTrip | github.go:206-218 | a rendered integer, sign included, reads back as itself |
| Text.ToUpper | github_graphql.go:158-167 | upper-casing keeps the length and maps each character on its own |
| Text.LessTotal | formatter.go:522-537 | byte-wise string order is total |
| Text.LessTransitive | formatter.go:522-537 | byte-wise string order is transitive |
| Text.LessIrreflexive | formatter.go:522-537 | no string sorts before itself |
| Text.LessAsymmetric | formatter.go:522-537 | two strings are never each before the other |
| Text.StrictlyAscendingHasNoDuplicates | formatter.go:508-509 | a strictly ascending list has no repeated entry |
| Correlator.SideLines | github.go:158-164 | `RIGHT` maps (Line, OriginalLine) to (new, old); any other side swaps them |
| Correlator.SideSwaps | github.go:158-164 | turning a RIGHT comment into a LEFT one swaps its two coordinates |
| Correlator.GenerateContext | github.go:204-224 | the description is never empty, and it is "Context line" exactly when the type is none of addition, deletion and modification |
| Correlator.FallbackType | github.go:187-195 | the fallback is never unset or context: addition exactly when there is no old line, deletion exactly when there is an old line but no new line, modification exactly when both are present |
| Correlator.FirstMatch | github.go:171-179 | the first record whose (aliased) number equals the comment's new or old line is found, and no earlier one matches |
| Correlator.FindCommentedRecord | github.go:171-179 | the search loop as written copies content and type from the first record whose aliased number matches, and leaves the comment alone when none matches |
| Correlator.FindIntendedRecord | github.go:171-179 | the search loop, counting each side's lines again from the hunk's starts, copies content and type from the first record whose own number matches, and leaves the comment alone when none matches |
| Correlator.ParseComment | github.go:147-197 | the loop body builds exactly the as-written correlation of the comment, searching with the aliased reads |
| Correlator.StartComment | github.go:147-164 | the loop body starts each comment with its own fields, its line numbers placed by side, no type and no content |
| Correlator.SetFallbackType | github.go:186-195 | a comment left without a type gets the fallback type of its line numbers; a typed one is unchanged |
| Correlator.ParseComments | github.go:143-201 | never fails; one parsed comment per input, in order, each the as-written correlation of its input |
| Correlator.CorrelateAll | github.go:143-201 | the returned list has one entry per comment, in order, each its as-written correlation |
| Correlator.CorrelateComment | github.go:147-195 | identity fields are copied, the line fields follow the side mapping, and the type is never left unset |
| Correlator.CorrelateWithoutHunk | github.go:167-195 | with no hunk or one that does not parse: no content, empty context, and the fallback type (no old line → addition, else no new line → deletion, else modification) |
| Correlator.CorrelateMatched | github.go:171-182 | with a match, the comment takes that record's content and type, and the context describes them |
| Correlator.CorrelateUnmatched | github.go:182-195 | a parsed hunk with no match gives "Context line", computed before the fallback type is set |
| Correlator.RecordTypesAreSet | github.go:109-134 | every record of a parsed hunk has a type, so a matched comment never keeps the unset type |
| Correlator.ContextIdentifiesShown | github.go:204-224 | two comments get the same description exactly when their type and the line numbers the description uses agree |
| Correlator.FormOfContext | github.go:204-224 | the description's template is determined by the type and which line numbers are present |
| Correlator.ModificationNumbers | github.go:216-218 | a modification description determines both line numbers |
| Correlator.NumberBetween | github.go:206-214 | an addition or deletion description, a number between fixed texts, determines that line number |
| Correlator.IntToDecimalInjective | github.go:206-218 | different integers are formatted differently |
| Correlator.SameContextSameShown | github.go:204-224 | equal descriptions imply the same type and the same line numbers shown |
| Correlator.AsWrittenMissesRecordedLine | github.go:98-174 | a comment on the line a record was made as matches no record at all |
| Correlator.AsWrittenMatchesPastTheHunk | github.go:173-174 | a comment on the final new-line counter, one past the hunk, matches the first new-side record |
| Correlator.ExampleCommentOnAddedLine | github.go:64-224 | in `@@ -1 +1 @@`, `+a`, `+b`, a RIGHT comment on line 1 gets no content, "Context line" and the addition type, although record "a" was made as new line 1 |
| Correlator.FirstIntendedMatch | github.go:171-179 | the intended search finds the first record whose own creation-time number equals the comment's line |
| Correlator.IntendedMatchFindsRecordedLine | github.go:171-179 | with the intended test, a comment on the line a record was made as finds that record |
| Correlator.IntendedWithoutHunk | github.go:167-195 | with the corrected comparison, no hunk or one that does not parse still gives no content, empty context and the fallback type |
| Correlator.IntendedMatched | github.go:171-182 | with the corrected comparison, the first matching record gives the content and type, and the context describes them |
| Correlator.IntendedUnmatched | github.go:182-195 | with the corrected comparison, no match gives "Context line" and the fallback type |
| Correlator.CorrelateIntended | github.go:147-195 | the corrected correlation copies the same fields and side mapping and never leaves the type unset |
| Correlator.IntendedCorrelationOnNewLine | github.go:171-182 | the corrected correlation gives a comment on a record's new line that record's content, type and description |
| Correlator.IntendedCorrelationOnOldLine | github.go:171-182 | the same on the old side |
| Correlator.ExampleIntendedCommentOnAddedLine | github.go:171-208 | in the example above, the corrected correlation gives content "a", the addition type and "New line 1 added" |
| Correlator.ParseCommentsIntended | github.go:143-201 | the corrected ParseComments (the fix of the Findings row): never fails; one parsed comment per input, in order, each the corrected correlation |
| Correlator.ParseCommentIntended | github.go:147-197 | the corrected loop body builds exactly the corrected correlation of the comment |
| Correlator.CorrelateAllIntended | github.go:143-201 | the corrected list has one entry per comment, in order, each its corrected correlation |
| Ordering.FirstPresent | formatter.go:567-591 | the first present option supplies the number, or the default when none is present |
| Ordering.ThreadLineNumber | formatter.go:567-581 | the thread key is one of its four line fields, or MaxInt32, which it is when none is present |
| Ordering.CommentLineNumber | formatter.go:583-591 | the comment key is one of its two line fields, or MaxInt32, which it is when neither is present |
| Ordering.ThreadLineNumberIsFirstPresent | formatter.go:567-581 | LineNew, else LineOld, else StartLineNew, else StartLineOld, else MaxInt32 |
| Ordering.CommentLineNumberIsFirstPresent | formatter.go:583-591 | LineNew, else LineOld, else MaxInt32 |
| Ordering.ThreadLess | formatter.go:519-538 | the thread comparison is the lexicographic order of (file, resolved rank, line number, ID) |
| Ordering.CommentLess | formatter.go:547-562 | the comment comparison is the lexicographic order of (file, line number, ID) |
| Ordering.KeyLessIrreflexive | formatter.go:519-562 | no key sorts before itself |
| Ordering.KeyLessTransitive | formatter.go:519-562 | the key order is transitive |
| Ordering.KeyLessTotal | formatter.go:519-562 | any two different keys are ordered |
| Ordering.KeyLessAsymmetric | formatter.go:519-562 | two keys are never each before the other |
| Ordering.InsertPermutes | formatter.go:515-565 | inserting an element into a sequence adds exactly that element |
| Ordering.InsertSorted | formatter.go:515-565 | inserting into a sorted sequence keeps it sorted |
| Ordering.InsertTies | formatter.go:515-565 | insertion places the element after every element with an equal key |
| Ordering.StableSortPermutes | formatter.go:515-565 | sorting is a permutation |
| Ordering.StableSortSorted | formatter.go:515-565 | the sorted sequence has no later element strictly before an earlier one |
| Ordering.StableSortKeepsTies | formatter.go:515-565 | elements with equal keys keep their relative order |
| Ordering.StableSortIdempotent | formatter.go:515-565 | sorting an already sorted sequence returns it unchanged |
| Ordering.InsertionSort | formatter.go:515-565 | the in-place sort leaves the array holding the stable sort of its old contents |
| Ordering.InsertNext | formatter.go:515-565 | one pass inserts the next element into the sorted prefix and leaves the rest of the array alone |
| Ordering.SortReviewThreads | formatter.go:515-541 | the result is the stable sort of a copy, a permutation of the input, ordered by the thread comparison |
| Ordering.SortParsedComments | formatter.go:543-565 | the result is the stable sort of a copy, a permutation of the input, ordered by the comment comparison |
| Ordering.SortStrings | formatter.go:189-190 | a permutation in ascending order, strictly ascending when the input has no duplicates |
| Summary.GenerateSummary | formatter.go:166-192 | TotalComments is the number of comments, the thread counters stay 0, and files and authors are exactly the comments' files and authors, strictly ascending |
| Summary.GenerateThreadSummary | formatter.go:448-512 | resolved, unresolved and outdated counts; total = all thread comments + general comments; files are exactly the thread files; authors are the thread-comment and general-comment authors; both lists strictly ascending |
| Summary.ResolvedPlusUnresolved | formatter.go:470-475 | resolved + unresolved = number of threads |
| Summary.OutdatedIgnoresResolution | formatter.go:477-479 | the outdated count depends on the outdated flags only |
| Summary.OutdatedAtMostThreads | formatter.go:477-479 | no more outdated threads than threads |
| Summary.CommentTotalAppend | formatter.go:481 | the comment total of two runs of threads is the sum of their totals |
| Summary.ImageMembers | formatter.go:177-186 | a string is in a collected set exactly when some element yields it |
| Summary.ThreadAuthorsMembers | formatter.go:490-498 | an author is collected exactly when some comment of some thread has that author |
| Summary.Remember | formatter.go:484-504 | the set-and-append step keeps the list duplicate-free and equal to the set |
| Summary.RememberEach | formatter.go:484-504 | the collecting loop adds exactly the image of the elements to the set and keeps the list duplicate-free and equal to it |
| Summary.SortTracked | formatter.go:508-509 | sorting the collected list gives a strictly ascending list of exactly the set |
| PageSource.RunCursors | github_graphql.go:208-211 | a paginating loop sends its first cursor, then each page's end cursor while that page announces a next one |
| PageSource.RunFirstPage | github_graphql.go:208-211 | a complete run that continues after its first page is that page followed by a complete run started at its end cursor |
| PageSource.RunsAppend | github_graphql.go:224-287 | `a + b` complete runs are `a` runs followed by `b` more, and skipping them is skipping each |
| PageSource.RunsFirst | github_graphql.go:224-287 | one or more complete runs are exactly a complete run followed by the others, and skipping them skips that run first |
| PageSource.ThreadsCursorsAppend | github_graphql.go:208-211 | the thread-query cursors of two logs in a row are those of each |
| ThreadFetch.MakeComments | github_graphql.go:176-183 | one thread comment per node, in order; IsReply exactly when ReplyTo is present |
| ThreadFetch.Skeleton | github_graphql.go:146-172 | a new thread copies ID, path, resolved and outdated flags, has no comments and no hunk, and each line field sits on at most one side, present exactly when the node has it |
| ThreadFetch.Dropped | github_graphql.go:137-144 | with both inclusions nothing is dropped; an open, current thread is never dropped; a dropped thread is resolved or outdated |
| ThreadFetch.AppendComments | github_graphql.go:185-190 | the nodes' comments are appended; DiffHunk is set only by the thread's first comment with a non-empty hunk; nothing else changes |
| ThreadFetch.AppendCommentNodes | github_graphql.go:175-191 | the append loop computes exactly that |
| ThreadFetch.BuildThread | github_graphql.go:146-203 | building a thread asks only comment queries |
| ThreadFetch.ProcessNodes | github_graphql.go:137-206 | processing a page of threads asks only comment queries |
| ThreadFetch.MakeGenerals | github_graphql.go:337-346 | one general comment per node, in order |
| ThreadFetch.AppendGeneralNodes | github_graphql.go:337-346 | the append loop adds exactly the page's converted nodes |
| ThreadFetch.ContinueComments | github_graphql.go:224-287 | continuation asks only comment queries and consumes only comment responses |
| ThreadFetch.FetchAdditionalThreadComments | github_graphql.go:218-290 | the loop returns the thread, error and server state of the continuation specification |
| ThreadFetch.FetchReviewThreads | github_graphql.go:73-215 | the loop returns the threads, error and server state of the thread-page specification |
| ThreadFetch.FetchGeneralComments | github_graphql.go:293-355 | the loop returns the comments, error and server state of the general-page specification |
| ThreadFetch.FetchPRReviewThreads | github_graphql.go:45-70 | the result is the whole-fetch specification; with an error, no threads and no general comments |
| ThreadFetch.FetchAll | github_graphql.go:56-67 | an error yields nothing else; without IncludeGeneral there are no general comments and no general query is answered |
| ThreadFetch.DrainThreads | github_graphql.go:120-212 | fetching threads answers no general-comments query |
| ThreadFetch.DrainGeneral | github_graphql.go:316-352 | fetching general comments consumes no thread or comment response |
| FetchProperties.AppendCommentsConcat | github_graphql.go:276-280 | appending two pages one after the other is appending their concatenation |
| FetchProperties.ContinueCommentsRun | github_graphql.go:224-287 | over a complete run of pages, the thread gains every page's comments in order; one query per page with the chained cursors; the run is consumed |
| FetchProperties.ContinueCommentsAnswered | github_graphql.go:237-287 | an answered comment page is appended and, while it announces a next page, continuation goes on from its end cursor |
| FetchProperties.ContinueCommentsIncomplete | github_graphql.go:261-263 | a failure, or running out of pages before one without a next page, is an error |
| FetchProperties.ContinueCommentsAsksForThread | github_graphql.go:256-259 | every continuation query names the thread being continued |
| FetchProperties.BuildThreadAsksFor | github_graphql.go:194-203 | building a thread asks only for that thread's comments, and only when its first page announces more |
| FetchProperties.ContinueCommentsFrame | github_graphql.go:222-280 | continuation changes only the thread's comments and hunk |
| FetchProperties.BuildThreadComments | github_graphql.go:175-203 | a thread's comments are its first page followed by each continuation page; IsReply mirrors ReplyTo; the hunk is the first comment's or empty; a single page asks nothing more |
| FetchProperties.FetchedThread | github_graphql.go:146-206 | a fetched thread has the comments made from its first page and its continuation run, in order, the first comment's hunk, and is otherwise its skeleton |
| FetchProperties.BuildThreadRun | github_graphql.go:146-206 | with its continuation run ahead, building a thread succeeds, gives exactly the fetched thread and consumes exactly that run |
| FetchProperties.SkeletonSides | github_graphql.go:146-172 | Line and StartLine go to the New fields when the side is RIGHT in any case, else to the Old ones; absent stays absent and the other side is always absent |
| FetchProperties.RightInAnyCase | github_graphql.go:158-167 | any spelling that upper-cases to RIGHT counts as the right side |
| FetchProperties.DotlessRight | github_graphql.go:158-167 | "rıght", with a dotless i, also counts as the right side |
| FetchProperties.KeptMembers | github_graphql.go:137-144 | a thread is kept exactly when it is not (resolved and resolved are excluded) or (outdated and outdated are excluded) |
| FetchProperties.KeptAppend | github_graphql.go:137-144 | filtering two pages is filtering each |
| FetchProperties.BuildThreadFrame | github_graphql.go:146-172 | apart from its comments and hunk, a built thread is the node's skeleton |
| FetchProperties.ProcessNodesFrames | github_graphql.go:137-206 | a successful page appends the kept threads, in order, to those already fetched |
| FetchProperties.ContinuedIdsMembers | github_graphql.go:137-194 | the threads continued are exactly the kept ones with a next comment page |
| FetchProperties.ProcessNodesAsksForKept | github_graphql.go:137-203 | a dropped thread never triggers a continuation query |
| FetchProperties.ProcessNodesThreadsCursors | github_graphql.go:137-206 | processing a page asks no review-threads query |
| FetchProperties.DrainThreadsRun | github_graphql.go:120-212 | a successful fetch consumed a complete run of thread pages; the threads are the kept ones of all pages in order; the thread queries carry the chained cursors |
| FetchProperties.DrainThreadsAnswered | github_graphql.go:120-212 | an answered thread page is processed and, on success with a next page, fetching goes on from its end cursor |
| FetchProperties.DrainThreadsIncomplete | github_graphql.go:131-211 | without a complete run of thread pages, the fetch fails |
| FetchProperties.ProcessNodesNeedsComments | github_graphql.go:137-206 | a page of threads is processed only if the comment script holds one complete run per kept thread announcing more comments, and exactly those runs are consumed; otherwise the continuation failure stops it |
| FetchProperties.DrainThreadsNeedsComments | github_graphql.go:120-212 | a fetch of threads succeeds only with a complete run of thread pages and one complete comment run per kept thread over all of them that announces more comments, which it consumes |
| FetchProperties.FetchedThreads | github_graphql.go:137-206 | the threads a run of nodes yields: one fetched thread per kept node, so as many as the kept nodes |
| FetchProperties.RunsCons | github_graphql.go:137-206 | the continuation runs a list of nodes needs are those of its first node followed by those of the rest |
| FetchProperties.FetchedThreadsAppend | github_graphql.go:120-212 | the threads of two lists of nodes are those of the first, then those of the second read from the comment responses the first leaves |
| FetchProperties.FetchedThreadsAt | github_graphql.go:137-206 | the i-th node, when kept, yields the thread at the position of the kept nodes before it, with its first page's comments and then the next comment run left by the continued threads before it |
| FetchProperties.ProcessNodesSucceeds | github_graphql.go:137-206 | with one complete comment run per kept thread announcing more, processing a page succeeds, appends the fetched threads in order, and consumes exactly those runs |
| FetchProperties.DrainThreadsSucceeds | github_graphql.go:120-212 | with a complete run of thread pages and the comment runs its kept threads need, the fetch of threads succeeds and returns their fetched threads in page order |
| FetchProperties.NeedsCommentsCombine | github_graphql.go:120-212 | the comment runs of a thread page followed by those of the rest of the run are the runs of the whole run |
| FetchProperties.ContinuedCountAppend | github_graphql.go:194-203 | the threads to continue of two node lists in a row add up |
| FetchProperties.DrainThreadsAsksNoGeneral | github_graphql.go:73-215 | the thread fetch only extends the log, and with no general-comments query |
| FetchProperties.AsksNoGeneralChain | github_graphql.go:73-215 | asking no general-comments query is preserved across consecutive steps |
| FetchProperties.MakeGeneralsAppend | github_graphql.go:337-346 | converting two pages is converting each |
| FetchProperties.DrainGeneralRun | github_graphql.go:293-355 | over a complete run, the general comments are every page's nodes in order, with one query per page and the chained cursors |
| FetchProperties.DrainGeneralAnswered | github_graphql.go:316-352 | an answered general page is appended and, while it announces a next page, fetching goes on from its end cursor |
| FetchProperties.DrainGeneralIncomplete | github_graphql.go:331-351 | without a complete run of general pages, the fetch fails |
| FetchProperties.FetchAllSucceeds | github_graphql.go:45-70 | success means complete runs of thread, comment and (when requested) general pages were read; the threads are the fetched threads of the kept nodes of every page, with all their comments and the first comment's hunk, and the general comments are all general nodes when requested |
| FetchProperties.FetchAllAnswered | github_graphql.go:45-70 | when the thread, comment and (if requested) general scripts hold the complete runs the fetch reads, it succeeds with the fetched threads of every page and all general nodes when requested, none otherwise |
| FetchProperties.FetchAllFailsExactly | github_graphql.go:45-70 | the fetch fails exactly when the thread pages, the comment pages of the continued threads or the requested general pages fall short of complete runs |
| FetchProperties.FetchAllThreads | github_graphql.go:45-61 | when the whole fetch succeeds, a complete run of thread pages was consumed, and apart from their comments and hunks the threads are the kept ones of every page, in order |
| FetchProperties.FetchAllGeneral | github_graphql.go:62-67 | when general comments are requested and the fetch succeeds, they are all general nodes of a complete run, in order |
| FetchProperties.FetchAllFails | github_graphql.go:45-70 | a failed or missing response to any query aborts the fetch with no threads and no general comments: thread pages without a complete run, comment pages without one complete run per kept thread that announces more comments, or, when requested, general pages without a complete run |
| FetchProperties.FetchAllWithoutGeneral | github_graphql.go:62-67 | without IncludeGeneral, no general-comments query is ever asked |

## Left out

- HTTP and authentication: `FetchPRComments`, `NewGitHubClient`, `NewGitHubGraphQLClient`, the `GITHUB_TOKEN` variable, oauth2 and `context.Context`. These are network and environment I/O.
- The githubv4 query structs and `c.client.Query`: replaced by `PageSource.Server`, a script of responses per query kind. A query asked after its script has run out fails with "no response"; the real server would answer.
- The owner, repository and pull-request number: they only fill query variables and error messages, so the fetch functions and `GenerateSummary` do not take them.
- The error messages: a fetch error is modelled by which query failed (`ThreadsFailed`, `ThreadCommentsFailed` with the thread ID, `GeneralFailed`) plus the server's message, not by the wrapped text.
- The `*ReviewThread` and `*[]ReviewThread` parameters: modelled as values passed in and returned, so aliasing between callers is not modelled.
- Timestamps: `CreatedAt.Format(...)` and `time.Time` are opaque strings taken from the node.
- All rendering: `FormatComments*`, `formatJSON*`, `formatHuman*`, `formatClaude*`, `writeDiffSnippet` and `formatLineInfo` are string templating.
- main.go: flag parsing, argument checks, usage text and `os.Exit`.
- The regular expression engine: the header pattern `@@\s+-(\d+)(?:,(\d+))?\s+\+(\d+)(?:,(\d+))?\s+@@` is written out as a list of elements (a literal character, a whitespace run, a digit group, an optional `,count` group). Each element is matched greedily without backtracking, which gives the same matches for this pattern, and the match is searched for at every position of line 0.
- DiffHunk.ParseDiffHunk: `strconv.Atoi` errors and 64-bit overflow are not modelled; a digit run is an unbounded natural number.
- DiffHunk.ParseDiffHunk: the `len(lines) == 0` check at github.go:66-68 can never fire, because splitting always gives at least one piece; the model has no such branch.
- Correlator.GenerateContext: its `diffInfo` parameter is unused by the source and is not taken.
- Text.ToUpper: Unicode case mapping is modelled only for ASCII letters and the dotless ı (U+0131). Other characters whose upper case is an ASCII letter (such as ſ, U+017F, whose upper case is S) are not covered.
- Ordering.SortStrings: `sort.Strings` is not stable; the model uses the stable insertion sort. On strings the result is the same, because equal strings cannot be told apart.
- `PRComment` fields that `ParseComments` never reads (such as the commit IDs) are not part of the record.

## Findings

| source | as written | input that shows it | evidently intended | confidence | as-written member | corrected member |
|---|---|---|---|---|---|---|
| github.go:98-99, 113-131, 173-174 | each record stores `&oldLine`/`&newLine`, so after parsing every record reads the final counter value, and the match at 173-174 compares comments against that value | hunk `@@ -1 +1 @@`, `+a`, `+b` with a RIGHT comment on line 1: the records read 3, so no record matches; the comment gets empty content, "Context line" and the fallback type | each record keeps the line number it was made at, so the comment is placed on record "a" and described as "New line 1 added" | high; not executed | Correlator.AsWrittenMissesRecordedLine | Correlator.IntendedCorrelationOnNewLine |

`Correlator.ParseComments` follows the code as written: it correlates through
`Correlator.CorrelateComment`, `Correlator.FirstMatch` and the loop
`Correlator.FindCommentedRecord`, which use the aliased reads, and
`Correlator.ExampleCommentOnAddedLine` shows its outcome on the example row. The fix is
`Correlator.ParseCommentsIntended`: it correlates through `Correlator.CorrelateIntended`,
`Correlator.FirstIntendedMatch` and the loop `Correlator.FindIntendedRecord`, and
`Correlator.ExampleIntendedCommentOnAddedLine` works the example row through it.
