# Verified model of daily-epub

daily-epub ingests feeds through Miniflux, clusters duplicate stories, enriches them with
comment threads, renders an EPUB and publishes it, and learns from ratings. This project
models the parts of it where state, text scanning or bounds interact, and proves what they
promise. Everything is a statement over all inputs, all runs or all reachable states.

| files | what they model |
|---|---|
| `Html`, `HtmlTags`, `Attributes`, `TagAttributes`, `Entities`, `References` | the markup scanner and printer of `src/html.rs`; the three escapers, two cursor decoders and two `replace` chains of the crate |
| `CommentText`, `CommentForest`, `ChapterLimits`, `ChapterOrder`, `CommentSources`, `CommentTrails`, `Lobsters` | `src/comments.rs`: rebuilding, sorting, pruning and budgeting comment trees |
| `Dates`, `Jobs`, `Commands`, `Protocol`, `RunLock` | `src/jobs.rs`, `src/lock.rs` and the lock and job paths of `src/main.rs`, as interleaved steps of processes that may die at any point |
| `Dedupe`, `Canonical` | `src/dedupe.rs`: clustering through two indexes, and URL canonicalization |
| `Bookorbit`, `AtomAttributes`, `BookorbitFeed` | `src/bookorbit.rs`: scanning an Atom feed by hand |
| `Ratings`, `Stamps`, `Imports` | the append-only rating log of `src/db.rs`, the order of its printed timestamps, and the draining import queue of `src/imports.rs` |
| `FeedGuesses`, `Discovery`, `DiscoveryRuns` | `src/discovery.rs`: the host memo and the candidate table over many runs |
| `Interests` | the hash join and the weights of `src/interests.rs` |
| `Publish`, `PublishNames`, `IssueFiles` | names, retention sweeps and the OPDS scan of `src/publish.rs` |
| `Miniflux` | the paging loop of `src/miniflux.rs` |
| `Text`, `Sorting` | strings, stable sorting and filtering |

Loops and updates of the source are methods and classes, each proved against a
specification function; the theorems are lemmas about those functions. What an operation
computes is also told without its specification function: in terms of the text, the points,
the dates or the names that go in (`HtmlTags`, `ChapterOrder`, `CommentTrails`, `IssueFiles`).

Conventions: text is `seq<char>`, with byte lengths computed in UTF-8 where the source
counts bytes; whitespace is a concrete set of characters that excludes `< > / " ' & = ;`;
SQL tables are sequences whose position is the id, or maps by key; `f64` is `real`;
timestamps are `int`, in `Ratings` and `Imports` the place of their text among all texts; `sort_by` and `sort_by_key` are stable sorts.

## Where the code and its promises differ

- `to_xhtml` promises markup that parses as XML. An end tag of a void element gains a slash
  (`HtmlTags.EndTagsOfVoidElements`: `</br>` becomes `</br/>`), which is no XML. `Html.WhenEndTagsBreak`
  says for which texts an end tag of the output is broken. The callers (`src/epub/chapters.rs:152-157`,
  `src/epub/chapters.rs:335`, `src/comments.rs:608`) pass what a sanitizer has serialized, which writes no such
  end tag. That the output has no other unclosed void tag and no `&nbsp;` holds on every string.
- `hn_node` says that the replies of a dead node are kept. It keeps the first live one only, so
  `total` then counts more comments than the thread holds. `CommentSources.HnKeepsAtMostLive`
  gives the exact condition under which nothing is lost.
- Equal long titles do not always share a cluster, because the URL index comes first.
  `Dedupe.TitlesShareUnlessBridged` says exactly when they do, in terms of the entries alone.
- The dashboard reads a row, asks for the state of the unit and then records a failure on a row it
  saw as `requested`. If a job run is quicker, that failure overwrites `ok`, or a failed row goes
  back to `running`. `Protocol.WhenRowsChange` says exactly when a row that is no longer
  `requested` can still change; `Protocol.SettledRowsNeverChange` and
  `Protocol.TerminalRowsNeverChange` say that otherwise it never does.
- A row whose process died while `running` stays `running` for ever, once no request of the dashboard
  that saw it `requested` is under way (`Protocol.OrphansStay`, `Protocol.SettledRowsNeverChange`).
- Jobs that take no lock can be claimed twice, each of them: `Protocol.ClaimedOnceExactlyWithLock`.
- The current verdict on an article is the event of the highest printed timestamp. Text order is
  the order of time except within one second (`Stamps.TextOrder`), and an event that is recorded
  last decides only if none carries a later timestamp (`Ratings.WhenLatestIsLast`).
- A canonical URL is not always canonical: the hop limit and a trimmed trailing slash can
  leave a redirector behind (`Canonical.CanonicalTwice`, `Canonical.WhyARedirector`).
- `ellipsize_html` adds the ellipsis behind as many characters as the limit allows, so that 1201
  may show where the constant says 1200. `CommentText.EllipsizedIsShort` says when: the text is
  cut, the last kept character is no space, and no space stands past the three-quarter mark.

## Model

| member | source | states |
|---|---|---|
| Html.TagEnd | src/html.rs:27-43 | the quote-aware cursor finds the end of the tag that starts at the cursor, or none if it is not terminated |
| Html.WriteXhtml | src/html.rs:218-244 | the cursor loop computes the scan of the whole text, closed tag by tag and with `&nbsp;` replaced |
| Html.ScanIsLossless | src/html.rs:218-240 | the pieces of a scan, joined, are the text: nothing is dropped |
| Html.RescanClosed | src/html.rs:218-240 | scanning the closed markup again finds the same pieces, each tag closed |
| Html.SecondScanFindsTheSamePieces | src/html.rs:218-244 | a scan of the final output finds the same pieces in the same order, with void tags closed and `&nbsp;` numeric |
| HtmlTags.OnlySlashesAreInserted | src/html.rs:218-244 | every piece of the output is the piece of the input with `&nbsp;` numeric, or, for an open void tag, that tag with one slash inserted before its last `>` and the whitespace there gone; attributes and quotes stay |
| HtmlTags.TagIsWritten | src/html.rs:219-241 | for any name, slashes in front and attributes behind: a void name in any case is closed behind its last attribute, unless a slash stands there, and any other tag is copied; the text goes on behind it |
| HtmlTags.WrittenTagIsClosed | src/html.rs:27-43 | a `>` or the other quote inside a quoted value does not end the tag |
| HtmlTags.TextIsWritten | src/html.rs:220-222 | text up to the next `<` is copied, with `&nbsp;` numeric |
| HtmlTags.CommentIsWritten | src/html.rs:29-31 | a comment is copied up to its first `-->`, whatever tags it holds |
| HtmlTags.DeclarationIsWritten | src/html.rs:32-42 | a `<!` that opens no comment is copied as a tag, up to its first `>` outside quotes |
| HtmlTags.VoidIsListed | src/html.rs:16-21 | the void elements are those of the list |
| Html.OutputIsClean | src/html.rs:216-244 | in the output every terminated void tag is self-closed and no `&nbsp;` remains |
| Html.UnchangedExactlyWhenClean | src/html.rs:216-244 | a text is left alone if and only if it has no unclosed void tag and no `&nbsp;` |
| Html.ToXhtmlIsIdempotent | src/html.rs:218-244 | a second pass changes nothing, on every string |
| Html.WhenEndTagsBreak | src/html.rs:216-244 | the output has an end tag with a slash before its `>` if and only if the input has one, or has an end tag of a void element that lacks it |
| HtmlTags.EndTagsOfVoidElements | src/html.rs:232-235 | the end tag of every void element gains a slash |
| Attributes.ParseAttrs | src/html.rs:60-110 | the cursor parser ends on every input, never indexes out of range and computes the pairs of the tag body |
| TagAttributes.PrintedAttrsParseBack | src/html.rs:60-110 | a name and ` key="escaped value"` pairs parse back to exactly those pairs, in order, for all values and all keys that can be keys |
| TagAttributes.WrittenAttrsAreRead | src/html.rs:60-110 | attributes in either quote, without quotes or without a value, in any case and with any blanks, are read in order, keys in lower case and values decoded |
| TagAttributes.UnclosedQuote | src/html.rs:92-99 | a quote that is not closed lends its attribute all that is left |
| Entities.Escaper.Push | src/html.rs:184-210 | pushing character by character escapes the whole string |
| Entities.EscapedIsInert | src/html.rs:184-210 | escaped text holds no markup delimiter, and no quote that the escaper covers |
| Entities.Decode | src/html.rs:116-167 | the cursor decoder is the left-to-right entity decoder |
| Entities.DecodeUndoesEscape | src/html.rs:116-167 | decoding undoes every escaper, on every string |
| References.ReferenceDecodes | src/html.rs:116-167 | `&#39;`, `&#039;`, `&#x27;` and every other reference to a character decode to it if they end within twelve bytes; longer ones and those to no character stay |
| References.NamesDecode | src/html.rs:138-147 | the named entities decode to their characters, in both decoders, `nbsp` in one |
| Entities.Unescape | src/bookorbit.rs:293-317 | the cursor decoder of the Atom scanner is a left-to-right decoder that copies unknown entities |
| Entities.UnescapeUndoesEscape | src/bookorbit.rs:293-317 | it undoes every escaper, `publish::xml_escape` among them |
| References.ReferenceUnescapes | src/bookorbit.rs:319-338 | every reference to a character, decimal or hexadecimal and with leading zeros or without, stands for that character; one to anything else is copied |
| Entities.ChainIsOnePass | src/interests.rs:96-107 | a chain of `replace` calls over a well-ordered table is one left-to-right decoder over that table |
| Entities.ChainsAgree | src/discovery.rs:451-458 | both `replace` chains are such decoders, and they agree on every string though their orders differ |
| Entities.ChainsUndoEscape | src/interests.rs:96-107 | each chain undoes every escaper, because `&amp;` comes last |
| CommentText.RemoveTags | src/comments.rs:422-433 | the tag-stripping loop keeps exactly what stands outside angle brackets |
| CommentText.TagsAreRemoved | src/comments.rs:422-433 | a tag goes up to its first `>`, an unclosed one to the end, and a stray `>` goes too; the text around stays |
| CommentText.StrippedIsNormal | src/comments.rs:422-437 | stripped text has single spaces between words and none at its ends |
| CommentText.UnescapeUndoesTextEscape | src/comments.rs:411-419 | the chain that also deletes `&#x200B;` undoes `text_escape` on every string |
| CommentText.ChainDecodes | src/comments.rs:411-419 | each of the seven entities stands for its text, the zero-width space for nothing |
| CommentText.VisibleTextOfCut | src/comments.rs:440-453 | the visible text of a cut body is the kept text and the ellipsis |
| CommentText.CutKeeps | src/comments.rs:440-453 | the kept text is that up to the last space within the limit, if that lies past three quarters of it or is its last character, and otherwise all the limit allows |
| CommentText.EllipsizedIsShort | src/comments.rs:440-453 | at most the limit and one character are visible, and that one if and only if the text is cut behind a character that is no space, with no space past the three-quarter mark |
| CommentText.EllipsizeIsIdempotent | src/comments.rs:440-453 | cutting twice is cutting once |
| CommentText.EllipsizeKeepsNonEmpty | src/comments.rs:440-453 | only an empty body is cut to an empty body |
| CommentForest.ByPoints | src/comments.rs:362-365 | siblings come by falling points, those of equal points as the platform sent them, and none is lost |
| CommentForest.TrimToBudget | src/comments.rs:494-506 | the loop over siblings with its threaded budget is the trimming of the forest |
| CommentForest.TrimConserves | src/comments.rs:494-506 | kept words and remaining budget add up to the budget, and every level keeps a prefix of its siblings |
| CommentForest.TrimKeepsWhatFits | src/comments.rs:494-506 | a forest is unchanged if and only if it fits |
| CommentForest.TrimStopsOnlyWhenFull | src/comments.rs:493-506 | the first dropped comment of a level costs more than what is left at the end |
| ChapterOrder.TrimIs | src/comments.rs:493-506 | a forest is what the budget keeps if and only if each level keeps a prefix, all of it fits, and a level ends early only where the next comment does not fit behind what is rendered before it |
| CommentForest.TrimIsIdempotent | src/comments.rs:494-506 | trimming twice is trimming once |
| CommentForest.EnforceChapterBudget | src/comments.rs:509-515 | the loop over threads shares one budget and drops the threads it empties |
| ChapterOrder.ThreadGetsWhatIsLeft | src/comments.rs:509-515 | each thread is trimmed to what the threads before it have left |
| CommentForest.ChapterBudgetHolds | src/comments.rs:508-515 | any set of threads ends at 4000 words or fewer and without an empty thread; what fits is untouched; enforcing twice is enforcing once |
| ChapterLimits.PruneDropsOnlyEmpty | src/comments.rs:475-491 | pruning keeps the author, points and cut body of each comment in place, when no body is empty |
| ChapterOrder.PruneKeepsTheLeading | src/comments.rs:459-491 | of the roots the eight with the most points are kept, ties to the one sent first, of the replies to each the four, on three levels; of those the ones with a body, each with its author, points, depth and cut body |
| ChapterOrder.TruncateIs | src/comments.rs:459-473 | `truncate` keeps of these leading comments what fits 4000 words in render order |
| ChapterLimits.TruncateHoldsTheLimits | src/comments.rs:459-491 | at most 8 roots, 4 children, 3 levels, 168 comments, 4000 words and 1201 visible characters each; siblings by falling points; `depth` is the structural depth |
| ChapterLimits.TruncateFixesExactlyTheLimits | src/comments.rs:459-491 | a forest is left alone if and only if it is within all limits |
| ChapterLimits.TruncateIsIdempotent | src/comments.rs:459-491 | truncating twice is truncating once |
| ChapterLimits.ChapterOfOneThread | src/comments.rs:114-133 | the chapter budget does not cut a lone thread that was truncated before |
| CommentSources.ReadHnNode | src/comments.rs:185-209 | the recursive reader builds the comment and adds the live nodes to the threaded counter |
| CommentSources.HnYields | src/comments.rs:185-209 | a node yields a comment if and only if something in its subtree is alive |
| CommentSources.HnKeepsAtMostLive | src/comments.rs:185-209 | the forest never holds more than the live nodes, and all of them if and only if no dead node has two live replies |
| CommentSources.DeadNodeLosesReplies | src/comments.rs:197-200 | a dead node with two live replies loses one |
| CommentTrails.HnTellsWhoSaidWhat | src/comments.rs:185-209 | each comment has the author, points, cleaned text and depth of a live node of its own and hangs below the comments of the live nodes above that, siblings by falling points; all live nodes are there if and only if no dead one has two live replies |
| CommentSources.ReadRedditNode | src/comments.rs:320-360 | the reader's counter equals the size of what it builds |
| CommentTrails.RedditTellsWhoSaidWhat | src/comments.rs:320-360 | the comments are exactly the nodes with a body and an author who is not deleted, each below its parent, with their author, score, cleaned body and depth |
| Lobsters.Step | src/comments.rs:253-270 | one turn of the loop places a comment at the end of the branch its depth names, or at the top |
| Lobsters.BuildForest | src/comments.rs:221-271 | the loop over the flat list is the rebuilding, and `total` counts the comments with a body |
| Lobsters.ItemLands | src/comments.rs:221-271 | an item of indent n lands at level n - 1 if the comment read last sits at level n - 2 or deeper, and else at the top, with its author or `someone`, its score and its cleaned text |
| Lobsters.SilentItem | src/comments.rs:227-234 | an item without text is passed over |
| Lobsters.PlaceKeepsSpine | src/comments.rs:253-270 | `path` is always the rightmost spine of the forest |
| Lobsters.RebuildFlattens | src/comments.rs:221-271 | read in preorder, the forest is the list as it came, each comment at its declared depth or at the top |
| Lobsters.NothingIsLost | src/comments.rs:221-271 | no comment with a body is lost, invented or moved |
| Lobsters.LandAtDeclaredDepth | src/comments.rs:253-270 | every comment lands at its declared depth if and only if the list is well nested |
| Lobsters.RebuildUndoesPreorder | src/comments.rs:221-271 | flattening a forest and rebuilding it gives the forest back |
| Lobsters.PreorderUndoesRebuild | src/comments.rs:221-271 | rebuilding a well-nested list and flattening it gives the list back |
| Jobs.NameRoundTrip | src/jobs.rs:66-109 | a job's name is a legal name that parses to that job, dated jobs of every year included |
| Jobs.ParseRoundTrip | src/jobs.rs:75-109 | a name that parses is the name of what it parses to |
| Commands.JobTakesItsCommandsLock | src/main.rs:467-491 | `job run` takes the lock of the command the job maps to, and none for an unknown name |
| Jobs.NewestRequested | src/jobs.rs:267-275 | the query finds the requested row of the job with the highest id, or there is none |
| Jobs.JobStore.InsertRequested | src/jobs.rs:246-263 | the new row is the one the next claim of its job takes, and what other jobs are offered stays |
| Jobs.JobStore.Claim | src/jobs.rs:267-285 | the newest requested row, or a fresh one, is flipped to running; no other row changes, and the row is offered to no one again |
| Jobs.JobStore.Finish | src/jobs.rs:304-324 | the row is not offered any more, every other offer stands, and the row has its result whatever it was before |
| RunLock.Machine.Acquire | src/lock.rs:40-74 | the caller becomes the owner of a file that holds its name, or is refused with the name in the file; both are paths of the protocol |
| RunLock.Machine.RunJob | src/main.rs:1131-1155 | a job run claims the newest requested row of its job or its own, finishes that row, and touches no other |
| Protocol.InvStep | src/lock.rs:40-74 | every step of every process, crashes included, keeps the invariant of lock, lock file and job table |
| Protocol.RunKeepsInv | src/main.rs:371-377 | so it holds in every state of every run |
| Protocol.OneWriterAtATime | src/lock.rs:40-74 | at most one live process is past `acquire`, and it is the kernel's owner |
| Protocol.ClaimsAreExclusive | src/jobs.rs:267-285 | a row of a lock-taking job is claimed by at most one process ever; while it is running, that process holds the lock and works on it, or is dead |
| Protocol.HistoryGrows | src/jobs.rs:246-324 | rows are never deleted or given to another job, and claims are only added |
| Protocol.SettledRowsNeverChange | src/jobs.rs:267-324 | a row that is no longer `requested` and cannot change in the next step never changes again |
| Protocol.WhenRowsChange | src/web/dashboard/jobs.rs:325-364 | a row that is no longer `requested` can change in the next step if and only if a process has it in its hands, or a request of the dashboard that saw it `requested` is under way and the row has not failed yet |
| Protocol.TerminalRowsNeverChange | src/jobs.rs:304-324 | a terminal row of a lock-taking job never changes, unless the dashboard records a failure on it |
| Protocol.OrphansStay | src/jobs.rs:267-285 | a running row whose process has died can change only through a request of the dashboard that is still under way |
| Protocol.RefusalNamesAHolder | src/lock.rs:60-68 | a refusal names the default for an empty file, otherwise the last process that wrote its name, which is the current holder once that has written |
| Protocol.BlockedByTheOwner | src/lock.rs:58-70 | a process is blocked if and only if another one holds the lock |
| Protocol.LocklessJobsShareARow | src/jobs.rs:144-152 | for every job without a lock, two runs can both claim one row |
| Protocol.ClaimedOnceExactlyWithLock | src/jobs.rs:144-152 | in every run each row of a job is claimed once at most, if and only if the job takes the lock |
| Protocol.DashboardCanReviveARow | src/web/dashboard/jobs.rs:345-364 | a row of any lock-taking job that the dashboard has failed can go back to running |
| Dedupe.Cluster | src/dedupe.rs:287-351 | the loop with its two maps files every entry in the cluster of the first earlier entry with its URL, else with its long title |
| Dedupe.SizesAddUp | src/dedupe.rs:287-351 | entries in are the dropped ones and the sum of the cluster sizes |
| Dedupe.MembersAreAssigned | src/dedupe.rs:287-351 | a cluster holds exactly the kept entries assigned to it |
| Dedupe.ClustersAreNonEmpty | src/dedupe.rs:335-345 | no cluster is empty |
| Dedupe.SameUrlSameCluster | src/dedupe.rs:304-333 | entries of equal canonical URL share a cluster |
| Dedupe.ChainBetween | src/dedupe.rs:304-333 | any two entries of a cluster are joined inside it by a chain, each link sharing a URL or a long title |
| Dedupe.TitlesShareUnlessBridged | src/dedupe.rs:304-333 | equal long titles always share a cluster if and only if, for every entry that comes after one of its URL and one of its title, the first such two are joined by a chain of linked entries all before it |
| Dedupe.TitleLosesToUrl | src/dedupe.rs:304-333 | any three such entries part a title |
| Dedupe.Best | src/dedupe.rs:356-362 | the richest body wins, ties to the lowest id |
| Dedupe.FirstSeen | src/dedupe.rs:364-369 | the earliest publication or fetch time of any member |
| Dedupe.SourceIds | src/dedupe.rs:372-377 | the sources are those of the members, in increasing id order and once each |
| Dedupe.ArticleIsOfTheRichest | src/dedupe.rs:354-377 | the article of a cluster has the URL, id and words of its richest entry, ties to the lowest id, the earliest time of any, and the ids of all, ascending and once each |
| Dedupe.ArticleUrlsAreDistinct | src/dedupe.rs:335-362 | no two articles of a run have the same canonical URL |
| Canonical.Canonicalize | src/dedupe.rs:49-103 | the recursion ends by the redirect depth and computes the canonical URL; a redirector whose target is no web URL stands for itself |
| Canonical.CleanInPlace | src/dedupe.rs:69-97 | the edits in place yield the URL without fragment, tracking parameters and trailing slashes, and with a lower-case host |
| Canonical.CanonicalIsCleanedEnd | src/dedupe.rs:49-103 | the canonical URL is the clean form of the URL at which the hops end, at most three of them |
| Canonical.ResultIsClean | src/dedupe.rs:39-47 | a canonical URL reads back as a web URL without fragment, tracking parameter or trailing slash |
| Canonical.ResultKeeps | src/dedupe.rs:69-103 | it keeps scheme, login, host but for case, path but for slashes at its end, and all parameters that are no tracking ones, in order, of the URL at which the hops end |
| Canonical.OnlyWebUrls | src/dedupe.rs:49-58 | only an absolute http or https URL with a host has a canonical URL, and blanks around it do not matter |
| Canonical.SameCanonical | src/dedupe.rs:39-47 | two URLs share their canonical URL if and only if their hops end at URLs with the same clean form |
| Canonical.CanonicalTwice | src/dedupe.rs:49-103 | canonicalizing a result changes nothing if and only if it is no redirector, or one whose hops lead back to it |
| Canonical.CleanKeepsTarget | src/dedupe.rs:105-133 | cleaning keeps the redirect target unless it trims a path that matters |
| Canonical.ScourIsFollowed | src/dedupe.rs:111-124 | a Scour link is canonicalized as the target encoded in its path |
| Canonical.GoogleIsFollowed | src/dedupe.rs:125-133 | a Google redirect is canonicalized as its first `url` or `q` parameter |
| Canonical.OthersStand | src/dedupe.rs:111-129 | no other host redirects |
| Canonical.WhyARedirector | src/dedupe.rs:60-66 | a result is a redirector only when three hops were used up or a trimmed slash made it one |
| Canonical.SlashHidesARedirector | src/dedupe.rs:94-133 | `https://google.com/url/?q=T` is kept, but its canonical URL canonicalizes to that of `T` |
| Bookorbit.FindOpenTag | src/bookorbit.rs:164-179 | the cursor finds the first tag of that name, not of a longer name |
| Bookorbit.CollectEntries | src/bookorbit.rs:135-153 | the loop collects the bodies of the entries up to one that is cut off |
| Bookorbit.ReadAttribute | src/bookorbit.rs:212-265 | the cursor loop finds the raw value of the first attribute of that name, and gives up on a value without closed quotes |
| AtomAttributes.WrittenAttributes | src/bookorbit.rs:212-265 | among attributes in either quote or without a value the lookup finds the first of that name that has one |
| AtomAttributes.BadValueEndsTheSearch | src/bookorbit.rs:240-256 | a value without quotes, or whose quote is not closed, ends the search |
| Bookorbit.ReadAcquisitionIds | src/bookorbit.rs:181-210 | the loop returns the ids of the first acquisition link whose address is one, and an error if there are only others |
| Bookorbit.SelectIssueEntry | src/bookorbit.rs:94-126 | the loop over the entries selects the issue's book, or the fallback, or reports no feed |
| BookorbitFeed.PrintedAttributes | src/bookorbit.rs:212-265 | among printed attributes in any order the lookup finds the first of that name |
| BookorbitFeed.SimpleElementIsOther | src/bookorbit.rs:155-179 | other simple elements between the ones looked for do not disturb the scan |
| BookorbitFeed.LinksAreRead | src/bookorbit.rs:181-210 | the scan of printed links finds what they offer |
| BookorbitFeed.EntriesAreFound | src/bookorbit.rs:135-153 | the scan of a printed feed finds exactly its entries |
| BookorbitFeed.SelectionMatches | src/bookorbit.rs:94-126 | the selection is the first entry of the issue title, else the first of the fallback title, wherever it stands, X4 entries aside |
| BookorbitFeed.PrintedFeedIsRead | src/bookorbit.rs:94-126 | for any printed feed with escaped titles and quoted attributes in any order, the scan gives the ids of that entry |
| BookorbitFeed.DecimalReadsBack | src/bookorbit.rs:267-290 | a printed decimal id reads back |
| BookorbitFeed.HrefReadsBack | src/bookorbit.rs:267-290 | a download address gives its two ids back, with or without further parameters |
| BookorbitFeed.HrefIs | src/bookorbit.rs:267-290 | an address gives two ids if and only if it is a download's with these ids, followed by nothing or by parameters none of which is empty |
| Ratings.RankedFirstLeads | src/db.rs:760-770 | the event of rank 1 ranks before every other candidate, by timestamp text and then by id, and is missing only if there is none |
| Ratings.LookbackCommutesWithRanking | src/db.rs:751-792 | filtering by age before ranking equals ranking first; what is shown is the current verdict; a cleared one hides its article and brings no older one back |
| Ratings.RatingDb.AppendRatingEvent | src/db.rs:668-686 | the log only grows; an explicit event becomes the verdict on its article if and only if none there carries a later timestamp, and changes no other verdict |
| Ratings.WhenLatestIsLast | src/db.rs:751-792 | the verdict on an article is the event recorded last if and only if none of its events carries a later timestamp |
| Stamps.TextOrder | src/db.rs:914-916 | printed timestamps sort as their moments, except within one second when one fraction continues the other: then the later sorts first |
| Ratings.SlopFollowsTheVerdict | src/db.rs:724-749 | after any explicit event an author is penalized if and only if `slop` is the verdict on one of his articles, the event being that of its own article unless another carries a later timestamp |
| Imports.Process | src/imports.rs:182-245 | one row is finished, keeps its request, and no other row changes |
| Imports.RowIsImported | src/imports.rs:182-245 | a row is imported if and only if its URL has a canonical form that is known or readable and its label is one of the four verdicts: as the article of that URL, or a new one, with one event; otherwise it fails and the log stays |
| Imports.Importer.Run | src/imports.rs:274-337 | the run in batches of twenty, with its counters, is the run one row at a time, lowest id first, also when rows are queued meanwhile |
| Imports.DrainFinishesEveryRow | src/imports.rs:274-337 | nothing is left pending; imported = created + existing = rating events appended; finished rows stay |
| Imports.DrainFinishesThePending | src/imports.rs:274-337 | a run finishes each pending row, those queued while it runs included, and no other |
| Imports.DrainImportsWhatItCan | src/imports.rs:274-337 | whether a row of a run is imported, and as which article, does not depend on the other rows; the log grows by exactly the events of the imported rows, in their order; `created` counts the first imports of unknown URLs |
| Imports.DrainGoesInOrder | src/imports.rs:87-97 | it goes in increasing id order, so it finishes none twice |
| Imports.LastRowDecides | src/rate.rs:21-47 | afterwards the last event of every touched article is that of its highest imported row, and it is the verdict if and only if none carries a later timestamp; no other verdict has changed |
| Imports.LastRowDecidesBySteadyClock | src/imports.rs:274-337 | with a clock that does not run backwards the verdict on every touched article is that of its highest imported row |
| FeedGuesses.DedupeGuesses | src/discovery.rs:495-518 | the loop with two parallel vectors keeps, for each title, its first XML feed or else its first feed, then the first guess, three at most |
| FeedGuesses.WhatIsProposed | src/discovery.rs:488-518 | never two of one title, never two guesses, a JSON feed only if its title has no XML feed |
| FeedGuesses.NothingIsMissed | src/discovery.rs:488-518 | unless there are three proposals, no title and no guess is missed |
| Discovery.FeedDb.UpsertCandidate | src/discovery.rs:141-165 | a new row is undecided; an old one keeps its decision, its title and when it was first seen |
| Discovery.FeedDb.MarkHostChecked | src/discovery.rs:115-127 | the host is fresh for the next 90 days and no longer, whenever it was looked up before; other hosts are as fresh as they were |
| Discovery.FeedDb.ReconcileAdded | src/discovery.rs:310-342 | exactly the undecided candidates become `added` whose URL, but for case, blanks and slashes at its end, or whose host is that of a subscribed feed |
| Discovery.FeedDb.Run | src/discovery.rs:585-719 | the pass is: reconcile, group, drop fresh hosts, sort, truncate, write the answers |
| DiscoveryRuns.GroupedIs | src/discovery.rs:611-637 | one entry a host, each of a lead, and no lead of the host scores higher |
| DiscoveryRuns.LeadIs | src/discovery.rs:363-376 | a lead came through aggregators only, its host is not subscribed, and no entry of the skip list names that host or one above it |
| DiscoveryRuns.QueueIs | src/discovery.rs:640-664 | the queue is within the limit and holds each host once, all of leads without a fresh memo |
| DiscoveryRuns.QueueIsBestFirst | src/discovery.rs:663-664 | no host is passed over for one that scores less |
| DiscoveryRuns.AnswersAreRecorded | src/discovery.rs:684-717 | the memo and the history take up exactly the hosts that answered; one that could not be reached leaves no trace |
| DiscoveryRuns.ProposalsAreKept | src/discovery.rs:690-703 | every feed an answer proposes is a candidate afterwards |
| DiscoveryRuns.PassIs | src/discovery.rs:585-719 | a pass records at most `max_lookups_per_run` lookups, none of a skipped, subscribed or freshly checked host |
| DiscoveryRuns.LookupsStaySpaced | src/discovery.rs:640-719 | over any sequence of passes and decisions, two recorded lookups of one host are more than 90 days apart |
| DiscoveryRuns.DecisionsStand | src/discovery.rs:137-165 | over any sequence, a row keeps its host, first title and first sight, and its decision is the operator's last word, or the earlier one |
| Interests.Rates | src/interests.rs:454-485 | the hash join yields, for exactly the interests with a rated match of positive z, the sums of positive and negative credit and the pair count, and counts the ratings with such a match |
| Interests.JoinIsSum | src/interests.rs:455-478 | joining through the index is summing over all matches |
| Interests.CreditIsWorth | src/interests.rs:465-479 | the two sums are those of value times decay times the share of each match, which is z over 3 between 0 and 1, favourable ratings on one side and unfavourable on the other |
| Interests.WeightsAreBetween | src/interests.rs:56-61 | a weight is the favourable part of all credit after one unit is added on either side: strictly between 0 and 1, and leaning to the larger side |
| Interests.RatingAnywhere | src/interests.rs:463-484 | a rating counts the same wherever it stands in the list |
| Interests.OneMoreRating | src/interests.rs:56-61 | one more favourable rating never lowers a weight, and raises it if and only if it gives credit; an unfavourable one never raises it |
| PublishNames.NameReadsBack | src/publish.rs:81-94 | a published name gives its date, edition and extension back, for years from 0 to 9999 |
| PublishNames.NamesAreDistinct | src/publish.rs:81-83 | no two issues share a name, whatever the year |
| Dates.PrintsInOrder | src/publish.rs:81-94 | printed dates are ordered as the dates, from the year 0 on |
| Publish.Directory.Prune | src/publish.rs:556-585 | the loop removes the expired files of ours that can be removed, and counts them; the names stay distinct, so another sweep may follow |
| Publish.Directory.PruneXtc | src/publish.rs:515-554 | the sorted list without its first `keep` is removed, as far as it can be, and counted; the names stay distinct |
| Publish.AgeSweep | src/publish.rs:556-585 | an entry is left if and only if it is not a dated, regular, removable file before the cutoff; what stays keeps its order; a second sweep removes nothing |
| IssueFiles.IssueExpires | src/publish.rs:556-585 | an issue's file is removed if and only if its date, as printed, is before the cutoff and it is a regular file that can be removed |
| Publish.XtcSweep | src/publish.rs:515-554 | all but our XTC files stay, and a second sweep removes nothing |
| Publish.XtcSweepCounts | src/publish.rs:515-554 | of `n` files it leaves the smaller of `keep` and `n`, and those of the surplus that cannot be removed |
| Publish.XtcSweepKeepsNewest | src/publish.rs:542-544 | none it leaves is of an older issue than one it removes, or behind it in the same issue |
| IssueFiles.NewestXtcStays | src/publish.rs:515-554 | in names: what goes is a regular XTC file whose issue is after no issue it leaves |
| IssueFiles.ForeignFilesStay | src/publish.rs:85-94 | a file without our prefix, or without one of our extensions, is never removed by either sweep and never listed |
| Publish.RetainNewest | src/publish.rs:319-325 | the `retain` with the dates seen so far keeps the files whose date is among the first of them |
| Publish.ScanEpubDir | src/publish.rs:266-327 | the scan lists our EPUB files, sorted, up to 14 dates |
| Publish.FeedHoldsNewestIssues | src/publish.rs:309-326 | the feed is a prefix of the sorted list, and a file is in it if and only if fewer than 14 dates are newer than its own |
| IssueFiles.FeedInOrder | src/publish.rs:309-317 | the feed lists newer issues first, of one issue the standard edition first, of one edition the file written last, then by name |
| IssueFiles.IssueIsListed | src/publish.rs:309-326 | an issue's EPUB is listed if and only if fewer than 14 later dates have one |
| Miniflux.Client.EntriesSince | src/miniflux.rs:442-462 | the loop is the paging, with its requests counted |
| Miniflux.FetchesTheList | src/miniflux.rs:442-462 | against a fixed list it returns the first min(n, 200 pages) entries in order, in max(1, min(200, pages)) requests |
| Miniflux.FetchEnds | src/miniflux.rs:442-462 | whatever the server answers there are 200 requests at most, and it fails if and only if its last request does |

## Left out

- HTTP, systemd, axum, SMTP and SQL text: only the table contents that statements read and write are modelled. Failures of a statement are modelled only as a process that dies (`Protocol`) or a pass that is cut short between hosts (`Discovery`).
- `ammonia`, `url`, `jiff`, `serde_json` and the filesystem: a sanitizer, a URL library, a date parser and lists of entries are parameters. What is asked of them is written in `Canonical.Library.Faithful` and `Dates.Faithful`.
- `src/lock.rs`: a `set_len` that fails, a name that is written in parts and a lock file garbled by hand. A name that is not written at all is modelled.
- `jobs::active_for_unit` and the dashboard's refusal of duplicate starts: requested rows may appear at any time.
- PublishNames.NameReadsBack: is stated for years from 0 on; the source splits a name at fixed places, and the sign and six figures of an earlier year do not fit there.
- Stamps.TextOrder: is stated for years of four digits.
- DiscoveryRuns.LookupsStaySpaced: takes passes one after the other, which the run lock sees to.
- Ratings: an event's value, note and user, and the joins that drop an event whose article is missing.
- Imports: embeddings, two runs at once, and a database error that ends a run.
- Dedupe: which entries are no articles, normalized titles and word counts come with the entry; `build_article`'s publication time and its choice of comments link, author and category are not modelled.
- CommentSources, Lobsters: the readers start from parsed JSON, and the last sort of Lobsters' roots is left to `truncate`, which sorts them again; the thread's own fields, such as its address and the count a platform declares, are not modelled.
- `comments::unescape_entities` as a one-pass decoder: deleting `&#x200B;` can join text into a new entity, so only its inverse law on escaped text is stated.
- Discovery: article links, counters, the Miniflux feed id of an added row, ranking of candidates, and how `look_up` filters results before they are validated. A decision of the operator falls between two passes.
- Interests: rounding of floating point.
- Publish: copying, `percent_encode`, rendering of the feed, and sizes of files. Files that cannot be read are not listed.
- Miniflux: retries, and a list that changes between two requests.
- Ranking, curation, rendering of the EPUB, dashboard pages, configuration and reports.
