# gonewsd: a Dafny model of the spool, the article pipeline and the NNTP session

gonewsd keeps each newsgroup as a directory of numbered article files with a small cached summary
(`.info`: start, end, total), and serves and accepts articles over NNTP (RFC 3977). This project models
its core and proves what that core promises.

| files | what they model |
|---|---|
| `Text`, `Lines` | string helpers, splitting and joining lines, dot-stuffing |
| `PostReader`, `LineCount` | reading a POST body byte by byte; the two line counters |
| `Headers`, `ArticleFile`, `ArticleHeader`, `HeaderReading` | header look-ups and edits, parsing, writing and sending an article file, reading its header back, and when a stored article loads |
| `Spool`, `SpoolTree`, `GroupStore` | the group operations on values; the directory tree in both layouts; the `Group` object that works on it |
| `SpoolProtocol`, `CancelRace` | the same operations as concurrent threads under the shared/exclusive lock; cancels among them |
| `Search`, `Ranges`, `Wildmat`, `GroupList`, `Discovery` | Message-ID search, article ranges and LISTGROUP, wildmat, group lists, group discovery and path map |
| `Auth` | users, groups, memberships, permissions, reload |
| `NntpSession` | every command as a step from a connection's state to a new state, a reply and an effect on the spool |
| `Connection` | the connection handler as it runs: its variables as fields, its command loop |
| `SessionAnswers`, `SessionListings` | what each command is answered, told by the words sent, the permissions and the files alone, without the functions of `NntpSession` that compute it |
| `SessionInvariant`, `SessionWrites`, `SessionWalk`, `SessionLaws`, `Confinement` | what every command sequence keeps; who is logged in and who writes; walking a group with NEXT; laws between commands; what a session can learn |
| `Pipeline`, `EndToEnd` | the composed stages, from the bytes of a POST to the bytes of an ARTICLE |

Loops and objects of the server are methods and classes here; each is proved equal to a function, and
the properties are proved about those functions.

## What the model shows about the code

Some expectations turned out false of the code. Each has a lemma with the exact condition.

- **First post beside a numeric sub-directory.** `Post` sets Start to 1 on an empty group without looking
  at the number it allocated. If a directory stands where article 1 would go (in the flat layout a group
  `alt.1` below `alt`), the first article is stored as 2 and `.info` disagrees with a scan. Agreement
  holds for all sequential runs, and for all interleavings, if and only if number 1 is not taken by a
  directory (`Spool.RunsConsistent`, `SpoolProtocol.AgreementExactly`).
- **LISTGROUP lists sub-directories** whose name is a number in the range, since it only asks whether the
  path exists. Its list is the stored articles if and only if there is none (`Ranges.ListGroupExact`).
- **A body's first line** is not unstuffed when it starts with a dot, and an empty body (a lone dot) never
  completes; the round trip holds exactly otherwise (`PostReader.EncodedBodyRoundTrip`).
- **Message-ID search on an empty group** (Start 0) never ends unless some article has the Message-ID, as
  the 64-bit counter never gets below 0 (`Search.SearchStops`).
- **A crash between writing the article and saving `.info`** leaves Total one short of the articles, and
  whatever runs later keeps it exactly one short, until an operation scans. Where number 1 is free, `.info`
  agrees again if and only if a rebuild or a removal of an article that is there has run; elsewhere that
  goes for End and Total (`Spool.CrashHealsByScan`).
- **An article that POST accepted may not load**: ARTICLE answers 430 if the last From or the last
  Message-ID of its header is blank, while POST looks at the first From only and replaces no Message-ID
  that is there. It loads if and only if neither is blank (`EndToEnd.PostedComesBack`); if no continuation
  line hangs on a header that Post cuts out, that is a condition on the posted lines
  (`EndToEnd.ReadableAsPosted`; `HeaderReading.DateLeavesItsContinuation` shows why it asks for that). An accepted post
  with a blank From or Message-ID added is accepted and not readable, as long as the longer text is within
  the line limit and the size bound (`EndToEnd.AcceptedButUnreadable`), and so is a post without From
  (`EndToEnd.PostedWithoutFrom`).
- **The owner's cancel can fail**: cancel compares the canceller's From with the stored one including its
  continuation lines, which POST leaves out. It passes if and only if the two fold alike
  (`EndToEnd.OwnerMayCancel`), that is, if and only if the continuation of the stored From has no text
  (`EndToEnd.OwnerIsRefused`).
- **A cancel may remove another article** than the one it named, since search and removal are two steps
  and numbers are used again. It cannot while some article above the found number stands
  (`CancelRace.CancelRemovesFound`), and as long as the articles above stay, a cancel is safe in every
  interleaving if and only if the article it names is not the greatest (`CancelRace.SafeUnlessGreatest`,
  `CancelRace.AnotherIsRemoved`).
- **The two line counters** agree if and only if the bytes after the last LF fill whole 81-byte lines
  (`LineCount.CountersAgree`).
- **Cancel asks only for permission to post.** A session that may post to a group but not read it can
  learn from a cancel whether the group holds an article; no other command depends on what an unreadable
  group holds (`Confinement.ConfinedExactly`).
- **BODY sends a blank line first**: what it sends is read by a client as an empty line and then the body lines,
  while HEAD sends the header lines alone (`Pipeline.PartsAreReadBack`).
- **A reversed range** such as 7-5 selects the one article of its second number, cut to the group
  (`Ranges.ReversedRange`).
- **A listed group name leads back to its directory** if and only if no directory on the way has a dot in
  its name (`Discovery.DirnameInverts`).
- **The global access mode never decides anything**: a group without a record is closed under every mode,
  although the code goes on to look at the mode (`Auth.ModeNeverDecides`).

## Model

| member | source | states |
|---|---|---|
| `SpoolProtocol.StepKeepsInv` | internal/group/group.go:462-584 | Every step of a poster, canceller, rebuilder or reader keeps the invariant, whatever numbers directories take: the lock says who is inside; the stored articles lie in the set `.info` sums up, and whatever is summed up but gone has a canceller whose rebuild is pending |
| `SpoolProtocol.ExecuteInv` | internal/group/lock.go:43-75 | The invariant holds after every interleaving of any number of threads from a new group |
| `SpoolProtocol.AgreesWhenQuiet` | internal/group/group.go:649-655 | Whenever the lock is free and no canceller has a rebuild pending, `.info` has the greatest number and the count of the stored articles, and the least too unless a directory takes number 1, although removals happen outside the lock and during scans |
| `SpoolProtocol.ReadersSeeWholeInfo` | internal/group/group.go:75-109 | For every directory tree: no reader ever sees a half-written `.info`; what it reads covers all stored articles and otherwise only articles with a pending rebuild |
| `SpoolProtocol.MutualExclusion` | internal/group/lock.go:60-75 | Two threads are never both in the exclusive section, nor one there and one reading |
| `SpoolProtocol.OnlyRemovalRemoves` | internal/group/group.go:511-530 | A stored article disappears only by a removal of that number, and appears only where a poster is allocating |
| `SpoolProtocol.PostsStore` | internal/group/group.go:462-584 | In every interleaving, with `.info` there or not: between the start of a post and its end there is a step at which it stores its article, under a number that neither an article nor a directory had |
| `SpoolProtocol.RebuildsSave` | internal/group/group.go:112-193 | Nor does a removal, a rebuild or a load without `.info` end before a step at which it saves the summary of what it has scanned |
| `SpoolProtocol.LoadsRead` | internal/group/group.go:75-109 | Nor does any other load end before a step at which it reads `.info` as it is then |
| `SpoolProtocol.Begins` | internal/group/group.go:49-72 | Which of the three an operation is: a load reads if there is an `.info` and rebuilds if there is none, and a removal removes its file first and rebuilds if there was one |
| `SpoolProtocol.FirstPostDisagrees` | internal/group/group.go:568-572 | With number 1 taken by a directory, one poster alone reaches a quiet state whose `.info` has Start 1 for an article with another number |
| `SpoolProtocol.AgreementExactly` | internal/group/group.go:568-574 | The agreement of `.info` holds for all executions if and only if number 1 is not taken by a directory |
| `CancelRace.NotReused` | internal/group/group.go:511-530 | In every interleaving, a number is given away again only when no article stands above it, and never a number a directory takes |
| `CancelRace.CancelRemovesFound` | internal/nntp/server.go:1132-1150 | In every interleaving, what a cancel removes was found by a search of that thread, and while some article above it stands from the search on, it is that very article, under the Message-ID asked for, or nothing |
| `CancelRace.SafeUnlessGreatest` | internal/nntp/server.go:1132-1150 | From a quiet group: in all interleavings in which the articles above n stay, the number a cancel has found for n means that Message-ID, if and only if n is not the greatest article (one that Post may allocate: neither 0 nor a directory's number) |
| `CancelRace.AnotherIsRemoved` | internal/nntp/server.go:1132-1150 | From any quiet group, for its greatest article and any other Message-ID: a run of two cancels and posts after which a cancel removes an article under that Message-ID instead of the one it named |
| `CancelRace.FreedByRemoval` | internal/group/group.go:649-653 | A number is freed only by a removal of that number, a cancel's or another |
| `CancelRace.PostsWithoutInfo` | internal/group/group.go:462-584 | A post that begins without `.info`, undisturbed, scans first and then stores its article under the first free number above the greatest, and leaves the summary of the scan with that article counted in |
| `Spool.CountedIsSummary` | internal/group/group.go:164-170 | Counting one more article keeps start, end and total the min, max and count of the articles counted |
| `Spool.PostAllocatesSafely` | internal/group/group.go:511-530 | For any disagreement of `.info` and files, Post stores under the least free number above End and leaves every other article as it was |
| `Spool.PostKeepsConsistent` | internal/group/group.go:568-576 | Post's incremental update equals a rescan if and only if the group holds an article or number 1 is free |
| `Spool.RunsConsistent` | internal/group/group.go:112-192 | Over every sequential run of Post, DeleteArticle, BuildInfo and LoadInfo from a new group `.info` equals a fresh rescan, if and only if number 1 is not taken by a directory |
| `Spool.StartZeroIffEmpty` | internal/group/group.go:123-125 | Along every run from a new group, whatever directories there are: Start is 0 exactly when the group is empty and never above End; End and Total are always those of a rescan, and Start is too or is 1 and too low |
| `Spool.OrderIsKept` | internal/group/group.go:568-574 | No operation, and no crash, ever brings Start above End |
| `Spool.RebuildRestores` | internal/group/group.go:649-655 | A rebuild, or a removal, makes `.info` agree with the files whatever was there before |
| `Spool.CrashHealsByScan` | internal/group/group.go:558-576 | From any group whose End and Total are right, after a crash before SaveInfo and any run: End and Total are right again if and only if some operation of the run scanned at its step, and otherwise Total is exactly one short; where number 1 is free the same goes for the whole agreement |
| `SpoolTree.CountFiles` | internal/group/group.go:172-191 | The scanning loop returns the min, max and count of the numbers that are article files |
| `SpoolTree.ScanFindsFiles` | internal/group/group.go:140-191 | In both layouts the scan of the directory tree counts exactly the stored articles |
| `SpoolTree.ModNameRounds` | internal/article/article.go:45-53 | The sub-directory of an article is named by the greatest multiple of a thousand not above its number |
| `SpoolTree.MkdirKeeps` | internal/group/group.go:513-521 | Creating the thousand's sub-directory changes neither the stored articles nor what is taken |
| `SpoolTree.AddFile` | internal/group/group.go:522-529 | Creating the file of a free number adds that article to the group's view and nothing else |
| `SpoolTree.RemoveFile` | internal/group/group.go:650-653 | Removing an article's file removes that article from the view and nothing else |
| `GroupStore.Group.LoadInfo` | internal/group/group.go:49-109 | The object's numbers become those of `.info`, which is built by a scan first when missing |
| `GroupStore.Group.SaveInfo` | internal/group/group.go:196-221 | `.info` becomes the object's numbers; the articles stay |
| `GroupStore.Group.BuildInfo` | internal/group/group.go:112-193 | In both layouts the group becomes its rescanned view, saved |
| `GroupStore.Group.DeleteArticle` | internal/group/group.go:649-655 | Removes the article and rescans; fails and changes nothing when there is no such file |
| `GroupStore.Group.Post` | internal/group/group.go:462-584 | The group becomes the view with the new article at the next number and the incremental summary; without Newsgroups nothing changes |
| `GroupStore.Group.StoreArticle` | internal/group/group.go:522-576 | Stores one article and updates and saves the summary without a scan |
| `GroupStore.Group.Allocate` | internal/group/group.go:511-530 | The O_EXCL loop ends, with the least free number above End, its sub-directory in place |
| `GroupStore.PerformAll` | internal/group/group.go:462-655 | Any sequence of Post, DeleteArticle, BuildInfo and LoadInfo on a directory in either layout does to the group what that sequence does to its view; so a new group's `.info` agrees with its files, if number 1 is free |
| `GroupStore.Compose` | internal/group/group.go:532-564 | The new file is the rewritten header, a blank line and the body |
| `GroupStore.WriteArticle` | internal/group/group.go:558-564 | The writing loops produce the header lines, a blank line and the body lines, each ended by LF |
| `GroupStore.CountModDirs` | internal/group/group.go:140-171 | With MsgModDirs the nested scan sums up exactly the articles in the sub-directories |
| `PostReader.ReadPostBodyRaw` | internal/nntp/server.go:1163-1196 | For every byte stream: stops at the first LF-dot-LF of the CR-stripped stream, takes nothing after it, returns the text before with each dot after an LF removed, ending in LF, at most maxPostSize bytes, and never buffers more than one byte above that |
| `PostReader.ReadsAsUnique` | internal/nntp/server.go:1163-1196 | The outcome and the number of bytes taken are determined by the stream: the meaning used above admits no second reading |
| `PostReader.EncodedBodyRoundTrip` | internal/nntp/server.go:1163-1196 | Lines encoded as section 3.1.1 of RFC 3977 says are read back unchanged, with what follows untouched, if and only if there is a line, the first does not start with a dot, and the size is within the limit |
| `PostReader.EmptyBodyNeverCompletes` | internal/nntp/server.go:1165-1182 | A lone dot, the encoding of an empty body, is never recognised as complete |
| `LineCount.CountPostLines` | internal/nntp/server.go:1028-1043 | Equals the sum over LF-ended lines of L/81+1, plus the tail's 81-byte lines rounded up |
| `LineCount.GatewayRead` | cmd/gonewsd/main.go:301-330 | Says too long exactly when the closed-form count exceeds the limit, and otherwise returns the text without CR, each LF as CRLF |
| `LineCount.NormalisedIs` | cmd/gonewsd/main.go:318-330 | What it hands on is the input without CR, with a CR before each LF and nowhere else |
| `LineCount.CountersAgree` | internal/nntp/server.go:1028-1043 | The two counters agree if and only if the tail's length is a multiple of 81; so on every text ending in LF |
| `LineCount.SameLimit` | cmd/gonewsd/main.go:314-322 | Both doors accept the same LF-ended texts at a given limit |
| `LineCount.CountersDiffer` | cmd/gonewsd/main.go:314-318 | A text without final LF that one counts and the other does not |
| `ArticleFile.ParseArticle` | internal/group/group.go:391-423 | The header is the lines before the first blank line, the body the lines after it, of the CR-stripped message |
| `ArticleFile.ParseFileText` | internal/group/group.go:391-423 | Parsing what Post writes gives back header and body |
| `ArticleFile.ParsedLinesAreClean` | internal/group/group.go:391-423 | Parsed lines hold neither CR nor LF, and no header line is empty |
| `Lines.AllHeader` | internal/group/group.go:391-423 | A message without a blank line is all header |
| `Lines.UnfinishedLine` | internal/group/group.go:413-422 | A last line that no line feed ends counts as a line |
| `ArticleFile.ScansUpTo` | internal/article/article.go:84-90 | Reading a file gives its lines up to the first that is too long for the scanner, and fails exactly if there is one |
| `ArticleFile.SendLine` | internal/article/article.go:182-223 | One turn of the sender's head/separator/body machine: bytes written, next mode, and when it stops |
| `ArticleFile.SendLines` | internal/article/article.go:181-226 | The sending loop writes the selected parts of the lines, cut, dot-stuffed and CRLF-ended |
| `ArticleFile.SendArticle` | internal/article/article.go:168-226 | The bytes sent for a file in the three modes |
| `ArticleFile.ArticleIsHeadAndBody` | internal/article/article.go:229-236 | ARTICLE's bytes are HEAD's, CRLF, then SendBody's |
| `ArticleFile.ReadBlockOfWire` | internal/article/article.go:209-220 | A client that unstuffs reads back any sent lines and stops at the final dot: no sent line is a lone dot |
| `ArticleHeader.LoadHeader` | internal/article/article.go:87-118 | Load's scanning loop refines the recursive reading of the header lines |
| `ArticleHeader.Load` | internal/article/article.go:56-132 | The article Load leaves: last of equal headers wins, continuation lines appended and cut, valid exactly when no error |
| `ArticleHeader.LoadedIdentity` | internal/article/article.go:57-59 | Whatever the file holds, the article carries the group and number asked for, and is valid only if there is a file |
| `HeaderReading.LastValueIs` | internal/article/article.go:107-118 | The value of a field is that of the header of its name which no later one follows, with its continuation lines |
| `HeaderReading.CollectedIs` | internal/article/article.go:101-107 | With continuation lines it is the first 1024 bytes of the value and those lines one after the other; without, the whole value |
| `HeaderReading.LoadYields` | internal/article/article.go:87-118 | The scanning loop of Load, over header lines and a blank line, leaves each field with the value of the last header of its name |
| `HeaderReading.HasValueIff` | internal/article/article.go:107-118 | A field has a value if and only if the last header of its name has text or a continuation line |
| `HeaderReading.LoadsIfIdentified` | internal/article/article.go:56-132 | A stored article loads if and only if its group's name is short enough and the last From and the last Message-ID have a value; every field is that of the last header of its name |
| `HeaderReading.StoredIsIdentified` | internal/group/group.go:532-556 | If no continuation hangs on a header that is cut out, what is stored loads exactly when the last posted From has a value and so has the last posted Message-ID, if there is one; and its first From has a continuation exactly when the posted one has |
| `HeaderReading.BlankIsUnreadable` | internal/group/group.go:532-556 | Whatever else is posted, a header whose last line is a blank From or Message-ID is stored as one that does not load |
| `HeaderReading.NoFromIsUnreadable` | internal/group/group.go:532-556 | And so is a header without From |
| `HeaderReading.DateLeavesItsContinuation` | internal/group/group.go:535-543 | The continuation line of a Date that Post takes out stays and joins the From before it, which so gets another value than the posted one, never a blank one |
| `ArticleHeader.KeyEndsAtFirstColon` | internal/article/article.go:135-143 | The name of a header line ends at its first colon, and there is none exactly when the line has no colon |
| `ArticleHeader.GetMessageID` | internal/group/group.go:426-444 | The scanning loop refines the recursive look-up |
| `ArticleHeader.FindIdInHead` | internal/group/group.go:426-444 | That look-up gives the first Message-ID header above the first blank line |
| `ArticleHeader.FindHeader` | internal/article/article.go:305-334 | The look-up loop returns the first header of that name, its continuation lines each after one space |
| `ArticleHeader.GetRawHeader` | internal/article/article.go:288-334 | The same on a file, for a name with or without colon in any letter case |
| `Headers.GetHeaderIndex` | internal/group/group.go:355-363 | The index of the first line with that name, -1 exactly when there is none |
| `Headers.GetHeaderValue` | internal/group/group.go:340-352 | The trimmed value of the first line with that name, if any |
| `Headers.HasFieldIff` | internal/group/group.go:340-352 | A header is found exactly when some line begins with its name |
| `Headers.UpdatePath` | internal/group/group.go:366-382 | Puts the server before the first Path's value, or adds a Path line |
| `Headers.PathUpdateKeepsFields` | internal/group/group.go:366-382 | Every header other than Path keeps its value, Newsgroups and From among them |
| `Headers.PathGainsServer` | internal/group/group.go:366-382 | The Path then found is the server name before the value found earlier, or the server name alone |
| `Headers.CutFields` | internal/group/group.go:535-543 | The in-place deletion, with the index shift, removes exactly the line at the host index and the line at the date index |
| `Headers.DeleteFields` | internal/group/group.go:532-543 | Leaves all lines in order but the first NNTP-Posting-Host and, unless preserved, the first Date |
| `Headers.DeletionsAreDrops` | internal/group/group.go:535-543 | The two deletions one after the other leave exactly the lines outside the two dropped indices |
| `Headers.RewriteHeaders` | internal/group/group.go:532-556 | The remaining lines in order, followed only by generated ones |
| `Headers.GeneratedFields` | internal/group/group.go:545-556 | A Date, Message-ID or Lines is generated exactly when the client's lines leave it missing |
| `Headers.RewrittenFields` | internal/group/group.go:532-556 | The stored header has Date, Message-ID and Lines; every field the client sent other than the two dropped keeps its value |
| `Headers.FilledIn` | internal/group/group.go:545-556 | Each of Xref, Date, NNTP-Posting-Host, Message-ID and Lines the client left out is found with its value: server, group and number; the day; the address; number, group and server in angle brackets; the count of body lines |
| `Search.FindArticleByMessageID` | internal/group/group.go:447-459 | For Start of at least 1: ends, with the highest number in [Start, End] that has the Message-ID, and fails only if there is none |
| `Search.FindIsTheLoop` | internal/group/group.go:447-459 | On 64-bit numbers with wrap-around the loop ends with exactly the result the closed form gives, or never |
| `Search.SearchStops` | internal/group/group.go:448-458 | The loop ends if and only if Start is at least 1 or some article has the Message-ID |
| `Search.FindGivesLatest` | internal/group/group.go:447-459 | For Start of at least 1: the result is n if and only if n is the greatest number of the range whose article has the Message-ID, and a miss if and only if none has it |
| `Ranges.ParseArticleRange` | internal/nntp/server.go:1083-1111 | N-M, N- and N, for 64-bit numbers, select the articles of that interval that lie in the group, whenever there are any; every text selects the numbers scanned from it, clamped; in bounds and not empty when Start <= End |
| `Ranges.AskedIsSelected` | internal/nntp/server.go:1083-1111 | The same of the closed form that LISTGROUP, OVER, HDR and XPAT are told with |
| `Ranges.ClampedMeansIntersection` | internal/nntp/server.go:1097-1111 | The clamped range is the requested interval's intersection with the group whenever that is not empty, and one article otherwise |
| `Ranges.ReversedRange` | internal/nntp/server.go:1108-1110 | A reversed request selects its second number, clamped |
| `Ranges.ListNumbers` | internal/nntp/server.go:524-528 | The listing loop gives the numbers in the range whose path exists, in order |
| `Ranges.ListGroupExact` | internal/nntp/server.go:519-529 | On a freshly loaded group the list is strictly ascending; it is exactly the stored articles, as many as Total, if and only if no directory stands among the numbers |
| `Wildmat.MatchesConcatenate` | internal/group/group.go:659-694 | Matches of p and q concatenate to a match of p followed by q |
| `Wildmat.MatchesSplit` | internal/group/group.go:659-694 | Any match of p followed by q splits into a match of p and one of q |
| `Wildmat.DoWildmat` | internal/group/group.go:663-694 | The backtracking matcher ends and accepts exactly the names allowed by the meaning of star and question mark |
| `GroupList.NormalizeGroups` | internal/auth/validate.go:98-116 | The loop gives the non-empty trimmed segments joined by a comma alone, or the star |
| `GroupList.NormalIs` | internal/auth/validate.go:98-116 | For any list the normal form is the star if some trimmed segment is one, and otherwise the segments that are not blank, in order, joined by commas |
| `GroupList.InvalidGroupNames` | internal/auth/validate.go:58-94 | The names that are blocked, ill-formed or unknown, in order, each as often as listed |
| `GroupList.OffendersAre` | internal/auth/validate.go:58-94 | Each segment that is not acceptable is reported once, in order, and nothing else is |
| `GroupList.ValidateGroups` | internal/auth/validate.go:119-150 | Accepts exactly the star and the lists all of whose names are acceptable; otherwise complains about the first offender, for what it deserves |
| `GroupList.OneComplaint` | internal/auth/validate.go:131-147 | No segment deserves two complaints, and none that is acceptable deserves one |
| `GroupList.ChecksAgree` | internal/auth/validate.go:58-150 | For non-blank input no error is reported exactly when there is no invalid name |
| `GroupList.NormalIdempotent` | internal/auth/validate.go:98-116 | Normalising twice is normalising once |
| `GroupList.NormalKeepsAccepted` | internal/auth/validate.go:98-150 | An accepted list stays accepted and keeps its names in order |
| `Discovery.AllGroupsRecurse` | internal/group/group.go:606-646 | The recursive walk appends exactly the names of the groups found below, in walk order |
| `Discovery.VisitEntry` | internal/group/group.go:616-644 | One directory entry adds itself if it is a group, then what its walk finds |
| `Discovery.AllGroups` | internal/group/group.go:597-603 | The names of all groups found from the spool directory, each as often as found, the greatest first |
| `Discovery.FoundMember` | internal/group/group.go:606-646 | The walk finds exactly the groups under undotted directories, and with NoRecurseMsgDir exactly the topmost ones |
| `Discovery.FoundOnce` | internal/group/group.go:606-646 | No group is found twice |
| `Discovery.DirnameInverts` | internal/group/lock.go:21-24 | The listed name maps back to the directory if and only if no directory on the way has a dot in its name |
| `Discovery.DiscoveryInvertsDirname` | internal/group/group.go:597-646 | Over any spool tree with dot-free group paths every wanted group is listed once and Dirname of its name is its directory |
| `Discovery.AllGroupsListsThem` | internal/group/group.go:597-603 | So the sorted list names each wanted group once, and each name leads back to its directory |
| `Discovery.SortNames` | internal/group/group.go:600-602 | The names in descending order, none lost and none added |
| `Discovery.ArticlePathInjective` | internal/article/article.go:45-53 | In both layouts different (valid group, number) pairs have different paths |
| `Discovery.PathInThousand` | internal/article/article.go:45-53 | In the layout with sub-directories an article lies in that of the greatest multiple of a thousand not above its number |
| `Auth.ListableMembers` | internal/auth/store.go:276-287 | A name is listed exactly when it is in the spool list and readable |
| `Auth.AdmittedExactly` | internal/auth/store.go:179-265 | A group in the spool may be read if and only if it has a record, is not archived, and r is in its group permission, for a session with a name that has the group among its groups, or in its world permission, for everyone else; posting asks the same of w |
| `Auth.ArchivedIsClosed` | internal/auth/store.go:185-224 | An archived group is readable, writable and listed for nobody |
| `Auth.ModeNeverDecides` | internal/auth/store.go:185-265 | No answer of CanRead or CanPost depends on the global mode, and a group without a record is closed under every mode |
| `Auth.ReloadedRow` | internal/auth/db.go:179-213 | After a reload a user's or group's record is its last row, and a name without row has none |
| `Auth.ReloadedMembers` | internal/auth/db.go:216-231 | After a reload a user belongs to a group exactly when some row says so and neither name is empty |
| `Auth.Store.constructor` | internal/auth/store.go:69-79 | A new store is empty, in public mode unless told otherwise |
| `Auth.Store.SetMode` | internal/auth/store.go:82-88 | Sets the mode unless empty, and nothing else |
| `Auth.Store.LoadUser` | internal/auth/store.go:91-95 | Adds or replaces one user, and nothing else |
| `Auth.Store.LoadGroup` | internal/auth/store.go:98-102 | Adds or replaces one group, and nothing else |
| `Auth.Store.LoadMembership` | internal/auth/store.go:105-117 | Adds one group to one user's memberships unless a name is empty |
| `Auth.Store.Clear` | internal/auth/store.go:120-126 | Empties everything but the mode |
| `Auth.Store.LoadStore` | internal/auth/db.go:175-232 | A full reload leaves exactly the users, groups and memberships of the rows, whatever was there before, and the mode as it was |
| `Auth.Store.FilterGroupsForLIST` | internal/auth/store.go:276-287 | The loop keeps, in order, exactly the names of groups whose group permission, for members, or world permission, for everyone else, has r, and which are not archived |
| `SessionInvariant.RunKeepsCursor` | internal/nntp/server.go:645-869 | Over all command sequences, whatever happens to spool and store in between: if a group is selected, the current article belongs to it and lies within its snapshot, or is at its Start if the snapshot is upside down |
| `SessionInvariant.RunKeepsFresh` | internal/nntp/server.go:645-869 | Over all command sequences on one spool: if a group is selected, the current article is what its file says, a failed retrieval included |
| `SessionInvariant.RefusedSelectsNothing` | internal/nntp/server.go:491-529 | A refused GROUP or LISTGROUP leaves the whole connection state as it was |
| `SessionInvariant.ListGroupListsArticles` | internal/nntp/server.go:491-529 | LISTGROUP's reply on a summary that is right lists exactly the stored articles, as many as it announces, unless a directory sits among them |
| `SessionInvariant.SelectIsFresh` | internal/nntp/server.go:663-664 | Selecting a group leaves the current article as its file says |
| `SessionInvariant.NextFrom` | internal/nntp/server.go:754-779 | NEXT moves to the next number if that article loads, and reports it |
| `SessionInvariant.LastFrom` | internal/nntp/server.go:781-806 | LAST moves to the number before if that article loads, and reports it |
| `SessionInvariant.NextThenLast` | internal/nntp/server.go:754-806 | On an unchanged spool, in every state a command sequence reaches: a successful NEXT and then LAST restore the exact connection state, and LAST reports the article NEXT left |
| `SessionInvariant.LastThenNext` | internal/nntp/server.go:754-806 | And so do a successful LAST and then NEXT, and NEXT reports the article LAST left |
| `SessionWalk.NextWalksTheGroup` | internal/nntp/server.go:645-779 | On one spool, in a group without gaps: GROUP and then NEXT again and again is answered 211, one 223 for each article after the first, in order, and then 421, with the cursor on the last article |
| `SessionWalk.NextAtEnd` | internal/nntp/server.go:767-771 | At the end NEXT reports 421 and changes nothing |
| `SessionInvariant.RetrievalLeavesCursor` | internal/nntp/server.go:808-869 | On an unchanged spool, in every state a command sequence reaches: a successful HEAD, BODY, ARTICLE or STAT by Message-ID or without argument leaves the connection state as it was (section 6.2.1 of RFC 3977) |
| `SessionInvariant.RetrievalByNumber` | internal/nntp/server.go:832-850 | By number the current article becomes that one; a failed load (430) leaves it invalid |
| `SessionAnswers.PostAnswer` | internal/nntp/server.go:871-954 | POST of an article: 240 and the client's lines stored in the named group, Path updated, if and only if Newsgroups names one valid group that is there, its permissions admit the poster, the From of a logged-in poster is its own, and the line limit of the selected group, if one is selected, is kept; otherwise nothing is stored, and the answer is 441, 480, 441 or 411 for the first of these that fails |
| `SessionAnswers.BadBodyAnswer` | internal/nntp/server.go:871-879 | A body that breaks off or is too large is answered 441 and changes nothing |
| `SessionAnswers.CancelAnswer` | internal/nntp/server.go:1114-1158 | A cancel that finds its article is answered 240 and removes it if and only if the canceller's From and the file's first From with its continuation lines have text and fold alike; a stranger is answered 441 and removes nothing, and so is a cancel that finds none |
| `SessionAnswers.CancelRefused` | internal/nntp/server.go:1114-1131 | A cancel without a valid group is answered 441, one in a group that does not admit the poster 480, and one in a group that is not there 441 |
| `SessionAnswers.HeaderOfFile` | internal/group/group.go:532-564 | The header lines read from a file that Post wrote are the stored ones, so its From is theirs |
| `SessionAnswers.RetrievalAnswer` | internal/nntp/server.go:808-869 | ARTICLE, HEAD, BODY and STAT in a readable group answer with the number the argument stands for (the current article, the number given, or the one found for the Message-ID), its Message-ID and the asked part of its file; 423 outside the group and 430 if it does not load |
| `SessionAnswers.CurrentIsSent` | internal/nntp/server.go:820-869 | In every state that commands on an unchanged spool reach, with a valid current article: without argument, all four answer with its number, its Message-ID and its file |
| `SessionAnswers.RetrievalRefused` | internal/nntp/server.go:808-837 | Their refusals: 412 without a group, 480 without permission, 430 for an unknown Message-ID, 501 for an argument that is neither |
| `SessionAnswers.GroupAnswer` | internal/nntp/server.go:645-665 | GROUP selects every valid group that is there and admits the reader, announces the numbers of `.info`, or of its files when there is no `.info`, and makes the first article the current one; and answers 501, 411 or 480 otherwise |
| `SessionAnswers.NextAnswer` | internal/nntp/server.go:754-779 | NEXT goes to the following number of the group if that article loads, and otherwise leaves everything as it was; with its refusals 412, 480, 420 and 421 |
| `SessionAnswers.LastAnswer` | internal/nntp/server.go:781-806 | LAST goes to the number before, down to Start, in the same way |
| `SessionAnswers.LogsIn` | internal/nntp/server.go:319-343 | AUTHINFO USER and then PASS: 381 and 281, and the connection is logged in as that user with the groups it has then, if the password is the user's; 482 and no change of session if not |
| `SessionAnswers.LogsInSimply` | internal/nntp/server.go:285-316 | AUTHINFO SIMPLE and then a line with user and password: 350 and 250 and logged in, or 452 |
| `SessionAnswers.AuthInfoRefused` | internal/nntp/server.go:306-348 | AUTHINFO without a store is answered 281, USER or PASS without a word 501, PASS before USER 482, and any other kind 501; none of them changes the connection |
| `SessionAnswers.SimpleRefused` | internal/nntp/server.go:285-290 | After AUTHINFO SIMPLE a line of one word is answered 501, and the next line is a command again |
| `SessionAnswers.QuitAnswer` | internal/nntp/server.go:961-963 | QUIT is answered 205, and no later line is answered |
| `SessionAnswers.OtherAnswer` | internal/nntp/server.go:280-967 | Every other word has an answer that depends on the word alone and changes nothing |
| `SessionListings.ListGroupAnswer` | internal/nntp/server.go:509-529 | LISTGROUP of the selected group lists, one a line and in order, exactly the numbers asked for by N-M, N-, N or nothing that lie in the group and have a path |
| `SessionListings.ListGroupSelects` | internal/nntp/server.go:491-529 | LISTGROUP of a named group selects it and then lists it in the same way |
| `SessionListings.ListGroupRefused` | internal/nntp/server.go:494-518 | The refusals of LISTGROUP: 501, 411, 480 and 412 |
| `SessionListings.OverAnswer` | internal/nntp/server.go:585-606 | OVER and XOVER have one line, in order, for exactly those articles asked for in the group that load: number, Subject, From, Date, Message-ID, References, Lines, Xref |
| `SessionListings.HdrAnswer` | internal/nntp/server.go:608-643 | HDR and XHDR have one line, in order, for exactly those articles asked for in the group whose file has that header with a value: its number and the first such header with its continuation lines |
| `SessionListings.HdrOfId` | internal/nntp/server.go:622-643 | The same for a Message-ID, with 430 if it is not found |
| `SessionListings.XPatAnswer` | internal/nntp/server.go:531-580 | XPAT has those lines of HDR whose value matches one of the patterns |
| `SessionListings.XPatOfId` | internal/nntp/server.go:555-580 | The same for a Message-ID |
| `SessionListings.OfGroupRefused` | internal/nntp/server.go:531-617 | OVER, HDR and XPAT answer 412 without a group, 480 without permission and 501 without the words they need |
| `SessionListings.ListAnswer` | internal/nntp/server.go:410-486 | LIST, LIST ACTIVE with or without a wildmat, ACTIVE.TIMES, NEWSGROUPS and COUNTS have one line, in the order of the names, for exactly the groups that are there, admit the reader and match, each with the values of its kind |
| `SessionListings.ListOther` | internal/nntp/server.go:422-488 | Every other LIST is one of six fixed answers, or 501 |
| `SessionListings.NewGroupsAnswer` | internal/nntp/server.go:696-712 | NEWGROUPS names, in order, exactly the groups that are there, admit the reader and were created at that time or later |
| `SessionListings.NewNewsAnswer` | internal/nntp/server.go:714-753 | NEWNEWS gives, by groups and then by numbers, the Message-IDs of exactly those articles of groups that are there, admit the reader and match which were stored after that time |
| `SessionListings.DateRefused` | internal/nntp/server.go:696-728 | NEWGROUPS without a date and NEWNEWS without wildmat or date are answered 501 |
| `SessionWrites.WritesAreAuthorised` | internal/nntp/server.go:871-954 | Whatever a step stores goes to a group that is there and whose permissions admit the poster, despite the Path update, with the poster's address as From; whatever it removes lies in such a group, has the named Message-ID, and its first From with continuation lines has text and folds like the canceller's From |
| `SessionWrites.PendingWasAsked` | internal/nntp/server.go:306-343 | A pending user was named by an earlier AUTHINFO USER of the connection, and credentials are awaited only after an AUTHINFO SIMPLE |
| `SessionWrites.SessionWasValidated` | internal/nntp/server.go:285-343 | Over all command sequences a connection is logged in only by an AUTHINFO PASS with the right password of the user an earlier AUTHINFO USER named, or by the right credentials after an AUTHINFO SIMPLE, with the memberships the store had at that moment |
| `SessionWrites.StoredWritesAreOwned` | internal/nntp/server.go:895-954 | Every article a command of a connection stores went to a group whose permissions admit the poster and, on a logged-in connection, has the From of a user validated earlier on it; every removal passed the checks of cancel |
| `SessionLaws.ListGroupSelectsLikeGroup` | internal/nntp/server.go:491-529 | LISTGROUP of a named group selects it, refuses it and announces it exactly as GROUP does |
| `SessionLaws.OverFollowsListGroup` | internal/nntp/server.go:585-606 | Where every article loads and no directory sits in the group, OVER has one line for each number LISTGROUP lists for the same range, in the same order |
| `SessionLaws.RetrievalsAgree` | internal/nntp/server.go:808-869 | HEAD, BODY, ARTICLE and STAT move the cursor alike, fail alike and name the same article |
| `SessionLaws.ArticleTextIsHeadThenBody` | internal/nntp/server.go:850-866 | The text of ARTICLE is the text of HEAD followed by the text of BODY, whenever the article has a blank line |
| `SessionLaws.XPatStarIsHdr` | internal/nntp/server.go:531-580 | XPAT with the pattern star answers with the lines, or the refusal, of HDR |
| `Confinement.StepConfined` | internal/nntp/server.go:410-869 | One command of a session that may not read a group: same reply, same effect and same state, whatever the group holds, unless it is a cancel aimed there with CanPost |
| `Confinement.ConfinedExactly` | internal/nntp/server.go:1114-1158 | For such a session the reply is independent of the group's content if and only if the request is not a cancel aimed at the group while it may post there |
| `Confinement.CancelTellsApart` | internal/nntp/server.go:1132-1142 | Two contents of the group that such a cancel answers differently |
| `Confinement.RunConfined` | internal/nntp/server.go:410-869 | Over whole runs: the replies never depend on the content of a group that is closed to the session at each step |
| `Confinement.ArchivedIsNeverRevealed` | internal/auth/store.go:185-224 | Once a reload has archived a group, no later step of any session reveals anything about it, whoever logs in, the numbers and the article a connection holds of it included; excepted is the post limit it holds, which POST's 411 tells |
| `Connection.FindByMessageID` | internal/nntp/server.go:822-829 | The search on the group's snapshot |
| `Connection.LoadInfoFull` | internal/group/group.go:318-337 | Loading a group by name: its cached summary, or a scan when there is none, and nothing for an unknown or too long name |
| `Connection.ScanFiles` | internal/group/group.go:123-191 | The scan ends with min, max and count of the stored articles |
| `Connection.ListGroups` | internal/nntp/server.go:410-486 | The LIST loops: one line for each visible name that matches and loads, in order |
| `Connection.ListNewGroups` | internal/nntp/server.go:702-712 | The names of the visible groups created since |
| `Connection.ListNewNews` | internal/nntp/server.go:729-752 | The Message-IDs of newer articles of visible matching groups |
| `Connection.ListOverview` | internal/nntp/server.go:599-606 | One overview line for each article of the range that loads |
| `Connection.ListHeaders` | internal/nntp/server.go:568-580 | One line for each article of the range with that header, for XPAT only if a pattern matches |
| `Connection.Handler.AuthSimple` | internal/nntp/server.go:285-303 | State and reply of the AUTHINFO SIMPLE continuation |
| `Connection.Handler.AuthInfo` | internal/nntp/server.go:306-348 | State and reply of AUTHINFO |
| `Connection.Handler.Group` | internal/nntp/server.go:645-665 | State and reply of GROUP, with every refusal |
| `Connection.Handler.ListGroup` | internal/nntp/server.go:491-529 | State and reply of LISTGROUP |
| `Connection.Handler.List` | internal/nntp/server.go:410-489 | Reply of LIST in all its forms |
| `Connection.Handler.NewNews` | internal/nntp/server.go:714-753 | Reply of NEWNEWS |
| `Connection.Handler.Over` | internal/nntp/server.go:585-606 | Reply of OVER |
| `Connection.Handler.Hdr` | internal/nntp/server.go:608-643 | State and reply of HDR |
| `Connection.Handler.XPat` | internal/nntp/server.go:531-580 | State and reply of XPAT |
| `Connection.Handler.Next` | internal/nntp/server.go:754-779 | State and reply of NEXT, with the cursor restored when the load fails |
| `Connection.Handler.Last` | internal/nntp/server.go:781-806 | State and reply of LAST |
| `Connection.Handler.Retrieve` | internal/nntp/server.go:808-869 | State and reply of HEAD, BODY, ARTICLE and STAT, with the cursor put back where it must be |
| `Connection.Handler.Post` | internal/nntp/server.go:871-893 | POST: cancel or article, by the Control header |
| `Connection.Handler.PostArticle` | internal/nntp/server.go:895-954 | The checks of a POST in their order and what it stores |
| `Connection.Handler.Cancel` | internal/nntp/server.go:1114-1158 | The checks of a cancel in their order and what it removes |
| `Connection.Handler.Command` | internal/nntp/server.go:304-969 | The dispatch: each command does what its step says |
| `Connection.Handler.HandleConn` | internal/nntp/server.go:233-969 | Over every sequence of commands, the handler's fields, replies and effects on the spool are those of the step machine all session theorems are about |
| `Pipeline.PostedIsParsed` | internal/group/group.go:391-423 | The bytes a client sends for header and body are read and parsed back into that header and body |
| `Pipeline.SentIsReadBack` | internal/article/article.go:168-226 | What ARTICLE sends is read by a client as the stored lines; the body is unchanged if and only if no line exceeds 4092 bytes |
| `Pipeline.ClipLine` | internal/article/article.go:181-188 | A line is sent up to its first 4092 bytes |
| `Pipeline.PartsAreReadBack` | internal/article/article.go:168-236 | What HEAD sends for a stored article is read as its header lines, and what BODY sends as a blank line and its body lines, each line cut to the sending limit |
| `Pipeline.PostThenArticle` | internal/group/group.go:532-564 | The four stages composed: a posted body comes back from ARTICLE line for line, under the rewritten header |
| `Pipeline.PostedIsFound` | internal/group/group.go:447-459 | Right after a post the search for its Message-ID in the reloaded group gives the new article, exactly when Start does not lie above it |
| `Pipeline.RawIsHeaderValue` | internal/article/article.go:288-334 | On any stored article the file look-up of HDR and cancel gives the first header of that name with its continuation lines; that is the value the look-up in the posted lines gives if and only if it has none |
| `Pipeline.RawOfAnyFile` | internal/article/article.go:288-333 | On any file, whoever wrote it, the look-up gives the first header of that name above the first blank line, with its continuation lines |
| `Pipeline.OneContinuation` | internal/article/article.go:305-333 | A header with one continuation line reads as its value, a space and that line, both trimmed |
| `EndToEnd.PostStores` | internal/nntp/server.go:871-954 | A POST that stores something stores the client's own header lines, Path updated, and body |
| `EndToEnd.AfterPostHolds` | internal/group/group.go:511-576 | A post leaves, under the next number, a file of the rewritten header, a blank line and the body, written at that time, and that number as End |
| `EndToEnd.PostedComesBack` | internal/nntp/server.go:808-869 | After a POST on one connection, ARTICLE by number on any connection that may read the group sends the stored header, with the last Message-ID in the status line, and exactly the posted body, if and only if the last From and the last Message-ID stored have a value, and 430 otherwise |
| `EndToEnd.ReadableAsPosted` | internal/article/article.go:120-131 | If no continuation hangs on a header that is cut out, that condition holds exactly when the last posted From has a value and so has the last posted Message-ID, if there is one |
| `EndToEnd.AcceptedButUnreadable` | internal/nntp/server.go:895-954 | A POST that is accepted is accepted (240) with a blank From or Message-ID after its headers, too, if the longer text is within the line limit and the size bound, and then ARTICLE answers 430 to everyone |
| `EndToEnd.PostedWithoutFrom` | internal/nntp/server.go:913-927 | A POST without From that is accepted is answered 430 by ARTICLE |
| `EndToEnd.PostedIsHit` | internal/group/group.go:447-459 | The search for the Message-ID the article was stored under gives its number, exactly when Start does not lie above it |
| `EndToEnd.PostedIsNamed` | internal/nntp/server.go:822-829 | So the article is named by that Message-ID in ARTICLE, exactly when Start does not lie above it |
| `EndToEnd.CancelTakesEffect` | internal/group/group.go:649-655 | A cancel answered 240 removes the article with the named Message-ID and no other, brings `.info` into line, and a later search for that Message-ID gives another article or none |
| `EndToEnd.OwnerMayCancel` | internal/nntp/server.go:1137-1144 | Whoever cancels with the From the article was posted with passes the From check if and only if that From and the stored one with its continuation lines fold alike: always, if it has none |
| `EndToEnd.OwnerIsRefused` | internal/nntp/server.go:1137-1144 | Where texts that fold alike have as many runes: the owner passes the From check if and only if the continuation of the stored From has no text |
| `EndToEnd.OwnerCancels` | internal/nntp/server.go:1114-1158 | The owner's cancel of the stored Message-ID in that group, by a session that may post there, with Start not above the number: 240 and the removal of that very article if the From check passes, which it does if the From has no continuation, and 441 otherwise |

## Left out

Contracts that say less than the source does, or ask more of the caller:

- Search.FindArticleByMessageID: asks for Start of at least 1, since the source's loop need not end otherwise; `Search.FindIsTheLoop` covers Start 0 as a machine on 64-bit numbers.
- Connection.FindByMessageID: where the source's loop never ends, the method gives that as its answer and the handler counts as closed.
- GroupStore.Group.Post: asks that the next number fits 64 bits; the wrap-around of End + 1 at the largest number is not modelled.
- GroupStore.Group.Allocate: the same.
- SpoolTree.CountFiles: takes file names that are decimal numbers without leading zeros; a file such as `007`, which the source counts as 7, is not modelled.
- SpoolTree.ScanFindsFiles: the same, and in the layout with sub-directories each article lies in that of its thousand.
- GroupStore.Group.BuildInfo: the tree is in canonical form, each number under its decimal name in the place its layout gives it; files such as `007` are not modelled.
- Ranges.ListNumbers: counts on unbounded numbers; the source's loop would not end for End equal to the largest 64-bit number.
- Connection.LoadInfoFull: gives the summary a scan produces; that the source also saves it is left to the spool of the next step.
- EndToEnd.ReadableAsPosted: for posts with a continuation on the NNTP-Posting-Host or Date that is cut out, the condition is told only on the stored lines, in `EndToEnd.PostedComesBack`.
- Headers.CutFields: returns the new list; that the source's append works in the caller's array, and so changes the caller's slice, is not modelled.
- SpoolProtocol.AgreesWhenQuiet: the numbers taken by directories are fixed during an execution.
- EndToEnd.OwnerIsRefused: the folding is uninterpreted; what is asked of it is a measure that texts that fold alike share and that grows when something after a space is appended, as the number of runes does for EqualFold.
- GroupStore.PerformAll: asks that each next number fits 64 bits, as `GroupStore.Group.Post` does.
- HeaderReading.StoredIsIdentified: for posts with a continuation on the NNTP-Posting-Host or Date that is cut out, `EndToEnd.PostedComesBack` tells the condition on the stored lines.

What the model takes as given or does not have:

- A string is a sequence of bytes; blanks are the ASCII ones, so Unicode spaces in TrimSpace and a scan that accepts line ends between numbers are left out.
- Upper-casing, EqualFold on addresses, extraction of the From address, password check and date parsing are uninterpreted functions of the session's environment.
- Command lines arrive as fields; reading and splitting them, and the limit of 4096 bytes a line, are left out. So is sending the 340 before a POST body.
- Reply texts: replies are code, arguments and data lines. An overview line is the list of its header values; replacing tabs in them, the Bytes field and the number format of Lines are left out.
- CAPABILITIES, HELP, DATE, MODE, STARTTLS, COMPRESS, CHECK, TAKETHIS, XREPLIC: replies that hold no group data.
- The text form of `.info` and reading `.config`: summary and configuration are values. That a command which scans a group without `.info` also saves the result is left to the spool of the next step.
- Disk errors, ownership, spam filter, PostCommand, and removal of empty directories; writes succeed, except for the crash before SaveInfo.
- In the session steps a cancel is one step, so what it removes is stated for the spool it looked at; `CancelRace` has search and removal apart, but neither the From check between them nor the time the search takes.
- Sockets, TLS, compression, timeouts, logging, the accept loop, command-line tools, SQLite, bcrypt.
- internal/group/lock_windows.go, which locks nothing, so nothing about concurrency holds there.
- The group names of a session are a set, where the source has a list it only searches.
