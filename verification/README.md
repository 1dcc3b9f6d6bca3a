# A verified model of the synchronisation demo, the mini-browser, the explorer and the boot command line

The project models four programs of the operating system in Dafny and proves what they are for.

**The synchronisation demo** (`apps/conddemo.c`) is a step relation over thread program counters, one step per
shared-memory access, down to the futex words of `apps/lib/sync.h` and the atomic park and wake of
`src/sys/sync.c`. The number of workers, producers and consumers, every thread's quota and the buffer size are
parameters. The lock word has no owner and an unlock is a plain store of 0, so mutual exclusion is proved from the
program text. Which parked thread a wake picks is open; a park may also end by timeout (`Expire`) or be refused
because the waiter table is full (`NoRoom`). One machine serves both phases: phase 1 has only workers, phase 2 only
producers and consumers. `CondDemo.dfy` is the machine, `CondDemoSafety.dfy` the invariant, `CondDemoTheorems.dfy`
the results.

**The mini-browser** (`apps/browser.c`): chunked decoding in place (`Chunked.dfy`, `ChunkedLaws.dfy`), header
sniffing and the complete/rendered decisions (`Response.dfy`, `ResponseLaws.dfy`), HTML to text with link ranges
(`Html.dfy`, `HtmlCode.dfy`, `HtmlPlain.dfy`, `HtmlLinks.dfy`, `HtmlPages.dfy`, `HtmlTags.dfy`, `HtmlElements.dfy`,
`HtmlEntities.dfy`), wrapping, hit boxes and clicks (`Layout.dfy`), history (`History.dfy`), tabs (`Tabs.dfy`,
`TabLaws.dfy`), URLs (`Url.dfy`, `UrlCode.dfy`, `UrlLaws.dfy`) and the fetch state machine (`Request.dfy`,
`RequestLaws.dfy`).

**The explorer** (`apps/explorer.c`) is in `Explorer.dfy`, **the boot command line** (`kernel.c`) in `BootCmd.dfy`.
`Ascii.dfy`, `AsciiLaws.dfy`, `CString.dfy`, `Options.dfy` and `Modular.dfy` are shared helpers.

Each component has a pure specification, laws about it over all inputs or runs, and the code itself: methods over
arrays and classes, with the source's loops, proved against the specification. Bytes are `char`, a C string is a
sequence without NUL, and `CString.Holds` ties the two where a fixed buffer matters. Received bytes, clock readings,
network answers and scheduling choices are inputs.

`dafny verify dfyconfig.toml` checks everything.

## What the code does not do

Several promises in comments, or natural readings of them, do not hold. The model follows the code; each promise has a
lemma with the exact condition under which it is kept and a lemma with an input on the failing side:

- A finished run needs a consumer or room for every item: `NoDeadlock`, `StarvedWithoutConsumers`.
- A reply that starts with a lower-case `http/` is framed but rendered raw, so its page depends on segmentation:
  `StableExactlyWhenHttp`, `LowerCaseReply`.
- Links that touch inside a row share one hit box: `AnswerOwnExactly`, `TouchingRow`.
- A relative href is glued to the directory name, never placed inside the directory (`RelativeGlues`). It keeps the host
  exactly below the top level, off port 80, or when it is empty or starts with a colon (`RelativeKeepsHost`); it keeps
  host and port exactly below the top level, or when what is glued on leaves the server text alone
  (`RelativeSameServer`). Failing inputs: `RelativeExample`, `BadPortExample`.
- Ten history slots agree with an unlimited history throughout a run exactly when no step asks for a dropped page:
  `AlikeThroughout`, `TooFarExample`.
- "Loading" is shown exactly while a fetch is active, unless a TLS write is refused or a new address fails to start
  during a fetch: `LoadingThroughout`, `PartedExample`.
- The fetch timeout holds exactly when no iteration finds an overdue fetch at a reading of the 32-bit clock that makes
  it look young: `TimeLimitExactly`. Iterations less than 2^32 - 15000 ms apart suffice (`TimeLimit`), and at that
  distance it can fail (`SharpSpacing`).
- `<br/>` without a blank does not break the line: `SlashedBreak`; `TagBreaks` says which tags do.
- A link covers exactly the bytes written inside it that a `</a>` closed off later, so nothing at all when the `</a>` is
  missing; and on a page that trims to nothing it may cover the placeholder: `LinkBytes`, `UnclosedLink`,
  `PlaceholderLinked`.
- "Switching tabs mid-load cancels the load": the active fetch is that of the tab shown throughout a run exactly when no
  step leaves the tab while a fetch is active that the loading mark does not show (`HomeThroughout`), which takes an
  address that fails to start during a fetch (`MarkLost`, `NoFailureNoStray`). Otherwise its page is shown in another
  tab (`PageLands`, `StrayPage`).
- The request globals that links are resolved against are those of the page shown throughout a run exactly when no step
  shows a page of another request (`TuneThroughout`, `LinkGoesHome`); switching between two loaded tabs is such a step
  (`OtherServer`).
- Back undoes into exactly while the parent stack has room: `BackUndoesInto`; path bar and stack agree with the
  directories entered throughout a run exactly while they fit: `AgreesThroughout`, `NinthLevel`.

## Model

| member | source | states |
|---|---|---|
| `CondDemoSafety.InitInv` | apps/conddemo.c:203-207 | the start state of both phases satisfies the invariant |
| `CondDemoSafety.StepInv` | apps/conddemo.c:88-155 | every step of every thread, and every timeout or refused park, keeps the invariant: one thread inside, ring contents, no lost unlock, no lost signal, nobody left asleep after the last item |
| `CondDemoSafety.StatementLock` | apps/lib/sync.h:61-88 | which statements may change the lock word: a won compare-and-swap takes it from 0 to 1 and enters, an unlock store leaves and clears it, everything else keeps both |
| `CondDemoSafety.MoveExclusive` | apps/lib/sync.h:61-88 | one step keeps at most one thread in a critical section although the lock word has no owner |
| `CondDemoSafety.MoveUnlock` | src/sys/sync.c:364-427 | a free lock with a parked waiter always has a thread still to wake it or to compete: the re-check at park time loses no unlock |
| `CondDemoSafety.MoveOutdated` | apps/lib/sync.h:108-120 | after the bump of a sequence word every thread then waiting on it has an old snapshot, and keeps it until the wake: a signal cannot be slept through |
| `CondDemoSafety.MoveSignal` | apps/lib/sync.h:108-132 | while anybody sleeps on a condition, the items (or slots) available are no more than the threads awake to use them and the signals still owed |
| `CondDemoSafety.MoveClosed` | apps/conddemo.c:128-140 | once everything is consumed nobody sleeps on not_empty, except while the closing broadcast is under way |
| `CondDemoSafety.RingData` | apps/conddemo.c:98-127 | through every half-done statement of a critical section the ring holds items consumed..next_item-1 in order and seen is exactly the consumed prefix |
| `CondDemoTheorems.RunInv` | apps/conddemo.c:88-155 | the invariant holds after every run |
| `CondDemoTheorems.MutualExclusion` | apps/lib/sync.h:61-88 | in every reachable state of every configuration two threads inside are the same thread, and the lock word is then 1 |
| `CondDemoTheorems.StrayUnlockBreaksExclusion` | apps/conddemo.c:141-153 | one more store of 0 while a thread is inside lets any thread at its compare-and-swap join it |
| `CondDemoTheorems.StrayUnlockExample` | apps/conddemo.c:44-58 | such a moment is reached with two workers of one iteration |
| `CondDemoTheorems.RunDelivered` | apps/conddemo.c:123-127 | the items delivered along a run are consecutive, from the count before it to the count after it |
| `CondDemoTheorems.ExactlyOnce` | apps/conddemo.c:73-77 | over every interleaving, timeouts included, the delivered items are 0, 1, 2, ... in order without loss or duplicate; with the lock free, consumed + count == next_item, tail == (head + count) mod size, the live slots are the undelivered items and seen is set exactly below consumed |
| `CondDemoTheorems.NoDeadlock` | apps/conddemo.c:88-155 | with single-waiter signals and no timeout, any number of threads, any quotas and any size >= 1: every reachable state with an unfinished thread has an ordinary step, if there is a consumer or room for every item |
| `CondDemoTheorems.StarvedWithoutConsumers` | apps/conddemo.c:91-97 | the condition is exact: without consumers and with more items than slots no run finishes |
| `CondDemoTheorems.StepDescends` | apps/conddemo.c:88-155 | every ordinary step lowers a measure of signals still to send, iterations to run and the ranks of all threads |
| `CondDemoTheorems.Terminates` | apps/conddemo.c:88-155 | every run without timeouts and refused parks is at most `Bound(cfg)` steps long, whatever the scheduler does |
| `CondDemoTheorems.AlwaysCompletes` | apps/conddemo.c:219-224 | from every reachable state, whatever happened before, ordinary steps alone lead to all threads joined |
| `CondDemoTheorems.FinalChecks` | apps/conddemo.c:187-233 | when all threads are joined the counter is the sum of all iterations, every item was consumed and seen, and the delivery was 0..total-1 |
| `CondDemoTheorems.EqualShares` | apps/conddemo.c:187-187 | equal shares add up to threads * iterations |
| `AsciiLaws.LowerMeans` | apps/browser.c:138-147 | lowering identifies exactly the two cases of each letter, the alphabets written out |
| `AsciiLaws.StartsCiMeans` | apps/browser.c:138-147 | the prefix test finds exactly the texts that start with the prefix in some letter case |
| `AsciiLaws.HexDigits` | apps/browser.c:153-158 | each of the sixteen digits, in both cases, has its value |
| `AsciiLaws.HexOnly` | apps/browser.c:153-158 | and no other character has one |
| `Chunked.ReadSizeAt` | apps/browser.c:542-556 | the digit loop with its overflow test computes the size of the pure decoder, which never exceeds 32 bits |
| `Chunked.CopyDown` | apps/browser.c:563-569 | the overlapping copy toward lower addresses moves the bytes as they were |
| `Chunked.CopyChunk` | apps/browser.c:568-571 | writing a chunk behind the read cursor extends the decoded prefix and changes no unread byte |
| `Chunked.WalkOne` | apps/browser.c:538-571 | one turn of the loop is one step of the pure decoder; the write cursor stays at or behind the read cursor |
| `Chunked.ChunkWalk` | apps/browser.c:536-575 | in place or measuring only, flag and length are the pure decoder's on the bytes as received; the buffer is the old one with the decoded body laid over it at `from`, or unchanged |
| `ChunkedLaws.HeadGrows` | apps/browser.c:539-560 | more bytes never change a chunk header already read; what is rejected (no hex digit, or a size that does not fit) stays rejected |
| `ChunkedLaws.WalkGrows` | apps/browser.c:536-575 | the decoding of a prefix is a prefix of the decoding of the longer stream, and equal once complete |
| `ChunkedLaws.SpellsNumber` | apps/browser.c:542-556 | a string that spells n in hexadecimal digits of either case, leading zeros allowed, has the value n |
| `ChunkedLaws.SizeExact` | apps/browser.c:542-556 | a size of at most 8 digits is read as the number it spells: no digit misread, no false overflow, no wrap |
| `ChunkedLaws.TooManyDigits` | apps/browser.c:555-555 | nine or more digits are refused |
| `ChunkedLaws.HeadExact` | apps/browser.c:542-562 | a header with optional extension is read as its size and skipped exactly |
| `ChunkedLaws.RoundTrip` | apps/browser.c:539-571 | decoding the encoding of any chunks (section 7.1 of RFC 9112: sizes spelled in at most 8 hex digits, LF-free extensions, any trailer) is complete and gives back exactly the data |
| `ChunkedLaws.PrintedRoundTrip` | apps/browser.c:539-571 | in particular for data of any length below 2^32 with its length printed in hexadecimal, in either case |
| `ChunkedLaws.CutShort` | apps/browser.c:563-567 | a stream that breaks off inside a chunk decodes to all the data that arrived, and is not complete |
| `ChunkedLaws.RoundTripInStream` | apps/browser.c:539-571 | the same however much follows in the buffer |
| `Response.BlankFrom` | apps/browser.c:498-503 | the first CRLF CRLF at or after an index, -1 exactly when there is none |
| `Response.ChunkedWhen` | apps/browser.c:518-522 | the body is chunked exactly when some header line says so |
| `Response.ExpectedWhen` | apps/browser.c:513-517 | the expected length is that of the last line that carries one |
| `Response.SniffGrows` | apps/browser.c:494-527 | once the head is complete, later bytes change neither its end nor the framing |
| `Response.CompleteGrows` | apps/browser.c:581-587 | a complete response stays complete with the same head and the same rendered bytes, however much more arrives |
| `Response.SameStream` | apps/browser.c:581-626 | any two prefixes of one stream, the shorter complete: the longer is complete too, with the same header end and rendered body |
| `Response.StableExactlyWhenHttp` | apps/browser.c:596-597 | that law holds for a complete reply exactly when it starts with upper-case "HTTP/" |
| `Response.LowerCaseReply` | apps/browser.c:596-597 | a complete reply that starts "http/": some continuation of the stream changes what is rendered |
| `Response.RenderedGrows` | apps/browser.c:608-626 | whatever arrives, what would be rendered of an HTTP reply only grows |
| `Response.ReadLength` | apps/browser.c:514-517 | the digit loop computes the line's length value |
| `Response.FindChunked` | apps/browser.c:518-522 | the search loop finds "chunked" anywhere after the header name, letter case aside |
| `Response.SniffLines` | apps/browser.c:506-526 | the line loop computes the fold of all header lines |
| `Response.Receiver.Receive` | apps/browser.c:1391-1397 | a read is appended up to the buffer cap, and sniffed framing stays valid |
| `Response.Receiver.FindBlank` | apps/browser.c:498-503 | the loop finds the header end |
| `Response.Receiver.SniffHeaders` | apps/browser.c:494-527 | after it the framing fields are unset exactly while the head is incomplete, and otherwise what the bytes say |
| `Response.Receiver.ResponseComplete` | apps/browser.c:581-587 | it answers the completeness of the bytes received and leaves them alone |
| `Response.Receiver.ParseResponse` | apps/browser.c:590-628 | the bytes given to the renderer are those of the specification although a chunked body is decoded over itself |
| `ResponseLaws.NamesExactly` | apps/browser.c:513-518 | the two header names are recognised in any letter case, and nothing else is |
| `ResponseLaws.LengthReads` | apps/browser.c:513-517 | a Content-Length line has the decimal value of its digits, after any blanks, at most ten of them, and none without a digit |
| `ResponseLaws.PrintedLength` | apps/browser.c:513-517 | a number below 10^10 printed on such a line is read as itself |
| `ResponseLaws.LinesFrom` | apps/browser.c:506-526 | the lines of a head as a server writes it are found again |
| `ResponseLaws.HeadEnds` | apps/browser.c:498-503 | and the head ends at its empty line, no earlier |
| `ResponseLaws.FixedLength` | apps/browser.c:581-626 | a reply whose last Content-Length is n is complete exactly from n body bytes on, and the page is made of the first n |
| `ResponseLaws.UntilClosed` | apps/browser.c:577-587 | a reply with neither header is complete only with the connection, and all of the body counts |
| `ResponseLaws.ChunkedLine` | apps/browser.c:518-522 | a Transfer-Encoding line that names "chunked" anywhere, in any letter case, makes the body chunked |
| `ResponseLaws.ChunkedBody` | apps/browser.c:581-620 | under such a line completeness and page are what the chunk decoder makes of the body |
| `ResponseLaws.ChunkedReply` | apps/browser.c:581-620 | end to end: printed chunks under such a head are complete and come out as their data |
| `ResponseLaws.RawReply` | apps/browser.c:627-630 | what does not start with "HTTP/" is rendered as it is |
| `Html.StepOk` | apps/browser.c:357-478 | every iteration keeps: text in progress of normal form, links sorted, disjoint and inside the text, all buffers within bounds |
| `Html.DecodeEntity` | apps/browser.c:297-336 | an entity becomes one printable character and consumes at least one and no more than the remaining input |
| `Html.PageNormal` | apps/browser.c:339-488 | for every input: only newlines and printable ASCII, no leading or doubled newline, no trailing newline or space, 1 to PAGE_MAX-1 bytes; links sorted and pairwise disjoint, at most 64 |
| `HtmlCode.ReadName` | apps/browser.c:365-374 | the two loops give the lower-case tag name without slash and attributes |
| `HtmlCode.FindHref` | apps/browser.c:404-418 | the search loop gives the value of the first href with a quoted one, at most 120 characters |
| `HtmlCode.ReadEntity` | apps/browser.c:297-336 | the name and digit loops decode as specified |
| `HtmlCode.OnTagEnd` | apps/browser.c:360-429 | the cascade over tag names performs the specified change |
| `HtmlCode.Page.HtmlToText` | apps/browser.c:339-488 | the loops compute that page, with its title, its line count and its links |
| `HtmlPlain.PlainIsTidy` | apps/browser.c:445-486 | without '<' and '&' the page is words separated by single spaces or newlines |
| `HtmlPlain.Idempotent` | apps/browser.c:445-486 | rendering such a page again changes nothing |
| `HtmlPlain.TidyStays` | apps/browser.c:445-486 | text that is tidy already renders to itself |
| `HtmlPlain.LettersKept` | apps/browser.c:445-486 | plain text that fits loses no letter and gains none |
| `HtmlTags.NameIs` | apps/browser.c:360-374 | a tag name is recognised in any letter case, with a slash and with attributes of any length |
| `HtmlTags.BreakersExactly` | apps/browser.c:279-294 | exactly the listed 27 names break a line, and exactly script and style start skipping |
| `HtmlTags.TagBreaks` | apps/browser.c:382-387 | two words with such a tag between them, opening or closing, are two lines |
| `HtmlTags.BreakAgain` | apps/browser.c:382-387 | at the start of a line such a tag changes nothing: no empty lines |
| `HtmlTags.TwoTagsBreakOnce` | apps/browser.c:382-387 | the end of one block and the start of the next break the line once |
| `HtmlTags.UnknownTag` | apps/browser.c:376-428 | an unknown tag between two words leaves them one word |
| `HtmlTags.SlashedBreak` | apps/browser.c:369-374 | `<br/>` is such a tag |
| `HtmlTags.BlankRun` | apps/browser.c:446-468 | once a tag was seen, any blank between two words is one space, a line feed too |
| `HtmlElements.SkipKeeps` | apps/browser.c:376-379 | inside script and style nothing reaches page, title or links, and only a closing script or style tag ends it |
| `HtmlElements.ScriptUnseen` | apps/browser.c:376-381 | a script or style element between two words is as good as not there |
| `HtmlElements.TitleIs` | apps/browser.c:388-389 | the title is the text between the title tags, up to 63 characters |
| `HtmlElements.LinkPage` | apps/browser.c:390-426 | a link with any address of up to 120 characters, in either quotes, around any word: the page is the word, the link covers it and has that address |
| `HtmlElements.NulCuts` | apps/browser.c:420-420 | an address is cut at its first NUL |
| `HtmlEntities.TableIs` | apps/browser.c:298-304 | the fourteen named entities and their characters |
| `HtmlEntities.EntityMeans` | apps/browser.c:305-313 | each of them is decoded to its character |
| `HtmlEntities.EscapedPage` | apps/browser.c:297-336 | a text with its markup characters escaped renders as the text |
| `HtmlEntities.DecimalReference` | apps/browser.c:315-332 | `&#n;` of a printable n is the character n |
| `HtmlEntities.HexReference` | apps/browser.c:315-332 | and so is `&#xh;`, with digits of either case |
| `HtmlLinks.LinkBytes` | apps/browser.c:391-426 | a link covers a byte of the page shown exactly when the byte was written while the link was open and a `</a>` closed that link later; a page that trims to nothing is the placeholder |
| `HtmlLinks.UnclosedLink` | apps/browser.c:419-426 | on `<a href="x">y` the letter was written inside the link and no link covers it |
| `HtmlPages.PlaceholderLinked` | apps/browser.c:484-487 | on `<a href="x">&nbsp;</a>` the placeholder is shown and its first byte lies in the link |
| `HtmlPages.TouchingPage` | apps/browser.c:391-426 | two adjacent links render as "yz" with the ranges [0,1) and [1,2) |
| `Html.CoverUnique` | apps/browser.c:861-867 | in an ordered table at most one link covers a byte |
| `Html.LinkIndexAt` | apps/browser.c:861-867 | the early-exit lookup returns the covering link, -1 exactly when there is none |
| `Layout.WrapSlices` | apps/browser.c:989-1036 | the wrap loop keeps line_base + line_len == i and flushes newline-free slices, in order, of at most min(max(max_ch, 1), 127) bytes |
| `Layout.WrapFlattens` | apps/browser.c:989-1036 | the rows from any point on are the text from there on without its newlines |
| `Layout.RowsPartition` | apps/browser.c:989-1036 | the rows of a rendered page partition its non-newline bytes |
| `Layout.AnswerLinked` | apps/browser.c:997-1024 | inside a row a cell answers with some link exactly when its byte is linked |
| `Layout.AnswerOwnExactly` | apps/browser.c:999-1002 | every cell of a row answers with its own link exactly when no two links touch in the row |
| `Layout.TouchingRow` | apps/browser.c:999-1002 | on that page, at any width of two or more, the one row does not answer every letter with its own link |
| `Layout.RowHit` | apps/browser.c:873-880 | within a row, the boxes recorded for its runs answer a click on cell k with the link of k's run |
| `Layout.PageHit` | apps/browser.c:873-880 | only the boxes of the row under the click can answer it |
| `Layout.ClickExact` | apps/browser.c:873-880 | a click on any painted cell hits a link exactly when the byte shown there is linked and its box got a slot; it is that byte's own link when no two links touch |
| `Layout.MissOutside` | apps/browser.c:873-880 | a click outside every box hits nothing |
| `Layout.PaintRow` | apps/browser.c:997-1024 | the run loop records the boxes of the row while slots remain |
| `Layout.DrawPage` | apps/browser.c:979-1036 | wrap loop, scrolling, early stop and the 64-box cap record exactly the specified boxes |
| `Layout.ColumnsFit` | apps/browser.c:982-982 | the last column ends left of the scrollbar, with room for exactly two more |
| `Layout.LinkHitAt` | apps/browser.c:873-880 | the search returns the first box over the point |
| `History.RunOk` | apps/browser.c:774-808 | over any run the slots are the newest part of an unlimited timeline, at most ten, containing the current page, and neighbouring entries differ |
| `History.TenSlotsSuffice` | apps/browser.c:774-808 | any run that never asks for a dropped page ends where a browser that forgets nothing would |
| `History.AlikeThroughout` | apps/browser.c:774-808 | the slots agree with the unlimited history after every prefix of a run exactly when no step asks for a dropped page |
| `History.TooFarExample` | apps/browser.c:794-800 | eleven visits and nine steps back: the tenth is refused although there was an older page |
| `History.StepAlike` | apps/browser.c:794-800 | one step differs from the unlimited history exactly when back asks for a dropped page |
| `History.DropsOldest` | apps/browser.c:778-781 | only a push onto a full window drops a page, and then one |
| `History.PushTruncates` | apps/browser.c:774-785 | a new page ends the timeline; what was ahead is gone, what was before stays |
| `History.BackForward` | apps/browser.c:794-808 | back then forward, and forward then back, restore position and page |
| `History.Tab.Shift` | apps/browser.c:779-779 | the shifting loop moves slots 1..9 down by one |
| `History.Tab.HistPush` | apps/browser.c:774-785 | the ten-slot array refines the push on the timeline |
| `History.Tab.HistBack` | apps/browser.c:794-800 | it refines back, and loads the page the timeline is then at |
| `History.Tab.HistForward` | apps/browser.c:802-808 | it refines forward likewise |
| `Tabs.RunOk` | apps/browser.c:719-770 | after every step of any run of tab, history, address and fetch steps the current tab is in use and one to four tabs are |
| `TabLaws.Isolated` | apps/browser.c:51-54 | no step changes what another tab in use holds |
| `TabLaws.PageLands` | apps/browser.c:1171-1193 | a page goes to the tab shown when it arrives: to the tab that asked exactly when that is the tab shown |
| `TabLaws.LeavesExactly` | apps/browser.c:719-770 | which steps change the current tab |
| `TabLaws.StepHome` | apps/browser.c:712-770 | a step keeps the active fetch with the tab shown exactly unless it leaves the tab while the fetch is not marked as loading |
| `TabLaws.HomeThroughout` | apps/browser.c:51-54 | over any run the active fetch is that of the tab shown after every step exactly when no step does that |
| `TabLaws.MarkLost` | apps/browser.c:1092-1116 | the mark of an active fetch is lost exactly by an address that fails to start during the fetch |
| `TabLaws.NoFailureNoStray` | apps/browser.c:51-54 | without such an address no run separates a fetch from its tab |
| `TabLaws.StrayPage` | apps/browser.c:719-722 | a fetch in tab 0, a bad address, a switch to tab 1: the page of tab 0 is shown in tab 1 |
| `TabLaws.StepTune` | apps/browser.c:896-918 | a step keeps the request globals those of the page shown exactly unless it switches or closes to a page of another request, or ends a fetch sent with other globals |
| `TabLaws.TuneThroughout` | apps/browser.c:896-918 | over any run they are those of the page shown after every step exactly when no step does that |
| `TabLaws.LinkGoesHome` | apps/browser.c:903-916 | a rooted link goes to the server of the page it stands on exactly when the globals name that server |
| `TabLaws.OtherServer` | apps/browser.c:719-728 | two tabs loaded from two servers, back to the first: its page is shown with the globals of the second |
| `Tabs.OpenOk` | apps/browser.c:730-748 | a new tab adds one up to four, takes a free slot, is empty, becomes current and clears the loading mark |
| `Tabs.CloseOk` | apps/browser.c:750-770 | closing removes one, but never the last |
| `Tabs.ShowsOne` | apps/browser.c:1041-1063 | the strip shows at most one control in any column |
| `Tabs.StripLabels` | apps/browser.c:1041-1063 | a click on a painted sign, label or x is a click on that control |
| `Tabs.PerformEffect` | apps/browser.c:828-849 | a label makes its tab current and closes nothing, an x makes its tab unused unless it is the only one, "+" adds an empty tab, the buttons change neither |
| `Tabs.Strip.UsedCount` | apps/browser.c:693-697 | the loop counts the tabs in use |
| `Tabs.Strip.TabNew` | apps/browser.c:730-748 | the lowest free slot becomes the current tab with fresh contents, a marked load is cancelled with its status, a fifth tab only sets the status |
| `Tabs.Strip.TabSwitch` | apps/browser.c:719-728 | only a tab in use can be switched to, and a marked load is cancelled with its status |
| `Tabs.Strip.TabClose` | apps/browser.c:750-770 | closing the current tab cancels a marked load and moves to the lowest one left; the last tab is made fresh in place |
| `Tabs.Strip.StartRequest` | apps/browser.c:1080-1134 | the page is emptied, the mark says whether the fetch is under way, and a failure leaves an active fetch as it was |
| `Tabs.Strip.HistBack` | apps/browser.c:794-800 | with an older page: a marked load is given up, the position moves, a fetch is started |
| `Tabs.Strip.HistForward` | apps/browser.c:802-808 | likewise with a newer page |
| `Tabs.Strip.Finish` | apps/browser.c:1171-1193 | the end of a fetch clears mark and fetch and writes to the current tab; a failure leaves its link table |
| `Tabs.Strip.DrawStrip` | apps/browser.c:1048-1063 | exactly the tabs in use are drawn, each at its own column, and "+" only below four tabs |
| `Tabs.Strip.Click` | apps/browser.c:828-849 | a click does exactly what the strip shows under it, with that effect on the tab set, history and bookmark included, and nothing elsewhere |
| `CString.CatCap` | apps/browser.c:886-894 | the buffer holds the whole text exactly when it fits below the cap, and otherwise its longest fitting prefix |
| `CString.Itoa` | apps/browser.c:125-133 | prints the decimal digits, with a sign for negative numbers |
| `CString.PrintedValue` | apps/browser.c:125-133 | reading printed digits gives the number back |
| `CString.DecimalAnchors` | apps/browser.c:125-133 | and the base is ten |
| `CString.PrefixValue` | apps/browser.c:253-257 | reading on never makes a number smaller, so stopping early on a too large one is right |
| `UrlCode.ScanNumber` | apps/browser.c:251-258 | the loop with early exits succeeds exactly when the whole digit string is short and small enough |
| `UrlCode.AddressMeans` | apps/browser.c:206-224 | a host is an address exactly when it is four numbers of one to three digits up to 255 with dots between, and the octets are their values |
| `UrlCode.ParseIp4` | apps/browser.c:206-224 | the four-part loop computes that address |
| `Url.ParseServes` | apps/browser.c:228-274 | what parsed has a non-empty host without ':' or '/', a port up to 65535 and a path starting with '/' |
| `UrlLaws.ParseReads` | apps/browser.c:228-274 | every [http://\|https://]host[:port][/path], scheme in any letter case, host of 1 to 120 characters, port of 1 to 5 digits up to 65535, parses: TLS exactly for https, that host, the written port or else 443 or 80, the path or "/" |
| `UrlLaws.ParseSplits` | apps/browser.c:228-274 | nothing else parses |
| `UrlLaws.FailedParse` | apps/browser.c:228-258 | what a text that does not parse leaves in the request globals |
| `UrlLaws.PrintedPortReads` | apps/browser.c:248-260 | a printed port is read as its number |
| `UrlLaws.AbsoluteKept` | apps/browser.c:906-908 | an href with a scheme is followed as it is, if it has at most 120 characters |
| `UrlCode.Fetcher.ParseUrl` | apps/browser.c:228-274 | the request globals after parsing, also after a bad URL, are those of the specification |
| `Url.LinkRoundTrip` | apps/browser.c:903-923 | whenever an href starting with '/' resolves, parsing the result gives the host, address and port of the last request, the href as path, over plain HTTP |
| `Url.LinkFits` | apps/browser.c:896-902 | it resolves exactly when the assembled URL has at most 120 characters |
| `Url.RelativeGlues` | apps/browser.c:917-922 | any other relative href is appended to the directory without its slash, never the documented result |
| `Url.RelativeKeepsServer` | apps/browser.c:917-922 | below the top level it still goes to the same host and port |
| `Url.RelativeKeepsHost` | apps/browser.c:896-922 | it keeps the host exactly below the top level, off port 80, or when it is empty or starts with ':' |
| `Url.RelativeSameServer` | apps/browser.c:896-922 | the promise "same host and same port" holds exactly below the top level, or when the href leaves the printed server alone: on port 80 nothing or an explicit port 80, on another port no further digit (zeros after port 0 aside) |
| `Url.RelativeExample` | apps/browser.c:917-922 | "c" on /a/b gives http://h/ac, on /b it gives http://hc, and ":81" on /b gives http://h:81 |
| `Url.BadPortExample` | apps/browser.c:917-922 | "1" on port 8080 gives http://h:80801, which does not parse |
| `UrlCode.Fetcher.ResolveHref` | apps/browser.c:903-923 | the buffer ends up with the resolved URL exactly when there is one, and always with text that fits |
| `UrlCode.Fetcher.DropSegment` | apps/browser.c:919-920 | the loop cuts the text at its last slash |
| `Request.StepFollows` | apps/browser.c:1292-1421 | every iteration makes one of the allowed moves and keeps the account of what was sent |
| `Request.InOrder` | apps/browser.c:1292-1421 | over any run the phases come in the order resolve, connect, handshake (TLS only), receive, idle; the request is sent at most once, and before any page is shown |
| `Request.NeverBack` | apps/browser.c:1292-1421 | no phase is returned to |
| `Request.StartAccounted` | apps/browser.c:1080-1134 | a fetch that gets under way starts by resolving, or by connecting for an address, whatever was active before; one that fails leaves an idle browser idle |
| `Request.LoadingWhenActive` | apps/browser.c:1154-1161 | an iteration keeps "loading" equal to "active" exactly unless a TLS write is refused |
| `Request.LoadingAfterStart` | apps/browser.c:1080-1116 | a start leaves them equal exactly unless a fetch is active and the new one fails to start; then the old one goes on |
| `Request.LoadingThroughout` | apps/browser.c:1080-1169 | over any run of starts, iterations and cancels they are equal after every step exactly when neither happens |
| `Request.PartedExample` | apps/browser.c:1092-1096 | both happen from a fresh browser: a bad URL during a fetch, and a refused write |
| `Request.TrueSince` | apps/browser.c:1294-1294 | unsigned 32-bit subtraction gives the true time apart, across a wrap |
| `Request.TimeoutExactly` | apps/browser.c:1294-1295 | the timeout fires exactly when the true age modulo 2^32 exceeds 15000; an overdue fetch can outlive an iteration exactly when it does not fire |
| `Request.TimeLimitExactly` | apps/browser.c:1292-1295 | after every iteration of a run, whatever the network answers there, a fetch is active at most 2 * 15000 ms after its start (15000 before it was sent), exactly when no iteration finds an overdue fetch at a clock reading that makes it look young |
| `Request.TimeLimit` | apps/browser.c:1292-1295 | the limit holds in every run whose iterations are less than 2^32 - 15000 ms apart, wherever the clock wraps |
| `Request.SharpSpacing` | apps/browser.c:1294-1294 | with iterations 2^32 - 15000 ms apart a fetch can be active 2^32 ms after its start |
| `RequestLaws.StepReason` | apps/browser.c:1292-1421 | an iteration fails a fetch exactly by its age or a bad answer, shows a page exactly on a good answer while receiving, moves on exactly on a good answer before |
| `RequestLaws.EndsExactly` | apps/browser.c:1292-1421 | over a run: failed exactly when some iteration found it too old or heard no slot, a failed handshake, a lost connection or a TLS error before any data; a page exactly when some iteration heard the end of the body |
| `RequestLaws.Progress` | apps/browser.c:1292-1421 | a fetch whose iterations bring good answers or none shows its page with the last good answer it needs, and has sent its request once |
| `RequestLaws.Fetched` | apps/browser.c:1080-1421 | from start to page: with good answers 50 ms apart and within the timeout, three iterations, one fewer for an address, one more with TLS |
| `RequestLaws.NotYetFetched` | apps/browser.c:1080-1421 | and not with fewer |
| `RequestLaws.CancelEnds` | apps/browser.c:712-717 | a cancelled load is neither active nor marked |
| `Request.Browser.Cancel` | apps/browser.c:712-717 | a load is given up, if there is one |
| `Request.Browser.StartRequest` | apps/browser.c:1080-1134 | the globals after starting a fetch, failures included |
| `Request.Browser.SendRequest` | apps/browser.c:1136-1169 | sending re-stamps the clock and moves to receiving; a refused TLS write only goes idle |
| `Request.Browser.Iterate` | apps/browser.c:1292-1421 | one iteration is one step of the machine |
| `Explorer.IntoAgrees` | apps/explorer.c:75-95 | entering a directory keeps path bar, stack and position describing the trail exactly when the longer trail fits 8 levels and 254 characters |
| `Explorer.BackAgrees` | apps/explorer.c:98-117 | going back keeps them in step and removes the last directory |
| `Explorer.RunAgrees` | apps/explorer.c:75-117 | after any run within bounds the path bar is the join of the names entered and the stack holds the matching parents |
| `Explorer.AgreesThroughout` | apps/explorer.c:75-117 | over a run with proper file names, bar and stack agree with the directories entered after every step exactly when the trail fits throughout |
| `Explorer.RunFromHome` | apps/explorer.c:20-26 | in particular from the root, where the explorer opens |
| `Explorer.NinthLevel` | apps/explorer.c:77-80 | the ninth directory entered breaks the agreement, and back does not undo it |
| `Explorer.OverlongExactly` | apps/explorer.c:84-91 | from within the limit the path reaches 255 characters exactly from 254 |
| `Explorer.OverlongReachable` | apps/explorer.c:84-91 | two levels are enough for a path of 255 characters |
| `Explorer.BackUndoesInto` | apps/explorer.c:75-117 | from any path of at most 254 characters, back undoes into exactly when the stack had room, even if the name was cut |
| `Explorer.FullPathShown` | apps/explorer.c:119-127 | the full path of an item is the path entering it would show, exactly when that fits |
| `Explorer.Window.NavigateInto` | apps/explorer.c:75-95 | the array updates and the copying loop perform the step; with a path of 255 characters the write past the buffer is reported instead |
| `Explorer.Window.NavigateBack` | apps/explorer.c:98-117 | the backward search and the cut perform the step |
| `Explorer.Window.BuildFullPath` | apps/explorer.c:119-127 | the caller's buffer holds the full path |
| `BootCmd.LookupFirst` | kernel.c:44-46 | the key is absent exactly when no word assigns it, and otherwise the value is that of the first word that does |
| `BootCmd.WordsSplit` | kernel.c:52-67 | a line cut at a space has the words of both parts |
| `BootCmd.MatchesAt` | kernel.c:55-56 | the comparison loop decides whether the word starts with key and '=' |
| `BootCmd.KcmdValue` | kernel.c:47-70 | the scanner agrees with cutting the line into words and looking the key up |
| `BootCmd.LaunchedRoundTrip` | kernel.c:94-108 | splitting at the first colon recovers path and argument, colons in the argument included |
| `BootCmd.ValueFound` | kernel.c:47-70 | an assignment is found whatever stands around it, if nothing before it assigns the key |
| `BootCmd.BootRoundTrip` | kernel.c:90-108 | any colon-free path of at most 127 characters and any space-free argument come back from any command line that fits |
| `BootCmd.AutotestLaunch` | kernel.c:90-108 | what is launched is what the directive says |

## Left out

- Wake order: `futex_wake` serves waiters in table order; the model lets it pick any waiter, which is more general.
- Thread creation, join, exit and the kernel scheduler: all threads exist from the start, and any of them may step.
- Memory ordering: shared accesses are atomic steps in program order, as the barriers of `apps/lib/sync.h` intend.
- Sequence words, counters and items are unbounded integers; the invariant bounds a sequence word by the number of items plus one, so the C words do not wrap for fewer than 2^31 - 1 items.
- `mct_cond_broadcast_requeue` and the other futex operations: not used by the demo.
- Response.ReadLength: a Content-Length of 2^31 or more is read as its mathematical value, where the C code overflows an int.
- Status line code, status bar and serial log: text for people, with no influence on the page.
- Layout.DrawPage: models which cells and boxes are painted, not pixels, colours or the rest of the frame.
- Scroll range: `total_lines` counts breaks before trimming and ignores wrapping, so it does not promise that every wrapped row can be reached.
- HtmlCode.Page.HtmlToText: a blank right before a tag is dropped and one before an entity is carried past it, as the code does; no claim is made that this is what an HTML renderer does.
- Tabs.Strip.StartRequest: what an address parses to and whether it connects are inputs; `Url.Parse` and `Request.Start` say what they can be.
- History.Tab.HistBack: says which page is loaded; that the load is started is `Tabs.Strip.HistBack`.
- Request.InOrder: a run has no new navigation; the order of phases across a restart during a fetch is not stated (`Request.LoadingThroughout` does cover restarts).
- Request.TimeLimit: an iteration reads the clock once; the separate reading in `send_request` is taken to be the same.
- Connection slots, sockets, DNS, TLS records and certificates: their answers are inputs.
- Explorer.Window.NavigateInto: what the C code does to the memory after the path buffer when the path already has 255 characters is not modelled; the method reports it and leaves the path alone.
- Directory listing, dialogs and drawing of the explorer: I/O.
- The rest of the kernel and the remaining applications: not part of this model.
