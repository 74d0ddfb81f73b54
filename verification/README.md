# A verified model of the model mapper

The plugin rewrites model names in requests and responses with a small rule language, forwards streamed answers while
restoring the original model name in them, sends scheduled notifications through a persistent job queue, and keeps an
append-only audit journal. This project states that behaviour in Dafny and proves what it is meant to guarantee.

Every algorithm that the program runs step by step is a method (a class where the program keeps state) proved equal to
a specification function or to a declarative predicate; the theorems are about those functions, predicates and the runs
made of them. The main specification functions are tied in turn to statements that do not use them: to the grammar of
the text, to the bytes at a place, to the fields of a row, or to the steps of a run.

| modules | what they model |
|---|---|
| `Common`, `Sorting` | options, results, bytes, joining and concatenation; sorting by a total order |
| `RuleMatcher` | the memoised backtracking matcher |
| `RuleSyntax`, `RuleGrammar` | the rule parser, and the grammar that says which texts it accepts, what it reads them as and why it refuses the others |
| `RulePrinting`, `RuleRange` | a printer that inverts the parser, and the set of rules the parser yields |
| `RuleApply`, `RuleReplacement` | rule application, and what a replacement inserts |
| `RuleEditor` | the web editor's split into rows and join back |
| `LineDiff` | the longest-common-subsequence line diff of the audit page |
| `SseStream`, `SseChunking` | the two-level stream rewriter and what chunking does to it |
| `SseSeams`, `SseLimits`, `SseKinds` | told by the bytes alone: where events are cut, where a chunk boundary gets a line break, what an event beyond the cap becomes, what counts as a stream or is held back, and what white space is stripped |
| `SseFraming`, `SseCuts` | that rewriting works line by line, and whether its output cuts into the same events |
| `SseClient`, `SseLostCr`, `SseRawJson` | what a client that follows the event-stream standard reads from a rewritten stream, also where a CR is dropped, and from framed JSON values |
| `Calendar`, `Schedule`, `ScheduleRuns` | civil dates, the last and next occurrence of a send plan, runs of ticks and sends |
| `JobStore`, `JobProtocol`, `JobSafety`, `JobService` | the notification store, its life over crashes and boots, what holds of every run, and the send pass as such a run |
| `JobFields`, `JobHistory` | what each transaction does to the rows, field by field, and what a run has written: last payloads and times, kept waits, the record of every ended job |
| `PlanLoops` | how the turns of the schedule and send loops on the store are the events of a plan's run |
| `AuditJournal`, `AuditReader` | torn appends and the reader |
| `AuditFields`, `AuditRuns` | what the items and warnings of any file are, by its first starts and finishes and field by field, and what is reported after any run |
| `MessageSplit` | cutting a message into parts a platform accepts |
| `AuthNames`, `AuthNamesHistory` | the single-flight cache with generations, and what it holds and answers told by the steps of a run |
| `RoundRobin`, `RoundRobinRestart`, `RoundRobinFairness` | the per-key round robin, where it starts over, and how even it is |

## How the program is represented

- Rule text, model names and IDs are sequences of characters: the parser looks at ASCII characters only. Streams, audit
  files and message bodies are sequences of bytes.
- JSON is abstract. Restoring a model name is any total function from bytes to bytes and a changed flag, of which the
  stream theorems assume that it leaves an empty body alone, and the framing and client theorems that a restored payload
  has no line break. An audit event has any encoding that is not empty, holds no
  newline, decodes to the event, and no longer decodes when cut short; events are meant to hold valid UTF-8 text and
  compact JSON changes.
- Every database transaction is one step. The cursor order of a bucket is an input; any order of the keys is allowed.
- Job IDs, flight numbers and audit operation IDs are inputs required to be fresh. Audit IDs are 16 random bytes; a job
  ID is the clock in nanoseconds (`notification_service.go:715-717`), so its freshness is an assumption about the clock.
- A job key is a tuple of its fields. The program joins the fields with `/` (`notification_store.go:172-178`), so fields
  are taken to be free of slashes.
- The in-flight check and the upsert of an enqueue are one step of the job protocol, which may come at any time, also
  after a cancelled pass and before the next boot. Schedule and send passes may overlap.
- An index out of range, which stops the program with a panic, is a result of its own (`None`).
- Instants are integers: nanoseconds in one zone of fixed offset. The zero time is `None` in schedules and 0 in the cache
  and the journal.
- The file system's part in an audit append is an input: refused, or any number of bytes written with a write error, a
  short write or a failed sync.

## Where the code and its documentation differ

- `README.md:124` and the comment at `main.go:1823-1824` say that the first of two adjacent captures takes everything up
  to the next literal and the second is empty. The first half always holds. The second holds exactly when the rest of
  the pattern fits from that place (`RuleMatcher.AdjacentCaptures`), so in every match that needs no retry
  (`RuleMatcher.SecondIsEmptyWithoutRetry`). `a**b` on `axbxb` is an input where it fails
  (`RuleMatcher.AdjacentCapturesCanBothBeFilled`).
- A reference of nineteen digits or more may wrap below one in 64-bit arithmetic and then, if it is negative, passes the
  range check of `parseReplace`: `RuleRange.WrappedReferenceIsAccepted` gives the failing family, behind any left side.
  Accepted text is canonical exactly when no reference wraps below one, and always when references have at most 18 digits.
  Applying it to any name stays in range when no reference wraps below one; a single entry does so exactly then, and
  otherwise panics on the name made of its literals. Behind other entries such a reference can be out of every name's
  reach and so harmless (`RuleApply.UnreachedReferenceIsHarmless`).
- The editor trims U+FEFF, which the parser takes as an ordinary character. The editor keeps accepted text unchanged
  exactly when no side of a mapping consists of U+FEFF alone (`RuleEditor.EditorRoundTrip`), so always on ASCII.
- An event that ends in a bare CR loses it in the stream rewriter: unchanged payloads come through byte for byte exactly
  when there is none (`SseChunking.UnchangedStream`). A client of the standard notices in one case only: when the text
  ends in a CR, what is before it in the last, unfinished event ends in a line break, and the line before that break is
  not blank. Then that CR is all that ends the event, and the event is lost (`SseLostCr.UnchangedClient`).
  `data:x` CR LF CR is such a text (`SseLostCr.EventLost`). A CR lost before a delimiter never matters to such a client;
  the program's own delimiters can move by it, which `SseCuts.SameEvents` characterises.
- A payload is restored per line that ends at LF. A data line that a lone CR bounds is not restored on its own, so what a
  client reads is described for streams in which every CR is half of a CR LF or ends an event
  (`SseLostCr.ClientSeesSameEvents`).
- A framed JSON value with a CR in it does not arrive as it is, since a client takes every CR for a line break
  (`SseRawJson.FramedExactlyWithoutCr`).
- The round robin joins the candidate IDs with NUL characters to see whether they changed. Without a NUL in an ID it sees
  every change (`RoundRobinRestart.SameSignature`); with one, other candidates can look the same
  (`RoundRobinRestart.NulConfuses`).
- The round robin's counter wraps at 2^64. All windows of fewer than 2^64 picks are even exactly when the number of
  candidates divides 2^64 (`RoundRobinFairness.EvenExactlyWhen`); a window that does not reach across the wrap is even for
  any number.
- One job per target fails in the protocol in one way only: an enqueue for the free target of a rate-limited job, with
  another period, between that job's finish and its requeue. Then the requeue leaves two pending jobs for one target
  (`JobSafety.CollisionBreaksSingle`); on every run without such an enqueue there is one job per target
  (`JobSafety.OneInFlightPerTarget`). The protocol takes the check and the upsert of an enqueue as one step; in the code
  a requeue can also land between the two, with the same effect.
- With the same period the requeue merges into the enqueued job (`JobSafety.EnqueueThenRequeue`). The retry carries no
  revision, and the merge copies that, so that the next sweep at any revision but 0 drops the merged job
  (`JobSafety.RetryIsSwept`). The comment at `notification_store.go:234-236` says that the copied revision is to prevent
  just this.
- A calendar job that is only sent after the next occurrence has come takes that occurrence's place: the span it is sent
  in fires no job of its own (`ScheduleRuns.FiresPerSpan`). A send that fails for good leaves the clock alone, so that the
  next tick of the span fires again (`ScheduleRuns.FiresAgain`); at most one job of a platform is accepted in a span
  (`ScheduleRuns.OneSendPerSpan`).

## Model

| member | source | states |
|---|---|---|
| RuleMatcher.SearchSoundAndComplete | main.go:1825-1885 | the matcher accepts a name exactly when it is the pattern's literals in order with some text for each capture, and the captures it returns rebuild the name |
| RuleMatcher.SearchPriority | main.go:1810-1818 | the captures returned are, compared left to right, the earliest-ending ones among all splits whose captures end at an occurrence of the next literal |
| RuleMatcher.EarliestIsFound | main.go:1854-1885 | whenever an earliest split exists the search returns that very split |
| RuleMatcher.NearestWins | main.go:1810-1816 | when taking the nearest occurrence every time succeeds, that is the result |
| RuleMatcher.AdjacentCaptures | main.go:1823-1824 | for adjacent captures at any place of a matching pattern: the first takes everything up to the nearest occurrence of the next literal, and the second is empty exactly when the rest of the pattern fits from there |
| RuleMatcher.SecondIsEmptyWithoutRetry | main.go:1823-1824 | so the documented claim holds in every match that needs no retry |
| RuleMatcher.AdjacentCapturesCanBothBeFilled | main.go:1823-1824 | and it fails on this input: `a**b` on `axbxb` has the captures `x` and `bx` |
| RuleMatcher.KeyInjective | main.go:1843-1843 | different pairs of token and position have different table keys |
| RuleMatcher.PairsBound | main.go:1818-1821 | there are at most tokens times (length + 1) pairs of token and position |
| RuleMatcher.TokenMatcher.Match | main.go:1836-1852 | the table of failed pairs never changes the answer: it equals the search without a table, and each pair is expanded at most once |
| RuleMatcher.TokenMatcher.MatchToken | main.go:1854-1885 | one expansion continues the search from its token and position |
| RuleMatcher.TokenMatcher.MatchCapture | main.go:1873-1885 | the occurrences of the next literal are tried nearest first until the rest of the pattern fits |
| RuleMatcher.TokenMatcher.LiteralAfter | main.go:1862-1868 | the literal that bounds a capture is the next one, over further captures |
| RuleMatcher.MatchTokens | main.go:1825-1828 | the whole match equals the search and does at most tokens times (length + 1) expansions |
| RuleSyntax.SplitEscaped | main.go:1631-1661 | the text is cut at every unescaped separator; a dangling escape is an error |
| RuleSyntax.FindRuleSeparator | main.go:1608-1629 | the position of the only unescaped arrow, if there is exactly one |
| RuleSyntax.ParseFind | main.go:1663-1706 | literals and captures of the left side, or the error of the first bad place |
| RuleSyntax.ReadReference | main.go:1752-1758 | a digit run read in wrapping 64-bit arithmetic |
| RuleSyntax.ParseReplace | main.go:1708-1765 | literals and references of the right side, or the error of the first bad place |
| RuleSyntax.ParseRule | main.go:1578-1603 | one entry: a case operation or a mapping |
| RuleSyntax.ParseRules | main.go:1558-1606 | the whole rule text, or its first error |
| RuleSyntax.NoErrorMeansClean | main.go:1558-1571 | text without a character error has no space, quote or control character |
| RuleGrammar.FindGrammar | main.go:1663-1706 | a left side is accepted exactly when it can be spelled in plain characters, the five escapes and stars, and says what is spelled: its characters in order, the stars as captures numbered from one |
| RuleGrammar.FindStops | main.go:1663-1706 | a refused left side has a longest accepted start, behind which stands a backslash that starts no escape; the error tells a lone one from a wrong one |
| RuleGrammar.ReplaceGrammar | main.go:1708-1765 | a right side is accepted exactly when it can be spelled in plain characters, the five escapes and references that take all digits behind the dollar sign and are not zero and not above the captures, and says what is spelled |
| RuleGrammar.ReplaceStops | main.go:1708-1765 | a refused right side stops at a backslash that starts no escape or at a dollar sign that starts no reference in range, each with its error |
| RuleGrammar.NumberIs | main.go:1752-1758 | a digit run is read as the 64-bit number that differs from it by a multiple of 2^64 |
| RuleGrammar.MappingReads | main.go:1578-1603 | a mapping is read as its two sides are spelled around the only unescaped arrow |
| RuleGrammar.AcceptedTexts | main.go:1558-1606 | a text is accepted exactly when it is not empty, has only allowed characters, ends in no open escape, and every stretch between unescaped semicolons is a case entry or a mapping of that grammar |
| RuleGrammar.FirstUnclean | main.go:1558-1571 | the first character that is not allowed decides the error |
| RulePrinting.ParsePrint | main.go:1558-1765 | printing any canonical rule list with the language's escapes and parsing it gives the same rules |
| RulePrinting.SegmentsOfJoin | main.go:1631-1661 | joining texts without unescaped separators and splitting gives the same texts |
| RulePrinting.PrintedSeparator | main.go:1608-1629 | between two printed sides the arrow is the only unescaped one |
| RulePrinting.FindPrinted | main.go:1663-1706 | a printed left side parses to its tokens |
| RulePrinting.ReplacePrinted | main.go:1708-1765 | a printed right side parses to its tokens |
| RuleRange.FoundShape | main.go:1663-1706 | a parsed left side alternates: no empty or adjacent literals, captures numbered in order |
| RuleRange.ReplacedShape | main.go:1708-1765 | a parsed right side has no empty or adjacent literals and its references do not exceed the captures |
| RuleRange.ParsedIsCanonical | main.go:1558-1765 | accepted text yields canonical rules exactly when no reference wraps below one |
| RuleRange.PrintIsNormalForm | main.go:1558-1765 | printing what was parsed and parsing again changes nothing |
| RuleRange.ShortReferencesAreSafe | main.go:1752-1758 | with references of at most 18 digits none wraps below one |
| RuleRange.WrappedReferenceIsAccepted | main.go:1752-1761 | behind any left side every number that wraps below zero is accepted as a reference |
| RuleApply.ApplyAsciiModelCase | main.go:1767-1782 | only ASCII letters change case |
| RuleApply.BuildReplacement | main.go:1887-1897 | the replacement for the captures at hand, or the panic exactly when a reference names no capture; what is inserted where is stated by the `RuleReplacement` lemmas |
| RuleApply.ApplyRules | main.go:1784-1808 | entries run left to right once, an empty outcome is skipped; a panic exactly when an entry is out of range on the name that reaches it |
| RuleApply.MappingFires | main.go:1784-1808 | a mapping takes effect exactly when its pattern explains the name and the outcome is not empty |
| RuleApply.NeverEmpty | main.go:1797-1803 | a name that is not empty stays so through every rule chain |
| RuleApply.UnmatchedIsUnchanged | main.go:1784-1808 | when no entry takes effect the name is unchanged |
| RuleApply.ApplyConcat | main.go:1784-1808 | running two rule lists in turn is running their concatenation, panics included |
| RuleApply.RuleStaysInRange | main.go:1887-1897 | an entry is in range on every name exactly when its references all name a capture, and else panics on the name made of its literals |
| RuleApply.AcceptedRulesApply | main.go:1887-1897 | accepted text in which no reference wraps below one applies to every name with all capture indices in range |
| RuleApply.AcceptedRuleApplies | main.go:1887-1897 | accepted text of one entry applies to every name with all indices in range exactly when no reference wraps below one |
| RuleApply.FirstEntryMeetsEveryName | main.go:1784-1808 | a first entry with a reference that names no capture panics on the name made of its literals, whatever follows |
| RuleApply.UnreachedReferenceIsHarmless | main.go:1784-1808 | a family of accepted texts with a reference wrapped below one that stay in range on every name, since no name reaches the entry |
| RuleReplacement.InsertedPieces | main.go:1887-1897 | the replacement is its tokens in order, a literal as it is and `$k` as the k-th capture from the left |
| RuleReplacement.ReferenceInserts | main.go:1887-1897 | a replacement that is one reference inserts just the capture it numbers |
| RuleReplacement.SubstituteConcat | main.go:1887-1897 | two replacements one after the other insert what each inserts |
| RuleReplacement.ReferenceMapping | main.go:1784-1808 | a mapping to `$k` turns a name into the k-th text of its earliest split, unless that is empty |
| RuleReplacement.NumberedPatternRefills | main.go:1887-1897 | captures numbered in order put a pattern back together |
| RuleReplacement.SelfMappingChangesNothing | main.go:1784-1808 | a mapping whose right side spells its left side with `$1`, `$2`, ... leaves every name as it is, and takes effect exactly on the names that are not empty and match |
| RuleReplacement.SelfMappingText | main.go:1558-1808 | the same from the text of such a rule, parsed and applied |
| RuleReplacement.CaseEntry | main.go:1767-1782 | a case entry always takes effect and swaps the letters of one ASCII alphabet for those of the other, in place, and nothing else |
| RuleEditor.IsEscaped | web/src/dsl.ts:5-9 | the backward parity of backslashes |
| RuleEditor.ParityIsEscape | web/src/dsl.ts:5-9 | the backward parity equals the parser's forward escape flag everywhere |
| RuleEditor.SplitUnescaped | web/src/dsl.ts:12-23 | the editor cuts at exactly the places where the parser cuts |
| RuleEditor.SplitEntry | web/src/dsl.ts:28-38 | one row: a case operation or the two sides of the first unescaped arrow |
| RuleEditor.SplitEntries | web/src/dsl.ts:25-40 | all rows of a text |
| RuleEditor.SameCut | web/src/dsl.ts:31-37 | on an accepted mapping the editor's first arrow is the parser's only one |
| RuleEditor.EditorRoundTrip | web/src/dsl.ts:25-53 | on accepted text splitting and joining is the identity exactly when no side is made of byte order marks |
| RuleEditor.AsciiRoundTrip | web/src/dsl.ts:25-53 | on accepted ASCII text splitting and joining is the identity |
| LineDiff.WalkIsDiff | web/src/auditDisplay.ts:129-146 | the diff rebuilds the first list from kept and deleted lines and the second from kept and added ones |
| LineDiff.WalkKeepsMost | web/src/auditDisplay.ts:122-146 | it keeps as many lines as the longest common subsequence, so no diff keeps more |
| LineDiff.WalkIsFirst | web/src/auditDisplay.ts:129-146 | of all diffs that keep as many lines it is the first one when keeping comes before deleting and deleting before adding |
| LineDiff.LcsBound | web/src/auditDisplay.ts:123-128 | no common subsequence is longer than the table's number |
| LineDiff.FillTable | web/src/auditDisplay.ts:122-128 | the table holds the longest common subsequence lengths of all tails |
| LineDiff.DiffLines | web/src/auditDisplay.ts:117-147 | the table and the walk over it compute that diff |
| SseStream.SseRewriter.Write | main.go:70-103 | one chunk: the events completed by it are emitted, the rest is kept, and beyond the cap it is released as it is; where a line break goes is stated by `SseSeams.FedBySeams` |
| SseStream.SseRewriter.Flush | main.go:117-127 | the unfinished event is rewritten and released |
| SseStream.SseRewriter.RewriteEvent | main.go:129-166 | each line in turn, `data:` lines with the name restored |
| SseStream.StreamChunkRewriter.Write | main.go:206-237 | chunks are held while they may be the start of an event stream, then classified for good |
| SseStream.StreamChunkRewriter.Flush | main.go:285-300 | what is held at the end is released |
| SseChunking.DelimiterStays | main.go:168-178 | the first event delimiter of a text stays the first when more arrives |
| SseChunking.RunIsExtract | main.go:70-103 | chunk by chunk the rewriter finds the events of the concatenation |
| SseChunking.StreamIsSse | main.go:206-237 | a stream that starts as server-sent events reaches the event buffer whole, however it is cut |
| SseChunking.ChunkingInvariance | main.go:70-103 | within the cap, any chunking emits what one write of the fed text emits |
| SseChunking.ChunkingDoesNotMatter | main.go:206-237 | with no inserted line break, any chunking emits exactly what one chunk emits |
| SseChunking.UnchangedStream | main.go:129-166 | with no payload changed the output is the input exactly when no event ends in a bare CR, else that many bytes are lost |
| SseChunking.UnbrokenStream | main.go:187-204 | with no payload changed the output is the input exactly when no line break was inserted |
| SseSeams.FedBySeams | main.go:187-204 | what a run feeds to the event buffer, byte for byte: a line feed stands before a piece exactly when the text so far is not empty and does not end in LF or CR, the piece does not start with one, and only spaces or tabs stand before a `data:`, `event:`, `id:`, `retry:` or `:` at its start |
| SseSeams.ChunksBySeams | main.go:206-237 | so any chunking of a recognisable stream emits what one write of its seamed text emits |
| SseSeams.SeamSeparates | main.go:187-204 | a line feed behind an open line keeps what follows on client lines of its own |
| SseSeams.FieldChunks | main.go:187-204 | pieces that are one field line each are fed as those lines joined by line feeds, and a client reads exactly them |
| SseLimits.FirstBlankLine | main.go:168-178 | an event ends at the first blank line, whichever its spelling |
| SseLimits.CutAtBlankLines | main.go:78-93 | the buffer is cut behind every blank line in turn, and the rest has none |
| SseLimits.NextPiece | main.go:70-77 | what one more piece adds to the text, and that an inserted line feed keeps the lines on its two sides apart |
| SseLimits.WithinCapIs | main.go:94-101 | a run stays within the cap exactly when after every write at most 8388608 bytes wait for a delimiter |
| SseLimits.OverflowPassesThrough | main.go:94-101 | once more wait, they and every later write go out as they are |
| SseLimits.OverflowLosesNothing | main.go:70-103 | so with no payload changed and no bare CR every byte arrives, also across an overflow |
| SseKinds.StreamChunks | main.go:313-319 | a chunk counts as a stream exactly when a `data:`, `event:` or `:` stands behind nothing but white space or a blank line is somewhere in it |
| SseKinds.HeldChunks | main.go:321-332 | a chunk is held back exactly when a proper start of one of these is all of it but leading white space |
| SseKinds.HeldBytesArrive | main.go:285-300 | bytes still held back when the stream ends go out unchanged |
| SseKinds.TrimmedOf | main.go:148-150 | stripping a payload takes whole white space characters off both ends and leaves none there, in UTF-8 and by the same characters as the rule parser |
| SseFraming.RewriteIsLinewise | main.go:129-166 | the output of an event has the event's lines, each with its own break and its payload restored, exactly when its last unbroken line comes out neither empty nor with a CR at its end; always so when the event ends in no bare CR |
| SseFraming.FreeByLines | main.go:168-178 | a text that ends in no bare CR holds no event delimiter exactly when no empty line with a fitting break follows another line |
| SseFraming.RewriteKeepsFree | main.go:129-166 | restoring payloads neither makes nor breaks an event delimiter in an event that ends in no bare CR |
| SseCuts.OutputFree | main.go:129-166 | in general the output up to its delimiter holds none exactly when the event without its bare CR holds none |
| SseCuts.SameEvents | main.go:70-166 | the output of a text cuts into the text's events, with the same delimiters and each restored, exactly when no event gets a delimiter by losing its bare CR |
| SseCuts.NoBareCrStands | main.go:70-166 | so in particular when no event ends in a bare CR |
| SseCuts.StreamCutsAlike | main.go:206-237 | however the stream is cut into chunks, with or without inserted line breaks, the same holds of what was fed to the event buffer |
| SseClient.OutputTexts | main.go:129-166 | without lone CRs the lines of the output are those of the text, each restored, dropped CRs and mixed line breaks included |
| SseClient.RestoredValue | main.go:150-163 | a data line whose payload changes carries the restored payload, every other line what it carried |
| SseLostCr.CrBeforeDelimiter | main.go:149-152 | a CR dropped before a delimiter makes no difference to the events a client reads, whatever bytes come before it |
| SseLostCr.UnchangedEvents | main.go:70-166 | for every text with no payload changed, whatever its bytes, the output written as a whole gives a client of the standard the text's events, less the last exactly when a CR at the very end is all that ends it |
| SseLostCr.UnchangedClient | main.go:206-237 | with no payload changed a client of the standard reads the same events from any text fed, except that the last one is lost exactly when a CR at the very end is all that ends it |
| SseLostCr.EventLost | main.go:117-127 | the input `data:x` CR LF CR, whose one event is lost |
| SseLostCr.ClientSeesSameEvents | main.go:206-237 | when every CR is half of a CR LF or ends an event, a client of the standard reads the events of what was fed, line for line with the payloads restored, with that same exception and no other |
| SseLostCr.NoLoneCrIsPaired | main.go:206-237 | without lone CRs there is no exception |
| SseRawJson.FramedExactlyWithoutCr | main.go:302-311 | a framed value arrives as one event whose data is the value exactly when it has no CR |
| SseRawJson.RawJsonArrives | main.go:239-263 | a chunk of bare JSON values reaches a client as one event per value, in order, each carrying the restored value; unframed the restored values come out one by one |
| SseRawJson.RawRun | main.go:206-237 | chunks that are no stream and no start of one are handled one by one, with nothing held back or left over |
| Calendar.YearsInClosedForm | notification_schedule.go:142-147 | the day count of the proleptic Gregorian calendar, year by year and in closed form |
| Calendar.SameNumberSameDate | notification_schedule.go:142-147 | a day number names one date |
| Calendar.TimeDateIs | notification_schedule.go:142-147 | normalising a month or day beyond its range gives the date meant by the caller |
| Calendar.LeapYearNear | notification_schedule.go:45-60 | leap years are at most eight years apart |
| Schedule.LastMonthly | notification_schedule.go:102-115 | the greatest month boundary not after an instant |
| Schedule.NextMonthly | notification_schedule.go:34-43 | the least month boundary after an instant |
| Schedule.NextMonth | notification_schedule.go:149-155 | the month after that of an instant |
| Schedule.LastYearly | notification_schedule.go:117-132 | the greatest yearly occurrence not after an instant, over the nine years searched |
| Schedule.NextYearly | notification_schedule.go:45-60 | the least yearly occurrence after an instant, over the nine years searched |
| Schedule.LastOccurrence | notification_schedule.go:99-133 | the greatest occurrence not after an instant, none exactly when the plan has none at all |
| Schedule.NextTrigger | notification_schedule.go:26-62 | the least occurrence after an instant, none exactly when the plan has none at all |
| Schedule.NeverOccurs | notification_schedule.go:45-62 | the search fails exactly for dates that exist in no year |
| Schedule.DueAt | notification_schedule.go:64-97 | due exactly when an occurrence came after the last success, or the interval passed |
| ScheduleRuns.SpanIsAutomaton | notification_schedule.go:64-97 | over any ordered run of ticks, accepted and failed sends and other platforms' sends, a calendar plan fires at a tick of a span between occurrences exactly when no job waits and none has been sent in the span |
| ScheduleRuns.OneSendPerSpan | notification_service.go:481-507 | at most one job of a platform is accepted in a span, and every further firing follows a failure of its own |
| ScheduleRuns.FiresAgain | notification_service.go:496-507 | after a failed send the next tick of the span fires again |
| ScheduleRuns.FiresPerSpan | notification_schedule.go:64-97 | without failures and other platforms exactly once when the span has a tick and no earlier job still waits at its start, and else never |
| ScheduleRuns.FiresOncePerSpan | notification_service.go:481-503 | so exactly once in every span with a tick, when each job is sent before the next occurrence |
| ScheduleRuns.IntervalSpacing | notification_schedule.go:67-80 | sends of an interval plan are more than the interval less one second apart, whatever fails between them |
| ScheduleRuns.IntervalFires | notification_schedule.go:67-80 | and the first tick a whole interval after the stored time fires |
| PlanLoops.ScheduleIsTick | notification_service.go:247-313 | a turn of the schedule loop on the store is a tick of the target's run |
| PlanLoops.DeliveryIsEvent | notification_service.go:489-507 | a turn of the delivery loop for any job is one event, or none, of the run of each target |
| PlanLoops.SweepOrBootIsFail | notification_service.go:593-633 | a sweep or a boot may give a waiting job up and does nothing else to the run |
| JobStore.NotificationStore.BumpRevision | notification_store.go:140-156 | the revision grows by one |
| JobStore.NotificationStore.StoreClock | notification_store.go:207-217 | the send time is stored in whole seconds |
| JobStore.NotificationStore.UpsertJob | notification_store.go:220-263 | a pending job under the key is merged into, anything else replaced |
| JobStore.NotificationStore.ClaimDueJobs | notification_store.go:267-316 | the first due pending jobs in key order become sending and are returned; `JobFields.ClaimInFields` says which and when |
| JobStore.NotificationStore.FinishJob | notification_store.go:346-395 | the job of an ID becomes terminal and gets a record; unknown IDs and outcomes change nothing |
| JobStore.NotificationStore.RecoverOnBoot | notification_store.go:397-447 | every sending job becomes unknown, with one record each |
| JobStore.NotificationStore.SupersedeStaleJobs | notification_service.go:593-633 | pending jobs of an older revision are superseded, no others |
| JobStore.NotificationStore.PendingJobExists | notification_service.go:639-663 | whether the target has a pending or sending job, whatever the period |
| JobStore.KeysWhereHold | notification_service.go:602-617 | the keys collected by a read loop are exactly those whose job qualifies, each once |
| JobFields.ClaimInFields | notification_store.go:267-316 | a claim returns, in cursor order, jobs that were pending with their time come, each now sending and otherwise unchanged; everything else stays, and a pending job whose time has come stays behind only when the limit is positive, that many jobs were returned and all stand before it |
| JobFields.UpsertInFields | notification_store.go:220-263 | which row an upsert writes and every field of it, merged or new; all other rows and tables stay |
| JobFields.SupersedeInFields | notification_service.go:593-633 | a sweep supersedes exactly the pending jobs of a smaller revision and counts them |
| JobHistory.LastNoteIsStored | notification_store.go:220-447 | over every run what is stored under a key has the payload and the time of the last write to it |
| JobHistory.BackoffIsKept | notification_store.go:284-286 | over every run a job requeued for a time is in no batch claimed before that time, unless something is written over it |
| JobHistory.DeliverInFields | notification_store.go:346-395 | a delivered job becomes sent, failed or unknown as its outcome says and gets the record of its ID, target, period, outcome and error |
| JobHistory.RecoverInFields | notification_store.go:397-447 | recovery turns exactly the sending jobs unknown and writes each one record with its target and `restart_during_send` |
| JobHistory.EndedJobsAreTold | notification_store.go:346-447 | after every run each sent, failed or unknown job has a record of the same target, period and outcome |
| JobProtocol.NextKeeps | notification_store.go:220-447 | every step of the protocol keeps the invariant |
| JobProtocol.RecoveryCounts | notification_store.go:400-447 | recovery writes exactly one record for every job it takes out of sending |
| JobSafety.ClockReadsLastStored | notification_store.go:187-217 | over every run a dimension's clock reads the last time stored for it, in whole seconds, whatever else happens |
| JobSafety.ExactlyOneRecord | notification_store.go:346-447 | over every run, a claimed job has exactly one delivery record once it is no longer being sent, never two, and no other job has one |
| JobSafety.FinishRecords | notification_store.go:346-395 | a finish takes its job from no record to one and makes its ID terminal |
| JobSafety.NoRevival | notification_store.go:220-316 | a terminal ID never becomes pending or sending again |
| JobSafety.DeliveredIsFresh | notification_service.go:462-508 | every job a pass delivers carries a revision no older than the one the pass read at its start |
| JobSafety.OneInFlightPerTarget | notification_service.go:323-381 | on every run without an enqueue of another period for the free target of a retry that is due, no store holds two pending or sending jobs of one target |
| JobSafety.SerialPassesKeepOnePerTarget | notification_service.go:323-381 | in particular when no enqueue comes while a send pass is delivering |
| JobSafety.EnqueueThenRequeue | notification_service.go:569-581 | after such an enqueue the requeue leaves two jobs of one target exactly when the periods differ; with the same period it merges into a pending job without a revision |
| JobSafety.RetryIsSwept | notification_store.go:232-239 | a sweep drops a requeued job exactly when it runs at a greater revision than the job's: 0 when the requeue merged, else the store's at the requeue |
| JobSafety.CollisionBreaksSingle | notification_service.go:569-581 | the condition is exact: every run up to its first such enqueue is broken by the requeue that is due |
| JobSafety.OverlapBreaksSingle | notification_service.go:569-581 | such runs exist |
| JobService.NotificationService.EnqueueTarget | notification_service.go:361-379 | a busy target is skipped, a free one gets a job of the current revision |
| JobService.NotificationService.ScheduleTarget | notification_service.go:262-282 | the schedule loop for one target: its clock is read and, when the plan is due by it, the target enqueued |
| JobService.NotificationService.RequeueForRetry | notification_service.go:569-581 | a rate-limited job is upserted again under a new ID |
| JobService.NotificationService.DeliverJob | notification_service.go:489-507 | one turn: finish, store the send time when accepted, requeue when the platform asks for it |
| JobService.NotificationService.SendTick | notification_service.go:462-509 | a whole pass: supersede, claim, deliver each job in turn until the context is cancelled |
| JobService.EnqueueThrottles | notification_service.go:361-379 | an enqueue leaves its target busy, so that no later enqueue of the target changes anything, and leaves all other keys alone; it is one step of the protocol |
| JobFields.EnqueueInFields | notification_service.go:361-379 | an enqueue is dropped exactly while a job of its target waits or is being sent, and otherwise leaves its job pending under its key at the current revision, with its payload and time |
| JobFields.DeliverOneInFields | notification_service.go:489-507 | one delivered job: its record, the send clock of its dimension when accepted, and its row; a failure with a wait leaves a pending job of the same target, period and payload for the time the wait is over |
| JobFields.PassIsBounded | notification_service.go:475-507 | a pass only adds records, ten at most |
| JobService.TurnIsRun | notification_service.go:489-507 | a turn of the delivery loop is a run of the protocol to the same store |
| JobService.SendPassIsRun | notification_service.go:462-509 | a whole pass, cancelled or not, is a run of the protocol to the same store |
| AuditJournal.LinesSpell | audit_query.go:145-147 | lines and tail are the file cut at every newline |
| AuditJournal.AppendDecoded | audit.go:112-168 | an append cut at any byte makes readable what was there, merges nothing, and adds its event when its text is complete |
| AuditJournal.RunIsRecovered | audit.go:112-168 | after any run of torn and whole appends the reader finds exactly the events whose text landed and got a newline, in order |
| AuditJournal.CompletedIsDecodedOnce | audit.go:112-168 | a completed append is decoded exactly once, between the events before and after it |
| AuditJournal.AuditLog.AppendAuditEvent | audit.go:112-168 | the bytes written, with the separator for a torn tail, and when success is reported |
| AuditJournal.AuditLog.BeginAudit | audit.go:78-97 | an operation is running exactly when its start was confirmed |
| AuditJournal.AuditLog.FinishAudit | audit.go:99-109 | an operation stops running, and is unconfirmed when its finish failed |
| AuditReader.SplitLines | audit_query.go:145-147 | the file cut at every newline |
| AuditReader.MergeFinish | audit_query.go:195-214 | a finish completes its item; which field comes from which event is stated by `AuditFields.ItemFollowsEvents` |
| AuditReader.ReadEvent | audit_query.go:160-215 | one event: a new item, a completed item, or a warning |
| AuditReader.ReadAuditDay | audit_query.go:133-231 | the items of a day, each operation once and the newest first, and the warnings, a torn last line included |
| AuditReader.OneListing | audit_query.go:216-230 | a report has one listing, whatever order the items come in |
| AuditReader.OwnEventsOnly | audit_query.go:160-215 | the item of an operation depends on its own events alone |
| AuditFields.AcceptedEvents | audit_query.go:233-264 | which starts and finishes written by this version are accepted: a finish succeeded with a change or without, failed without, or unknown |
| AuditFields.ItemFollowsEvents | audit_query.go:160-215 | whatever is in the file, an operation has an item exactly when it has an accepted start, and every field of it is told by its first start and the first finish behind it that is not older |
| AuditFields.WarningsListRefusals | audit_query.go:145-215 | the warnings are exactly the refused lines, in order and by number, each with the reason that the lines in front of it give |
| AuditFields.ListingRunsDown | audit_query.go:223-230 | a listing runs from the newest start to the oldest, and from the greatest ID to the least among equal times |
| AuditReader.ReportIs | audit_query.go:133-231 | the reported item of an operation, from its own events and the tables of the process |
| AuditRuns.AppendEvents | audit.go:112-168 | an append leaves the events of every other operation alone |
| AuditRuns.RunKeeps | audit.go:78-109 | files and tables agree with the status of every operation after any run |
| AuditRuns.RunIsReported | audit_query.go:133-231 | after any run of operations, torn writes and restarts every operation is reported as it went, each field of its item from its start or its finish |
| AuditRuns.UnconfirmedIsUnknown | audit_query.go:216-222 | an operation whose finish append failed in this process is reported unknown, even if its line is complete |
| AuditRuns.FinishIsReported | audit.go:99-168 | a finish whose every byte was written and synced is reported as it says; one that was refused, cut short or met an error is reported unknown |
| MessageSplit.SectionsSpell | notification_platform.go:83-83 | the sections joined are the body, and none holds a separator |
| MessageSplit.HardCut | notification_platform.go:84-91 | an oversized section is cut into full pieces, each a part of its own, and a rest that fits |
| MessageSplit.TakeSection | notification_platform.go:83-101 | one turn of the section loop keeps the text and fills the open part greedily, so that no two neighbouring parts fit together |
| MessageSplit.StaysAhead | notification_platform.go:92-101 | after every section the packer is ahead of every cut at section boundaries |
| MessageSplit.SplitMessage | notification_platform.go:77-107 | parts fit and spell the body with only separators dropped; no two neighbours could have been one part, and they are cut between sections except behind a full piece of one section; when every section is there and fits no cut at section boundaries has fewer parts |
| AuthNames.WholeSeconds | keeper_auth_names.go:143-143 | the least whole number of seconds that covers the wait |
| AuthNames.NameService.EnterGet | keeper_auth_names.go:135-166 | the first critical section: cooldown, cache, joining or leading a fetch |
| AuthNames.NameService.CompleteGet | keeper_auth_names.go:167-204 | the second critical section, with the generation check |
| AuthNames.NameService.PublishUpdate | keeper_auth_names.go:294-305 | an update opens a generation and replaces the cache; by whose names is stated by `AuthNamesHistory.CacheIsLast` |
| AuthNames.OneFetchInFlight | keeper_auth_names.go:152-165 | over every interleaving at most one fetch is in flight |
| AuthNames.OutdatedFetchChangesNothing | keeper_auth_names.go:168-174 | once an update is published no fetch begun before it changes the cache or its times |
| AuthNames.AnswersAreCurrent | keeper_auth_names.go:135-205 | no answer is marked with a generation before the one its reader came in at; the names themselves are in `AuthNamesHistory.AnswersAreBrought` |
| AuthNames.WaitersAreServed | keeper_auth_names.go:152-161 | a reader only waits for a flight that is under way or has ended |
| AuthNames.NoFetchWhileCooling | keeper_auth_names.go:138-146 | a failure with a cooldown stops all fetching until it is over or an update comes |
| AuthNamesHistory.CacheIsLast | keeper_auth_names.go:167-205 | over every interleaving the cache is what the last current fetch or update left: its names, ready for a minute, or its failure, with no fetching for a minute after a failed login and for the asked time after a rate limit |
| AuthNamesHistory.EnterIs | keeper_auth_names.go:135-166 | what a reader that comes in gets, from that last event alone |
| AuthNamesHistory.AnswersAreBrought | keeper_auth_names.go:135-205 | names in an answer were brought by an update or a current fetch of the run, and not before the last update its reader found when it came in |
| AuthNamesHistory.FlightGetsCache | keeper_auth_names.go:167-204 | the reader that fetched and all that waited for it get what the cache then holds |
| RoundRobin.ListedOnce | main.go:422-427 | in whatever order the candidates come, they have one sorted listing |
| RoundRobin.ChannelRoundRobin.PickNext | main.go:421-439 | the next position of the sorted listing, starting over when the candidates change |
| RoundRobin.ChannelRoundRobin.Reset | main.go:415-419 | all turns are forgotten |
| Sorting.LeqIsLexicographic | main.go:426-426 | the order of the listing is that of the first place where two IDs differ |
| RoundRobinRestart.PickIs | main.go:421-439 | after any uses a pick returns the sorted candidate at the position that the picks for its key over candidates that look the same have led to, counted in 64 bits |
| RoundRobinRestart.PickRestarts | main.go:429-434 | it starts over at the first for a key that is new, has been reset or whose candidates look changed |
| RoundRobinRestart.SameSignature | main.go:427-434 | for IDs without a NUL, candidates look the same exactly when they are, in whatever order |
| RoundRobinRestart.NulConfuses | main.go:427-434 | an input with a NUL where other candidates look the same |
| RoundRobinFairness.ChosenIsPicks | main.go:421-439 | the picks of a key follow its own counter, whatever the other keys do |
| RoundRobinFairness.PicksAreEven | main.go:421-439 | in any window of picks of a key over the same distinct IDs, in any listing order, two IDs are chosen equally often or once more |
| RoundRobinFairness.WrapBreaksEvenness | main.go:435-437 | a short run across the wrap where one ID is chosen twice before another is chosen at all |
| RoundRobinFairness.EvenExactlyWhen | main.go:435-437 | all windows are even exactly when the number of IDs divides 2^64 |

## Left out

- RuleSyntax.ParseRules: the prose of error messages is not modelled, only their kind and order.
- RuleApply.ApplyRules: the warning that is logged for a skipped entry is not modelled.
- RuleApply.AcceptedRulesApply: for several entries only sufficient; which names reach a later entry is not characterised.
- RuleEditor.SplitUnescaped: positions count characters, not UTF-16 units; the text is the same.
- LineDiff.DiffLines: takes the two line lists; turning arbitrary JSON values into lines is not modelled.
- SseStream.StreamChunkRewriter.Write: restoring a name never fails; the error paths of the JSON library are not modelled.
- SseLostCr.ClientSeesSameEvents: for streams with a CR inside an event that no LF follows only unchanged payloads are characterised (`SseLostCr.UnchangedClient`). A byte order mark at the start, which only the standard strips, does not occur in a stream that starts with `data:`, `event:` or `:`; dispatching and reconnecting are left out.
- Schedule.NextTrigger: the text of the time of day is parsed already, and intervals do not overflow a 64-bit duration.
- ScheduleRuns.SpanIsAutomaton: a tick whose job is delivered between its due check and its enqueue is not covered.
- JobStore.NotificationStore.UpsertJob: creation and update times, attempts and details are not modelled, and rows that fail to decode do not occur.
- JobStore.NotificationStore.FinishJob: a failing database is not modelled.
- JobService.NotificationService.SendTick: nothing interleaves with this one pass, which the protocol allows; the status counters and the sending itself are left out.
- JobService.NotificationService.EnqueueTarget: the statistics, the rendering and the loop over platforms around it are left out.
- JobSafety.ExactlyOneRecord: test sends and manual delivery retries, which finish or replace jobs outside the claim protocol, are left out.
- AuditJournal.AuditLog.AppendAuditEvent: directories, permissions and day paths are left out.
- AuditReader.ReadAuditDay: filtering by module and paging are left out.
- MessageSplit.SplitMessage: a limit below one, for which the program does not return, is excluded. With an empty or oversized section the fewest parts are not claimed, only that no two neighbours could have been one part.
- AuthNames.NameService.PublishUpdate: one clock reading stands for two, and the generation does not wrap.
- AuthNames.AnswersAreCurrent: speaks of the generations of answers only; their names are those of `AuthNamesHistory.AnswersAreBrought`.
- AuthNames.OneFetchInFlight: choosing the service for a configuration, fetching and parsing the names are left out.
- RoundRobin.ChannelRoundRobin.PickNext: an empty candidate list, which the only caller rejects, is excluded.
- HTTP clients, platform posting and signing, the plugin ABI, management requests, key bindings, rendering and the web pages are not part of this model.
