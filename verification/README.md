# Verified models of j-chkmail's engines

j-chkmail is a mail filter. This project models the small stateful engines at its
core and proves what they promise over every input, every run and every schedule:

- the Bayes token pipeline: learn files are aggregated, printed as `.tok` files,
  parsed again, merged and thresholded (`Tokens`, `TokenAlgebra`, `TokenGrouping`,
  `TokenPipeline`, `TokenCounts`, `TokenOrder`, `TokenLines`, `TokenStats`);
- the configuration table: typed options, a line reader, a file printer and
  reconfiguration over old state (`ConfTable`, `ConfReload`, `ConfRoundTrip`,
  `ConfLines`);
- content scoring that stops evaluating expressions once a message has scored
  enough, the part counters, and the HTML tag counter (`ContentScore`, `TagCount`);
- the greylist server: the thread counter, one memory access at a time, and the
  command loop of a session (`GreydThreads`, `GreydSession`);
- the table of open connections with its lazy cleanup (`ConnOpen`);
- the policy search, the map builder and the guarded cursor dump (`Policy`,
  `PolicyAnswers`, `MakeMap`, `Cursor`).

`CText` holds the C string and stdio routines they share (`strlcpy`, `fgets`,
`%d`, `sscanf`, `strcmp` order), `Perm` folds and permutations.

Loops and updates of the program are methods and classes whose postconditions tie
them to functions; the properties are lemmas about those functions. Whatever lies
outside (the regex engine, the hashes, `str2long`, clocks, the database's refusal
of a record, a failed insertion) is a parameter or part of an input.

Integers are mathematical integers. `Good` keeps printed counts within 32 bits.

Where the code differs from what one would expect, the model follows the code:

- A printed option value is read back exactly when it has no end of line, no
  leading `=` or blank and no trailing blank (`ParsePrintIff`): leading blanks are
  lost like trailing ones.
- A key keeps 121 characters of a token, so tokens that agree on them share a count
  (`TokenCount`, `MergesIff`, `TokensMerge`); up to 121 a token has its own
  (`OwnCount`).
- A blank inside a file name makes its printed crypt line read as plain
  (`CryptLineReadsBack`).
- With no hash on the command line, the first `.tok` file chooses the encoding
  (`PlainCommandLine`); `TwoFileOrderIff` says exactly when the order of two files
  then matters. A file with a token before its crypt line inherits the encoding of
  the file before it (`CryptFirstIff`, `LeftoverEncoding`).
- A close that matches no open can be seen through a cleanup
  (`UnmatchedCloseShows`), and `connopen_reset` leaves a tree that takes no
  insertion (`ResetIsFinal`).
- In the greylist session the result of `recvfrom` is kept in an unsigned variable,
  so a receive error looks like an empty command. The flood test comes every 1002
  turns.
- The policy search takes the domain from the key, not from the mailbox the key
  shows: it is the mailbox's own if and only if the key has no angle brackets around
  a mailbox (`OwnDomainIff`).
- The dump reads keys and data into buffers of 256 bytes, and a record that does
  not fit ends it (`DumpExact`).
- Skipping expressions is invisible below the maximum exactly from starting scores
  that are `Harmless` (`ShortCircuitIff`). Scores that are not negative are, and the
  program clears them before a message (src/mlfi_cleanup.c:118).

`dafny verify dfyconfig.toml` checks the whole project.

## Model

| member | source | states |
|---|---|---|
| `Tokens.AggregateFile` | j-bayes-tbx/j-bayes-tbx.c:969-1013 | the loop over a learn file builds the table of its token lines (fields four to six) and its last encoding label |
| `Tokens.PrintTree` | j-bayes-tbx/j-bayes-tbx.c:851-859 | the tree is printed with every token once, in `strcmp` order, as `TOKEN:%-40s %d %d` |
| `Tokens.GroupOneLine` | j-bayes-tbx/j-bayes-tbx.c:679-783 | the branches on one `.tok` line: encoding change, abandoned file, token stored plain or hashed |
| `Tokens.GroupTokenFiles` | j-bayes-tbx/j-bayes-tbx.c:652-787 | the reading loops compute the table, output encoding and current file encoding that `Group` gives |
| `TokenLines.TokenLineIs` | j-bayes-tbx/j-bayes-tbx.c:717-743 | a line of "token:" in any case, a token, blanks and two numbers gives that token, the first number as spam and the second as ham |
| `TokenLines.HalfTokenLine` | j-bayes-tbx/j-bayes-tbx.c:733-743 | a token line with one number only gives nothing |
| `TokenLines.CryptLineIs` | j-bayes-tbx/j-bayes-tbx.c:679-689 | a line of "crypt:" in any case, a name and a label sets the label's code |
| `TokenLines.LabelCodeIs` | libs/j-msg-hash.c:191-205 | md5 and sha1 in any case are the hashes, everything else is plain |
| `TokenLines.CryptStep` | j-bayes-tbx/j-bayes-tbx.c:689-709 | what a crypt line does to the output and file encodings, and when it ends the file |
| `TokenLines.TokenStep` | j-bayes-tbx/j-bayes-tbx.c:745-780 | a token's counts are added under "TOKEN:" and the digest of the token alone, or under the token as it is, 127 characters of it, and nothing else changes |
| `TokenLines.LearnLineIs` | j-bayes-tbx/j-bayes-tbx.c:969-1013 | a learn line's fourth word tells spam from ham, its fifth is the multinomial count, its sixth the token |
| `TokenLines.LearnCryptIs` | j-bayes-tbx/j-bayes-tbx.c:913-925 | a learn line "crypt label" sets 15 characters of the label |
| `TokenAlgebra.AddAllIs` | j-bayes-tbx/j-bayes-tbx.c:765-780 | after any insertions a key holds the sum of its entries, and is in the tree iff it has one |
| `TokenAlgebra.Reaggregate` | j-bayes-tbx/j-bayes-tbx.c:997-1012 | summing per token first and re-keying (hashing) afterwards gives the same table as re-keying every line |
| `TokenGrouping.GroupAddsContribution` | j-bayes-tbx/j-bayes-tbx.c:679-783 | under a fixed output encoding, grouping a file adds exactly its contribution |
| `TokenGrouping.CryptFirstIff` | j-bayes-tbx/j-bayes-tbx.c:679-762 | what a file contributes is independent of the encoding left before it, for every digest, iff the output is plain or a crypt line comes ahead of its tokens |
| `TokenGrouping.ForeignFileAddsNothing` | j-bayes-tbx/j-bayes-tbx.c:702-709 | a file in another hash contributes nothing |
| `TokenGrouping.FileContribution` | j-bayes-tbx/j-bayes-tbx.c:702-762 | a file in one encoding contributes its tokens, hashed if it is plain and the output is not, or nothing |
| `TokenGrouping.GroupingIsSum` | j-bayes-tbx/j-bayes-tbx.c:652-787 | with crypt lines first, and a hash on the command line or a plain file in front, the table is the pointwise sum over the files |
| `TokenGrouping.GroupingOrderIndependent` | j-bayes-tbx/j-bayes-tbx.c:652-787 | ... and any permutation of the files gives the same table |
| `TokenGrouping.UniformFile` | j-bayes-tbx/j-bayes-tbx.c:691-709 | for any command line, what a file in one encoding adds and which output encoding it leaves |
| `TokenOrder.PlainCommandLine` | j-bayes-tbx/j-bayes-tbx.c:691-700 | with no hash on the command line the whole run equals the run under the hash leading the first file |
| `TokenOrder.PlainOrderIndependent` | j-bayes-tbx/j-bayes-tbx.c:691-700 | so orders that begin with the same encoding, a hash or plain, give the same table |
| `TokenOrder.TwoFileOrderIff` | j-bayes-tbx/j-bayes-tbx.c:691-762 | two files of one encoding each give the same table in both orders, for every digest, iff the encodings are equal, or one file is plain without tokens, or they are two hashes with equal tables |
| `TokenOrder.LeftoverEncoding` | j-bayes-tbx/j-bayes-tbx.c:644-762 | with a hash on the command line, a file without a crypt line may change places with a hashed one, for every digest, iff it has no token to inherit the encoding |
| `TokenOrder.FirstFileExample` | j-bayes-tbx/j-bayes-tbx.c:679-783 | plain, hashed and bare files of these kinds exist |
| `TokenPipeline.TokenLineReadsBack` | j-bayes-tbx/j-bayes-tbx.c:717-743 | a printed token line parses back to its token and both counts, for every space-free token |
| `TokenPipeline.CryptLineReadsBack` | j-bayes-tbx/j-bayes-tbx.c:679-690 | the code a printed crypt line gives for every file name: its label's, or plain when a blank in the name has something after it |
| `TokenPipeline.PrintedKinds` | j-bayes-tbx/j-bayes-tbx.c:1015-1046 | a printed file is one crypt line followed by exactly its tree's tokens |
| `TokenPipeline.PrintedAdds` | j-bayes-tbx/j-bayes-tbx.c:717-783 | reading a printed file with `fgets` and grouping it adds what its learn file held |
| `TokenPipeline.PipelineTable` | j-bayes-tbx/j-bayes-tbx.c:632-787 | aggregate, print, re-parse and group builds the table of all token lines, binary or multinomial, for any command line |
| `TokenPipeline.EndToEndCounts` | j-bayes-tbx/j-bayes-tbx.c:969-1013 | every key ends with exactly the number of spam-tagged and ham-tagged token lines that end under it over all files, and is present iff it has one |
| `TokenCounts.MergesIff` | j-bayes-tbx/j-bayes-tbx.c:764-765 | two tokens share a key iff they are equal or agree on their first 121 characters |
| `TokenCounts.TokenCount` | j-bayes-tbx/j-bayes-tbx.c:717-783 | where no token is hashed on the way, a token's key holds its own lines plus those of the tokens it shares the key with |
| `TokenCounts.KeyCount` | j-bayes-tbx/j-bayes-tbx.c:717-783 | whatever is hashed on the way, a key ends with the lines of the tokens whose spelled-out key it is |
| `TokenCounts.HashedCount` | j-bayes-tbx/j-bayes-tbx.c:746-763 | when plain files are hashed on the way, "TOKEN:" + digest(t) ends with the lines of the tokens that have that digest |
| `TokenCounts.OwnCount` | j-bayes-tbx/j-bayes-tbx.c:717-783 | a token of fewer than 121 characters, or of 121 when none is longer, ends with exactly its own spam and ham lines |
| `TokenCounts.IsSixthField` | j-bayes-tbx/j-bayes-tbx.c:983-987 | those lines are the token lines whose sixth field is the token |
| `TokenCounts.TokensMerge` | j-bayes-tbx/j-bayes-tbx.c:764-780 | two merging tokens learnt once each in one file end under one key with a count of two |
| `TokenCounts.LimitIsExact` | j-bayes-tbx/j-bayes-tbx.c:764-765 | tokens of 122 characters can merge |
| `TokenStats.BtokArg.Browse` | j-bayes-tbx/j-bayes-tbx.c:604-629 | one callback keeps the counters equal to the figures of the records seen |
| `TokenStats.BtokArg.BrowseAll` | j-bayes-tbx/j-bayes-tbx.c:825-834 | the figures are the counts and sums over exactly the kept tokens |
| `TokenStats.FeatureIdentityIff` | j-bayes-tbx/j-bayes-tbx.c:604-629 | total = spam + ham - shared features iff no kept token has both counts at zero or below |
| `TokenStats.FeatureIdentity` | j-bayes-tbx/j-bayes-tbx.c:604-629 | so it holds for every minimum of at least one |
| `TokenStats.RaisingMinimum` | j-bayes-tbx/j-bayes-tbx.c:604-629 | raising the minimum never raises a figure |
| `ConfTable.Table.FindEnum` | libjoe/j-cf.c:944-957 | the search loop finds the first option equal to the value or to OTHER |
| `ConfTable.Table.GetIdOf` | libjoe/j-cf.c:663-674 | the first option with that tag, case ignored |
| `ConfTable.Table.SetValue` | libjoe/j-cf.c:697-742 | the whole table after an assignment, and whether it was taken |
| `ConfLines.SetThenGet` | libjoe/j-cf.c:697-742 | a text reads back cut to its size, a number as 63 characters and its conversion |
| `ConfLines.SetThenGetChoice` | libjoe/j-cf.c:728-737 | a choice reads back as the first option that is the value or OTHER, with OTHER's own text |
| `ConfLines.SetRefused` | libjoe/j-cf.c:729-731 | a refused choice leaves what the option shows |
| `ConfLines.OthersKept` | libjoe/j-cf.c:697-742 | an assignment or append changes one option at most |
| `ConfTable.Table.AppendValue` | libjoe/j-cf.c:774-803 | the whole table after an append |
| `ConfLines.AppendThenGet` | libjoe/j-cf.c:774-803 | an appended text reads back on a new line when both fit, and is dropped when not |
| `ConfTable.Table.AddOption` | libjoe/j-cf.c:520-655 | the option is placed in the first free slot, or refused as known or for lack of room |
| `ConfLines.AddResult` | libjoe/j-cf.c:520-655 | -1 for a known option, -2 for no free slot |
| `ConfTable.Table.Initialise` | libjoe/j-cf.c:172-213 | the table of all options with their null values |
| `ConfLines.InitialSizes` | libjoe/j-cf.c:520-655 | option i in slot i of 256, choices of 127 characters, texts of their declared length |
| `ConfLines.InitialValue` | libjoe/j-cf.c:520-655 | a fresh text or number reads as its null value |
| `ConfLines.InitialChoice` | libjoe/j-cf.c:520-555 | a fresh choice reads as its null value's option |
| `ConfTable.Table.ReadFile` | libjoe/j-cf.c:967-1050 | the `fgets` loop applies each line's assignment in order |
| `ConfLines.LineReads` | libjoe/j-cf.c:989-1028 | from blanks, a key of letters, digits, `_`, `.`, `@`, separators `=`, space, tab, a value, blanks and an end of line, the reader takes the key with `_` for `.` and the value |
| `ConfLines.LineIgnored` | libjoe/j-cf.c:996-1005 | comments and blank lines give nothing |
| `ConfLines.KeyAlone` | libjoe/j-cf.c:1020-1028 | a key without a value gives nothing |
| `ConfLines.LineSets` | libjoe/j-cf.c:1030-1046 | a line whose key is an option's tag, case ignored, assigns its value to that option |
| `ConfLines.UnknownKey` | libjoe/j-cf.c:1030-1046 | a line with any other key changes nothing |
| `ConfLines.ValidTagIs` | libjoe/j-cf.c:966-967 | the tags the results are about: up to 63 key characters but `.`, LOG_LEVEL for one |
| `ConfTable.Table.Configure` | libjoe/j-cf.c:1205-1229 | initialise once, then defaults, then the file, over the old state |
| `ConfTable.Table.ReadStr` | libjoe/j-cf.c:860-901 | the text of an option by kind, with OTHER's own text, and NULL for the rest |
| `ConfLines.UnknownId` | libjoe/j-cf.c:810-901 | an id no option has reads as NULL and -1 |
| `ConfTable.Table.PrintRunning` | libjoe/j-cf.c:359-482 | the text of the RUNNING file, verbose or not |
| `ConfLines.OptionPrinted` | libjoe/j-cf.c:438-460 | an option is printed with what `cf_get_str` gives |
| `ConfLines.VersionPrinted` | libjoe/j-cf.c:441-460 | VERSION is printed with the program's version |
| `ConfLines.SectionChanges` | libjoe/j-cf.c:410-418 | a section header comes exactly where the section changes |
| `ConfReload.LastAcceptedSound` | libjoe/j-cf.c:697-742 | what "last accepted" means: accepted, with none accepted after it |
| `ConfReload.ApplyValsHeld` | libjoe/j-cf.c:697-742 | a series of assignments leaves the meaning of the last accepted text, whatever the record held |
| `ConfReload.ConfigureHolds` | libjoe/j-cf.c:1205-1229 | after `configure(F)` an option holds its last accepted line in F, else its default, else its previous value |
| `ConfLines.ConfiguredText` | libjoe/j-cf.c:1205-1229 | `cf_get_str` of a text after `configure(F)`: its last line in F, else its last default, else as before |
| `ConfLines.ConfiguredNumber` | libjoe/j-cf.c:1205-1229 | `cf_get_int` of a number likewise |
| `ConfReload.ConfigureForgets` | libjoe/cfc-defs.h:305-496 | options with an accepted default are independent of history |
| `ConfReload.ConfigureIdempotent` | libjoe/j-cf.c:1205-1229 | configuring twice with F equals once, record for record |
| `ConfRoundTrip.ParsePrinted` | libjoe/j-cf.c:989-1046 | what the reader makes of a printed line, whatever the value |
| `ConfRoundTrip.ParsePrintIff` | libjoe/j-cf.c:989-1046 | a value survives printing and parsing iff it has no end of line, no separator in front and no blank behind |
| `ConfRoundTrip.EnumIndexCut` | libjoe/j-cf.c:728-737 | an OTHER value cut to 127 characters is still classified as OTHER |
| `ConfRoundTrip.InitAligned` | libjoe/j-cf.c:172-213 | initialisation puts option i in slot i, whole, and leaves the rest free |
| `ConfRoundTrip.RunOk` | libjoe/j-cf.c:697-803 | what every assignment and append keeps: number and text agree, enum index and text agree, sizes hold |
| `ConfRoundTrip.RecRestored` | libjoe/j-cf.c:860-901 | assigning what a record shows to a fresh one restores text and number |
| `ConfRoundTrip.RunningFileReads` | libjoe/j-cf.c:359-482 | reading the RUNNING file assigns to each option exactly what its own line carries of the value it shows, comments and sections adding nothing |
| `ConfRoundTrip.RoundTrip` | libjoe/j-cf.c:359-482 | from any reachable table, write and re-read restores `cf_get_str` and `cf_get_int` of every STR, INT and ENUM option but VERSION whose own value a line carries unharmed |
| `ContentScore.SpamCheck.CheckMimePart` | libjoe/j-chkcontent.c:78-606 | scores and counters after one part, with the skipped evaluations |
| `ContentScore.FullText` | libjoe/j-chkcontent.c:523-606 | a plain or simple text scores the best of its cleaned text, its raw text and what the message had |
| `ContentScore.FullHtml` | libjoe/j-chkcontent.c:363-394 | HTML also counts its text cleaned again |
| `ContentScore.BlacklistScore` | libjoe/j-chkcontent.c:359-361 | the blacklist score of a text part, and that other parts score nothing |
| `ContentScore.NothingEvaluated` | libjoe/j-chkcontent.c:372-375 | at the maximum no expression is evaluated |
| `ContentScore.RawSkipped` | libjoe/j-chkcontent.c:378-600 | a cleaned text that reaches the maximum ends the evaluation |
| `ContentScore.SpamCheck.ScanParts` | libjoe/j-chkcontent.c:845-850 | the fold over all parts |
| `ContentScore.ShortCircuitAgrees` | libjoe/j-chkcontent.c:69-76 | from harmless starting scores the capped score equals that of full evaluation, and below the maximum the scores are equal |
| `ContentScore.ShortCircuitIff` | libjoe/j-chkcontent.c:359-606 | the capped scores agree for every message iff the starting scores are harmless: not negative, or no expression to skip, or a maximum already reached, or one the blacklists alone cannot reach |
| `ContentScore.CappedOrderIndependent` | libjoe/j-chkcontent.c:359-606 | the capped score is invariant under permutation of the parts |
| `ContentScore.InsertNeverLowers` | libjoe/j-chkcontent.c:359-606 | inserting a part anywhere never lowers the capped score |
| `ContentScore.PartAccounting` | libjoe/j-chkcontent.c:115-144 | parts = html + plain + simple + other, text parts = html + plain + simple, sizes add up |
| `ContentScore.TypeCounter` | libjoe/j-chkcontent.c:118-144 | each type's counter is the number of parts of that type |
| `ContentScore.HtmlCounters` | libjoe/j-chkcontent.c:340-348 | the HTML counters are the number of HTML text parts |
| `ContentScore.PlainCounters` | libjoe/j-chkcontent.c:456-460 | the plain counters are the number of plain text parts |
| `ContentScore.OtherCounters` | libjoe/j-chkcontent.c:547-549 | the simple and other counters are the numbers of their parts |
| `TagCount.CountHtmlTags` | libjoe/j-chkcontent.c:1758-1776 | the loop ends and returns the number of `>` preceded, since the last `>`, by a `<` at distance 2 to 41 |
| `TagCount.ClosesIff` | libjoe/j-chkcontent.c:1770-1770 | a counted `>` in characters: a `<` 2 to 41 before it and no `>` between |
| `TagCount.ThreeTimesTags` | libjoe/j-chkcontent.c:1758-1776 | three times the count is at most the length |
| `TagCount.TagsAdd` | libjoe/j-chkcontent.c:1758-1776 | the count is additive over cuts just after a `>` |
| `GreydThreads.ThreadLimit` | j-greyd/j-greyd.c:579-591 | over every schedule `nthread` is the number of threads between increment and decrement, and at most MAX_THREAD - 1 are past the unlocked check |
| `GreydThreads.RefusedIff` | j-greyd/j-greyd.c:586-591 | a thread is refused iff MAX_THREAD are counted at its read; the negative test never refuses |
| `GreydThreads.OneHolder` | j-greyd/j-greyd.c:727-733 | mutual exclusion of the locked increments and decrements |
| `GreydThreads.LimitReached` | j-greyd/j-greyd.c:579-591 | every number of served threads up to MAX_THREAD - 1 is reached by some schedule |
| `GreydSession.Session` | j-greyd/j-greyd.c:596-725 | the loop runs until the first turn whose trace predicate ends it, and for that reason |
| `GreydSession.EndsIff` | j-greyd/j-greyd.c:626-721 | absent flood, I/O error, hang-up and quit, a turn ends the session exactly at the fifth error with no accepted command between or at the idle limit |
| `GreydSession.EndsAtOnce` | j-greyd/j-greyd.c:600-725 | any other turn ends it at once, for its own reason |
| `GreydSession.StrikeMoves` | j-greyd/j-greyd.c:686-716 | errors add one, accepted commands clear, empty commands and time-outs leave the strike count |
| `GreydSession.TimeoutMoves` | j-greyd/j-greyd.c:635-649 | time-outs add one, anything else clears the idle count |
| `GreydSession.StrikeIff` | j-greyd/j-greyd.c:703-716 | the strike counter reaches k iff k errors stand with no accepted command between them; empty commands do not enter |
| `GreydSession.TimeoutRunIff` | j-greyd/j-greyd.c:626-649 | the time-out counter reaches k iff the last k turns timed out |
| `GreydSession.IdleTurnsIff` | j-greyd/j-greyd.c:626-645 | the idle test is reached at the ceil(max(60000, 1000*idle)/60000)-th consecutive time-out |
| `GreydSession.FloodBound` | j-greyd/j-greyd.c:596-614 | with a nondecreasing clock at most 1002*(T/2+1) loop bodies start in the first T seconds |
| `ConnOpen.Table.CheckHost` | libjoe/j-connopen.c:162-229 | count returned and table after one call, with the cleanup it may start |
| `ConnOpen.SameClientIff` | libjoe/j-connopen.c:190-193 | two clients are counted as one iff equal or alike in their first 31 characters |
| `ConnOpen.EntryTime` | libjoe/j-connopen.c:195-213 | an entry carries the time of the last event that counted |
| `ConnOpen.EntryName` | libjoe/j-connopen.c:184-213 | and 63 characters of the name given when connections were opened |
| `ConnOpen.Table.CleanTable` | libjoe/j-connopen.c:238-305 | the test made again under the lock, the survivors, the stored time |
| `ConnOpen.Table.ResetTable` | libjoe/j-connopen.c:147-156 | an empty, dead tree and a zero global count |
| `ConnOpen.CleanupInvisible` | libjoe/j-connopen.c:238-305 | in every matched run each returned count is opens minus closes, whenever cleanups fire |
| `ConnOpen.CleanupInvisibleIff` | libjoe/j-connopen.c:238-305 | for connections counted one by one, that holds for all cleanup times iff every close matches an open |
| `ConnOpen.UnmatchedCloseShows` | libjoe/j-connopen.c:238-259 | otherwise some cleanup makes a returned count wrong |
| `ConnOpen.GlobalCount` | libjoe/j-connopen.c:195-226 | the global count never exceeds the sum of table counts, with equality iff no negative entry was collected |
| `ConnOpen.GlobalCountMatched` | libjoe/j-connopen.c:195-226 | in matched runs it is all opens minus all closes |
| `ConnOpen.CleanupSpacing` | libjoe/j-connopen.c:261-305 | under any interleaving stored cleanup times are more than DTCLEANUP/2 apart |
| `ConnOpen.ResetIsFinal` | libjoe/j-connopen.c:147-156 | after a reset every count is zero for ever |
| `Policy.CheckAddress` | libjoe/j-dbpolicy.c:221-246 | the cutting loop finds the first key with a record |
| `Policy.CheckName` | libjoe/j-dbpolicy.c:312-333 | the label loop finds the first key with a record |
| `Policy.PolicyCheck` | libjoe/j-dbpolicy.c:142-368 | the answer is the first hit among the keys in order, cut to the caller's buffer, and nothing for a NULL key |
| `Policy.PolicyLookup` | libjoe/j-dbpolicy.c:374-422 | a key that fits answers with its own record, a longer one with that of its first 255 characters, an empty one with that of "default" |
| `Policy.HostMostSpecific` | libjoe/j-dbpolicy.c:221-333 | a name answers with its longest dotted suffix, an IPv4 address with its longest octet prefix that has a record, and nothing iff none has |
| `PolicyAnswers.IPv4Iff` | include/macros.h:223-223 | an IPv4 address is four runs of digits with dots between |
| `PolicyAnswers.AddressAnswer` | libjoe/j-dbpolicy.c:221-246 | a.b.c.d answers with the record of a.b.c.d, else a.b.c, else a.b, else a |
| `PolicyAnswers.NameAnswer` | libjoe/j-dbpolicy.c:312-333 | a name answers with its longest dotted suffix that has a record |
| `PolicyAnswers.DefaultAnswer` | libjoe/j-dbpolicy.c:169-170 | an empty key asks for "default" |
| `PolicyAnswers.ColonAnswer` | libjoe/j-dbpolicy.c:248-310 | a host with a colon is looked up as written, then under each text of its address |
| `Policy.MailboxOrder` | libjoe/j-dbpolicy.c:178-360 | for every key with an `@` the mailbox it shows comes first, then the most specific record of the domain searched, and "user@" last |
| `Policy.OwnDomainIff` | libjoe/j-dbpolicy.c:178-189 | the domain searched is the mailbox's own iff the key has no brackets around a mailbox |
| `PolicyAnswers.BareAnswer` | libjoe/j-dbpolicy.c:178-360 | user@domain: its record, else the domain's most specific one, else that of "user@" |
| `PolicyAnswers.BracketedAnswer` | libjoe/j-dbpolicy.c:178-360 | in brackets the domain searched is all that follows the `@` |
| `Policy.BareMailbox` | libjoe/j-dbpolicy.c:178-360 | without brackets: full address, its own domain's most specific record, "user@" |
| `Policy.AddressIgnores` | libjoe/j-dbpolicy.c:221-246 | tables that agree on the octet prefixes from a present one up answer alike |
| `Policy.NameIgnores` | libjoe/j-dbpolicy.c:312-333 | tables that agree on the dotted suffixes down to a present one answer alike |
| `Policy.PartialOctet` | libjoe/j-dbpolicy.c:221-246 | a record for an address cut inside an octet never matters |
| `Policy.LessSpecificAddress` | libjoe/j-dbpolicy.c:221-246 | adding a shorter record never changes a more specific answer |
| `Policy.LessSpecificName` | libjoe/j-dbpolicy.c:312-333 | the same for names |
| `MakeMap.Normalise` | j-makemap/j-makemap.c:214-225 | exactly one of SKIP and UPDATE is in force, UPDATE with SKIP is refused, no mode means erase |
| `MakeMap.Loader.AddDbRec` | j-makemap/j-makemap.c:380-419 | database, counters and result after one record |
| `MakeMap.Loader.Update` | j-makemap/j-makemap.c:358-363 | the erase and the load of all lines |
| `MakeMap.BuiltRecord` | j-makemap/j-makemap.c:358-419 | after an erase load a key's record is the first (SKIP) or last (UPDATE) line that stores it |
| `MakeMap.WinnerStored` | j-makemap/j-makemap.c:380-419 | after an erase load the record of k is the lower-cased value of the first (SKIP) or last (UPDATE) accepted line for k, by its number |
| `MakeMap.WinnerLookedUp` | libjoe/j-dbpolicy.c:374-422 | and a lookup or check answers with it |
| `MakeMap.KeptRecords` | j-makemap/j-makemap.c:402-410 | SKIP never alters a record that was there; UPDATE alters those some line stores |
| `MakeMap.BuildThenLookup` | libjoe/j-dbpolicy.c:374-422 | a lookup after an erase load returns the winning line's lower-cased value and misses iff no line stores the key |
| `MakeMap.BuildThenCheck` | libjoe/j-dbpolicy.c:142-368 | the records the most specific search sees are the winning lines |
| `MakeMap.CountsAddUp` | j-makemap/j-makemap.c:389-418 | records read = added + errors + skipped; SKIP adds only new keys, UPDATE skips none |
| `MakeMap.CountsByLine` | j-makemap/j-makemap.c:389-418 | under UPDATE the additions are the lines with a key that were accepted and the errors the rest; under SKIP lines without a key are errors |
| `Cursor.TestRecord` | include/j-db.h:170-181 | the guard and the prefix test let a record through iff it does not stop the loop, and count the descents so far |
| `Cursor.Dump` | j-makemap/j-makemap.c:301-333 | the loop prints the cursor's records up to the first unreadable, unprefixed or fourth descending one |
| `Cursor.DumpsWhole` | include/j-db.h:170-181 | a readable cursor with the prefix throughout and at most three descents is printed whole; a fourth ends the dump |
| `Cursor.DescentsIgnoreCase` | include/j-db.h:172-172 | the guard counts the same descents whatever the case of the keys |
| `Cursor.DescentsBounded` | include/j-db.h:164-185 | over any cursor at most three descending steps are printed |
| `Cursor.GuardNeverFires` | include/j-db.h:170-181 | over a sorted cursor there is no descent |
| `Cursor.DumpExact` | j-makemap/j-makemap.c:301-333 | the dump of a lower-case table is every record with the prefix, once and in order, iff all of them fit the buffers |
| `Cursor.BuildThenDump` | j-makemap/j-makemap.c:301-333 | after an erase load it prints exactly the winning lines of the keys with the prefix |
| `Cursor.WinnersDumped` | j-makemap/j-makemap.c:301-333 | key by key: the winning line's lower-cased value and no other |

## Left out

- Sockets, fork, signals, option parsing, logging, files that cannot be opened, failed allocations and failed mutex calls.
- The insides of the database, the trees, the regex engine, the hashes, `str2long`, HTML cleaning and the URL blacklists: maps, sorted sequences and parameters.
- 32-bit wrap-around of counters.
- `j_rd_text_file` and `str2tokens` limits: a map line arrives as its two columns, and token lines are read through their first six fields.
- The DATE, MSGS and INFO lines of a `.tok` file are arbitrary lines that are neither crypt nor token lines; message totals are not summed.
- TokenPipeline.EndToEndCounts: counts lines, as the binary model does; the multinomial one, which sums the count fields, is covered by `PipelineTable`.
- RoundTrip: J_DOUBLE options are not restored, because `cf_get_str` gives no text for them and their value passes through a `long`; they are in the reconfiguration results.
- `cf_set_str_val`, `cf_dump`, `cf_clear_values`, `cf_sort` and `cf_define`: front ends or unused.
- The body of `handle_command`: only its result codes enter the session.
- ContentScore.SpamCheck.CheckMimePart: does not model the header flags, base64 and size counters by type, oracle figures and unwanted-expression counts, which only add easy counters.
- The address arithmetic of the IPv6 branch of the policy search: the texts it tries are a parameter, and the most specific results are for names and IPv4.
- Records longer than the 1024-byte buffers of a lookup: the reader of map lines cannot produce them.
- `check_rfc2822_headers_syntax`, `libjoe/j-dbbl.c`, `libjoe/j-grey-cleanup.c`, `librepl/ffs.c` and the other programs.
