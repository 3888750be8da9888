# A verified model of rcurl

rcurl is a command-line HTTP client with a replayable history, a telnet client, a disk listing and a
few other tools. This project models the parts of it that are logic rather than plumbing and proves
what they guarantee. `dafny verify dfyconfig.toml` checks everything.

**History and replay.** Every executed request is printed as a shell command line and kept in a
history; interactive mode splits a chosen line into words, parses the words as arguments, runs the
result and saves what it prints again.
`CommandLine` is the request record and the option spellings; `Command` is the printer, written as the
appending procedure it is; `ShellWords` is the word splitter, a machine of eight modes with the
behaviour of the shell-words crate (section 2.2 of the POSIX.1-2017 Shell Command Language, except that
a lone backslash at the end of the line is kept); `ArgParser` is the argument parser that the
declarations induce, with clusters, attached values, `--`, repeated options, the counted `-v`, the
subcommands with their aliases, and the errors.
`PrintedOptions` and `RoundTrip` show that the splitter finds exactly the printed tokens and that the
parser rebuilds every field from them; `BareWords`, `Misread`, `LineBreaks` and `MethodReplay` settle
the method, which is printed without quotes; `QuickReplay` settles the quick commands; `LostRequests`
collects what does not come back; `Quoting` and `Spellings` state the splitter, the parser and the
printer word by word; `History` is the most-recent-first store and `Interactive` closes the
loop over arbitrary runs.

A printed request comes back *exactly when* its method is a plain word, no printed value looks like an
option, and its URL can stand without quotes at the end of a line and is neither an option nor the name
of a subcommand (`RequestReplaysExactly`, which also covers requests without a URL). The others do not
come back, although every request can be entered (`EveryRequestIsEntered`) and is saved if it has a URL:
`LoneApostropheFails` and `HyphenatedValueFails` give families whose lines are refused,
`CommentedUrlChanges` one whose lines are read as other requests. The lines that interactive mode saves
unchanged are exactly the lines of requests that come back (`StableExactly`).

**Telnet.** `Telnet` is the pair of threads as a step system: any schedule of reading a line, polling
the connection, receiving from the channel and leaving. `TelnetSession` is the code of both loops, each
method tied to its step. `NegotiationLoop` puts two such endpoints face to face.

**HTTP.** `HttpRequest` builds a request by the same sequence of overwritings as the code and states
what the result is for every header name; `Redirects` is the bounded redirect loop against an arbitrary
server, as a chain of requests that is characterised without the loop.

**Smaller algorithms.** `Disk` and `DiskRows` (truncation to a display width, padding, order of rows),
`Proxy` (the NO_PROXY list), `Transfer` (the clamped download counter and the FTP range selection).

## Conventions

- The ten boolean fields of the request are the set `flags` of those that are on.
- The unbounded channel, the history file and the header map are sequences. A header map keeps its
  entries in the order in which their names first came; as it is filled with insertions only, names in
  it are unique (`UserLookup`) and the error for a missing key cannot occur.
- URL parsing and joining, the multipart boundary, file contents, base names and media types, and the
  server are arbitrary functions; the telnet events, the user's input and the schedule are arbitrary
  sequences.
- Where documentation and code differ, the code is followed. The help text promises the bytes within
  the range, but the selection leaves out the last byte of every range (`SelectionExactly`). An `-X` or
  `-I` given together with form parts has no effect, because the form sets the method last.

## Model

| member | source | states |
|---|---|---|
| ShellWords.RunQuoted | src/history/command.rs:49-103 | A string printed between quotes with each `'` replaced by `'\''` is read back as exactly that string, appended to the word in progress, with the quotes closed |
| ShellWords.QuotedWordIsOneWord | src/history/command.rs:49-51 | After any text that ends between words, a quoted string is one more word, for every string, the empty one and line breaks included |
| ShellWords.RunEnding | src/history/command.rs:141-144 | A plain ending (no blanks or quotes, no backslash but a last one, no leading `#`) may go unquoted at the end of a line |
| ShellWords.WordOfItself | src/history/command.rs:141-144 | Conversely, a last stretch of a line that occurs among the words read from it is a plain ending |
| Quoting.PlainExactly | src/app/run.rs:85-86 | The characters with a meaning: blank, tab, line break, both quotes and the backslash, and the hash where a word begins |
| Quoting.BlanksSeparate | src/app/run.rs:85-86 | Words are separated by blanks, tabs and line breaks, however many |
| Quoting.SingleQuotesKeep | src/app/run.rs:85-86 | Single quotes keep everything up to the next one, join the plain text around them, and must be closed |
| Quoting.DoubleQuotesKeep | src/app/run.rs:85-86 | So do double quotes, the backslash apart |
| Quoting.BackslashInDoubleQuotes | src/app/run.rs:85-86 | There a backslash escapes `$`, the backquote, the double quote and itself, removes a line break, and stays before anything else |
| Quoting.BackslashInWord | src/app/run.rs:85-86 | In a word it escapes any character, removes a line break, and stays at the end of the line |
| Quoting.BackslashBetweenWords | src/app/run.rs:85-86 | Between words too, where an escaped line break begins no word |
| Quoting.CommentsHide | src/app/run.rs:85-86 | Where a word may begin, a hash hides the rest of its line and nothing after it |
| BareWords.BareWordExactly | src/history/command.rs:18-21 | In front of quote-free text, an unquoted string is among the words read exactly when it is a plain word, and then it is the first |
| Misread.WordGrows | src/app/run.rs:85-86 | The next word finished starts with the word in progress, whatever quoting follows |
| Misread.LaterWordsCost | src/app/run.rs:85-86 | All words after the next one are together shorter than the text that is left |
| Misread.NoBlankHyphen | src/history/command.rs:45-47 | A string that is read back as itself, without completing a word on the way, on a line where no line break ends a comment, has no blank before a hyphen |
| Misread.InsideComment | src/app/run.rs:85-86 | Where no line break ends a comment, nothing more is read once a comment is open |
| Misread.FirstWordBeforeOption | src/history/command.rs:45-51 | In front of a printed option with arbitrary quoted values behind it, a string read back as the first word is plain, if no line break ends a comment |
| Misread.FirstWordBeforeLast | src/history/command.rs:45-144 | In front of an unquoted last word that is read back too, it is plain |
| Command.CommandFromCli | src/history/command.rs:4-147 | The procedure that grows the command line yields the program name, the printed options in order and the bare URL, or the printed quick command |
| Command.PushEach | src/history/command.rs:53-59 | The loop over repeated values appends one quoted option per value, in order |
| Command.PushVerbosity | src/history/command.rs:105-107 | The loop appends `-v` once per level |
| Decimal.ParseOfPrint | src/cli/app_config.rs:23-43 | Every 16-bit port is printed so that the range-checked number parser reads it back |
| Decimal.ValueByPlace | src/cli/app_config.rs:23-43 | Digits count by their place |
| Decimal.ParseExactly | src/cli/app_config.rs:23-43 | A port is digits below 65536, with a plus or none, or a negative zero |
| Decimal.RefusedExactly | src/cli/app_config.rs:23-43 | The empty word, a lone sign and any other character are refused |
| Spellings.NothingGiven | src/cli/app_config.rs:119-205 | Without arguments nothing is set |
| Spellings.ShortOptions | src/cli/app_config.rs:122-174 | The thirteen one-letter options with a value, and the field each sets |
| Spellings.LongOptions | src/cli/app_config.rs:122-142 | The long names of the first seven |
| Spellings.MoreLongOptions | src/cli/app_config.rs:143-174 | The long names of the other six |
| Spellings.MissingValues | src/cli/app_config.rs:122-174 | A missing value, or one that looks like an option, is an error |
| Spellings.GivenTwice | src/cli/app_config.rs:122-174 | `-F` and `-H` accumulate in order, any other option given twice is an error |
| Spellings.Switches | src/cli/app_config.rs:166-201 | The ten switches, by all their spellings |
| Spellings.SwitchedTwice | src/cli/app_config.rs:166-201 | A switch given twice is an error |
| Spellings.VerboseCounts | src/cli/app_config.rs:175-179 | `-v` is counted, up to 255 |
| Spellings.VerboseTogether | src/cli/app_config.rs:175-179 | `-vv` counts like two of them, and so on |
| Spellings.UrlExactly | src/cli/app_config.rs:120-121 | A lone word is the URL unless it looks like an option or is one of twelve command names; behind `--` any word is; two are an error |
| Spellings.OneArgumentCommands | src/cli/app_config.rs:6-38 | The names and aliases of the quick commands with one argument; the path of `disk` defaults to the current directory |
| Spellings.PortCommands | src/cli/app_config.rs:19-47 | Those of the quick commands with a port, and `--kill` |
| Spellings.QuickErrors | src/cli/app_config.rs:4-48 | A missing argument, one too many and `help` are errors |
| Spellings.OutputOfQuick | src/cli/app_config.rs:149-157 | The global `-o` behind a quick command is kept with it |
| Spellings.PrintedLine | src/history/command.rs:45-146 | The printed line of a request, option by option, in order |
| Spellings.PrintedQuick | src/history/command.rs:8-43 | The printed line of each quick command |
| PrintedOptions.RunArgs | src/app/run.rs:85-86 | The splitter reads any list of printed options as exactly their tokens, provided the method is plain |
| PrintedOptions.ParseArgs | src/cli/app_config.rs:119-205 | The parser applies the tokens of printed options in order, and fails if some value looks like an option |
| RoundTrip.RebuildsOptions | src/cli/app_config.rs:119-205 | Applied to an empty request, the printed options rebuild every field: values, the order of repeated `-F` and `-H`, the `-v` count over its whole range, all flags |
| RoundTrip.SplitRequest | src/history/command.rs:45-146 | With a plain method, the words of a printed request are the program name, the tokens of its options and what the bare URL turns into |
| RoundTrip.LoneToken | src/cli/app_config.rs:120-121 | A last token becomes the URL exactly when it is no option and no subcommand |
| RoundTrip.RoundTripExactly | src/app/run.rs:84-92 | With a plain method, replaying the printed command gives back the whole request if and only if no value looks like an option and the URL can stand bare |
| LineBreaks.RunMakesNoBreak | src/app/run.rs:85-86 | The splitter never makes a line break |
| LineBreaks.CommentLosesBreak | src/app/run.rs:85-86 | A line break that ends a comment is lost |
| LineBreaks.ParseMakesNoBreak | src/cli/app_config.rs:119-205 | The fields of a parsed request hold no more line breaks than its tokens |
| LineBreaks.PrintedBreaks | src/history/command.rs:45-146 | A printed request has exactly the line breaks of its fields |
| LineBreaks.ReplayKeepsBreaks | src/app/run.rs:84-92 | Hence no line break ends a comment on a line that gives its request back |
| MethodReplay.MethodComesFirst | src/history/command.rs:45-47 | The method is printed before all other options, which do not depend on it |
| MethodReplay.ParseKeepsMethod | src/cli/app_config.rs:122-124 | Once the parser has a method, no later token changes it |
| MethodReplay.TextAfterMethod | src/history/command.rs:45-144 | What follows the method on the line is an option, if any is printed, and else the URL |
| MethodReplay.WordsAfterOption | src/app/run.rs:85-92 | On a line that gives its request back, the first word after `-X` is the method and the URL is a later word |
| MethodReplay.OnlyPlainMethodComesBack | src/history/command.rs:45-144 | A request that comes back and has anything printed behind its method had a plain method |
| MethodReplay.OptionsReplayExactly | src/history/command.rs:45-146 | Without a URL and with a plain method, options come back if and only if no value looks like one |
| MethodReplay.LoneMethodReplaysExactly | src/history/command.rs:45-47 | A method that is all there is comes back if and only if it is a plain ending and no option |
| MethodReplay.RequestReplaysExactly | src/app/run.rs:84-92 | The whole round trip, for every request without a quick command: it comes back if and only if its method is plain where it is printed, no value looks like an option and the URL, if any, can stand bare |
| QuickReplay.ArgumentsAreTokens | src/cli/app_config.rs:4-48 | Every argument of a parsed quick command is one of its tokens |
| QuickReplay.QuickRoundTripExactly | src/history/command.rs:8-43 | A printed quick command replays as that command, stripped of what is not printed, if and only if its bare arguments can stand without quotes; otherwise it is not even replayed together with other options |
| LostRequests.EveryRequestIsEntered | src/cli/app_config.rs:119-205 | Whatever its fields hold, some command line is parsed as the request: values attached, the URL after `--` |
| LostRequests.EveryQuickIsEntered | src/cli/app_config.rs:4-48 | Likewise every quick command |
| LostRequests.BadQuotingExactly | src/app/run.rs:85-86 | Printed options never leave a quote open: with a plain method, the splitter refuses a line exactly when it refuses the URL alone |
| LostRequests.LoneApostropheFails | src/history/command.rs:141-144 | A URL with one apostrophe after plain text does not come back, whatever follows it; with a plain method its line is unreadable |
| LostRequests.HyphenatedValueFails | src/history/command.rs:49-103 | A request with a printed value that looks like an option does not come back; with a plain method its line is refused |
| LostRequests.HyphenatedDataIsLost | src/history/command.rs:49-51 | For instance, a request with a body such as `-5` |
| LostRequests.AcceptedAndLost | src/app/run.rs:24-37 | `rcurl --data=-5 http://a` and a URL with an apostrophe are accepted, and their lines refused |
| History.HistoryFile.Load | src/history/storage.rs:14-22 | Loading gives, position by position, the command of each stored entry; a missing or malformed file has none, and only an unreadable one is an error |
| History.HistoryFile.SaveRequest | src/history/storage.rs:36-67 | Whatever was at the path, it then holds a history: the new command, then the others in their old order, and no request records |
| History.SaveMoves | src/history/storage.rs:45-53 | Saving a stored command moves it to the front and changes nothing else |
| History.SaveKeepsNoDuplicates | src/history/storage.rs:45-53 | A save keeps the history free of duplicates |
| History.SaveAllIsMostRecentFirst | src/history/storage.rs:43-62 | After any sequence of saves the history holds exactly the commands used, each later used one first |
| History.HistoryExactly | src/history/storage.rs:43-62 | It is the only list of that description |
| History.MostRecentFirstHasNoDuplicates | src/history/storage.rs:45-46 | Such a list has no duplicates |
| Interactive.DoRequest | src/app/run.rs:24-41 | What an invocation does and leaves in the history: exactly the executed requests are saved |
| Interactive.InteractiveMode | src/app/run.rs:69-104 | The menu: nothing to choose, a cancelled choice, a line that cannot be replayed, or a replayed and re-saved request |
| Interactive.FreshIsExecuted | src/app/run.rs:24-41 | A URL or a quick command is enough for the request to be executed as given and saved |
| Interactive.ChosenIsExecuted | src/app/run.rs:69-104 | With neither: the five ways the menu can end, each with what it leaves in the history |
| Interactive.ReplaysExactly | src/app/run.rs:84-92 | For every request and quick command: the printed line says on replay what it said if and only if it is well-formed |
| Interactive.StableExactly | src/app/run.rs:84-98 | A line is printed again unchanged after its replay if and only if it is the line of some well-formed request |
| Interactive.ReplayFixpoint | src/app/run.rs:84-98 | The line of a well-formed request is stable, quick commands and dropped data included |
| Interactive.SameLineSameRequest | src/history/storage.rs:45-46 | Two replayable requests share a line exactly when they say the same, so de-duplication merges nothing else |
| Interactive.SelectionExactly | src/app/run.rs:80-100 | Choosing any line: one that cannot be replayed changes nothing; another is moved to the front, and nothing else changes, exactly if it is stable; the history grows by one exactly if what is saved is new |
| Interactive.SelectionMoves | src/app/run.rs:84-100 | Choosing the line of a well-formed request runs it, puts the line first and leaves the other lines and the length alone |
| Interactive.CommentedUrlChanges | src/history/command.rs:141-144 | Choosing the line of a URL such as `http://a #b` runs and saves the request for `http://a` instead |
| Interactive.HistoryOfRun | src/app/run.rs:24-104 | After any run of invocations, well-formed or not, the history is the saved lines, each once, latest first |
| Interactive.LinesHaveSources | src/app/run.rs:24-104 | In a run of well-formed requests every line in the history is the line of one of them |
| Interactive.SelectionsOnlyReorder | src/app/run.rs:84-100 | Such a run leaves the same lines as its fresh requests alone: selections never add or lose one |
| TelnetSession.Session.Send | src/telnet/handler.rs:36-49 | A send succeeds until the receiver is dropped, and appends to the channel |
| TelnetSession.Session.InputPass | src/telnet/handler.rs:33-52 | One pass of the input thread is the step ReadLine |
| TelnetSession.Session.InputExit | src/telnet/handler.rs:53 | The end of the input thread, which drops the sender, is the step DropSender |
| TelnetSession.Session.PollPass | src/telnet/handler.rs:60-90 | Polling the connection and answering it is the step Poll |
| TelnetSession.Session.ReceivePass | src/telnet/handler.rs:92-102 | Forwarding one buffer, or leaving, is the step Receive |
| TelnetSession.Session.JoinInput | src/telnet/handler.rs:107 | Joining the input thread is the step Join |
| Telnet.StepKeepsInvariant | src/telnet/handler.rs:28-105 | Every step keeps: what was sent is what was written, the sentinel if taken, and what is queued; only the last input stops |
| Telnet.RunKeepsInvariant | src/telnet/handler.rs:28-105 | Hence every reachable state has it |
| Telnet.Delivery | src/telnet/handler.rs:28-105 | In every interleaving, what was written and what is queued is, in order, the messages of the lines read so far |
| Telnet.SessionOutput | src/telnet/handler.rs:58-105 | The server always has a prefix of the user's messages; after leaving on the sentinel it has every line before the stop, and nothing is queued |
| Telnet.StopsExactly | src/telnet/handler.rs:35-45 | `quit` and `exit`, with any line break behind them or none, and the end of the input stop, nothing else |
| Telnet.SessionExactly | src/telnet/handler.rs:33-105 | After leaving on the sentinel, in bytes: an input that stops follows the lines written, and each was written without its line break and with CR LF instead |
| Telnet.NoDisconnect | src/telnet/handler.rs:93-102 | No schedule reaches the branch for a disconnected channel, and no send of the input thread ever fails |
| Telnet.StopEndsTheSession | src/telnet/handler.rs:58-105 | After a stop, under every schedule without a failure, the loop leaves exactly with the look into the channel that takes the last queued buffer, everything delivered |
| Telnet.QuietTurnsEndTheSession | src/telnet/handler.rs:58-105 | A loop that is still polling then gets there within as many quiet turns as buffers are queued |
| Telnet.NothingAfterLeaving | src/telnet/handler.rs:81-105 | Once the loop has left, on a failure or otherwise, it stays out for the same reason and nothing more is written or answered, whatever is typed |
| Telnet.LeavingExactly | src/telnet/handler.rs:60-102 | A step makes the loop leave exactly by a failure, an empty buffer, or an empty channel without sender |
| Telnet.LeftIsJoined | src/telnet/handler.rs:53-107 | A loop that has left is joined once the input thread has stopped |
| Telnet.FinishNeedsStop | src/telnet/handler.rs:107-108 | The session ends only after an input that stops, even when the connection has failed |
| Telnet.MessageShape | src/telnet/handler.rs:40-48 | Every message ends in CR LF, so it differs from the sentinel; the text before is the line without its trailing line breaks |
| Telnet.RepliesMatch | src/telnet/handler.rs:68-76 | In every run the replies are, one for one and in order, the refusals of the requests received |
| Telnet.RepliesRefuse | src/telnet/handler.rs:68-76 | The k-th reply refuses the k-th request: WONT for DO, DONT for WILL, same option; WONT and DONT are not answered |
| NegotiationLoop.NegotiationTerminates | src/telnet/handler.rs:68-76 | Between two such endpoints, from any messages in flight and in any order, deliveries made and load left add up to the initial load; the link is quiet after exactly that many |
| HttpRequest.ReadForm | src/http/handler.rs:139-157 | The loop yields the parts in order, or the error of the first bad one |
| HttpRequest.AddUserHeaders | src/http/handler.rs:175-185 | The loop inserts the `-H` values in order, or yields the error of the first bad one |
| HttpRequest.AssembleRequest | src/http/handler.rs:91-191 | The sequence of overwritings yields the request given by the rules of precedence, or the first error |
| HttpRequest.LogHeaders | src/http/handler.rs:200-202 | The verbose log goes through exactly if every header value is printable ASCII |
| HttpRequest.BuildRequest | src/http/handler.rs:91-211 | The request is the assembled one; with `-v`, one whose headers cannot be logged is an error instead |
| HttpRequest.RequestExactly | src/http/handler.rs:91-191 | Method, address, version and body of a built request: a form posts; else `-I` beats `-X`, which beats the methods of an upload and of a body |
| HttpRequest.PartExactly | src/http/handler.rs:139-157 | A form argument is a name up to the first `=` and a text, or behind `@` a file of which the base name is opened, or one of two errors |
| HttpRequest.HeaderExactly | src/http/handler.rs:175-181 | A header argument is a name up to the first colon and a value without the blanks before it, or one of two errors |
| HttpRequest.LastHeaderWins | src/http/handler.rs:175-189 | Of the `-H` arguments of one name, in any case, the last one is sent, alone or behind the form's own content type |
| HttpRequest.DefaultsExactly | src/http/handler.rs:117-173 | What is sent under a name that no `-H` gives |
| HttpRequest.TokenExactly | src/http/handler.rs:112-179 | The characters of methods and header names (section 5.6.2 of RFC 9110) |
| HttpRequest.ValueCharsExactly | src/http/handler.rs:119-201 | The characters of header values, and of those that can be logged |
| HttpRequest.LogExactly | src/http/handler.rs:193-211 | Without `-v` the request is the assembled one; with it, an unprintable value is an error |
| HttpRequest.UserLookup | src/http/handler.rs:175-189 | In the map each name is unique and has the value of the last matching `-H`, else the one set before |
| HttpRequest.HeadersOf | src/http/handler.rs:117-189 | All values of any name in a built request: the form's content type, then the last matching `-H` or else the default |
| HttpRequest.OnlyContentTypeRepeats | src/http/handler.rs:131-189 | No name repeats but Content-Type, twice exactly when form parts meet a body or a `-H` content type |
| HttpRequest.BuildableExactly | src/http/handler.rs:91-211 | Building fails exactly on an invalid header, form part, file or method, or with `-v` on a header beyond ASCII that is not overridden |
| HttpRequest.OnlyTheAddressChanges | src/http/handler.rs:91-211 | A request rebuilt for another address differs otherwise only in the boundary of its form parts and the content type that names it; without form parts it differs in nothing else, and fails alike |
| Redirects.RequestWithRedirects | src/http/handler.rs:42-89 | The loop sends a complete chain and ends with its verdict, for every server |
| Redirects.ExchangeExactly | src/http/handler.rs:42-89 | One call step by step: each address is joined from the last and a 3xx answer's Location, each request is built for its address, at most ten are sent, and the outcome is given for every way to end |
| Redirects.VerdictExactly | src/http/handler.rs:57-88 | The answer handled is the first that is no redirection; the limit error occurs exactly when ten answers redirect to usable addresses |
| Redirects.RequestedAddresses | src/http/handler.rs:58-69 | The k-th request goes to the left fold of `join` over the locations answered before |
| Redirects.ExchangeIsUnique | src/http/handler.rs:57-88 | There is only one complete chain |
| Redirects.RedirectsPreserveTheRequest | src/http/handler.rs:57-61 | All requests of a chain agree in everything but the address and, with form parts, their boundary and the content type that names it |
| Disk.TruncateForDisplay | src/disk/handler.rs:71-101 | A string that fits is kept; any other becomes its longest prefix that leaves room for three dots, and the dots |
| Disk.WidthExactly | src/disk/handler.rs:57-68 | A string is as wide as its characters and those beyond ASCII once more |
| Disk.LongestPrefixIsUnique | src/disk/handler.rs:84-98 | There is only one such prefix |
| Disk.TruncationFits | src/disk/handler.rs:84-98 | The result fits exactly when the string did or the limit is at least three |
| Disk.TruncationIsIdempotent | src/disk/handler.rs:71-101 | Truncating again changes nothing, whatever the limit |
| Disk.PadName | src/disk/handler.rs:34-40 | Padding brings a name of at most 50 columns to exactly 50 |
| DiskRows.NameCell | src/disk/handler.rs:33-41 | Every listed name fills exactly 50 columns, at least two of them blank |
| DiskRows.GetDiskUsage | src/disk/handler.rs:103-211 | The row of a file, or an error without metadata; for a directory no file before a directory, each kind by decreasing size and stable, a row for every directory and readable file and no other, names cut to 48 columns |
| DiskRows.SortedIsStableSort | src/disk/handler.rs:174-175 | Sorting is by decreasing size and keeps the order among equals |
| DiskRows.StableSortIsUnique | src/disk/handler.rs:174-175 | Only one order does that |
| DiskRows.ListingOrder | src/disk/handler.rs:173-207 | The rows are exactly the scanned directories and readable files, directories first |
| Proxy.ShouldBypassProxy | src/http/proxy.rs:106-135 | The loop answers yes exactly when a trimmed non-empty pattern of the list matches the host |
| Proxy.OnePieceExactly | src/http/proxy.rs:117-131 | A list without commas: blank it matches nothing, with a leading dot the domain and the names that end in it, otherwise the host it names |
| Proxy.PlainPatternExactly | src/http/proxy.rs:128-131 | A plain host name bypasses that host and no other |
| Proxy.JoinedLists | src/http/proxy.rs:117-121 | Two lists joined by a comma bypass exactly what either does: order does not matter and adding patterns never turns a bypass off |
| Proxy.PaddedPiece | src/http/proxy.rs:118-121 | Blanks around a pattern do not matter |
| Proxy.Subdomains | src/http/proxy.rs:123-131 | A host bypassed by a dotted pattern takes its subdomains along; one bypassed by a plain pattern does not |
| Proxy.DottedPatternExactly | src/http/proxy.rs:123-127 | A dotted pattern covers the domain and the names ending in it, nothing else |
| Transfer.DownloadFile | src/http/handler.rs:512-524 | The file holds the chunks before the first error, in order, and the counter was clamped at each |
| Transfer.ReceivedPrefix | src/http/handler.rs:513-517 | The chunks received are those before the first error |
| Transfer.ConcatInOrder | src/http/handler.rs:519-520 | What is written is kept in order |
| Transfer.CounterShowsFile | src/http/handler.rs:512-524 | If nothing wraps, the counter ends at the length of the file or the announced size, whichever is less |
| Transfer.CounterExactly | src/http/handler.rs:521-523 | Clamping at every chunk is clamping the total once, exactly as long as no addition wraps around |
| Transfer.CounterIsMonotone | src/http/handler.rs:521-523 | If the announced size leaves room for any chunk, or fewer than 2^64 bytes come, nothing wraps and the counter never goes back |
| Transfer.CounterWrapsExactly | src/http/handler.rs:521-522 | With chunks up to any size, some stream makes the counter wrong if and only if the announced size leaves no room for one such chunk |
| Transfer.CounterCanWrap | src/http/handler.rs:521-522 | For instance three chunks that fit in buffers, with a size announced at the top of the range |
| Transfer.SelectRanges | src/ftp/handler.rs:108-121 | The loop yields, in order, the bytes each range denotes without the last of each |
| Transfer.PiecesExactly | src/ftp/handler.rs:114-118 | The piece of a range goes from its start to just before its inclusive end |
| Transfer.SelectionExactly | src/ftp/handler.rs:114-119 | The selection is one byte short per range, so it is what the ranges denote (section 14.1.2 of RFC 9110) exactly when there is none |

## Left out

- HttpRequest.BuildRequest: form parts are kept as a list; their multipart encoding and its random boundary are not modelled.
- Interactive.HistoryOfRun: starts where no history can be loaded; failed writes, which the program reports and ignores, and the JSON encoding are not modelled.
- Abbreviated subcommands, suggestions and messages of the argument parser, command lines that are not text, and the fact that an operating system refuses NUL characters in arguments.
- The port tool (`src/port/handler.rs`): a filter, a first match and a guard over the sockets that the system reports.
- Sockets, TLS, connectors, DNS, WHOIS, ping, FTP login and transfer, and the proxy address taken from the environment.
- An environment that silences the verbose log, which would then not look at the headers.
- Size limits of the header map, and the escaping that the telnet library applies when it writes.
- A panic of the telnet input thread.
- Formatting of sizes and durations, timings, progress bars other than their counter, log levels.
