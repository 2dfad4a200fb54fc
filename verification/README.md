# A verified model of a Gopher server

The repository is a Gopher server in C (RFC 1436). This project models the parts of its Linux build in
which something can go wrong that no single function shows: the handshake between the request handlers
and the log process, reading a request from a fragmented TCP stream, joining paths and printing menus,
parsing and reloading the configuration, and giving back what a request has taken.

| file | what it models |
|---|---|
| `CStrings.dfy` | NUL-terminated strings, decimal notation, splitting at separators |
| `Utils.dfy` | `strtok_r`, the portable `ut_win_strtok_r`, `ut_get_line`, `ut_strtoint`, on arrays in place |
| `LogPipe.dfy`, `LogProcess.dfy` | the log handshake of any number of handlers and one logger, as a transition system, and as programs over a generic mutex, condition variable and pipes that carry it out |
| `TransferLock.dfy` | the mutex around sending a file, composed with the log handshake |
| `Socket.dfy` | the request reader on its 2049-byte buffer |
| `Protocol.dfy`, `Menu.dfy` | resolving selectors, menu lines, listing a directory, a client that follows menu lines |
| `ConfigFile.dfy` | the configuration parser: lines, the doubling array, the tokenizer, the exactly-once check |
| `LinuxSocket.dfy` | sending a file in chunks, and refusing to serve the log file |
| `RequestLife.dfy` | everything a request acquires and gives back, through a `clean_request` that never returns |
| `Reload.dfy`, `Schedule.dfy`, `ServerProcess.dfy` | the reload loop with SIGHUP arriving, and the file changing, between any two steps; and the code that carries it out on the parser's own buffers |

Concurrent code is a transition system: a program counter for each process, a step for each system call,
and theorems about all runs. Code that changes buffers, pipes or structures in place is a method on an
array or a class, proved against a function whose properties are then lemmas. System calls whose results
the program cannot know (`recv`, `send`, `calloc`, `stat`, `mmap`, `select`, `accept`) are inputs or
steps, and each may take any value.

## What turned out not to hold

Where the code does not do what its purpose suggests, the model keeps the code as it is; the lemma named
here shows when it goes right.

* A spurious wakeup of `pthread_cond_wait` can leave the logger in `read` on an empty pipe with the mutex
  held, and nothing is logged any more (`LogPipe.SpuriousWakeupDeadlocks`). A run that cannot be continued
  has logged every record exactly if every record was logged already whenever the logger took the mutex
  back to an empty pipe (`LogPipe.SpuriousRunsLogEveryRecordIff`); it has also come to rest with the logger
  waiting exactly if that never happened (`LogPipe.SpuriousRunsLogAllIff`). Without spurious wakeups nothing
  of this can happen.
* In Thread mode an empty file, a failing `fstat` and a failing `mmap` return with `p_mutex` held; every
  other thread then waits for ever (`TransferLock.LeakedForever`). Without spurious wakeups every thread
  is served exactly if no file leaks or no two threads want the mutex (`TransferLock.AllServedIff`).
* A stream of 2048 bytes or more whose line feed comes before index 2047 is answered or rejected
  depending on how TCP cuts it (`Socket.FragmentationIndependentIff`).
* A selector that ends in LF alone loses its last character (`Socket.BareLineFeed`).
* The menu sends full paths as selectors, and the server puts its root before them again: a menu line
  leads to its entry only if the root has no components, as the shipped `.` has none
  (`Protocol.HopIsExactIff`).
* A `send` that takes only part of a menu line counts as a success; a listing that returns 0 is complete
  exactly when no send was partial (`Menu.SuccessIsCompleteIff`).
* The port check sees a number only after it has been clamped to a long and cut to 32 bits, and looks
  from above only: 4294974376 is accepted as 7080, 3000000000 is accepted and stored, and a negative
  number is stored modulo 2^32 (`ConfigFile.PortAcceptedIff`).
* A port that prints in ten or more characters overruns the allocation of a menu line, one in eleven or
  more that of the error line (`Menu.LineFitsIff`). Such a port can be configured: -100000000 is accepted,
  stored as 4194967296 and printed as -100000000 (`Menu.OverrunIsConfigurable`). The accepted numbers whose
  lines fit are those whose 32 bits are above -100000000, or -1000000000 for the error line
  (`Menu.ConfiguredPortFitsIff`).
* `clean_request` does not close the connection of a request whose buffer cannot be allocated, whose stream
  fails or is empty, or which, without being too long, fails to resolve, gets no type, fails to open or to
  map its file, or asks for an empty or an unmanaged file; a too-long request is closed even if it then
  fails to resolve (`RequestLife.FreedOnceClosedIff`, `RequestLife.LeavesNothingIff`). In Process mode the
  end of the process closes what is left open, in Thread mode nothing does.
* `main` ignores the result of the parser: when `realloc` fails, the server goes on with the old
  configuration as if the SIGHUP had been served (`Reload.OutOfMemoryServesOld`). Exactly which runs end
  up to date is `Reload.ReloadIsSafeIff`.

## Model

| member | source | states |
|---|---|---|
| Utils.StrtokR | general/lib/utils/utils.c:83 | in place: the first token by positions, its delimiter overwritten by NUL, nothing else changed, the rest of the string saved |
| Utils.WinStrtokR | general/lib/utils/utils.c:62-78 | with a non-null context it makes the same promise about the buffer as `strtok_r`, and saves a null pointer where that saves the end of the string |
| Utils.TokenizedOnce | general/lib/utils/utils.c:62-90 | that promise determines the buffer, the token and the saved position, so two tokenizers that keep it cannot differ |
| Utils.StepIsNextToken | general/lib/utils/utils.c:80-90 | a step on the buffer is a step of the tokenizer on strings: same token, same rest |
| Utils.Lockstep | general/lib/utils/utils.c:62-90 | for any string and any delimiter set at each call both tokenizers return the tokens of the string and leave the same bytes behind |
| Utils.NoTokenForEver | general/lib/utils/utils.c:67-68 | after a call that finds no token every later call finds none, whatever its delimiters |
| Utils.TokensArePieces | general/lib/utils/utils.c:80-90 | with one delimiter set the tokens are the non-empty pieces of the string between delimiters |
| Utils.GetLine | general/lib/utils/utils.c:121-128 | finds a line feed if and only if there is one among the first `size` bytes, and writes exactly one NUL, before the first |
| Utils.StrToIntReadsDecimal | general/lib/utils/utils.c:54-60 | any integer printed in decimal is read as itself clamped to a long and cut to 32 bits; exactly the 32-bit integers are read back |
| Utils.ClampIs | general/lib/utils/utils.c:56 | a number outside 64 bits becomes the nearest one inside |
| Utils.SpaceAndPlusAreSkipped | general/lib/utils/utils.c:56 | white space before a number is skipped but is no number, and a plus sign changes nothing |
| Utils.TrailingTextIsRejected | general/lib/utils/utils.c:58 | digits, with a minus sign or without, that something else follows end the process with code 3 |
| Utils.OtherTextIsRejected | general/lib/utils/utils.c:54-60 | a text that begins neither with white space nor as a number ends the process with code 3, and an empty one is 0 |
| Utils.LeadingZero | general/lib/utils/utils.c:56 | leading zeros change nothing |
| CStrings.DecimalRoundTrip | general/lib/gopher/protocol.c:80 | the digits printed for a number denote it |
| CStrings.DecimalIs | general/lib/gopher/protocol.c:80 | numbers are written digit by digit, the last digit last, a negative one after a minus sign |
| CStrings.DecimalLength | general/lib/gopher/protocol.c:75-76 | a number prints in at most k digits if and only if it is below 10^k |
| LogPipe.StepKeepsInv | linux/lib/pipe/linux_pipe.c:314-361 | every step of a handler or the logger, and a spurious wakeup, keeps the invariant on mutex, tokens, pipe and log; a step without wakeup also keeps the token count |
| LogPipe.RunInv | linux/lib/pipe/linux_pipe.c:493-562 | every state of every execution satisfies the invariant |
| LogPipe.NoLostWakeup | linux/lib/pipe/linux_pipe.c:320-353 | for any number of handlers, a token is unspent exactly while the logger is between writing it and being woken; every signal finds the logger waiting and wakes it |
| LogPipe.ExactlyOnceFifo | linux/lib/pipe/linux_pipe.c:335-339 | the log, then the record the logger holds, then the pipe, are the records written so far in order, each handler's once; a read takes one whole record and empties the pipe; spurious wakeups allowed |
| LogPipe.LineShowsText | linux/lib/pipe/linux_pipe.c:335-337 | the line in the log is the handler's text, cut at 4095 characters |
| LogPipe.TextSplits | linux/lib/pipe/linux_pipe.c:336-337 | the text has the file, its size, the client, then host and port between its tabs, each after its literal label |
| LogPipe.StepDecreasesRank | linux/lib/pipe/linux_pipe.c:493-562 | every step except a spurious wakeup lowers the rank by exactly one |
| LogPipe.StuckIff | linux/lib/pipe/linux_pipe.c:496-514 | a state satisfying the invariant is a deadlock if and only if all work is done, or the logger waits on an empty pipe and every handler still to log is blocked |
| LogPipe.EveryMaximalRunLogsAll | linux/lib/pipe/linux_pipe.c:314-361 | without spurious wakeups a run of N handlers has at most 13N + 3 steps; it cannot be continued exactly when it has that many, and then every record is in the log once, the mutex is free and one token is ready |
| LogPipe.PoisonedForever | linux/lib/pipe/linux_pipe.c:540 | a logger that waits on an empty pipe waits for ever and the log never grows again |
| LogPipe.SpuriousRunsLogAllIff | linux/lib/pipe/linux_pipe.c:514-540 | with spurious wakeups, a run that cannot be continued has logged everything and come to rest, the logger waiting with one token ready, if and only if the logger never took the mutex back to an empty pipe |
| LogPipe.SpuriousRunsLogEveryRecordIff | linux/lib/pipe/linux_pipe.c:514-540 | with spurious wakeups, a run that cannot be continued has logged every record if and only if every record was logged already whenever the logger took the mutex back to an empty pipe |
| LogPipe.SpuriousWakeupDeadlocks | linux/lib/pipe/linux_pipe.c:514-540 | from every initial state one spurious wakeup leads to such a logger |
| LogProcess.LogSystem.CanIffEnabled | linux/lib/pipe/linux_pipe.c:314-361 | over generic mutex, condition and pipes, a call of a handler or the logger would not block exactly when the handshake lets that process move |
| LogProcess.LogSystem.RunHandler | linux/lib/pipe/linux_pipe.c:320-353 | the handler's straight-line program makes its next call on the generic objects, never unlocking a mutex it does not own, and the objects show the state of the extended handshake execution |
| LogProcess.LogSystem.RunLogger | linux/lib/pipe/linux_pipe.c:496-559 | the logger's program makes its next call on the generic objects, waits and unlocks only as the owner of the mutex, and the objects show the state of the extended execution |
| LogProcess.LogSystem.DisturbLogger | linux/lib/pipe/linux_pipe.c:514 | a wakeup of the parked logger without a signal is the spurious step of the handshake |
| LogProcess.LogSystem.RunToRest | linux/lib/pipe/linux_pipe.c:493-562 | whatever the scheduler picks, the programs rest after exactly 13N + 3 steps: mutex free, logger parked, one token, every record in the log once |
| TransferLock.TransferKeepsInv | linux/lib/memory_mapping/linux_memory_mapping.c:56-122 | every move in the transfer keeps the invariant that ties p_mutex, the thread's position, its file and the log |
| TransferLock.TransferSteps | linux/lib/memory_mapping/linux_memory_mapping.c:45-128 | file by file: p_mutex stays locked exactly for an empty file, a failing `fstat` and a failing `mmap`, and the log routine is called exactly for a file that was sent or is empty |
| TransferLock.TransferIsExclusive | linux/lib/memory_mapping/linux_memory_mapping.c:56-119 | in every run, spurious wakeups included, at most one thread is in the transfer section, and the owner of p_mutex is not in the log routine unless its file was empty |
| TransferLock.ServerStuckIff | linux/lib/memory_mapping/linux_memory_mapping.c:56-122 | without spurious wakeups nothing can move if and only if every thread has finished or waits for a p_mutex that has leaked, and the log is at rest |
| TransferLock.MoveDecreasesRank | linux/lib/memory_mapping/linux_memory_mapping.c:45-128 | without spurious wakeups every move lowers a measure of the whole server |
| TransferLock.EveryRunServesAll | general/lib/socket/socket.c:422-435 | with no leaking file and no spurious wakeup a run of N threads ends within 18N + 3 moves, p_mutex free, and the log holds exactly the served files, each once |
| TransferLock.LeakedForever | linux/lib/memory_mapping/linux_memory_mapping.c:61-92 | in every run, spurious wakeups included, once p_mutex has leaked no thread enters the section again |
| TransferLock.LeakIsFatal | linux/lib/memory_mapping/linux_memory_mapping.c:78-80 | if one file leaks and another thread wants p_mutex, some schedule without spurious wakeups leaves that thread unserved |
| TransferLock.AllServedIff | linux/lib/memory_mapping/linux_memory_mapping.c:51-128 | every thread is served under every schedule without spurious wakeups if and only if no file leaks or no two threads want p_mutex |
| Socket.Receive | general/lib/socket/socket.c:198 | a receive puts the bytes that fit at the write position and changes nothing else |
| Socket.Accept | general/lib/socket/socket.c:215-230 | one receive either overflows, ends the request with the right C string in the buffer, or leaves the buffer with no line feed so far and zeros from the new position on |
| Socket.Turn | general/lib/socket/socket.c:197-231 | one turn of the loop, signals, end of stream and errors included, against the outcome on values |
| Socket.ReadRequest | general/lib/socket/socket.c:187-233 | for every stream of events the result, the buffer as a C string and `type_Request` are those of the outcome |
| Socket.ReceivesAreBounded | general/lib/socket/socket.c:197-231 | the loop ends within 2048 successful receives |
| Socket.ShortStream | general/lib/socket/socket.c:197-231 | below 2048 bytes the outcome is decided by the bytes and the ending alone, however the stream is cut and interrupted |
| Socket.LineAnswer | general/lib/socket/socket.c:228-230 | for a stream of any length, under every fragmentation in which a line is read, the request is the C string before the first line feed less one character |
| Socket.ShortAnswer | general/lib/socket/socket.c:187-233 | below 2048 bytes the request is the C string of the bytes before the line feed less one, or the whole stream if it has none |
| Socket.SelectorArrives | general/lib/socket/socket.c:228-230 | RFC 1436 section 2: a selector followed by CR LF arrives exactly, under every fragmentation of a stream below 2048 bytes and every other one in which its line is read |
| Socket.BareLineFeed | general/lib/utils/utils.c:121-128 | a selector followed by LF alone loses its last character |
| Socket.TooLongIff | general/lib/socket/socket.c:215-227 | the reader returns -2 if and only if 2048 bytes accumulate before some shorter prefix of the receives has exposed a line feed |
| Socket.FragmentationIndependentIff | general/lib/socket/socket.c:187-233 | the answer to a non-empty stream is the same under every fragmentation if and only if it is shorter than 2048 bytes or has no line feed before index 2047 |
| Socket.LateLineFeed | general/lib/socket/socket.c:216-225 | a longer stream with no line feed before index 2047 is rejected under every fragmentation |
| Socket.CutIsAccepted | general/lib/socket/socket.c:228-230 | a longer stream with an earlier line feed is accepted under some fragmentation |
| Protocol.ResolveSelector | general/lib/gopher/protocol.c:24-45 | the allocation holds the path and its NUL; the three results say which call failed |
| Protocol.ResolvedPathIs | general/lib/gopher/protocol.c:34-38 | the path is the root, a slash unless the root ends in one, and the selector without its leading slash |
| Protocol.ResolvedSlashes | general/lib/gopher/protocol.c:34-38 | of several leading slashes only the first is left out |
| Protocol.CompsOne | general/lib/gopher/protocol.c:34-38 | of a path's components exactly the empty ones and "." do not matter |
| Protocol.ResolvedComps | general/lib/gopher/protocol.c:34-38 | the components of a resolved path are the root's and then the selector's, for every non-empty root and every selector |
| Protocol.Navigation | general/lib/gopher/protocol.c:116-136 | after n hops the path goes through the root's components n more times, then through where the client was, then through the names it followed |
| Protocol.NavigationStart | general/lib/gopher/protocol.c:34-38 | every path a client reaches by menu lines is absolute if and only if the root is |
| Protocol.HopIsExactIff | general/lib/gopher/protocol.c:107-136 | following a menu line denotes exactly the listed entry if and only if the root has no components |
| Menu.LineFitsIff | general/lib/gopher/protocol.c:58-80 | a line and its NUL fit their allocation if and only if the port prints in at most nine characters, or ten for the error line |
| Menu.ConfiguredPortFitsIff | general/lib/gopher/protocol.c:74-80 | for every printed number that the parser accepts as a port, a line fits its allocation if and only if the number's 32 bits are above -100000000, or -1000000000 for the error line |
| Menu.OverrunIsConfigurable | general/lib/gopher/protocol.c:74-80 | the parser accepts -100000000 and stores a port whose menu lines overrun their allocation |
| Menu.ProtocolResponse | general/lib/gopher/protocol.c:47-86 | the result holds the line of the type as a C string; the result codes say what failed and whether there is something to free; the allocation is overrun exactly when the line does not fit |
| Menu.ResponseIs | general/lib/gopher/protocol.c:55-80 | type '3' gives the error line, every other type a menu line that begins with the byte of the type |
| Menu.MenuLineSplits | general/lib/gopher/protocol.c:80 | RFC 1436 section 3.9: between its tabs a menu line has type and name, selector, host and port |
| Menu.ErrorLineSplits | general/lib/gopher/protocol.c:58-65 | between its tabs the error line has 3 and the name, the literal text, and the port |
| Menu.TurnIs | general/lib/gopher/protocol.c:109-157 | an entry with a leading dot is passed over, without memory, format or type the listing stops with -1, with a failing send with -2, and otherwise its line, or as much as the send takes, is on the wire |
| Menu.Wire.SendMessage | general/lib/socket/socket.c:309-318 | success means that the send took something, not that it took everything |
| Menu.SendEntry | general/lib/gopher/protocol.c:110-157 | one entry, for every port: hidden, an error, an overrun, or its line on the wire |
| Menu.PrintDirectory | general/lib/gopher/protocol.c:97-164 | for every port the sends are those of the entries before the first failure, in order, and the result is that failure's, or 0; what a successful listing with whole sends has put on the wire parses back to items that mirror the visible entries |
| Menu.WholeSends | general/lib/gopher/protocol.c:149-157 | while sends are whole, the client has a beginning of the menu, in whole lines |
| Menu.SuccessIsCompleteIff | general/lib/socket/socket.c:312-317 | a listing that succeeds has sent the whole menu if and only if no send was partial |
| Menu.LineSays | general/lib/gopher/protocol.c:80 | RFC 1436 section 3.9: a printed line parses to its type and four fields |
| Menu.LinesParse | general/lib/gopher/protocol.c:80 | lines that say their items, one after the other, parse back to those items |
| Menu.MenuRoundTrip | general/lib/gopher/protocol.c:109-159 | the lines of a listing that runs to its end parse back to items that mirror the entries without a leading dot, in order: the type is the byte of getGopherCode, the selector the directory's path, a slash and the name, then host and port |
| Menu.SentMenuReadsBack | general/lib/gopher/protocol.c:149-157 | what such a listing has sent, with no partial send, parses back to items that mirror those entries |
| Menu.ItemsMirror | general/lib/gopher/protocol.c:107-136 | item by item: name, type, selector, host and port of the visible entries |
| Menu.VisibleIs | general/lib/gopher/protocol.c:110 | exactly the entries whose name does not begin with a dot are visible |
| Menu.VisibleJoins | general/lib/gopher/protocol.c:109-110 | they are listed in the order of the directory |
| Menu.MenuLinksWork | general/lib/gopher/protocol.c:116-136 | with a root without components each line of a listing leads to its entry in the listed directory |
| ConfigFile.PortAcceptedIff | general/lib/io/config_file.c:32-37 | any printed number is accepted if and only if what is left of it after clamping to a long and cutting to 32 bits is at most 65535, and stored as itself if and only if it is 0 to 65535 or 2^31 to 2^32 - 1; a negative 32-bit number is stored plus 2^32; a refused one ends with code 3 |
| ConfigFile.ModeWord | general/lib/io/config_file.c:40-46 | Thread is mode 1, Process is mode 0, and any other word ends the process with code 3 |
| ConfigFile.PortLineMeans | general/lib/io/config_file.c:190-195 | the line "port " and a number sets that port |
| ConfigFile.ModeLineMeans | general/lib/io/config_file.c:197-204 | the lines "mode_concurrency Thread" and "mode_concurrency Process" set modes 1 and 0 |
| ConfigFile.RootLineMeans | general/lib/io/config_file.c:206-214 | the line "root_dir " and a quoted text sets that root |
| ConfigFile.IpLineMeans | general/lib/io/config_file.c:215-229 | the line "external_ip " and a text sets that host |
| ConfigFile.LongHostIsWrong | general/lib/io/config_file.c:223-225 | a host of 2048 characters or more only marks the file as wrong |
| ConfigFile.LongRootFillsBuffer | general/lib/io/config_file.c:212 | a root of 2048 characters or more fills its buffer, without a NUL |
| ConfigFile.OtherLines | general/lib/io/config_file.c:185-240 | a line without a word is blank, and any first word but the four names ends the process with code 3 |
| ConfigFile.LeadingSpaces | general/lib/io/config_file.c:185-191 | spaces before a word do not count |
| ConfigFile.RestIsIgnored | general/lib/io/config_file.c:185-217 | what follows a port or a mode after a space, or a root or a host after a quote, does not count |
| ConfigFile.QuotedPortStops | general/lib/io/config_file.c:190-195 | a quoted port ends the process with code 3 |
| ConfigFile.ParseExitIff | general/lib/io/config_file.c:183-253 | a parse ends with code 3 if and only if some line ends the process, and with code 1 if and only if none does and the four keys do not occur once each |
| ConfigFile.StripIs | general/lib/io/config_file.c:148-149 | carriage returns and line feeds at the end of a line are cut, and nothing else |
| ConfigFile.LineEndsAreRead | general/lib/io/config_file.c:146-155 | a line ends at a line feed, with or without a carriage return before it, or at the end of the file |
| ConfigFile.StripLine | general/lib/io/config_file.c:148-149 | strips all trailing line feeds and carriage returns |
| ConfigFile.Store | general/lib/io/config_file.c:157-165 | stores a line and doubles a full array, keeping the lines stored before and room for one more; fails if and only if the array is full and cannot be doubled |
| ConfigFile.ReadLines | general/lib/io/config_file.c:146-166 | the array holds the lines of the file, and the index stays below its size; fails if and only if some doubling that the number of lines needs is refused |
| ConfigFile.ReadOption | general/lib/io/config_file.c:185-223 | the in-place tokenizer, with the delimiter that changes in mid-line, reads the key and value the line means |
| ConfigFile.ParseLine | general/lib/io/config_file.c:183-240 | one line changes counts and configuration by its effect, or ends the process with its code |
| ConfigFile.ParseConfigFile | general/lib/io/config_file.c:113-257 | returns -1, with the configuration untouched, if and only if a doubling that the number of lines needs is refused; otherwise result and configuration object are those of the parse of the file's lines |
| ConfigFile.ParseOkIff | general/lib/io/config_file.c:247-253 | parsing succeeds if and only if each of the four keys occurs once and all other lines are blank, and then gives their values |
| ConfigFile.OrderDoesNotMatter | general/lib/io/config_file.c:183-250 | the same lines in any order, with blank lines anywhere, give the same configuration, whatever was in force before |
| ConfigFile.CopyForgets | general/lib/io/config_file.c:212-227 | a copied root or host does not depend on what its buffer held |
| ConfigFile.FileLinesOfJoin | general/lib/io/config_file.c:146-166 | lines that are joined into a file are read back |
| ConfigFile.ConfigRoundTrip | general/lib/io/config_file.c:146-255 | a file of the four lines written out literally, in any order with blank lines, parses to port, mode, root and host as C strings, whatever was in force before |
| ConfigFile.PrintThenParse | general/lib/io/config_file.c:113-257 | writing port 0 to 65535, mode, quoted root and host as those four literal lines and parsing them gives the same values |
| LinuxSocket.Client.Send | linux/lib/socket/linux_socket.c:252 | a send delivers what it takes of the buffer |
| LinuxSocket.LSendFile | linux/lib/socket/linux_socket.c:238-258 | the client receives exactly the beginning of the message that the chunked sends get through |
| LinuxSocket.ChunkedDeliversIff | linux/lib/socket/linux_socket.c:249-256 | the whole message gets through if and only if no send fails, with at most one send for each byte; a shorter one ends in a failed send |
| LinuxSocket.LinuxSendFile | linux/lib/socket/linux_socket.c:260-276 | one send: what it takes of the message is all that is delivered |
| LinuxSocket.ChunksEqualOneSend | linux/lib/socket/linux_socket.c:238-276 | when every send takes all it is offered, the chunks deliver the whole message in ⌈length/512⌉ sends |
| LinuxSocket.AbsoluteNameIsInjective | linux/lib/socket/linux_socket.c:321-328 | directories with the same absolute name are the same, so comparing names compares directories |
| LinuxSocket.DirNameIsParent | linux/lib/socket/linux_socket.c:324-325 | `dirname` of an absolute name is the absolute name of the parent |
| LinuxSocket.BaseNameIsLastPiece | linux/lib/socket/linux_socket.c:317-320 | `basename` of a path that ends in a name is that name |
| LinuxSocket.TrailingSlash | linux/lib/socket/linux_socket.c:317-320 | slashes at the end of a path do not change its base name |
| LinuxSocket.LookupOne | linux/lib/socket/linux_socket.c:321-322 | a component that is empty or "." stays, ".." goes to the parent, every other name goes down |
| LinuxSocket.LookupJoin | linux/lib/socket/linux_socket.c:321-322 | a path of two parts leads where the second leads from where the first leads |
| LinuxSocket.LookupAbsolute | linux/lib/socket/linux_socket.c:321-322 | a leading slash starts at the root |
| LinuxSocket.LookupSlashes | linux/lib/socket/linux_socket.c:321-322 | repeated slashes are one |
| LinuxSocket.AbsoluteNameIs | linux/lib/socket/linux_socket.c:321-322 | the absolute name of an entry is its directory's, a slash and its own name |
| LinuxSocket.LogFileExcludedIff | linux/lib/socket/linux_socket.c:316-333 | in a tree without symbolic links a path to a regular file is refused if and only if it leads where "../gopher_log_file.txt" leads from the working directory |
| LinuxSocket.DetourIsRefused | linux/lib/socket/linux_socket.c:316-333 | "./../gopher_log_file.txt" is refused from every working directory |
| RequestLife.ReleasedOnceIff | general/lib/socket/socket.c:137-164 | in a run whose every action is allowed a resource is given back once if it was taken and is no longer held, and otherwise never |
| RequestLife.NothingAfterwards | general/lib/socket/socket.c:137-164 | in such a run nothing is touched, sent from or sent over after it was given back, and nothing happens after the exit |
| RequestLife.Request.CleanRequest | general/lib/socket/socket.c:137-164 | gives back what it is passed, the socket only if `type_Request` is set, and ends the request |
| RequestLife.Request.ReadSelector | general/lib/socket/socket.c:187-233 | what the request holds, and `type_Request`, after each outcome of the reader |
| RequestLife.Request.ResolveSelector | general/lib/socket/socket.c:171-180 | what the request holds after each result of resolving, and whether it is over |
| RequestLife.Request.SendErrorToClient | general/lib/socket/socket.c:320-333 | the request is over; only an error line that could not be printed stays behind |
| RequestLife.Request.SendTooLongError | general/lib/socket/socket.c:335-344 | the request is over and holds nothing |
| RequestLife.Request.LinuxMemoryMapping | linux/lib/memory_mapping/linux_memory_mapping.c:38-129 | what is locked, opened, mapped and closed after each result of opening, stat, size and mapping; the file's bytes are sent exactly once if it maps |
| RequestLife.Request.ManageFiles | general/lib/socket/socket.c:346-441 | what the request holds, and `type_Request`, after each kind of file |
| RequestLife.Request.HandleRequest | linux/lib/socket/linux_socket.c:294-314 | no path uses or gives back anything it does not hold; when the request is over it has taken and left exactly what Takes and Leaves say, given the rest back once, and been answered as it should be: each reply, each use of mapping, error line and socket, and the log entry are counted exactly |
| RequestLife.CasesAre | general/lib/socket/socket.c:346-441 | the cases of a request in terms of its stream, the resolved path, the kind of file, the type and the mapping |
| RequestLife.LeavesAre | general/lib/socket/socket.c:137-164 | what a request can leave behind, resource by resource |
| RequestLife.FreedOnceClosedIff | linux/lib/socket/linux_socket.c:294-314 | buffer, path, address and arguments are freed exactly once if allocated; the socket is closed at most once, and exactly once for a request that is too long, missing or forbidden, a directory, or a file that was sent |
| RequestLife.LeavesNothingIff | general/lib/socket/socket.c:346-441 | nothing is left behind if and only if the connection is closed, the error line could be printed and the listing ran to its end |
| Reload.StepKeepsInv | main.c:159-169 | every step, a SIGHUP or an edit of the file included, keeps the invariant on sockets, requests, times and file |
| Reload.RunKeepsInv | main.c:159-169 | every state reached by any interleaving satisfies the invariant |
| Reload.ParsedSays | general/lib/io/config_file.c:183-250 | a successful parse would have given the same configuration whatever was in force before |
| Reload.PrintedSays | main.c:128 | a printed configuration file says its configuration, so every run of a server can start from one |
| Reload.HistoryKept | main.c:159-169 | what the steps so far say about the last SIGHUP, the last opening of the file and the last start agrees with the times, and every step keeps it so |
| Reload.ReloadIsSafeIff | main.c:159-169 | in every run at most one socket listens, on the configured port while accepting, and requests carry the configuration they were accepted under; an accepting server is up to date if and only if there was no SIGHUP, or after the last one the file was opened and the server started without the parser running out of memory in between |
| Reload.UpToDateWhileMemoryLasts | main.c:159-169 | if the parser never runs out of memory, an accepting server with no SIGHUP waiting has parsed its configuration after the last SIGHUP, and has what the file says if the file has not changed since |
| Reload.OutOfMemoryServesOld | main.c:166-168 | from every start, a file of 1024 lines or more and a failing `realloc` lead to a server that accepts with the old configuration and no SIGHUP waiting |
| Schedule.AlwaysEnabled | main.c:159-169 | while the process lives the step that its program point and the moment's results choose is possible, whatever the results |
| Schedule.NothingIsLost | main.c:159-169 | unless the process ends, every signal, every edit and every call of a schedule is one step of the run it plays |
| Schedule.SighupIsNoted | linux/lib/signals/linux_signals.c:12-20 | where a SIGHUP arrives the flag is set and the last SIGHUP is of now; where none does, neither changes |
| Schedule.FileIsLast | main.c:168 | the file is the last one put there, or unchanged, and nothing else of the process changes by what arrives |
| Schedule.OutsideIsSchedule | main.c:159-169 | the SIGHUPs and changes of the file in the run are, in order, exactly those of the moments that are played: all of them unless the process ends |
| Schedule.SighupReloads | linux/lib/socket/linux_socket.c:164-171 | a SIGHUP at `select` closes the listening socket, then clears the flag, then begins to read the file anew |
| Schedule.OtherFailuresStay | linux/lib/socket/linux_socket.c:172-176 | any other failure of `select` changes nothing |
| Schedule.ConnectionIsServed | linux/lib/socket/linux_socket.c:178-213 | a ready socket is accepted and its request gets port, mode and root of that moment; a failing `accept` goes back to `select` |
| Schedule.StartListens | linux/lib/socket/linux_socket.c:140-143 | start_server listens on the configured port, or the process ends |
| Schedule.MissingFileEnds | general/lib/io/config_file.c:141 | a configuration file that does not open ends the process |
| Schedule.ReadTakes | general/lib/io/config_file.c:146 | a read appends the bytes the moment gives it, or all that is left, to what was read before |
| Schedule.SmallFileIsApplied | general/lib/io/config_file.c:157-165 | a file of fewer than 1024 lines needs no doubling: it is applied whatever memory there is |
| Schedule.ScheduleIsSafeIff | main.c:159-169 | reload safety of the run that any schedule plays, with the exact condition for being up to date |
| ServerProcess.Boot | main.c:120-155 | there is a server if and only if the lines of the file can be stored and say a configuration, and its buffers then hold it; a first parse that returns -1 ends in the test of the address |
| ServerProcess.Server.Tick | linux/lib/signals/linux_signals.c:12-26 | takes exactly the next moment of the schedule: what arrives is served at once, and the call is still to be made |
| ServerProcess.Server.AcceptRequest | linux/lib/socket/linux_socket.c:178-213 | with signals before and after `accept`, goes on along the run that the rest of the schedule plays, to the next `select` or the end |
| ServerProcess.Server.CopyConfiguration | linux/lib/socket/linux_socket.c:198-213 | a request gets port, mode and root out of the buffers, together with the port that is listened on |
| ServerProcess.Server.Select | linux/lib/socket/linux_socket.c:164-177 | only an interruption with the flag set leaves the loop |
| ServerProcess.Server.LinuxSocket | linux/lib/socket/linux_socket.c:135-226 | is the run that its part of the schedule plays; returns to main only with the listening socket closed |
| ServerProcess.Server.ReadFile | general/lib/io/config_file.c:146-166 | reads to the end of a file that may change while it is read, piece by piece as the schedule says |
| ServerProcess.Server.ApplyInPlace | general/lib/io/config_file.c:183-240 | a line is tokenized and applied to the buffers in place by the line's effect, or ends the process |
| ServerProcess.Server.Reparse | general/lib/io/config_file.c:113-257 | opening, reading, splitting and applying the file in place is the run that its part of the schedule plays, back to main with or without success |
| ServerProcess.Server.Serve | main.c:159-169 | the server is exactly the run that its schedule plays, to the end of the schedule or of the process: one socket at most, requests faithful, and the buffers up to date exactly if the steps of that run say so |

## Left out

- The Windows build, except `ut_win_strtok_r`: its processes, events and named pipes.
- The log routines that `LOG_WITH_MULTIPLE_PROCESS` disables, and `fork`, `shm_open` and the other calls that set the handshake up; the handshake starts with its mutex, condition and pipes in place.
- `open(LOG_PATH)` in the logger is taken to succeed. The loop never closes `fd_log`, so a server that logs long enough runs out of descriptors.
- Errors of the mutex, condition and pipe calls themselves, which the code only reports.
- `socket_drain_tcp`, which throws received bytes away before a too-long request is answered; its result is not used.
- Socket.ReadRequest: does not cover a line feed as the very first byte, because `ut_get_line` then writes before the buffer.
- Protocol.ResolveSelector: does not cover an empty root, because the code then reads before the string.
- Menu.PrintDirectory: after an overrun the C program's behaviour is undefined, and the model stops there; a directory that `opendir` refuses, and `closedir`, appear in RequestLife only.
- ConfigFile.ParseConfigFile: a key without a value is excluded, because the code continues with a null pointer.
- ConfigFile.ConfigRoundTrip: roots and hosts contain no quote, carriage return, line feed or NUL, and have 1 to 2047 characters; the file format has no way to write others.
- LinuxSocket.LogFileExcludedIff: symbolic links, and paths through names that do not exist, are not modelled.
- LinuxSocket.LSendFile: `l_sendFile` is present in the source, but its call is commented out (linux/lib/memory_mapping/linux_memory_mapping.c:108); files go out through `linux_sendFile`.
- RequestLife.Request.HandleRequest: which reply is sent is counted, its bytes are those of Menu and LinuxSocket; the text of the too-long line (general/lib/socket/socket.c:337) is not modelled. An overrun of the error line (Menu) is not one of its outcomes; the parent's side of `fork` and of a failing `pthread_create`, and errors of `close`, `munmap` and the locks, are not modelled; the blocks a listing allocates and frees for each entry are not followed.
- Reload.ReloadIsSafeIff: safety only. A SIGHUP that lands outside `select` sets the flag and waits for the next interruption. The host name is a pointer to a shared buffer and is not part of a request's copy. Command-line options, which can override the first parse and set an address when it has returned -1, are left out, and so is an `accept` interrupted by a signal, which the code takes for a connection.
- TransferLock.AllServedIff: with spurious wakeups a thread can also be left unserved by the log handshake, which LogPipe.SpuriousRunsLogAllIff characterises on its own.
- TransferLock.EveryRunServesAll: Process mode uses a lock on the file that the system releases with the process; it appears in RequestLife only.
- `getGopherCode` and the MIME tables, console logging, daemon mode, commented-out code and the unused duplicates `socket_read_request2`, `socket_drain_tcp2` and `get_line`.
