# Models and proofs: the audit pipeline, the approval relay and their neighbours

These Dafny modules model the parts of the repository whose behaviour is hardest to see by reading one
function, and prove what those parts are for. Every operation keeps the branches, constants and error
cases of the Python code it stands for; each is then connected to a statement that does not repeat it:
a maximum, a round trip, an invariant of every run, a declarative reading of a history, or an exact condition.

## The modules

| module | what it models |
|---|---|
| `Decimal`, `Unicode`, `Integers`, `Calendar` | decimal numerals, the decimal digits of every script (Unicode 15.1), what `int` reads and `str` prints, and timestamps (section 5.6 of RFC 3339) |
| `Utf8`, `Json`, `JsonLoads` | UTF-8 (section 3 of RFC 3629), JSON printing with ASCII-only escapes (section 7 of RFC 8259) and the reader `json.loads` |
| `JsonGrammar`, `JsonReads`, `JsonPrints`, `JsonValues` | what JSON text is, without a reader (sections 2 to 7 of RFC 8259); that the reader reads exactly that, that printing writes it in the usual layout, and what Python holds after reading |
| `HeadTail`, `Preview`, `CapJson` | size capping in `hexgate/audit.py`: one text, the preview wrapper, the search for one allowance |
| `Redact` | recursive redaction in `hexgate/audit.py`, JSON text nested in strings included |
| `Relay`, `RelayHistory`, `RelayHandler` | the approval relay of `hexgate/cli/serve.py`: the protocol as a state machine, all that a history says of it, and the handler class that takes its steps |
| `Session`, `SessionHistory` | connections, dispatched tasks, both locks and the teardown order of the serve loop; and all that a history says of them |
| `Serve`, `ServeHistory`, `ServeProgress`, `ServeTeardown` | session and relay together, every call with its turn, its sender and its reply; that nobody in it waits for ever, and that a connection can be ended |
| `Subagents` | the memoised walk over a possibly cyclic mount graph in `hexgate/cli/_common.py` |
| `FactLines`, `FactPattern`, `FactSource`, `FactReading` | the escaper, the extraction loop, the fact-line pattern as a relation, the facts on a written line, and what a line and a break are |
| `Datalog`, `Block`, `Attenuate` | how Datalog reads a block, what the appended block says, and the envelope and facts of an attenuated token |
| `ChatModel`, `ChatState` | the chat event reducer: what a history means, and the classes that hold it |
| `Versions`, `Authority`, `Percentile` | version sampling, authorities, nearest-rank percentiles |

Text is a sequence of Unicode scalar values. JSON values are a datatype that keeps lists and tuples apart
and keeps a dictionary's fields in order; `Wf` says that numbers print as JSON numbers and that no
dictionary repeats a key.

## Where a promise needs a condition

* The docstring of `_escape_datalog_string` promises that escaping keeps a caller from injecting facts or checks.
  To Datalog it does: for every user and role the block says who the user is, the role and the time of expiry,
  and nothing else (`Block.BlockSays`). `extract_facts` reads the same block line by line. There it holds for
  texts: the only ones a block adds are the user's own under `user` and the role's own under `role`
  (`Attenuate.NoForgedText`), so a forged `user("eve")` is never a fact. For integers it does not hold. A line
  break is not escaped: for every predicate and integer, in decimal digits of any script, there is a user id
  whose block yields exactly that fact, and no longer says who the user is (`Attenuate.LineFeedInjects`). Two
  exact conditions, both on the values a caller passes: the block yields the user's and role's facts and nothing
  else exactly when neither has a line break or `<-` (`Attenuate.BlockIsExactIff`,
  `Attenuate.AttenuationAddsExactly`); it yields no fact beyond those two exactly when no whole line between two
  of a value's breaks reads as an integer fact (`Attenuate.NothingInjectedIff`). Such an integer of more than
  4300 digits makes `int` raise: extraction from the child then fails as a whole, and does so exactly when it
  fails on the parent or the user or the role hides one (`Attenuate.ExtractionStopsIff`). All of this takes a
  block's source to be printed as it was written.
* The docstring of `_redact_json_string` promises that text which does not parse has no key to match. Python
  also raises `ValueError` on a JSON integer of more than 4300 digits, and then the text is left as it is:
  `{"password": "x", "n": 11...1}` with 4301 ones keeps its password, as does every such text
  (`Redact.TooLongKeepsSecret`, `Redact.FirstTooLong`). JSON text of a list or dictionary is redacted inside
  exactly when no integer in it is too long (`Redact.RedactedInsideIff`), and the secrets left after redaction
  are exactly those written in text with one that is (`Redact.NoSecretsLeftIff`).
* The docstring of `_cap_json_head_tail` promises the largest allowance that fits. It is found, for all
  documents and caps, exactly when the largest leaf's byte count has at most 36 decimal digits
  (`CapJson.CapsBestIffShortEnough`), which is also when serialized size rises with the allowance
  (`CapJson.SizesRiseIffShortEnough`). Beyond that the floor branch can give up too early
  (`CapJson.FloorIsNotCheapest`). This is the exact limit of the argument rather than a fault anyone can meet:
  the shortest text beyond it has 10^36 bytes.
* The docstring of `attenuate_for_user` lists `TokenError` and `TokenSignatureError`. A positive lifetime that
  ends after the year 9999 raises `OverflowError` instead; the exact condition for success is in
  `Attenuate.AttenuateForUser`.
* `split_authority` undoes the authority built by `connect_to_args`, for every port that prints, exactly when
  an IPv6-like host has no `]` and any other host does not begin with `[` (`Authority.SplitPrintIff`).

## Model

| member | source | states |
|---|---|---|
| Utf8.DecodeHead | hexgate/audit.py:258-261 | bytes cut anywhere and decoded with errors ignored give the longest whole-character prefix: UTF-8 resynchronises |
| Utf8.DecodeTail | hexgate/audit.py:262 | the same for the longest whole-character suffix; the split character's continuation bytes vanish |
| Utf8.FitPrefixIsLongest | hexgate/audit.py:246-250 | that prefix fits its budget and no longer prefix does |
| Utf8.FitSuffixIsLongest | hexgate/audit.py:246-250 | that suffix fits its budget and no longer suffix does |
| Utf8.DecodeEncode | hexgate/audit.py:239-240 | decoding what was encoded gives the text back |
| Utf8.DecodeFirstIff | hexgate/audit.py:246-250 | the decoder takes a character off the front exactly when its own bytes stand there |
| Json.EscapeNoShorter | hexgate/audit.py:316-323 | no text is shorter in JSON than in UTF-8 |
| Json.EscapeAtMostDoubles | hexgate/audit.py:199-226 | escaping printed JSON again at most doubles it |
| JsonReads.ParseIff | hexgate/audit.py:163-166 | `json.loads` takes a text as meaning a value exactly when it is JSON text of it: any blanks around every token, any spelling of every character and number, and no other text |
| JsonReads.LayoutIsRead | hexgate/audit.py:163-166 | every layout of every document, with any run of spaces, tabs, line feeds and carriage returns around each token, is read as that document |
| JsonPrints.DumpsIsUsual | hexgate/audit.py:170-172 | what is printed is JSON text of the value with its tuples as lists, in ASCII, one space after commas and colons, short escapes and lower-case code units |
| JsonValues.LoadsIff | hexgate/audit.py:163-166 | reading succeeds exactly on JSON text without an integer of over 4300 digits; what is then held has every integer as `str` prints it and each repeated key once, at its first place with its last value |
| JsonValues.LoadsDumps | hexgate/audit.py:159-172 | reading what was printed gives the value back with its tuples as lists, numbers being as Python prints them; text with an integer of over 4300 digits is not read |
| JsonLoads.LoadsSound | hexgate/audit.py:159-172 | whatever is read holds strictly less text than was read, so redaction terminates, and comes back unchanged from its own JSON text |
| HeadTail.FitsBudget | hexgate/audit.py:243-264 | the result is within `max_bytes` of UTF-8 exactly when `max_bytes` is not negative |
| HeadTail.CutWithMarker | hexgate/audit.py:251-264 | with room for a marker: the text is head, middle and tail; head and tail are the longest that fit their halves of the budget; the marker reports the middle's bytes |
| HeadTail.MarkerReports | hexgate/audit.py:233 | the numeral in the marker is the number it was made for |
| HeadTail.CutWithoutMarker | hexgate/audit.py:255-257 | without that room the result is the longest head that fits; a negative budget counts from the end of the bytes |
| HeadTail.LeafMonotone | hexgate/audit.py:243-264 | from the floor up a larger allowance never gives a shorter JSON text, the shrinking count and the jump to the uncut text included |
| HeadTail.MonotoneIffShortEnough | hexgate/audit.py:233-264 | this holds for all texts of n bytes exactly when n has at most 36 digits |
| HeadTail.TooLongNotMonotone | hexgate/audit.py:233-264 | beyond that a text of newlines is a counterexample |
| Preview.TruncateJson | hexgate/audit.py:196-228 | raises exactly when an integer of over 4300 digits is in the dictionary; one that fits is returned; otherwise the wrapper with the first preview length of cap-512, half of that, and so on, that fits, or the bare marker when not even one byte fits |
| Preview.BareSize | hexgate/audit.py:224-226 | the bare marker takes 40 bytes and the digits of the size |
| Preview.BareReports | hexgate/audit.py:224-226 | the bare marker says that it was cut and gives the size of the text |
| Preview.PreviewIff | hexgate/audit.py:208-228 | a preview is shipped exactly when the cap holds 56 bytes and the digits of the size |
| Preview.PreviewIsWorthIt | hexgate/audit.py:208-228 | what is shipped says that it was cut, gives the size of the text, and holds a prefix of it that fits while one twice as long does not or is never tried |
| Preview.AtMostOneHalving | hexgate/audit.py:192-228 | for a cap over 512 and a size of at most 457 digits a preview is always shipped, after at most one halving |
| CapJson.CapKeepsShape | hexgate/audit.py:281-294 | capping keeps the tree, the keys and every leaf's kind, tuples becoming lists |
| CapJson.CapCutsEachLeaf | hexgate/audit.py:281-294 | the string leaves stay in order and each is cut by itself to the one allowance |
| CapJson.LargestLeafIsLargest | hexgate/audit.py:267-278 | the measured largest leaf bounds every string value and is reached by one, keys not counted |
| CapJson.NothingCut | hexgate/audit.py:281-294 | an allowance that no leaf exceeds only turns tuples into lists |
| CapJson.LeafWithinDocument | hexgate/audit.py:323-330 | no leaf is bigger than the document that holds it |
| CapJson.SizeMonotone | hexgate/audit.py:297-347 | serialized size rises with the allowance, from the floor, for every document with leaves of at most 36-digit size |
| CapJson.SizesRiseIffShortEnough | hexgate/audit.py:297-347 | it does so for all documents with a largest leaf of n bytes exactly when n has at most 36 digits |
| CapJson.CapsBestIffShortEnough | hexgate/audit.py:309-347 | for all documents with a largest leaf of n bytes and all caps: whenever some cut fits, the result is the cut at the largest allowance that fits; this holds exactly when n has at most 36 digits |
| CapJson.FloorIsNotCheapest | hexgate/audit.py:331-339 | for every largest leaf beyond that there is a document over 205 bytes at the floor and within them at the next allowance |
| CapJson.CapJsonHeadTail | hexgate/audit.py:297-347 | raises exactly when an integer of over 4300 digits is in the document; cut exactly when over the cap; otherwise a copy; on the search path the cut at an allowance that fits, every larger one exceeding the cap (leaves of at most 36-digit size); off it the preview fallback |
| CapJson.CapResultFits | hexgate/audit.py:297-347 | every result is within the cap or is the bare marker, in a one-item list for a list |
| CapJson.CapResultShape | hexgate/audit.py:297-347 | every result off the fallback keeps the input's shape |
| Redact.RedactChangesOnlySecrets | hexgate/audit.py:126-172 | redaction puts placeholders under matching keys and changes nothing else, in nested JSON text neither |
| Redact.TextIsBlanked | hexgate/audit.py:159-172 | JSON text of a list or dictionary under a listed key, in whatever layout and spelling, comes back as JSON text of what Python holds after reading it, with only the placeholder under every sensitive key |
| Redact.OtherTextStays | hexgate/audit.py:159-169 | any other text comes back as it is |
| Redact.RedactBlanks | hexgate/audit.py:126-156 | under a sensitive key at any depth only the placeholder is left, for every value |
| Redact.NoSecretsLeftIff | hexgate/audit.py:126-172 | after redaction the secrets left, at any depth and in JSON text under the listed keys, are those written in text with an integer of over 4300 digits: none exactly when such text holds none |
| Redact.NoSecretsLeft | hexgate/audit.py:126-172 | where no such text is met, under every matching key at any depth, JSON text included, only the placeholder is left |
| Redact.RedactedInsideIff | hexgate/audit.py:159-172 | JSON text of a list or dictionary is redacted inside exactly when all its integers have at most 4300 digits, and stays as it is otherwise |
| Redact.TooLongKeepsSecret | hexgate/audit.py:159-172 | for every secret key, text beside it and integer of over 4300 digits, the text that holds them keeps the secret |
| Redact.RedactIdempotent | hexgate/audit.py:126-172 | redacting twice is redacting once |
| Redact.RedactedTextReads | hexgate/audit.py:159-172 | redacted JSON text reads back as the redacted value |
| Redact.RedactKeepsDocument | hexgate/audit.py:126-156 | a redacted value is again one that JSON text can stand for |
| Relay.RunKeepsInv | hexgate/cli/serve.py:103-219 | over every interleaving, pending entries are unfinished calls with unset events and false boxes |
| Relay.StateIsHistory | hexgate/cli/serve.py:103-219 | after every run a call is pending, its box true and its event set exactly when the history says so: its request is open, an allowing reply came while it was, a reply or a disconnect came while it was |
| Relay.TrueIffApproved | hexgate/cli/serve.py:126-219 | a call returns True exactly when it was begun on a bound socket, its request was sent, an allowing reply for its id came while the request was open and no disconnect lay between, and it then resumed |
| RelayHistory.CallIsHistory | hexgate/cli/serve.py:126-219 | after every run a call is sending, waiting, returned with its result or cancelled, and past its deadline, exactly as the log says |
| RelayHistory.StepsAreTold | hexgate/cli/serve.py:103-219 | which steps can come next is decided by the log: a waiting call can return exactly when it was answered or cut off or its deadline passed |
| RelayHistory.DeadlineEnds | hexgate/cli/serve.py:177-189 | a call that waits when its deadline passes can return: False unless an allowing reply came while its request was open, and True then, even if the deadline came first |
| Relay.OutcomeIsFinal | hexgate/cli/serve.py:191-219 | once an entry is popped, no later run changes its box, its event or its absence |
| Relay.NobodyIsLost | hexgate/cli/serve.py:126-189 | an unfinished call is pending or has its event set, and then it can resume |
| Relay.UnbindDeniesForGood | hexgate/cli/serve.py:115-124 | a call pending at a disconnect keeps a false box and a set event through every later run, is never pending again and never returns True |
| Relay.StaleReplyIgnored | hexgate/cli/serve.py:191-219 | a reply to a call begun before the last disconnect changes nothing |
| Relay.UnknownReplyIgnored | hexgate/cli/serve.py:191-219 | a reply to an id that never began changes nothing |
| RelayHandler.RelayApprovalHandler.BindSocket | hexgate/cli/serve.py:103-113 | takes the bind step and keeps every entry |
| RelayHandler.RelayApprovalHandler.UnbindSocket | hexgate/cli/serve.py:115-124 | the loop over shared boxes takes exactly the unbind step |
| RelayHandler.RelayApprovalHandler.Begin | hexgate/cli/serve.py:126-166 | a call up to its send takes the begin step: denied on the spot without a socket, pending otherwise |
| RelayHandler.RelayApprovalHandler.SendSucceeded | hexgate/cli/serve.py:167-177 | a sent request goes on to wait, and nothing else changes |
| RelayHandler.RelayApprovalHandler.SendRaised | hexgate/cli/serve.py:167-175 | a failed send denies whatever the box holds and pops the entry |
| RelayHandler.RelayApprovalHandler.Resume | hexgate/cli/serve.py:177-189 | a woken or timed-out call pops its entry and returns what its box holds |
| RelayHandler.RelayApprovalHandler.TimeOut | hexgate/cli/serve.py:177-189 | when the deadline passes, the waiting call leaves the table and returns what its box holds |
| RelayHandler.RelayApprovalHandler.Resolve | hexgate/cli/serve.py:191-219 | a reply takes the reply step: pop, then box, then event; a no-op for an unknown id |
| Session.RunKeepsInv | hexgate/cli/serve.py:222-253 | every run keeps: a lock is held by one actor that uses it, and only tasks of the current connection exist |
| Session.RunIsSerialized | hexgate/cli/serve.py:256-273 | over every run chat turns never interleave, resets aside; one frame at most is on each socket; one task at most is in a turn; no task outlives its connection |
| Session.SendersMove | hexgate/cli/serve.py:256-273 | in every run an actor that waits to send can take the free send lock, or the holder's frame can finish |
| Session.TurnsMove | hexgate/cli/serve.py:340-361 | of the waits on the two locks: in every run a chat task that waits can take its turn, or the task in a turn is sending nothing or has a frame that can move; waits on approvals are in `ServeProgress.TurnComes` |
| Session.FramesAreTaken | hexgate/cli/serve.py:422-462 | in every run, whoever holds which lock, a dispatched task that has done nothing yet can answer, clear the chat or end at once; a reply is such a task |
| Serve.RunKeepsInv | hexgate/cli/serve.py:103-189 | every step of the whole keeps: handler and session are bound to the same socket, every unfinished call has its running turn, and every request that is being sent has one sender of its own, which holds or awaits the wire |
| Serve.PartsRun | hexgate/cli/serve.py:222-253 | every run of the whole is the run of the session and the run of the relay that its log spells out, so what is proved of theirs holds in it |
| ServeProgress.AnswerArrives | hexgate/cli/serve.py:424-462 | after every run, an undecided call can be answered at once, whoever holds which lock: the reply's frame is dispatched and taken, the call returns what it allows, and the session is as before; a decided call can return |
| ServeProgress.TurnComes | hexgate/cli/serve.py:340-361 | no deadlock: after every run, a waiting chat can get its turn by due frames and replies alone, whatever the answers to the calls of the turn before it, with no deadline, failure, disconnect or cancellation |
| ServeHistory.StepsAreTold | hexgate/cli/serve.py:333-490 | which steps of the whole can come next is decided by the log |
| ServeTeardown.ConnectionEnds | hexgate/cli/serve.py:463-490 | after every run on a live connection teardown can be seen through: then there is no lock, task, socket or pending request left, and the next connection can open |
| ServeTeardown.DeadlineArrives | hexgate/cli/serve.py:177-189 | after every run a waiting call's deadline can pass, and it then returns what its box holds |
| Session.LocksAreThere | hexgate/cli/serve.py:403-490 | a dispatched task never finds a lock missing or of another connection |
| SessionHistory.StateIsHistory | hexgate/cli/serve.py:403-490 | after every run link, locks, binding, every actor with its turn and its frame, and what was done to the chat state are what the log says: each event is applied and sent, each reset clears |
| SessionHistory.StepsAreTold | hexgate/cli/serve.py:333-490 | which steps can come next is decided by the log: a chat waits exactly while another turn runs, a frame exactly while another is on its wire |
| Subagents.BindOneSubagent | hexgate/cli/_common.py:391-423 | one fetch; the policy that was fetched is enforced on the child, a 404 leaves the child, any other failure propagates |
| Subagents.BindTarget | hexgate/cli/_common.py:353-382 | a new target: its own mounts first, one fetch, the cache extended under the target, the active set restored |
| Subagents.BindSubagents | hexgate/cli/_common.py:318-388 | the loop over tools terminates on every graph, never fetches a name twice, covers every mount, and fails only for a failing target below |
| Subagents.BindTree | hexgate/cli/_common.py:318-423 | succeeds exactly when nothing reachable fails; then every reachable target is under the very policy that the platform gives for it, or ungoverned where it gives none, and mounts what is bound for each of its own mounts but those that close a cycle |
| Subagents.TreeIsGoverned | hexgate/cli/_common.py:353-423 | the same for every finished walk |
| Subagents.CacheIsComplete | hexgate/cli/_common.py:318-388 | at the end every target reachable from the root is in the cache |
| Subagents.UnchangedIffAllUnknown | hexgate/cli/_common.py:318-423 | the tree comes back unchanged exactly when the platform knows none of its targets, cycles or not |
| Subagents.MemoisedIsPlain | hexgate/cli/_common.py:353-423 | on acyclic mounts the memoised walk gives the tree of the plain post-order recursion |
| Subagents.PlainSucceedsTogether | hexgate/cli/_common.py:353-423 | the plain recursion succeeds only when nothing reachable fails, which is when the walk succeeds |
| FactLines.EscapeIsEach | hexgate/cloud/attenuate.py:28-36 | the two replacements in sequence are one map over characters |
| FactLines.EscapeInjective | hexgate/cloud/attenuate.py:28-36 | different values have different escapes |
| FactPattern.MatchIff | hexgate/cloud/biscuit.py:47-61 | a line matches with a name and value exactly when it is written as blanks, name, parenthesis, a literal body of plain characters and escapes between quotes or an integer in digits of any script, and closing, saying that value |
| FactPattern.ReadingIsUnique | hexgate/cloud/biscuit.py:47-61 | a line has one reading at most, so one closing quote |
| FactSource.FactLineMatches | hexgate/cloud/attenuate.py:95-99 | a written fact line matches the pattern and gives back its name and value, for every value |
| FactSource.FactValuesAre | hexgate/cloud/biscuit.py:147-172 | all that extraction finds on the line or lines written for a value: the value itself when it has no break and no arrow, and the integers on whole lines inside it |
| FactSource.TextsIff | hexgate/cloud/biscuit.py:147-172 | a text is found exactly when it is the value, under its predicate, without break or arrow |
| FactSource.ExtractionIff | hexgate/cloud/attenuate.py:28-36 | a written line is extracted as its value, alone, exactly when the value has no break and no arrow |
| FactReading.FactOnIff | hexgate/cloud/biscuit.py:147-172 | a line yields a fact exactly when it is written as one, is no check and has no arrow; the value is the text that the body says or what `int` makes of the integer |
| FactReading.LinesAreBroken | hexgate/cloud/biscuit.py:151 | the lines of a source are its text between breaks, a carriage return and line feed being one break |
| FactReading.IntegerIsItsValue | hexgate/cloud/biscuit.py:170-171 | an integer fact has the value that its digits, of any script, and its sign write |
| Attenuate.PrintedIntegerIsRead | hexgate/cloud/biscuit.py:170-171 | the line with a printed integer yields that integer |
| Unicode.DigitIff | hexgate/cloud/biscuit.py:55 | a digit is one of the ten characters from a zero of Unicode 15.1 on, and its value is its distance from it |
| FactLines.ExtractFacts | hexgate/cloud/biscuit.py:109-172 | raises exactly when some line says an integer of over 4300 digits; otherwise the facts are, for every predicate, its values over all lines of all blocks in order, and no predicate without one |
| FactLines.AddFacts | hexgate/cloud/biscuit.py:147-172 | the inner loop adds one block's lines to those before, and raises exactly when one says an integer of over 4300 digits |
| Attenuate.ParsePrintEnvelope | hexgate/cloud/biscuit.py:64-77 | an envelope parses back exactly when env and project have no underscore; the payload may have any |
| Attenuate.PrintParseEnvelope | hexgate/cloud/biscuit.py:64-77 | whatever parses was printed from what it parses to |
| Attenuate.ParseEnvelopeIff | hexgate/cloud/biscuit.py:64-77 | parsing succeeds exactly on `fty_`, an env and a project without underscores, and the rest as the payload |
| Attenuate.AttenuateForUser | hexgate/cloud/attenuate.py:39-110 | succeeds exactly on a parsing, verifying parent with a role that is not empty and a lifetime that is positive and ends by the year 9999; the child has the parent's env and project and one block more, which says who the user is and in which role, and whose own checks hold at a time exactly when it is before now plus the lifetime; each failure raises its own exception, in the order of the checks |
| Block.BlockSays | hexgate/cloud/attenuate.py:28-36 | the statements of the block are the user's fact, the role's and the expiry check, for every user and role: nothing in them leaves its literal |
| Block.BlockExpires | hexgate/cloud/attenuate.py:100-107 | the block's own checks hold at a time exactly when it is before the expiry |
| Calendar.ReadPrint | hexgate/cloud/attenuate.py:103-106 | the printed timestamp names the time it was printed for, in years of four digits |
| Attenuate.AttenuationOnlyAdds | hexgate/cloud/biscuit.py:117-172 | for every predicate the child's facts are the parent's, in order, followed by the block's, whatever the user and role contain |
| Attenuate.SplitJoined | hexgate/cloud/attenuate.py:108 | a line that ends in no break keeps its lines when another is joined to it |
| Attenuate.BlockFactsAre | hexgate/cloud/attenuate.py:95-108 | all facts of the appended block, for every user, role and expiry |
| Attenuate.NoForgedText | hexgate/cloud/attenuate.py:28-36 | a text is a fact of the block exactly when it is the user's under `user` or the role's under `role` and has no break and no arrow |
| Attenuate.BlockIsExactIff | hexgate/cloud/attenuate.py:95-108 | the block says the user and the role and nothing else exactly when neither has a break or an arrow |
| Attenuate.AttenuationAddsExactly | hexgate/cloud/attenuate.py:84-110 | the child's facts are the parent's plus exactly those two, for every predicate, exactly when neither has a break or an arrow |
| Attenuate.NothingInjectedIff | hexgate/cloud/attenuate.py:28-36 | the block adds no fact beyond those two exactly when no whole line inside the user or role reads as an integer fact |
| Attenuate.LineFeedInjects | hexgate/cloud/attenuate.py:28-36 | for every predicate and integer, in digits of any script, a user whose block says just that fact |
| Attenuate.ExtractionStopsIff | hexgate/cloud/biscuit.py:147-172 | extraction from the child raises exactly when it does on the parent, or the user or role hides an integer of over 4300 digits |
| ChatModel.AfterIsDeclared | hexgate/cli/state.py:67-156 | after any sequence of operations the session is the declared reading of its history |
| ChatModel.ToolRecordsNext | hexgate/cli/state.py:107-134 | a tool event updates its own record or appends one, in order of first appearance, with the latest status |
| ChatModel.ToolIdsDistinct | hexgate/cli/state.py:149-156 | the ids listed are pairwise distinct and are those of the tool events |
| ChatModel.MessagesAgree | hexgate/cli/state.py:67-77 | messages and transcript agree entry by entry, and tool ids are distinct, after any history |
| ChatModel.ResponseIsLastMessage | hexgate/cli/state.py:98-147 | after any history the live run's response is the last run end's message followed by the response deltas after it, or all response deltas when no run has ended |
| ChatState.ChatState.StartTurn | hexgate/cli/state.py:67-71 | the new session is the start step of the old one |
| ChatState.ChatState.Clear | hexgate/cli/state.py:73-77 | the new session is empty |
| ChatState.ChatState.ApplyEvent | hexgate/cli/state.py:83-147 | the new session, shared tool records included, is the event step of the old one |
| ChatState.LiveRunState.FindTool | hexgate/cli/state.py:149-156 | finds the first record with the id, or none |
| Versions.SampleVersions | scripts/framework_matrix.py:199-213 | picks exactly the versions at the rounded evenly spaced positions, first and last included, and all of them when the limit is larger; min(limit, available) distinct ones when no version is listed twice; just the first and last for a limit of at most 2; none of none |
| Versions.NearestEven | scripts/framework_matrix.py:206-208 | each position is the nearest whole one, the even one of two equally near |
| Versions.IndexesRise | scripts/framework_matrix.py:206-208 | positions rise, strictly when there are as many versions as picks |
| Authority.SplitPrintIff | hexgate/egress/model.py:27-41 | for every port that prints, splitting gives back the printed host and port exactly when a host with a colon has no `]` and any other does not begin with `[` |
| Authority.SplitIff | hexgate/egress/model.py:66-87 | splitting succeeds exactly on a bracketed or bare host with an optional port in any spelling of an integer, 443 without one, and gives back that host and port |
| Integers.ParseIntIff | hexgate/egress/model.py:66-87 | `int` reads exactly blanks, a sign and a numeral, as the integer they write: at most 4300 digits of any script, with underscores between digits but no two together |
| Percentile.PercentileIsNearestRank | benchmarks/_report.py:53-62 | the percentile is the least sample with at least that percentage of the samples at or below it |
| Percentile.PercentilesRise | benchmarks/_report.py:38-50 | percentiles rise with the percentage and lie between minimum and maximum |
| Percentile.PercentileEnds | benchmarks/_report.py:53-62 | outside 1 to 99 the percentile is the minimum or the maximum, and 0 of no samples |

## Left out

- CapJson.CapJsonHeadTail: promises the largest allowance for documents whose largest leaf has a byte count of at most 36 digits, the exact limit by `CapJson.CapsBestIffShortEnough`.
- CapJson.SizeMonotone: holds for leaves of at most 36-digit size, the exact limit by `CapJson.SizesRiseIffShortEnough`.
- HeadTail.LeafMonotone: holds for texts of at most 36-digit size, the exact limit by `HeadTail.MonotoneIffShortEnough`.
- Versions.NearestEven: positions are exact rationals. The float product can fall on the other side of a tie: with 30 versions and limit 15, position 7 is 14.5 exactly and picks 14, while `7 * (29 / 14)` is 14.500000000000002 and picks 15.
- Percentile.PercentileIsNearestRank: the rank is an exact rational in place of the float `pct / 100 * n`, which can exceed a whole rank: 7 percent of 100 gives 7.000000000000001 and so the eighth sample.
- JsonReads.ParseIff: text that escapes a lone surrogate counts as no JSON text, since text holds scalar values only.
- Redact.NoSecretsLeft: JSON text with an escaped lone surrogate counts as no JSON text, since text holds scalar values only. Python reads and redacts it, except beside an integer of over 4300 digits: then it keeps its secrets, like any such text.
- Redact.NoSecretsLeftIff: secrets in text that escapes a lone surrogate are not counted on either side, as for `Redact.NoSecretsLeft`.
- Redact.RedactedInsideIff: speaks of text without escaped lone surrogates; Python redacts text with them under the same condition on its integers.
- Subagents.MemoisedIsPlain: says that both succeed together and then agree; which failure is reported first is not compared.
- Attenuate.AttenuateForUser: signatures and the inner workings of a token library are one flag, and the clock and the child's payload are given.
- JSON: objects printed through `default=str`, keys that are not strings, and the recursion limit. How a float read from text prints is an arbitrary function: it prints a number that is no integer, and prints the same when read again.
- Integers: the limit of 4300 digits is Python's default and can be configured; a byte count of more digits, printed in a marker, is not modelled.
- UTF-8: decoding with errors ignored drops one byte at a time, where Python drops a malformed run at once; the text that remains is the same.
- Redaction: the pattern for sensitive key names is an arbitrary predicate on keys, and the tables of patterns are not modelled.
- Datalog: statements other than text facts and expiry checks, and its full lexer; a literal runs to the first quote that no backslash escapes.
- Relay: real time; a deadline is a step that may happen at any moment. Waiting for the send lock and sending are one phase, and the lock itself is in `Session`.
- Relay: the frame's contents, and the check that a reply's payload is well formed before it reaches the handler.
- RelayHandler: `__call__` is one method for each stretch between its awaits.
- Session: a state machine over values, not a class; the hello frame is sent like any dispatched frame, cancellation ends a task in one step, and cancelling the serve loop itself during teardown is not modelled.
- Session.TurnsMove: an approval call of the turn is not seen there; `Serve` has the calls of a turn.
- Serve: a turn awaits its tool calls, so it ends, or its task is cancelled, only when none is unfinished; approval handlers other than the relay are not modelled.
- Session: reconnect backoff, message parsing and the agent's own streaming.
- Subagents: a target name stands for one child; building enforcers and copying agents are constructors, decoding a policy and a fetch without a payload count as a failed fetch.
- Attenuate.NothingInjectedIff: the printed source of a block is the text that was written.
- ChatState: a run's result is its message; steps, timestamps and `build_input` are not kept, and tool arguments map text to text.
- Versions: pinned versions, the floor, `latest_only` and the installed version are not modelled; a version is a number, equal versions being the same number.
- Percentile: mean and standard deviation are not modelled.
- Authority: `http_to_args` is not modelled.
- The policy engine, its compiler and linker, transport, telemetry and rendering.
