# Verified model of the Frostlake ODBC driver

A Dafny model of what the driver does between the ODBC calls and the wire, and
proofs of what it promises. Byte strings are Dafny strings of bytes; a C string
is one without a NUL. `dafny verify dfyconfig.toml` checks the whole project.

**The scanner and what is built on it** (`Scanner`, `Constructs`, `Substitution`,
`Literals`, `Meaning`, `Binding`, `Identifiers`, `SessionNote`, `Commands`). One scanner decides which bytes of a
statement are code. `Scan` cuts a text into its tokens; the central fact is that
tokens put side by side scan as themselves exactly when none runs into the next
(`RescanExactly`). From it follow the theorems on parameter binding, on
identifiers, and on the cutting of a request into statements, each for every
statement and every parameter. The C loops over pointers are methods proved
against these functions. Three modules say apart from them what they must come
to: `Constructs` which texts are one token, `Meaning` what a reader of SQL
literals reads in the literal of a parameter, `Commands` which statements leave
something on a session.

**The session protocol** (`Protocol`, `Connection`, `Calls`, `History`,
`ScopeSafety`, `Transparency`, `TransparentRuns`, `OwnStatements`,
`EngineWitness`, `EngineRuns`, `UseTargets`, `Catalog`, `Whereabouts`).
`Protocol` gives every call as a function on the connection's state; the class
`Connections.Connection` is the source's own form, its methods updating fields,
each proved to leave exactly the specified state. The network is an arbitrary
function of everything that went over the wire so far and of the request, so a
theorem over all networks is a theorem over every schedule of failures, lost
sessions, replacements and refusals. A trace of events is kept for the
statements; `Purpose` in a request is bookkeeping of the model, the engine sees
the text only. Three theorems need nothing of the engine: at most once, the
bookkeeping as an exact fold, and the sparing of older engines. Scope before
statement needs answers that keep to the session protocol (`Conforms`). Loss
transparency needs an engine that may drop any sessions before any request and
whose statements obey the laws of `Lawful`: a refused request leaves the context
and opens no transaction; one the classifier does not flag leaves the context, and
no transaction behind; the driver's own statements move the context as their text
says, and open no transaction where the session commits by itself. Nothing is
asked of requests it does flag: one that turns autocommit off and goes on to
write is allowed its transaction (`EngineWitness.UnseenTransaction`), and so is a
USE with autocommit off (`EngineWitness.UseMovesOrIsRefused`). Every post
is answered there. The proof is a refinement: the connection stays in step with
an ideal session that never goes away. Besides the ideal answer and a reported
loss there is a third outcome the code has, the engine's refusal of a statement
of the scope on a replacement session, and the theorem says where it was refused
and with what. `EngineWitness` is an engine with databases, contexts, variables,
settings, temporary objects and transactions that meets every law, reads
statements by itself, and has a connection to it that comes up in step;
`EngineRuns` follows calls against it: the end of a transaction, and a loss after
any statement that left something behind or did not.

What the application is shown as the current database is a second thread.
`UseTargets` reads from a request's tokens where it moves the session, and says
exactly when tracking reads the same; `Whereabouts` folds that over the trace and
proves when the name shown is where statements run.

**The JSON codec and the text buffer** (`Json`, `JsonGrammar`,
`JsonParser`, `StrBuf`, `RequestJson`, `Responses`, `ResultSets`, `Delivery`,
`Percent`). The grammar as functions, every way of writing a value proved to be
read as that value and nothing else to be read, a
parser class with the source's cursor and depth proved equal to it, a printer it
inverts exactly on trees of depth 64, the growing buffer with its amortised
bound, the request read back by the engine and the reply by the driver, one exchange of the
protocol in bytes, the tables of a reply in the driver's grid and on to the bytes
an application reads, and the path a session is deleted under.

**Reading results** (`Retrieval`, `Cursor`, `Returns`, `Temporal`). Chunked reads
of one cell under any sequence of calls, the cursor under any sequence of calls,
what each call returns and leaves in the caller's memory, row counts, and
dates and times read from what a parameter says and from what the engine
renders, the scanning of `sscanf` included.

**Smaller kernels** (`ChunkedBody`, `CNumbers`, `Decimal`, `Exponents`,
`DecimalDigits`, `Norm`, `ConnString`, `ConnFields`). The chunked body decoded
within its own buffer, numbers as the C library reads them, decimal rounding and
normal form of every spelling of a number, and the connection string as people
write it and as it is handed back.

Where the code does less than its documentation, the model follows the code:

- Comments in `src/execute.c` promise that the database shown stays truthful.
  Tracking reads the text, not its tokens: `UseTargets.TrackedTruly` says exactly
  when the two agree, `UseTargets.TrackingIsMisled` shows two requests where they
  do not. The catalog attribute keeps a name as given:
  `Catalog.AttributeIsVerbatim` says exactly when the session goes there,
  `Catalog.ShownAsGiven` names four it does not go to. A database created is not
  tracked (`Whereabouts.CreateIsNotTracked`). A name left over from before a connect, and
  one a replaced session was moved to, are shown on (`Whereabouts.ConnectInPlace`,
  `Whereabouts.ReplacedUse`). With these aside the promise holds over every run
  (`Whereabouts.ShownIsWhereItRuns`).
- A report of a lost transaction is about the driver's flag, and may be spurious
  (`EngineWitness.SpuriousReport`). The documentation counts any statement while
  autocommit is off as opening one; a refused one is not noted
  (`History.RefusalIsNotNoted`).
- A character parameter may hold a NUL when its length is given; the statement
  then goes out cut short. `Binding.SentWhole` says exactly when,
  `Binding.CutAtNul` shows one.
- A completed connection string is read back only where no value holds a
  semicolon or opens with a brace, and no buffer cut it
  (`ConnString.OutStringRoundTrip`; `ConnString.SplitHost` shows a host halved).
- With one-byte character buffers a cell is never delivered
  (`Retrieval.OneByteStalls`), and buffers of less than five bytes may split a
  character (`Retrieval.ChunkIsWhole` says exactly when,
  `Retrieval.FourBytesSplit` shows one).
- A timestamp whose parts outgrow the bytes they are printed in is read back as
  something else (`Temporal.TimestampRoundTrip`): a fraction of ten digits as
  its tenth (`Temporal.WideFractionIsATenth`, `Temporal.WideFraction`). With
  every field at its widest its literal outgrows a buffer too and loses the last
  byte of its cast (`Temporal.OnlyTheWidestIsCut`).
- A date spelt shorter than its ten bytes, or a time shorter than its eight, is
  read past its end (`Temporal.ParseTimestamp` says exactly when,
  `Temporal.ShortDate` shows one), and so is a chunk with a minus size that leads
  back (`ChunkedBody.DecodeChunked`, `ChunkedBody.MinusOne`).

## Model

| member | source | states |
|---|---|---|
| Scanner.SkipNonPlaceholder | src/execute.c:58-113 | The index just past the name, string, quoted identifier, comment or `$$` body that opens here, or -1 exactly where the byte is code, reading the terminator and nothing past it. |
| Scanner.NameEnd | src/execute.c:59-67 | Past every byte that continues a name, and no further. |
| Scanner.StringEnd | src/execute.c:68-83 | Past the closing quote of a string, backslash pairs and doubled quotes skipped as pairs, or at the end of the text. |
| Scanner.QuotedEnd | src/execute.c:84-97 | Past the closing quote of a quoted identifier, doubled quotes skipped as pairs. |
| Scanner.LineEnd | src/execute.c:98-103 | A line comment runs past its first line feed or carriage return, or to the end of the text. |
| Scanner.FindPair | src/execute.c:104-111 | Past the first closing pair of a block comment or a `$$` body, or at the end of the text. |
| Scanner.OneByteLookahead | src/execute.c:58-113 | Whether a token ends where it does depends on one byte past it only, whatever follows that byte. |
| Scanner.ScanIsChain | src/execute.c:58-113 | Scanning loses no byte, and every token is one token by itself and sealed against its neighbour. |
| Scanner.RescanExactly | src/execute.c:58-113 | Tokens put side by side scan as themselves if and only if each is a token and none runs into the next. |
| Constructs.NameIsOneToken | src/execute.c:59-67 | A letter or underscore with the letters, digits, underscores and dollars behind it is one token, whatever stops it; said, as the next rows are, without the scanner's own functions of the bytes. |
| Constructs.StringIsOneToken | src/execute.c:68-83 | A quote, any steps of bytes, backslash pairs and doubled quotes, and a quote that no quote follows are one token. |
| Constructs.OpenStringRunsOut | src/execute.c:68-83 | A string nobody closes runs to the end of the text, a last backslash included. |
| Constructs.QuotedIsOneToken | src/execute.c:84-97 | A quoted identifier, in which only two quotes are special, is one token. |
| Constructs.OpenQuotedRunsOut | src/execute.c:84-97 | One nobody closes runs to the end. |
| Constructs.LineIsOneToken | src/execute.c:98-103 | Two dashes or two slashes, and everything up to and with the line feed or carriage return, or to the end of the text. |
| Constructs.BlockIsOneToken | src/execute.c:104-107 | A block comment ends at the first star and slash behind its opening. |
| Constructs.BodyIsOneToken | src/execute.c:108-111 | A `$$` body ends at the first two dollars behind its opening; a `?` inside is not code. |
| Constructs.OpenPairsRunOut | src/execute.c:104-111 | A block comment or body nobody closes runs to the end. |
| Constructs.CodeIsOneToken | src/execute.c:112-113 | Every other byte, a `?` among them, is code and a token by itself. |
| Substitution.SubstitutionPreservesScan | src/execute.c:385-416 | Rescanning spliced text gives the original tokens with each code `?` replaced by its literal's tokens, if and only if no junction lets a token run on. |
| Substitution.SeparationSuffices | src/execute.c:385-416 | Placeholders not touching word bytes, `$`, quotes or another `?` keep every junction intact for any closed literals. |
| Substitution.SealedBeforeLiteral | src/execute.c:205-250 | A token that ended before the placeholder still ends before the literal; a `-` in front never becomes `--`, a `/` never `/*` or `//`. |
| Substitution.NoPlaceholderRemains | src/execute.c:385-416 | No token of the substituted text is a placeholder. |
| Literals.StringIsOneToken | src/execute.c:220-236 | Whatever bytes a text parameter holds, its literal is exactly one token and stays one before anything but a quote. |
| Literals.StringSaysText | src/execute.c:220-236 | Undoing the scanner's escapes on the literal of a text gives the text back, whatever it holds. |
| Literals.RenderedIsSpliceable | src/execute.c:253-382 | Every literal any parameter of any C type and indicator renders to may stand in for a placeholder: it opens nothing with the byte before it, holds no placeholder and no cut, and is closed. |
| Literals.NumericLiteralBytes | src/execute.c:154-199 | Text accepted as a number holds number bytes only, and a dash in it only in front of a digit or a point, so it cannot open a comment. |
| Binding.CountPlaceholders | src/execute.c:134-149 | The count is the number of `?` tokens of the scan. |
| Binding.IsNumericLiteral | src/execute.c:154-199 | Accepts exactly a sign, digits with a point, and an exponent, blanks around them; anything else is refused. |
| Binding.AppendNumber | src/execute.c:205-217 | A number that starts with a dash goes in parentheses, any other as it is. |
| Binding.AppendStringLiteral | src/execute.c:220-236 | Quotes and backslashes doubled, everything else as it is, between quotes. |
| Binding.AppendBinaryLiteral | src/execute.c:238-250 | `X'..'` with two upper-case digits a byte, in order. |
| Binding.AppendParamLiteral | src/execute.c:253-382 | Every C type, indicator and SQL type renders as specified, through a local buffer of 64 bytes where the code has one, and each refusal is the source's own. |
| Temporal.OnlyTheWidestIsCut | src/execute.c:319-362 | That buffer cuts a temporal literal if and only if it is a timestamp with every field at its widest, and then by the last byte of its cast. |
| Meaning.LiteralSays | src/execute.c:253-382 | Whatever the parameter, of any C type, SQL type and indicator: it becomes a literal if and only if it is one the driver accepts, and a reader of literals written apart from the rendering reads that parameter in it: a signed integer with its sign, an unsigned one, a truth value, the bytes up to the indicator, the text, a date or a time under the cast of its type, or null. |
| Meaning.RefusalIs | src/execute.c:253-382 | A parameter that becomes none is refused for its missing binding, for data at execution or a default, for any other negative length, for its C type, or for characters bound as a number that are none, in that order. |
| Meaning.NumbersAreRead | src/execute.c:154-202 | A text is taken for a number if and only if the reader reads one. |
| Binding.SubstituteParams | src/execute.c:385-416 | The bound text is the splice of the statement's tokens with the rendered parameters, or the first parameter's error. |
| Binding.BindingPreservesScan | src/execute.c:253-416 | The bound statement scans as the statement did, each placeholder now its literal's tokens, if and only if every junction holds; separated placeholders guarantee it for all parameters, and none remains. |
| Binding.SentWhole | src/execute.c:385-416 | The engine is sent the whole bound statement if and only if no parameter the statement uses is character data of a given length, of a SQL type that is not numeric, with a NUL in that length. |
| Binding.CutAtNul | src/execute.c:385-416 | One such parameter: of `a`, NUL, `b` the engine is sent a quote and the `a`. |
| Literals.LiteralNulFree | src/execute.c:253-382 | Whatever is bound, its literal holds a NUL if and only if the parameter is of that kind. |
| Identifiers.IdentIsBare | src/util.c:41-56 | True exactly for names that stand without quotes. |
| Identifiers.IdentIsQuoted | src/util.c:61-77 | True exactly for names in quotes whose interior quotes come in pairs. |
| Identifiers.AppendIdent | src/util.c:83-102 | Appends the identifier for the name, or refuses the empty name. |
| Identifiers.LeadingIsSkipped | src/execute.c:430-440 | Blanks, tabs and line ends in front of a statement do not matter to tracking. |
| Identifiers.IdentIsOneToken | src/util.c:83-102 | Whatever the name holds, its identifier is exactly one token, sealed against anything that cannot continue an identifier. |
| Identifiers.IdentifierRoundTrip | src/execute.c:430-481 | Tracking `USE DATABASE` or `USE SCHEMA` plus the identifier recovers the name: as is when quoted here, undoubled when quoted already, folded when bare. |
| Identifiers.UseStatementTokens | src/connect.c:152-242 | The scope statement built from any name is five tokens: nothing in a name ends it or opens another statement. |
| Identifiers.ReadQuoted | src/execute.c:464-473 | The name loop undoubles interior quotes pair by pair. |
| Identifiers.QuotedIsCanonical | src/util.c:61-102 | Doubling and undoubling quotes are inverse on exactly the texts that may stand in quotes: a quoted identifier is the one way to quote the name it denotes. |
| Identifiers.TrackContext | src/execute.c:430-481 | Which of database and schema a statement moves, and to which name; anything else moves neither. |
| SessionNote.ReadLeadingWords | src/session.c:64-91 | The first sixteen words, upper-cased and cut to their room, whitespace and comments skipped, none beyond the statement's end although the scanner reads on. |
| SessionNote.NoteStatement | src/session.c:155-172 | Sets the dirty and transaction flags as the classifier says of one statement. |
| SessionNote.SessionNote | src/session.c:174-190 | Folds the classifier over the statements between the semicolons that are code, and only those. |
| SessionNote.DirtyStays | src/session.c:155-172 | No statement takes the dirty flag back. |
| SessionNote.SplittingAgreesWithBinding | src/session.c:174-190 | With separated placeholders, the statements of the bound request are those of the request before binding, cut for cut. |
| SessionNote.SpellingDoesNotMatter | src/session.c:64-172 | Letter case, and whitespace or complete comments before and between the leading words, do not change what a statement does to the flags. |
| Commands.FlagsAreExact | src/session.c:94-152 | By words alone, said without the classifier: a statement touches the session if and only if it is a USE, a SET, an UNSET, an ALTER of the session, a CREATE of a temporary object, or a CREATE or DROP of a database or schema, behind any qualifiers; and it opens or ends a transaction exactly as its words say. |
| Commands.SpacesAre | src/session.c:64-72 | The blanks between them are the six C knows. |
| Text.CStringIs | src/json.c:470-502 | What C sees of some bytes is what comes first, has no terminator in it, and has one or the end behind it. |
| Text.LettersFold | src/session.c:83 | Folding turns the small letters into capitals and nothing else. |
| Commands.SixteenWords | src/session.c:34-92 | The leading words of any statement are the first sixteen of those it begins with, whatever blanks and comments stand between them, in upper case and of at most thirty-one bytes. |
| Connections.Connection.AbsorbSession | src/proto.c:197-214 | The session, the knowledge of the engine and a reported replacement are taken in exactly as specified, from every state. |
| Connections.Connection.DoLoseSession | src/proto.c:156-193 | Forgets the session, and reports what it held: a transaction before a context. |
| Connections.Connection.DoPost | src/proto.c:219-300 | One request with the session held and the insistence allowed, and what its answer, whatever it is, does to the connection. |
| Responses.GetMember | src/json.c:472-482 | The loop finds the first member of that key, compared as C strings, or none. |
| Responses.ReadAnswer | src/proto.c:240-272 | The answer taken out of a status and a body: parsed, the session and whether it is new, success, and the result sets as sent or the message, in the source's order of preference. |
| ResultSets.DecodeColumns | src/proto.c:66-90 | Names and types of the columns, a missing name empty, a missing type text. |
| ResultSets.DecodeRows | src/proto.c:92-135 | Cells row by row: short rows filled with nulls, long ones cut, a boolean 1 or 0 only where the column is boolean. |
| ResultSets.DecodeSets | src/proto.c:276-294 | Every result set of the reply, in order, as the grid the cursor runs over. |
| ResultSets.SetsOverTheWire | src/proto.c:66-135 | Whatever tables an engine answers with, printed, sent and parsed, the result sets hold them: every name, type and cell in its place, set by set. |
| ResultSets.TypesAreRead | src/util.c:111-147 | Which columns are boolean and which binary, said of where words occur in the declared name and not of the driver's search. |
| ResultSets.CellEndsAtNul | src/proto.c:98-120 | The text of a cell is read up to a NUL. |
| ResultSets.AbsentIsEmpty | src/proto.c:66-135 | Without columns or rows, or with something else in their place, there are none. |
| Delivery.DeclaredBinaryIsDelivered | src/results.c:434-470 | A column declared BINARY, VARBINARY or BYTES, in any letter case and with any length, whose cells are bytes in hexadecimal: sent, parsed, decoded, fetched and read as bytes in any pieces, the application has those bytes. |
| Delivery.BooleanIsDelivered | src/proto.c:98-120 | A boolean of a column declared BOOLEAN or BOOL reaches the application as 1 or 0; of a column whose declared name has no B, as true or false. |
| Delivery.TextIsDelivered | src/results.c:394-433 | A text or a number of any column reaches it as it was sent. |
| Delivery.BinaryNames | src/util.c:111-147 | BINARY, VARBINARY and BYTES are binary, in any letter case and with any length. |
| Responses.WireAnswerIsRead | src/json.c:472-503 | Any printed tree of depth 64 at most is read off the wire as what its members say. |
| Responses.PrintedIsNulFree | src/json.c:81-108 | A printed tree holds no NUL, so a reader of C strings sees all of it. |
| Responses.ReplyRoundTrip | src/proto.c:197-272 | A reply is read back field for field: success, the session it names, whether that is new, and its result sets or its message. |
| RequestJson.FindIsFirst | src/json.c:470-482 | A lookup finds the first member whose key, up to a NUL, is the one looked for, and nothing if and only if there is none. |
| Responses.TextEndsAtNul | src/json.c:484-494 | The text of a member is read up to a NUL. |
| Responses.BodyIsChosen | src/proto.c:216-304 | Of a reply with any of these members, of whatever kind: a success gives its result sets; anything else the text of `errorMessage`, failing that of `error`, failing that a word of the driver's own. |
| Responses.GoneOnTheWire | src/proto.c:252-258 | The session is taken for gone on exactly the 404s to a request that named one whose body parses, claims no success and names no session. |
| Responses.PostsOverTheWire | src/proto.c:219-300 | One exchange in bytes: what the engine parses is the statement, the session held and the insistence; the connection hears what comes back, has no answer on exactly a failed transport or an unreadable body, and finds its session gone on exactly those 404s. |
| Connections.Connection.BuildScope | src/proto.c:331-358 | The one to three statements of the scope, in order. |
| Connections.Connection.DoApplyScope | src/proto.c:331-392 | The loop that resets its own index terminates, and leaves the connection as the recursive scope procedure says. |
| Connections.Connection.DoExecuteAs | src/proto.c:409-447 | Scope, statement, loss, scope again and the one retry, in every combination, leave the specified connection and outcome. |
| Connections.Connection.DoRelease | src/proto.c:462-501 | One DELETE for the session held, if the engine is known to track sessions; the session is gone either way. |
| Connections.Connection.DoRunSql | src/execute.c:484-500 | What run_sql does to the connection: the statement, then the catalog moved if it succeeded. |
| Connections.Connection.DoEndTran | src/connect.c:406-434 | On an environment, success and nothing sent; on an open connection, COMMIT or ROLLBACK as an application statement. |
| Connections.Connection.DoSetAutocommit | src/connect.c:447-473 | The attribute changes only when the engine took it, and is no application statement. |
| Connections.Connection.DoSetCatalog | src/connect.c:478-499 | The USE statement cut to its buffer, and the attribute only when it succeeded. |
| Connections.Connection.DoConnect | src/connect.c:129-243 | A connect from a clean slate: each scope statement in turn, the connection closed again at the first that fails. |
| Connections.Connection.DoDisconnect | src/connect.c:387-402 | Closes an open connection and releases its session. |
| Calls.AtMostOnce | src/proto.c:331-447 | Against any network at all, a call with k scope statements makes at most 4k+2 posts, posts its statement at most twice and again only after the engine refused the session, and so runs it at most once; what the caller is told fits what happened; a loss is reported only if a flag was set or two were lost. |
| Calls.PutScopePosts | src/proto.c:359-384 | Putting the scope on posts scope statements only, at most twice as many as there are, restart included. |
| Calls.ConnectIsRefused | src/connect.c:129-160 | A connect on a connection that is open, or to a server that is not there, leaves everything as it was. |
| Calls.FailedConnectCloses | src/connect.c:160-243 | A connect that did not come up has closed and released what it opened. |
| Calls.DisconnectEnds | src/connect.c:387-404 | A disconnect closes an open connection once and deletes its session if the engine knows sessions; a closed one stays as it was. |
| History.EveryRunIsExplained | src/proto.c:156-214 | At every point of every run, against any network, session, support, dirty and transaction flags equal folds over the trace, the classifier folded over the application's successful statements since the last connect, loss or replacement; every request carries exactly what that allows. |
| History.OnlyStatementsCount | src/session.c:155-190 | The driver's own statements never change the flags, and no statement clears the dirty flag. |
| History.RefusalIsNotNoted | src/proto.c:425-447 | A request refused in its session is noted as if it had never been sent, whatever its first statements left behind: flags, scope and catalog stay, and a loss right after it is reported if and only if it would have been without it. |
| History.KnowledgeStays | src/proto.c:197-214 | That the engine tracks sessions is never unlearnt before the next connect. |
| History.TrackingMeansShown | src/proto.c:197-214 | The driver takes the engine to track sessions if and only if an answer on this connection carried a session and a boolean newSession. |
| History.OlderEnginesAreSpared | src/proto.c:462-501 | Over every run, no requireSession and no DELETE is sent before such an answer, and a DELETE names the session then held. |
| ScopeSafety.ScopeBeforeStatement | src/proto.c:331-392 | Against a conforming engine, transport failures included, every application statement posted under a scope insists on a session that has accepted every statement of it. |
| ScopeSafety.RunIsSafe | src/connect.c:152-242 | The invariant behind it: a connection with no scope pending is on a session that has its whole scope. |
| Transparency.ExecuteIdeal | src/proto.c:409-447 | One execute call against an engine that may drop any sessions before any request gives the ideal session's answer and database, or reports why the statement did not run. |
| TransparentRuns.CallIdeal | src/connect.c:406-499 | Every call of the application keeps the connection, its flags included, in step with the session that never goes away. |
| TransparentRuns.LossIsTransparent | src/proto.c:331-447 | For every sequence of calls and every schedule of lost sessions, each call answers as on a session that never goes away, the committed database being the same throughout, or reports a lost transaction or context its flags stood for, a second loss in the call, or the engine's own refusal of a statement of the scope on a fresh session moved by those before it. |
| TransparentRuns.ConnectIsInStep | src/connect.c:129-243 | A connection that opened is in step with a session on its scope, over the database as it was. |
| EngineWitness.LawsCanBeMet | src/session.c:94-152 | There is an engine that meets all the laws assumed of engines. |
| EngineWitness.UseMovesOrIsRefused | src/proto.c:331-358 | It moves to the database a USE names if there is one, and refuses the USE if there is none; with autocommit off the USE opens a transaction as any statement does. |
| EngineWitness.TransactionsWork | src/session.c:125-152 | It opens transactions, keeps work pending in them, and commits it or not. |
| EngineWitness.UnseenTransaction | src/session.c:148-172 | It opens a transaction the classifier does not see when one request turns autocommit off and writes; the session is dirty then, so the law still holds of it. |
| EngineWitness.SpuriousReport | src/session.c:155-172 | A report of a lost transaction may be spurious: work with autocommit off sets the flag, and turning autocommit on, which commits in this engine, is the driver's own statement and leaves it set. |
| EngineWitness.ConnectsToIt | src/connect.c:129-243 | A connect to it over any schedule of lost sessions succeeds and is in step, so the theorems about runs are about something. |
| EngineRuns.EndTranEnds | src/connect.c:406-434 | Against that engine, SQLEndTran answered with success leaves the pending rows in the database after SQL_COMMIT and the database as it was after SQL_ROLLBACK, and no transaction either way; said of the call, not of its statement. |
| EngineRuns.LeftContextIsReported | src/proto.c:409-447 | Whatever statement leaves something on the session, by any of the ways there are, and succeeds: if the engine drops the session next, the next call reports a lost context and nothing of it is sent again. |
| EngineRuns.NothingLeftIsNotReported | src/proto.c:409-447 | Whatever leaves nothing on a session that held nothing is no reason to report: the next call is answered as if nothing had been lost. |
| EngineRuns.DroppedIsReported | src/proto.c:409-447 | A statement sent to a session just dropped, by a connection that held something there, is reported and not sent again. |
| EngineRuns.LostVariable | src/session.c:99-172 | A variable is set, the session is dropped, and the next call, whatever it is, answers that its context is lost, with nothing posted again. |
| OwnStatements.UseIsNoted | src/session.c:94-122 | The scope's USE statements, whatever the name, are one statement each, tracked as the name the engine knows, and touch the session. |
| OwnStatements.ModeIsNoted | src/session.c:94-122 | So do the two statements that mirror the autocommit attribute. |
| Catalog.ReportedLossShowsScope | src/proto.c:156-193 | Whichever call reports a lost session, a statement, the end of a transaction or either attribute, the database and schema shown are the scope's, the scope is pending and the attributes are as they were. |
| Catalog.UseIsShown | src/execute.c:484-512 | A successful USE of the identifier for a name, on the first session or its replacement, is shown as the name the engine knows; whether the next statement runs there is `Whereabouts`' matter. |
| Catalog.AttributeIsVerbatim | src/connect.c:478-499 | The catalog attribute keeps any name as given; its statement, cut to its buffer and read by the scan, moves the session to that database if and only if the name is a bare identifier in upper case of at most 586 bytes. |
| Catalog.IdentifiersAreVerbatim | src/connect.c:478-499 | An identifier that fits moves the session to the database it denotes, which is its own text if and only if it is bare and in upper case. |
| Catalog.ShownAsGiven | src/connect.c:478-499 | Four names shown though the session is elsewhere: `sales`, `"mixedCase"`, `A--X` and `A; SELECT 1`. |
| UseTargets.TrackedTruly | src/execute.c:430-481 | Behind USE DATABASE, in any letter case and behind whitespace, tracking reads the database the request's tokens move the session to if and only if what it reads, blanks and trailers dropped, is one identifier. |
| UseTargets.TailIsTracked | src/execute.c:430-481 | Whatever follows the identifier for a name, the name is tracked if and only if only trailers follow. |
| UseTargets.TargetIsToken | src/execute.c:58-113 | Whatever such a request moves to is the name of one identifier among the tokens behind USE DATABASE. |
| UseTargets.TrackingIsMisled | src/execute.c:430-481 | `USE DATABASE A; SELECT 1` is tracked as the name `A; SELECT 1`, and a USE spelt with two blanks not at all, though both move the session to A. |
| Whereabouts.ShownIsWhereItRuns | src/execute.c:426-481 | Over every run, any losses, refusals and failures included: as long as sessions are kept or refused and each call moves the session where tracking says and in no other way, the database shown is the one the session is in, or, while a scope is pending, the one it goes on before anything else runs. |
| Whereabouts.CreateIsNotTracked | src/session.c:103-106 | A database created is one of those other ways: the classifier takes it for a move, tracking does not see it. |
| Whereabouts.ConformingKeeps | src/proto.c:197-214 | Answers of a conforming engine to this driver's requests keep or refuse sessions. |
| Whereabouts.ConnectInPlace | src/connect.c:129-243 | A connection comes up showing where its session is if and only if it was opened on a database or no name was left over from before. |
| Whereabouts.ReplacedUse | src/proto.c:197-214 | A USE answered from a fresh session in place of the one it was sent is shown and leaves the scope pending; with the scope back on the name stays, and is where statements run if and only if the scope names no database or the same one. |
| JsonParser.ParseJson | src/json.c:453-468 | The cursor parser answers exactly the grammar's reading of the text, or none. |
| JsonParser.Parser.ReadStringBody | src/json.c:209-272 | Escapes, surrogate pairs and UTF-8 decoded as specified, the cursor left behind the closing quote. |
| JsonParser.Parser.ReadNumber | src/json.c:289-315 | The longest run of number bytes, and nothing when there is none. |
| JsonParser.Parser.ReadArray | src/json.c:346-376 | The items up to the closing bracket, the depth back where it was. |
| JsonParser.Parser.ReadObject | src/json.c:378-427 | The members up to the closing brace, keys and values in order. |
| JsonParser.Parser.ReadValue | src/json.c:429-451 | One value by its first byte, a container too many refused. |
| Json.ParseInvertsPrint | src/json.c:453-468 | Every tree of NUL-free strings and spelt numbers parses back from its printed form if and only if its containers nest at most 64 deep. |
| Json.AcceptedNests | src/json.c:346-427 | Anything accepted nests within the depth left, and its numbers are spelt in number bytes. |
| Json.AcceptedSurvives | src/json.c:81-108 | What was parsed, printed and parsed again is itself, if its strings are NUL-free. |
| Json.NumberIsSlice | src/json.c:289-315 | A number's text is exactly the slice of the input it was read from. |
| Json.SurrogatePairIsRead | src/json.c:209-272 | Two surrogate escapes become the UTF-8 of the one code point they stand for. |
| Json.Utf8RoundTrip | src/json.c:164-187 | The bytes written for a code point decode to it, in as few bytes as it takes. |
| Json.Utf8Continues | src/json.c:164-187 | Every byte behind the first is a continuation byte. |
| JsonGrammar.AnyWritingIsRead | src/json.c:112-468 | However a value is written, with any blanks between its parts and any of the escapes in its strings, the text is read as that value, unless its containers nest more than 64 deep: then it is not read. |
| JsonGrammar.ReadWasWritten | src/json.c:112-468 | Whatever is read was written so, blanks and escapes and all, and nests no deeper than 64. |
| JsonGrammar.LettersAreRead | src/json.c:189-272 | A string of any characters, each written as itself, as an escape of one letter, as a \u escape or as a pair of them, is read as the bytes they stand for; half a pair with no escape behind it is read alone. |
| StrBuf.Buffer.Reserve | src/json.c:50-65 | Room for the extra bytes and a terminator, the contents unchanged, the capacity a function of the length alone. |
| StrBuf.Buffer.Append | src/json.c:67-79 | The contents are the old ones and the text, with a terminator behind them. |
| StrBuf.Buffer.AppendJsonString | src/json.c:81-108 | The contents are the old ones and the text quoted and escaped. |
| StrBuf.Buffer.SpaceUsed | src/json.c:50-79 | After any appends: no buffer, 256 bytes, or less than twice the text and its terminator; 256 times a power of two; all bytes ever moved fit in it once. |
| StrBuf.RoomIsLeast | src/json.c:54-57 | The capacity is the smallest 256 times a power of two that will do. |
| StrBuf.DoublingContinues | src/json.c:50-65 | Growing in steps ends where growing at once would. |
| RequestJson.BuildRequestJson | src/proto.c:35-64 | The bytes of the request, put together in a buffer. |
| RequestJson.RequestIsPrinted | src/proto.c:35-64 | They are the printed form of the tree the request means. |
| RequestJson.RequestRoundTrip | src/proto.c:35-64 | Parsed back, the request gives exactly its statement and session, requireSession if and only if it insists, and the statement count if and only if one was declared. |
| Percent.DeletePath | src/proto.c:471-485 | The path of the DELETE: the prefix and the escaped id. |
| Percent.SegmentRoundTrip | src/proto.c:471-485 | Percent-decoding the segment gives the session id back, whatever bytes it has. |
| Percent.SegmentIsPlain | src/proto.c:471-485 | The segment is unreserved characters and percent signs only. |
| Percent.PathsAreDistinct | src/proto.c:471-485 | Different sessions have different paths. |
| Percent.UnreservedStay | src/proto.c:462-500 | Letters, digits, `-`, `.`, `_` and `~`, and no other bytes, stand for themselves in it. |
| Percent.PathIsRead | src/proto.c:462-500 | The path is `/api/sessions/` and one segment that decodes to the id. |
| Retrieval.ConvertCharacters | src/results.c:394-433 | Code, indicator, offset and the caller's buffer, terminator included, as specified; the rest of the buffer is left alone. |
| Retrieval.ConvertBytes | src/results.c:471-491 | The same for bytes, without a terminator. |
| Retrieval.ConvertHex | src/results.c:434-470 | The same for a hexadecimal cell decoded as it is read; refused if and only if the piece asked for holds a pair that is not hexadecimal, the offset then unmoved. |
| Retrieval.NextCall | src/results.c:361-433 | After any calls on a cell: no more data if and only if the cell was delivered; else the chunks so far and this one are its front, the indicator is what is left, success completes it, a useful buffer makes progress, probes move nothing. |
| Retrieval.ReadingFinishes | src/results.c:394-433 | More useful buffers than the cell has bytes deliver all of it, whatever is mixed in. |
| Retrieval.OneByteStalls | src/results.c:406-421 | With one-byte buffers alone a non-empty cell is never delivered. |
| Retrieval.ChunkIsWhole | src/results.c:408-421 | Of valid UTF-8, a chunk is whole characters if and only if its first character fits beside the terminator (or the buffer is one byte). |
| Retrieval.FiveBytesAreEnough | src/results.c:408-421 | With buffers of five bytes or more, every chunk of valid UTF-8 is valid UTF-8. |
| Retrieval.FourBytesSplit | src/results.c:408-421 | Four bytes are not enough: a four-byte character is split. |
| Retrieval.BinaryRoundTrip | src/results.c:434-470 | A binary parameter's hexadecimal reads back as its bytes. |
| Retrieval.ScalarIsCharacter | src/results.c:408-421 | Every code point in UTF-8 is one character, whatever follows it. |
| Retrieval.CharacterIsScalar | src/results.c:408-421 | And a character is one code point in UTF-8. |
| Cursors.Statement.SQLFetch | src/results.c:746-804 | The next row within the limit and a fresh read, or parked past the set; the counter and the status; every bound column delivered, up to the first that fails, and the worst of their codes. |
| Cursors.Deliver | src/results.c:786-803 | Each bound buffer holds the front of its cell, the buffers behind a failing one are left alone, and the worst code is returned. |
| Cursors.Statement.TakeResults | src/execute.c:500-512 | What run_sql leaves of a statement: its sets from before the first row, and the row count. |
| Cursors.RowsAffected | src/util.c:199-216 | The sum over the columns named after a number of rows, or none. |
| Cursors.Statement.SQLGetData | src/results.c:820-844 | Refusals, the fresh read of another column, and the piece delivered, as specified. |
| Cursors.Statement.SQLMoreResults | src/execute.c:649-669 | The next set from before its first row with its row count, or no data and nothing moved. |
| Cursors.ConvertCell | src/results.c:369-491 | Nulls with and without an indicator; characters, bytes and hexadecimal as specified. |
| Cursors.PlaceIsCounted | src/results.c:746-779 | After any calls the cursor's place is a matter of counting fetches since the last move. |
| Cursors.NextCall | src/results.c:746-844 | After any calls: a fetch succeeds if and only if the limit allows it; a cell is refused if and only if no row is in hand; sets are moved through one by one. |
| Cursors.RowsComeInOrder | src/results.c:746-779 | However reads are interleaved, exactly the first min(fetches, limit) rows come, each once and in order. |
| Cursors.ReadsAreChunks | src/results.c:836-843 | Reads of a column that begin afresh are the chunked reads of its cell. |
| Returns.MovingReturns | src/results.c:746-779 | After any calls: a fetch returns success while there is a row left within the limit and no data ever after, an error without a result set; the next set is success, or no data behind the last. |
| Returns.ReadingReturns | src/results.c:820-844 | After any calls, reading a cell: 24000 off the rows, 07009 off the columns, a null by its indicator or 22002 without one. |
| Returns.PieceReturns | src/results.c:394-491 | Reading on through a cell: no data if and only if all of it was delivered, success if what is left fits, success with information if not. |
| Returns.BadHexReturns | src/results.c:445-458 | 22018 if and only if a pair within the piece asked for is not two hexadecimal digits. |
| Returns.WhatIsShown | src/results.c:394-491 | The caller's buffer begins with the piece, a NUL behind it where it was read as characters, and is otherwise as it was; the indicator says what was left. |
| Returns.FetchTells | src/results.c:786-803 | With bound columns a fetch returns the error of the first column that fails, with none behind it delivered; else success, with information if any column has it. |
| Returns.BoundIsFirstRead | src/results.c:786-803 | A bound column is delivered what the first SQLGetData of it on that row would be. |
| Returns.RowCountIs | src/util.c:199-216 | The row count is the sum of what the columns named after a number of rows say, in any letter case, or the rows there are where there is none or the sum is below zero. |
| CNumbers.Strtoll10IsRead | src/util.c:210 | A count is blanks, a sign and digits, whatever follows them, stopped at the ends of 64 bits. |
| ChunkedBody.DecodeChunked | src/http.c:147-172 | On every body, in place, with write never past read: the decoded chunks and a terminator, or -1, bytes past the result untouched; given up as undefined if and only if a minus size leads back into what was read. |
| ChunkedBody.TestIsSound | src/http.c:160-163 | The test against the end of the body, made in words of 64 bits that wrap, refuses a chunk if and only if it runs past the end or, with a minus size, before the front. |
| ChunkedBody.MinusOne | src/http.c:160-163 | A size of -1 passes the test, and leads back. |
| ChunkedBody.ChunksAreDecoded | src/http.c:147-172 | Well-formed chunks decode to their data in front of whatever follows; a missing line end after a chunk is put up with. |
| ChunkedBody.BodyIsDecoded | src/http.c:147-172 | A well-formed body, with any last chunk and trailer or cut off after a chunk, decodes to the concatenation of its data. |
| ChunkedBody.SizeIsRead | src/http.c:156 | A size line with extensions says its size. |
| CNumbers.Strtol16IsRead | src/http.c:155 | A size as strtol reads it: blanks, a sign, a prefix and hexadecimal digits, whatever follows them. |
| CNumbers.NoDigitsAreNought | src/http.c:155 | Without digits it is nought. |
| DecimalDigits.PlainNumber | test/suites.c:236-359 | The array algorithm, rounding and carrying in place, gives the text of the literal's normal form, or nothing for what is not a literal. |
| DecimalDigits.RoundUp | test/suites.c:308-321 | One more in the last place, the carry going back over nines, and a one with zeros when every digit was a nine. |
| DecimalDigits.ToTenDigits | test/suites.c:303-322 | Rounding to ten digits keeps the normal form's value, the carry off the end included. |
| DecimalDigits.StripZeros | test/suites.c:323-326 | The digits and scale without trailing zeros. |
| DecimalDigits.ReadExponentDigits | test/suites.c:271-283 | The capped sum is the exponent where it is at most 100000, and above that where it is above. |
| DecimalDigits.RoundingDigit | test/suites.c:304-308 | The eleventh digit alone decides rounding half up. |
| Decimal.RoundsHalfUp | test/suites.c:294-326 | At most ten significant digits, the nearest to the value with halves away from zero; exact where there were no more. |
| Decimal.NearestIsHalfUp | test/suites.c:304-308 | No other number of units is nearest that way. |
| Decimal.EqualValuesOneText | test/suites.c:236-359 | Literals of equal value have one text. |
| Decimal.OneTextEqualValues | test/suites.c:236-359 | Literals with one text have equal rounded values and, but for zero, equal signs. |
| Decimal.ShowIsRead | test/suites.c:328-356 | The plain text spells the digits and scale it was written from. |
| Decimal.TextIsStable | test/suites.c:236-359 | The text's own normal form is the text. |
| Norm.Normalise | test/suites.c:362-386 | Trimming, the words and the number or text, as specified. |
| Norm.NormIsStable | test/suites.c:362-386 | Normalising what has been normalised changes nothing. |
| Norm.NormIs | test/suites.c:362-386 | What a text between blanks and control bytes is normalised to: a null word, a truth word, its number's normal form, or itself. |
| Exponents.SpellingIsRead | test/suites.c:236-359 | Every sign, run of digits, point with more digits and exponent is read as what it spells, the exponent added with its own sign. |
| Exponents.OnlySpellingsAreRead | test/suites.c:236-359 | And no other text is read as a number. |
| Exponents.ExponentMovesRight | test/suites.c:236-359 | With an exponent of k, with or without a plus, the normal form is that of the digits with the point k places to the right. |
| Exponents.ExponentMovesLeft | test/suites.c:236-359 | With an exponent of minus k, that of the digits with k more decimal places. |
| ConnString.ConnStrGet | src/connect.c:41-82 | The first such key's value on any input, and the search ends on any input. |
| ConnString.FieldsAreRead | src/connect.c:41-82 | On printed fields with clean values the search is a lookup by name, letter case aside. |
| ConnString.UncleanFieldIsLost | src/connect.c:41-82 | The first value holding a semicolon or opening with a brace is not read back. |
| ConnString.ParsePort | src/connect.c:98-125 | A number from 1 to 65535 with blanks around it, or -1. |
| ConnString.PortRoundTrip | src/connect.c:98-125 | Every port is read back from its digits, and no other number is a port. |
| ConnString.OutStringRoundTrip | src/connect.c:365-375 | The completed string, as handed back through both buffers, connects to the same server, port, database and schema, and to no DSN, if and only if the port is one, no value holds a semicolon or opens with a brace, and neither buffer cut it. |
| ConnString.SomeFieldIsMisread | src/connect.c:41-82 | Printed fields that were cut anywhere, or of which one is not clean: some field is not read back. |
| ConnString.SplitHost | src/connect.c:365-375 | A host `a;b` is handed back as `a`. |
| ConnFields.FieldsAreSaid | src/connect.c:41-82 | A string of fields, however semicolons and blanks set them apart and whichever values are in braces, says of a key what the first field of that name says, in any letter case. |
| ConnFields.PaddedPort | src/connect.c:98-125 | Digits with blanks and tabs around them are the port they spell, if it is one. |
| ConnFields.OnlyPaddedPorts | src/connect.c:98-125 | And nothing else is a port. |
| Temporal.ParseNanoseconds | src/results.c:269-287 | Nine digits kept, more passed over, missing ones made up. |
| Temporal.ScanNumber | src/results.c:242-268 | A number as sscanf reads it: blanks, a sign that takes a place of the width, and digits up to the width, or nothing read. |
| Temporal.ParseTimePart | src/results.c:260-290 | A time, and the fraction behind its eighth byte; it reads past the terminator if and only if it read a time spelt in less. |
| Temporal.ParseTimestamp | src/results.c:295-321 | Of the text of any timestamp parameter, gives that timestamp back if and only if its parts fit the bytes they are printed in; of any other, what the specification reads; it leaves the text if and only if a date or time was spelt short. |
| Temporal.ShortDate | src/results.c:248-257 | `2024-1-2` is read as a date, and the time then looked for past its end. |
| Temporal.EngineTextIsRead | src/results.c:295-321 | Every date and time with a blank or a T between, a fraction of any length or none, and any offset behind, is read as the date, the time and the nanoseconds it says, digits past the ninth dropped. |
| CNumbers.ShortDateIsNotInFull | src/results.c:295-321 | A date of at most ten bytes is followed to where its text has it if and only if it has all ten. |
| CNumbers.ShortTimeIsNotInFull | src/results.c:295-321 | And a time behind a date of ten if and only if it has at least eight. |
| CNumbers.FiguresAreRead | src/results.c:242-268 | A date or a time spelt with any blanks, signs and digits that fit the widths is read as what they say, a number below nought wrapped in its field of sixteen bits. |
| Temporal.DateWithTail | src/results.c:295-321 | A date with anything but a blank or a T behind it is read as its midnight; with one of those it is refused without a time. |
| Temporal.DateAloneIsRead | src/results.c:295-321 | A date alone is read as its midnight. |
| Temporal.WideFractionIsATenth | src/results.c:269-287 | A fraction of ten digits, which 32 bits have room for, is read back as its tenth. |
| Temporal.WideFraction | src/results.c:269-287 | A thousand million nanoseconds come back as a hundred million. |
| Temporal.DateRoundTrip | src/results.c:248-257 | A date parameter's text reads back as the date if and only if its parts fit the bytes they are printed in. |
| Temporal.TimeRoundTrip | src/results.c:260-268 | The same for a time. |
| Temporal.TimestampRoundTrip | src/results.c:295-321 | The same for a timestamp, to the nanosecond. |

## Left out

- TransparentRuns.LossIsTransparent: assumes that every post is answered; a request that timed out may or may not have run, and the code notes nothing of it. `Calls.AtMostOnce`, `History.EveryRunIsExplained` and `ScopeSafety.ScopeBeforeStatement` cover transport failures.
- TransparentRuns.LossIsTransparent: that unflagged requests leave the session alone is a law assumed of the engine, not proved of the classifier; SQL hidden in procedures or dynamic statements could break it.
- TransparentRuns.LossIsTransparent: that a refused request leaves the context and opens no transaction, autocommit off included, is a law too; the code notes nothing of a request of several statements that is refused part way (`History.RefusalIsNotNoted`), so the theorem says nothing about an engine that keeps what the first ones did or opens one all the same.
- ChunkedBody.DecodeChunked: the body is shorter than half the address space; what memory moved past its end would hold is not modelled.
- Temporal.ParseTimestamp: what is read past the end of a text spelt short is not modelled, only that it is.
- Literals.RenderedIsSpliceable: floats are taken as the text printf wrote, a number or one of its words for infinities and not-a-number; floating point itself is not modelled.
- JsonParser.ParseJson: the second half of a surrogate pair is not checked to be one, as in the code; its range is therefore wider than Unicode's.
- Json.ParseInvertsPrint: strings are those without NUL bytes, which the C strings of the codec cannot carry; a `\u0000` in an input is kept in the tree, and `Responses` reads a member's text up to it, as C does.
- Cursors.Statement.SQLFetch: the counter and the status are fields the application may look at, not memory it points to.
- Cursors.RowsAffected: the sum of the counts is not cut to sixty-four bits; each count is.
- Cursors.ConvertCell: numeric, bit, date and time targets, and the choice of a default target, are left out of the cursor; dates and times are read in `Temporal`.
- Connections.Connection.DoRunSql: what run_sql leaves on the statement is `Cursors.Statement.TakeResults`.
- Whereabouts.ShownIsWhereItRuns: calls that may move the session by other statements than USE DATABASE, a USE of anything but one database or schema and CREATE or DROP of a database, are left out; the schema shown is not followed.
- Responses.ReadAnswer: the protocol's answer keeps the result sets as their printed text, which `ResultSets` decodes from the tree; precision, scale and length of columns and the text of the message for an unreadable body are not modelled.
- A statement on a connection that is not open leaves the state as it is: the driver manager lets none through.
- Sockets, name lookup, timeouts, header search and the health probe itself: input and output, replaced by an arbitrary network and a flag.
- Allocation failures and freeing: allocation is assumed to succeed.
- The text of diagnostics: only which of them is reported.
- `SQLGetInfo`, `SQLGetFunctions`, `SQLColAttribute`, the type tables and statement attributes: tables of constants.
- `src/catalog.c`: catalog shapes over query results; its escaping is the string literal's.
- `src/handles.c`: handle allocation and message copying.
- The rest of `test/`: process control, fixtures and comparison of grids.
