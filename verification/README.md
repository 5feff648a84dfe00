# Four cores of a small web server, verified

The server reads HTTP requests, routes them by the longest registered prefix of
their target to handlers named in a configuration file, and renders Markdown.
This project models its state machines, parsers and printers and proves what
they promise, for every input and every run.

**Emphasis** (`Emphasis*.dfy`). The renderer turns a line into a list of text,
open and close markers, pairs markers greedily while splitting `***` and `___`
in place, and then takes crossing pairs apart with a stack. `EmphasisResolver`
is the imperative form: marker objects that point at each other, in a list
spliced while it is walked. It is proved against two specifications on values, a
recursive matching pass (`EmphasisMatching`) and a declarative account of the
unmatching pass (`EmphasisNesting`: a pair is taken apart exactly when another
pair opens inside it and closes after it). About these it is proved that text is
conserved, that pairs are well-formed, maximal and in order, that what survives
is nested, and that the tags written balance. The matching pass of the original
does not always end: an open marker `***` that meets a close marker `___` first
is split into sizes 0 and 3, and the marker of size 0 splits size-3 closes for
ever. `EmphasisTermination` gives the two loops turn by turn for sizes 0 to 3
and proves that they halt exactly when no turn of the run meets such a pair,
that these are exactly the lists that the recursive pass resolves, that they
halt on every list in which no size-3 open marker precedes a size-3 close marker
of another character, and that a family of the other lists runs for ever.
`EmphasisSplitting` gives what is written for the lists in which size-3 markers
meet smaller ones.

**Configuration** (`Config*.dfy`). A lexer with unget, a pushdown parser that
builds a tree of objects through a stack of pointers, and an indenting printer.
On tokens, acceptance is membership in the grammar and the tree is the
derivation; print then parse is the identity; and the pointer stack is at all
times the rightmost open path of the object tree. The header promises true
exactly for valid files, and the code breaks that promise: a word that the file
ends inside is dropped without an error. `ConfigValidity` proves the exact
condition. The parser is right if and only if it rejects the file or the file
does not end inside a word, which covers every file that ends in a space, a tab,
a line feed, a semicolon or a brace; and it is right about every file once a
line end is added.

**Requests and routing** (`Request*.dfy`, `Routing.dfy`, `Connection.dfy`). The
byte-by-byte request parser is proved against a grammar written as documents and
their text: an input is good if and only if it is a request, it is rejected at
the first byte after which no continuation is a request, and serialising then
parsing is the identity. `RequestText` writes the character classes and the
request text out. The shortening loop finds the longest registered
prefix, and the handlers that strip the prefix depend on where it stops. They do
so correctly below every prefix but the root, where stripping works only when a
second slash follows; the exact condition is proved for each of the three, also
where a Referer chooses the handler by one target and another is stripped.

**Markdown placeholders and lines** (`Entities.dfy`, `Placeholders.dfy`,
`EscapeRestore.dfy`, `SpanPasses.dfy`, `InlineTokens.dfy`, `CodeBlock.dfy`,
`LineReader.dfy`, `Streams.dfy`). The inline passes put numbered placeholders into the working
text and the pieces they stand for into a table. For any matches that end on the
delimiters of the passes, placeholders stay whole and inside the table, so that
no index assertion fails, and restoring after a pass gives its matches what their
entries write; escaping and restoring is the identity; encoded mail
addresses decode to themselves and are not encoded twice. The backtracking
code-block reader comes to a simple rule, and the lines read from a text do not
depend on which line ends it mixes.

## Model

| member | source | states |
|---|---|---|
| EmphasisMatching.ScanSound | src/markdown/markdown-tokens.cpp:514-558 | searching for the partner of an open marker keeps every marker at a size of 1 to 3, and an open marker is split only when its size is 3 and the close it met has size 1 or 2 |
| EmphasisMatching.ScanKeepsLiteral | src/markdown/markdown-tokens.cpp:519-532 | splitting close markers on the way leaves the literal text of the list as it was |
| EmphasisMatching.MatchAllConserves | src/markdown/markdown-tokens.cpp:509-560 | the whole matching pass conserves the literal text and keeps every marker sound |
| EmphasisPairs.ScanPairs | src/markdown/markdown-tokens.cpp:514-556 | one search, whatever its outcome, keeps the earlier pairs and pairs at most one close marker, of the same kind, under the new id |
| EmphasisPairs.MatchAllPairs | src/markdown/markdown-tokens.cpp:509-560 | the ids handed out are exactly the pairs made: each names one open marker and one later close marker of the same character and size |
| EmphasisPairs.MatchAllMissesNone | src/markdown/markdown-tokens.cpp:509-560 | the matching is maximal: no enabled unmatched open marker precedes an enabled unmatched close marker of its kind |
| EmphasisPairs.ScanExhausts | src/markdown/markdown-tokens.cpp:516-558 | a search that finds nothing leaves no close marker that the open marker could pair with or split |
| EmphasisOrder.MatchAllInOrder | src/markdown/markdown-tokens.cpp:509-560 | pairs of one kind close in the order in which they open: the matching is first come, first served |
| EmphasisTermination.LoopStep | src/markdown/markdown-tokens.cpp:509-560 | one turn of the two nested loops, for sizes 0 to 3, keeps the sizes at most 3 |
| EmphasisTermination.FindGoesOn | src/markdown/markdown-tokens.cpp:516-533 | each turn of the inner loop lowers the pair of remaining size-3 markers and remaining nodes, though the list grows |
| EmphasisTermination.StepConserves | src/markdown/markdown-tokens.cpp:519-556 | every turn of the loops, each split and each match, conserves the literal text of the list as it then is |
| EmphasisTermination.RunConserves | src/markdown/markdown-tokens.cpp:509-560 | so does every run of any number of turns, also one that never ends |
| EmphasisTermination.FindRuns | src/markdown/markdown-tokens.cpp:514-558 | the inner loop, started for an open marker of size 1 to 3, ends and leaves what the recursive search says |
| EmphasisTermination.ResolvedHalts | src/markdown/markdown-tokens.cpp:509-560 | where the recursive pass gives a list, the loops halt with exactly that list and next id |
| EmphasisTermination.StuckForever | src/markdown/markdown-tokens.cpp:519-532 | searching for an open marker of size 0 with a size-3 close ahead never ends |
| EmphasisTermination.DivergesCollides | src/markdown/markdown-tokens.cpp:542-556 | where the recursive pass gives no list, the loops come to a collision: the search for a size-3 open marker faces a size-3 close marker of another character |
| EmphasisTermination.CollidingSticks | src/markdown/markdown-tokens.cpp:542-556 | two turns after a collision the loops search for an open marker of size 0 with a size-3 close marker ahead |
| EmphasisTermination.HaltsIffNoCollision | src/markdown/markdown-tokens.cpp:542 | on every list of sound markers the loops halt if and only if no turn of the run is at a collision |
| EmphasisTermination.HaltsIffResolved | src/markdown/markdown-tokens.cpp:509-560 | on every list of sound markers the loops halt if and only if the recursive pass, which always ends, gives a list |
| EmphasisTermination.NoMixedTriplesResolves | src/markdown/markdown-tokens.cpp:509-560 | the pass ends on every list in which no size-3 open marker precedes a size-3 close marker of another character |
| EmphasisTermination.OneCharacterResolves | src/markdown/markdown-tokens.cpp:509-560 | in particular it ends when all size-3 markers share one character |
| EmphasisTermination.MixedTripleDiverges | src/markdown/markdown-tokens.cpp:542-556 | it does not end when a size-3 open marker is the first one visited and the next close is a size-3 one of another character |
| EmphasisNesting.StackNotEmpty | src/markdown/markdown-tokens.cpp:569-571 | at a matched close marker the stack of open matches is not empty, so its top is never asked for in vain |
| EmphasisNesting.StackTop | src/markdown/markdown-tokens.cpp:571-574 | the top of the stack is the closing pair itself exactly when no pair opens inside it and closes after it |
| EmphasisNesting.DeadIffUnmatched | src/markdown/markdown-tokens.cpp:575-577 | a stack entry is popped as dead exactly when its pair has been taken apart |
| EmphasisNesting.DropUpToPaired | src/markdown/markdown-tokens.cpp:562-580 | after every turn of the unmatching loop the matched markers still form whole pairs |
| EmphasisNesting.DropCrossedNested | src/markdown/markdown-tokens.cpp:562-580 | after the unmatching pass any two surviving pairs are nested or disjoint |
| EmphasisNesting.DropCrossedUnchanged | src/markdown/markdown-tokens.cpp:562-580 | the pass leaves a matching unchanged if and only if it was nested already |
| EmphasisNesting.DropCrossedIdempotent | src/markdown/markdown-tokens.cpp:562-580 | a second run of the pass changes nothing |
| EmphasisNesting.DropConserves | src/markdown/markdown-tokens.cpp:571-573 | unmatching conserves the literal text and the marker sizes at every step |
| EmphasisRender.NestedRendersBalanced | src/markdown/markdown-tokens.cpp:737-748 | from any place of a nested list, the tags still to come close exactly the elements open there |
| EmphasisRender.ResolvedRendersBalanced | src/markdown/markdown-tokens.cpp:737-748 | the em and strong tags written for the whole resolved list form a balanced sequence |
| EmphasisResolver.Unlink | src/markdown/markdown-tokens.h:362 | taking a pair apart clears the pointers and ids of its two markers, keeps all pointers symmetric and changes no other marker |
| EmphasisResolver.DisableMarker | src/markdown/markdown-tokens.h:364 | disabling an unmatched marker keeps all pointers symmetric and changes nothing in the list but that this marker no longer matches or shows |
| EmphasisResolver.Marker.WriteAsHtml | src/markdown/markdown-tokens.cpp:737-748 | a marker writes the tags or the characters of its pieces; the assertion on sizes holds |
| EmphasisResolver.SplitMarker | src/markdown/markdown-tokens.cpp:519-532 | disables the marker in place and splices two fresh ones after it, the leftover of size 3-k first and then the part of size k; match pointers stay symmetric and nothing else changes |
| EmphasisResolver.PairMarkers | src/markdown/markdown-tokens.cpp:534-541 | points an open and a close marker at each other under one id and changes no other marker |
| EmphasisResolver.UnpairMarkers | src/markdown/markdown-tokens.cpp:571-573 | clears exactly the two markers of the pair |
| EmphasisResolver.FindClose | src/markdown/markdown-tokens.cpp:514-558 | the inner loop over marker objects gives the list and outcome of the recursive search |
| EmphasisResolver.MatchMarkers | src/markdown/markdown-tokens.cpp:509-560 | the matching pass over marker objects, spliced while iterated, ends with match pointers symmetric and the list of the recursive pass |
| EmphasisResolver.UnmatchCrossings | src/markdown/markdown-tokens.cpp:562-580 | the stack loop takes apart exactly the crossed pairs and never looks at the top of an empty stack |
| EmphasisResolver.ProcessBoldAndItalicSpans | src/markdown/markdown-tokens.cpp:509-580 | both passes on a fresh marker list give the resolved list, or report a list on which the matching pass never ends |
| EmphasisResolver.ResolveGuarantees | src/markdown/markdown-tokens.cpp:509-580 | for every fresh list: the matching is by pairs, maximal and in order; the result is nested, renders to balanced tags and stands for the same text |
| EmphasisResolver.WriteAsHtml | src/markdown/markdown-tokens.cpp:737-748 | writing the tokens in turn gives the pieces of the list |
| EmphasisRender.PiecesShown | src/markdown/markdown-tokens.cpp:737-748 | the very characters a token writes: its tags by size while it is matched, as many of its characters as its size when it is not, nothing when it is disabled |
| EmphasisSplitting.VisitPairs | src/markdown/markdown-tokens.cpp:534-541 | an open marker is paired with the first fitting close marker after tokens that do not concern it |
| EmphasisSplitting.VisitSplitsClose | src/markdown/markdown-tokens.cpp:519-532 | an open marker of size 1 or 2 takes the farther part of a size-3 close marker of its character and leaves the nearer one |
| EmphasisSplitting.VisitSplitsOpen | src/markdown/markdown-tokens.cpp:542-556 | a size-3 open marker leaves the nearer part for a smaller close marker, whatever the characters |
| EmphasisSplitting.VisitSplitsOther | src/markdown/markdown-tokens.cpp:519-532 | a size-3 close marker is split even by an open marker of another character, which takes no part of it |
| EmphasisSplitting.VisitFindsNothing | src/markdown/markdown-tokens.cpp:514-558 | an open marker without a fitting close marker stays as it is |
| EmphasisSplitting.PairWritten | src/markdown/markdown-tokens.cpp:509-580 | a pair of any size is written as its tags around the text between |
| EmphasisSplitting.OpensThenTripleWritten | src/markdown/markdown-tokens.cpp:519-532 | an open marker of size k, one of size 3-k and one close marker of size 3 give two nested pairs, none is taken apart, and exactly this is written |
| EmphasisSplitting.TripleThenClosesWritten | src/markdown/markdown-tokens.cpp:542-556 | the mirror: an open marker of size 3 and close markers of sizes k and 3-k give two nested pairs, the one closed first inside |
| EmphasisSplitting.TripleThenOtherWritten | src/markdown/markdown-tokens.cpp:542-556 | a first close marker of another character splits the size-3 open marker, of which only the outer part is then paired |
| EmphasisSplitting.OtherThenTripleWritten | src/markdown/markdown-tokens.cpp:519-532 | an earlier open marker of another character makes a size-3 pair be written as two pairs |
| EmphasisSplitting.CrossedWritten | src/markdown/markdown-tokens.cpp:562-580 | of two pairs that cross, the one closed first shows as it was written and the other keeps its tags |
| ConfigParsing.RunYield | config_parser/config_parser.cc:151-233 | reading the derivation of some statements on top of any open blocks adds exactly those statements |
| ConfigParsing.StepExtendsPath | config_parser/config_parser.cc:160-224 | every accepted token extends the tokens that the open blocks stand for by that token |
| ConfigParsing.RunExtendsPath | config_parser/config_parser.cc:151-233 | in every reachable state the open blocks, read as tokens, are the tokens read so far |
| ConfigParsing.AcceptIffYield | include/config_parser.h:35-37 | a token sequence is accepted with a tree if and only if it is the derivation of that tree by Stmt* with Stmt = word+ followed by a semicolon or a block |
| ConfigLexing.LexShortens | config_parser/config_parser.cc:68-149 | every token but the end of input shortens the input, and every word is lexically valid |
| ConfigLexing.LexWord | config_parser/config_parser.cc:68-149 | a valid word before a word end is read as exactly that word |
| ConfigBytes.CommentIsSkipped | config_parser/config_parser.cc:125-130 | a comment goes from a hash to the first line feed or carriage return and leaves no token |
| ConfigBytes.CommentToEnd | config_parser/config_parser.cc:142-148 | a comment may be the last line, without a line end |
| ConfigBytes.BareWordEnds | config_parser/config_parser.cc:131-138 | a bare word is ended by each of space, tab, line feed, semicolon and the two braces, which is read next |
| ConfigBytes.ReturnIsInWord | config_parser/config_parser.cc:131-138 | a carriage return does not end a bare word |
| ConfigBytes.QuotedWordEnds | config_parser/config_parser.cc:110-124 | a quoted word goes to the next quote of its own kind, whatever is between and whatever follows |
| ConfigBytes.UnclosedQuote | config_parser/config_parser.cc:142-146 | a quote without its end makes the file rejected |
| ConfigBytes.BlanksAreSkipped | config_parser/config_parser.cc:100-104 | a space, tab, line feed or carriage return between tokens is skipped |
| ConfigLexing.PrintIsScanned | config_parser/config_parser.cc:21-52 | the text printed for well-formed statements at any depth is split into their derivation, whatever follows |
| ConfigBytes.IndentIs | config_parser/config_parser.cc:31-33 | two spaces for each level and none at a depth of zero or less |
| ConfigBytes.WordsAreSpaced | config_parser/config_parser.cc:34-39 | words are printed with one space between two of them |
| ConfigBytes.StatementIsPrinted | config_parser/config_parser.cc:29-52 | a simple statement is one line with a semicolon; a block has its braces at the ends of its first and last lines and its statements one level deeper |
| ConfigText.ParseTextIffYield | config_parser/config_parser.cc:140-233 | a text is accepted with a tree if and only if its tokens, without comments and without a word that it ends inside, are the derivation of that tree |
| ConfigValidity.PromiseKept | include/config_parser.h:35-37 | the parser gives what a valid file, all its tokens counted, should give if and only if it rejects the text or the text does not end inside a word |
| ConfigValidity.DroppedIsInvalid | config_parser/config_parser.cc:140-148 | no text that ends inside a word is valid, so every accepted one is accepted wrongly |
| ConfigValidity.ValidIsAccepted | include/config_parser.h:35-37 | a valid file is never refused and is parsed to its tree |
| ConfigValidity.DroppedEndsText | config_parser/config_parser.cc:131-148 | the dropped word is a bare word at the very end of the text |
| ConfigValidity.EndedIsNotDropped | include/config_parser.h:35-37 | true is returned exactly for the valid files among those that are empty or end in a byte that ends a word |
| ConfigValidity.LineEndShowsAll | config_parser/config_parser.cc:131-148 | all tokens of a text are those the lexer gives when a line end is added |
| ConfigValidity.LineEndKeepsPromise | include/config_parser.h:35-37 | parsing any text with a line end added accepts exactly the valid texts, with their trees |
| ConfigText.AcceptedIsWellFormed | config_parser/config_parser.cc:151-233 | an accepted tree has no empty statement and only lexically valid words |
| ConfigText.PrintThenParse | config_parser/config_parser.cc:21-52 | every well-formed tree printed at any depth is accepted and parsed to the same tree |
| ConfigText.ReprintIsIdempotent | config_parser/config_parser.cc:21-52 | printing an accepted file, parsing and printing again gives the same tree and the same text |
| ConfigText.PrintIsInjective | config_parser/config_parser.cc:21-52 | two well-formed trees that print alike are equal |
| ConfigText.TrailingWordIsDropped | config_parser/config_parser.cc:140-148 | witness that the promise can fail: a file that is one bare word is accepted as the empty configuration |
| ConfigText.RejectedToken | config_parser/config_parser.cc:160-224 | a token that the parser rejects makes the whole text rejected, whatever follows |
| ConfigParser.ParseToken | config_parser/config_parser.cc:68-149 | the state machine with unget reads the next token and leaves the rest of the input, as the lexing function does, which the byte-by-byte rows fix |
| ConfigParser.AddFirstWord | config_parser/config_parser.cc:173-184 | the first word appends a new statement to the configuration on top of the stack |
| ConfigParser.AddNextWord | config_parser/config_parser.cc:173-184 | a further word is appended to the last statement |
| ConfigParser.OpenBlock | config_parser/config_parser.cc:194-203 | a block pushes a new configuration, the child of the statement begun |
| ConfigParser.CloseBlock | config_parser/config_parser.cc:204-212 | a closing brace ends the block on top, whose objects then show the finished statement |
| ConfigParser.StepObjects | config_parser/config_parser.cc:160-224 | after every accepted token the pointer stack is the rightmost open path of the object tree: one entry for each open block and each the child of the last statement of the entry below |
| ConfigParser.Parse | config_parser/config_parser.cc:151-233 | accepts exactly the texts that the text-level parser accepts, which are the valid ones where the text does not end inside a word; it appends the parsed statements to the given configuration, and the new objects show the parsed tree |
| ConfigParser.ToString | config_parser/config_parser.cc:21-27 | writes the printed form of the tree that the objects show |
| ConfigParser.StatementToString | config_parser/config_parser.cc:29-52 | writes the printed form of one statement |
| RequestRun.GrowText | src/request.cc:34-275 | one more byte of a partial document keeps it partial and is appended to its text |
| RequestRun.Shrink | src/request.cc:34-275 | every partial document but the empty one comes from a partial document by one byte, so the states cover the grammar |
| RequestRun.Complete | src/request.cc:34-275 | every partial document can be completed to a whole request |
| RequestParsing.StepFollows | src/request.cc:34-275 | each byte takes the parser, with its fields, to the partial document grown by that byte, or is bad exactly when there is none |
| RequestParsing.ParseReaches | src/request.cc:10-23 | whatever has not been rejected is the text of a partial document that the parser holds in its fields |
| RequestParsing.PartialIsReached | src/request.cc:10-23 | the text of a partial document is never rejected and leaves the fields of that document |
| RequestParsing.GoodIffRequest | src/request.cc:10-23 | a non-empty input ends good if and only if it is a request of the grammar, with folds and body |
| RequestParsing.ViablePrefix | src/request.cc:10-23 | an input is not rejected if and only if some continuation of it is a request |
| RequestParsing.BadByte | src/request.cc:13-18 | bad is reported at exactly the first byte after which no continuation is a request, and the raw request is the input up to and including it |
| RequestParsing.SerializeThenParse | src/request.cc:34-275 | a well-formed request written with CRLFs and one space after each colon parses to good with exactly its fields; folded lines are joined, trimmed, onto their header |
| RequestText.TokenCharIs | src/request.cc:277-295 | methods and header names are made of exactly the letters, the digits and fifteen signs |
| RequestText.CtlIs | src/request.cc:281-283 | control bytes are exactly those before the space and the delete byte |
| RequestText.DigitIs | src/request.cc:297-299 | the digits are the ten digits, with their values |
| RequestText.DecimalIs | src/request.cc:137-180 | version numbers are read in base ten |
| RequestText.SentIsReceived | src/request.cc:34-275 | a request of plain characters, with every fixed byte and line end of it written out, folds included, parses good to what was sent |
| RequestParsing.RequestsAreUnambiguous | src/request.cc:34-275 | one text is never two requests with different fields |
| RequestParsing.FieldInvariants | src/request.cc:58-94 | in every reachable state that is not bad: the target is handler path plus file path, the handler path has no later slash, the file path is empty or starts with one, the version numbers are the decimal values of the version digits, and the header list is non-empty where its last entry is used |
| RequestParsing.TargetIsAbsolute | src/request.cc:48-94 | the target is empty or starts with a slash, on rejected input too |
| RequestParser.Request.Consume | src/request.cc:34-275 | one byte changes the object as the step function says, and nothing else |
| RequestParser.Request.ParseRequest | src/request.cc:10-23 | the loop leaves the object and status of the parse function, stopping at the first bad byte; the class rows and `SentIsReceived` fix that function |
| RequestParser.BadIsFinal | src/request.cc:15-18 | bytes after a bad byte change nothing |
| Routing.ShortenUriPrefix | src/connection.cc:100-121 | the search for the last slash gives the shortened prefix |
| Routing.ShortenIsNextCut | src/connection.cc:100-121 | shortening a cut of the target gives the next shorter cut, or nothing below the root |
| Routing.FindHandler | src/connection.cc:56-88 | the loop ends with the longest registered key among the target, its cuts before each later slash and the root; the default is used exactly when none is registered |
| Routing.RoutesToOne | src/connection.cc:68-78 | at most one key is the longest registered prefix |
| Routing.RewriteUri | src/proxy_handler.cc:20-31 | the bare prefix becomes the root, a target that extends the prefix becomes what follows it, any other stays as it is |
| Routing.RoutedObjectKey | src/s3_handler.cc:31-39 | routed to a prefix, the storage handler errs if and only if the target is the prefix; otherwise the key is all but the prefix and one byte, and that byte is a slash if and only if a slash follows the prefix, as it always does below a prefix other than the root |
| Routing.RoutedFileSuffix | src/static_handler.cc:25-33 | the file handler errs if and only if the target is the prefix; otherwise prefix and suffix make up the target and the suffix is absolute if and only if a slash follows |
| Routing.RoutedProxyUri | src/proxy_handler.cc:20-31 | the bare prefix is rewritten to the root, any other target to what follows the prefix; the result is absolute if and only if the target is the prefix or a slash follows it |
| Routing.RootProxyLosesSlash | src/proxy_handler.cc:20-31 | the target /a routed to the root is proxied without its slash, and its object key is empty |
| Routing.NoBasisIffSlashless | src/connection.cc:60-66 | routing throws if and only if some Referer has no slash at index 8 or later |
| Routing.LastRefererCounts | src/connection.cc:60-66 | the last Referer decides: its first eight bytes and its host are cut off and its path is what routing goes by |
| Routing.OtherFieldsDoNotCount | src/connection.cc:60-66 | no other header field changes what routing goes by |
| Routing.StripsIffCut | src/s3_handler.cc:33-36 | for a prefix chosen by any target: stripping it from another leaves what follows prefix and slash if and only if the prefix is a cut of that other target, and not all of it |
| Routing.RefererObjectKey | src/s3_handler.cc:31-39 | routed by a Referer, the object key is what follows prefix and slash if and only if the prefix is a cut of the request target and not all of it; at the root, if and only if a second slash follows |
| Routing.RefererFileSuffix | src/static_handler.cc:25-33 | routed by a Referer, the file handler serves an absolute suffix under exactly the same condition |
| Routing.RefererProxyUri | src/proxy_handler.cc:20-31 | routed by a Referer, the proxy strips to an absolute target under exactly the same condition, and a target that does not extend the prefix is asked for whole |
| Routing.RefererBreaksStripping | src/connection.cc:60-66 | witness of the failing side: a request routed by its Referer to a storage handler that refuses it |
| Routing.ParsedTargetRoutes | src/connection.cc:56-66 | without a Referer routing goes by the parsed target, which is empty or absolute for every input |
| Connection.HandleRead | src/connection.cc:53-86 | from the bytes received: a handler is found if and only if one is registered for a prefix of what routing goes by, and then it is that of the longest; without a Referer routing goes by the parsed target, and it throws exactly on a Referer without a slash |
| Entities.EmailEncode | src/markdown/markdown-tokens.cpp:90-105 | the loop that alternates decimal and hexadecimal references gives the encoding |
| Entities.EncodedByTurns | src/markdown/markdown-tokens.cpp:92-103 | bytes are written in decimal and hexadecimal by turns, the first in decimal, and bytes above 127 as they are, which also take a turn |
| Entities.NumeralDigits | src/markdown/markdown-tokens.cpp:97-101 | the sixteen digits, and the last digit as the remainder by the base |
| Entities.NumeralIsCanonical | src/markdown/markdown-tokens.cpp:97-101 | numbers are written without leading zeros, with small letters |
| Entities.NumeralIsReference | src/markdown/markdown-tokens.cpp:96-101 | a number written in either base is read back as that number by the reference syntax of section 5.3.1 of HTML 4.01 |
| Entities.DecodeEncode | src/markdown/markdown-tokens.cpp:90-105 | decoding the numeric character references of an encoded address gives the address back, whatever its bytes |
| Entities.EncodeText | src/markdown/markdown-tokens.cpp:38-61 | the loop encodes character by character |
| Entities.EncodedIsShown | src/markdown/markdown-tokens.cpp:45-58 | where no ampersand is spared, encoded text shows, with its four entities read, as the source |
| Entities.EncodedIsHarmless | src/markdown/markdown-tokens.cpp:45-58 | whatever is spared, encoded text holds no angle bracket and no double quote |
| Entities.PlainIsCopied | src/markdown/markdown-tokens.cpp:45-58 | text without the replaced characters is copied |
| Entities.EncodedIsNotEncodedAgain | src/markdown/markdown-tokens.cpp:445-450 | an encoded address passes through the general encoder unchanged |
| Placeholders.FindPlaceholder | src/markdown/markdown-tokens.cpp:596-600 | the search stops at the first placeholder, and only there |
| Placeholders.RestoreProcessedItems | src/markdown/markdown-tokens.cpp:626-657 | the loop restores each placeholder from the table, and fails exactly where an index is outside it |
| Placeholders.ProcessEscapedCharacters | src/markdown/markdown-tokens.cpp:301-324 | the loop escapes pair by pair, a trailing backslash included |
| EscapeRestore.PlaceholderMatches | src/markdown/markdown-tokens.cpp:629-641 | a whole placeholder is found as itself, whatever follows it |
| EscapeRestore.SoundRestores | src/markdown/markdown-tokens.cpp:644-648 | restoring a text whose placeholders are whole and inside the table never fails an assertion or a cast |
| EscapeRestore.EscapeThenRestore | src/markdown/markdown-tokens.cpp:301-324 | escaping keeps placeholders whole, and restoring after the escape pass equals restoring before it |
| EscapeRestore.EscapeThenRestoreIsIdentity | src/markdown/markdown-tokens.cpp:626-657 | escape then restore is the identity on every text without marks |
| SpanPasses.CutPieces | src/markdown/markdown-tokens.cpp:226-324 | cutting a text with whole placeholders at a delimiter cuts no placeholder |
| SpanPasses.ReplacedIsSound | src/markdown/markdown-tokens.cpp:226-299 | replacing matches by numbered placeholders keeps all placeholders whole and inside the longer table |
| SpanPasses.ProcessHtmlTagAttributes | src/markdown/markdown-tokens.cpp:226-271 | the loop replaces each attribute string and appends it to the table |
| SpanPasses.AttributesRestore | src/markdown/markdown-tokens.cpp:226-271 | restoring after the pass gives the source with each attribute string as its entry writes it |
| SpanPasses.CodeSpanPass | src/markdown/markdown-tokens.cpp:282-297 | one pass over code spans: the text is replaced, the entries are the restored contents, and restoring them never fails |
| SpanPasses.CodeSpansMean | src/markdown/markdown-tokens.cpp:282-297 | restoring after a pass gives the source with each span as a backtick, its restored contents and a backtick |
| SpanPasses.ProcessCodeSpans | src/markdown/markdown-tokens.cpp:273-299 | both passes; the table only grows |
| SpanPasses.RestoreWithMore | src/markdown/markdown-tokens.cpp:626-657 | appending to the table does not change what earlier text is restored to |
| SpanPasses.ReplacedRestores | src/markdown/markdown-tokens.cpp:626-657 | restoring gives, match by match, the text before the match and the entry made for it, and at last the rest |
| SpanPasses.CodeSpansRestore | src/markdown/markdown-tokens.cpp:273-299 | the pass over single-backtick code spans is undone by restoring |
| SpanPasses.LinkedIsSound | src/markdown/markdown-tokens.cpp:348-464 | replacing links, images and tags keeps all placeholders whole and inside the longer table, with the second index of a link right after the first |
| SpanPasses.ProcessLinksImagesAndTags | src/markdown/markdown-tokens.cpp:348-464 | the text restored from the final table is, match by match, the text before the match, what its entry writes and, for a link, then its restored contents and its closing entry, and at last the rest; restoring tag contents never fails |
| SpanPasses.LinkedRestores | src/markdown/markdown-tokens.cpp:348-464 | the same from any place of the text on and for any table in between |
| InlineTokens.EncodeProcessedItems | src/markdown/markdown-tokens.cpp:593-624 | splitting a text into tokens fails exactly where restoring it fails; the tokens written as originals are the restored text, they are its characters, escaped characters and entries in order, and no text token is empty |
| InlineTokens.CharacterAtom | src/markdown/markdown-tokens.cpp:618-620 | a character that is not the mark is a character of a text token |
| InlineTokens.EntryAtom | src/markdown/markdown-tokens.cpp:609-614 | a numbered placeholder is the entry of that number |
| InlineTokens.EscapeAtom | src/markdown/markdown-tokens.cpp:606-608 | an escape placeholder is the escaped character itself |
| InlineTokens.EscapedMeaning | src/markdown/markdown-tokens.cpp:301-324 | escaping and splitting a text makes a backslash and any of sixteen characters that character alone, taken literally, and leaves everything else |
| SpanPasses.ProcessSpanElements | src/markdown/markdown-tokens.cpp:215-224 | for mark-free source and any matches that end on delimiters, the passes in order leave a text whose placeholders are whole and inside the final table |
| InlineTokens.PlainSource | src/markdown/markdown-tokens.cpp:215-224 | where no expression matches, the whole pipeline makes of the source just what its backslashes say |
| InlineTokens.PassesAlone | src/markdown/markdown-tokens.cpp:215-224 | each pass takes part: where the others find nothing, the result is that of its own replacements and the escape pass |
| InlineTokens.StretchIsSafe | src/markdown/markdown-tokens.cpp:582-588 | every stretch of the final text between markers is split into tokens without a failing assertion |
| CodeBlock.Reader.IsCodeBlockLine | src/markdown/markdown.cpp:190-211 | reads blank lines up to and including the next code line, or puts the iterator back when there is none |
| CodeBlock.Reader.ParseCodeBlock | src/markdown/markdown.cpp:213-228 | on failure the iterator is unchanged and no block stands there; on success it has passed the maximal run that starts and ends with a code line, and emitted each line less four spaces and each blank as one line end |
| CodeBlock.BlockExistsOnce | src/markdown/markdown.cpp:213-228 | a block stands at a position exactly when a code line does, and it is unique |
| CodeBlock.BlockIs | src/markdown/markdown.cpp:190-228 | lines of four spaces and code, with blank lines between them and no code after them, are one block, and its text is the code with an empty line for each blank one |
| LineReader.GetLine | src/markdown/markdown.cpp:630-654 | one line with any of the four line ends and tabs expanded, with the rest of the input left |
| LineReader.Read | src/markdown/markdown.cpp:656-674 | the lines of the whole input in order |
| LineReader.LineEndsDoNotMatter | src/markdown/markdown.cpp:631-653 | lines written with any mix of the four line ends are read back as the same lines, tabs expanded, and so is an unfinished last line, unless a line end of one character and that of an empty line after it read as one |
| LineReader.EveryTextIsRead | src/markdown/markdown.cpp:630-674 | every text is written from some such lines, so the proviso leaves no text out: what is read is always those lines, tabs expanded |
| LineReader.ExpandKeepsText | src/markdown/markdown.cpp:644-651 | expansion removes every tab, keeps the visible characters in order and leaves a line without tabs unchanged |
| LineReader.IndentTabStop | src/markdown/markdown.cpp:644-647 | a tab in the indentation moves to the next multiple of four |
| LineReader.TabColumn | src/markdown/markdown.cpp:644-651 | a tab goes to the next multiple of four while only blanks stand before it, and else to the next multiple of the tab width |
| LineReader.OtherColumn | src/markdown/markdown.cpp:648-651 | any other character takes one column |

## Left out

- The tokenizing expression for emphasis (src/markdown/markdown-tokens.cpp:469-507) and the other regular expressions: the models take the marker list, or the spans and captures of the matches, as input, and ask of a match only that it ends on the delimiters of its pass.
- EmphasisResolver.MatchMarkers: returns without a list where the loops of the original never end; `EmphasisTermination.HaltsIffResolved` shows that these are the same lists.
- EmphasisTermination.NoMixedTriplesResolves: goes one way, because an earlier marker may split or take the size-3 close marker first; the conditions that go both ways are on the run (`HaltsIffNoCollision`) and on the recursive pass (`HaltsIffResolved`).
- On values a match pointer is seen as an id that two markers share; the pointers themselves and their symmetry are in `EmphasisResolver`.
- The loop bodies of the original that nest more than one loop are methods of their own here.
- ConfigParser.Parse: a closing brace with no open block is rejected; the original pops the root from its stack, after which the top is undefined unless the input ends.
- Reading a configuration by file name, diagnostic output, and what the object tree holds after a rejected file.
- RequestParser.Request.Consume: version numbers are mathematical integers; overflow of the machine integer is not modelled.
- The link from a request to the server status object, and buffers that hold only part of a request.
- Routing.FindHandler: a Referer without a slash after its scheme, where the original throws, is an outcome of its own, as is a handler map without a default.
- Sockets, threads, the file system, the storage service, the remote connection and redirects of the proxy, and the fields of responses.
- Entities.EncodeText: only the flags for ampersands, angle brackets and quotes; the search that spares an ampersand (src/markdown/markdown-tokens.cpp:47) is a parameter, of which `EncodedIsNotEncodedAgain` asks only that it succeeds at a reference.
- SpanPasses.ProcessHtmlTagAttributes: the loop over tags and the loop over the attributes of a tag are one loop over the attribute spans, and the filter on valid tags is part of the choice of spans.
- SpanPasses.ProcessLinksImagesAndTags: which kind of token a match becomes (link table, URL and tag tests) is given with the match, and how an entry is written as original is a parameter.
- SpanPasses.ProcessSpanElements: source that already holds the mark character is excluded, as the placeholders cannot be told apart from it.
- The pass over space-bracketed groupings, which nothing calls.
- LineReader.Read: gives lines; the split into blank and text tokens is not modelled, nor is a second read of a processed document. A tab width of 0 is excluded, on which the original divides by zero.
- The loop over block items, lists, block quotes, headers, link definitions and the rest of the Markdown document, and the handlers for echo, status and errors.
- Bytes are modelled as characters.
