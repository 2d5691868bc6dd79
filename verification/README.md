# Model

Dafny proofs about the parts of this repository that decide something: the json-c reader and writer, the hash
table under its objects, curl's glob matcher, the LED protocol between application, core and device, and the
codecs (base64, the gzip header, CRC-32). `dafny verify dfyconfig.toml` checks everything.

Code that changes things step by step is modelled twice: as a value-level function that says what one step or
the whole run computes, and as a class or method with the source's own fields and loops that is proved to
compute exactly that. The properties are proved about the functions, so they hold of the methods.

**The json reader.** `Tokener` is the state machine of `json_tokener_parse_ex`, one character at a time: 22
states, a stack of at most 32 levels with a saved state each, a token buffer, and moves that do not consume
their character. What a step does to objects is kept apart as an effect, so the same machine drives both json
values and a heap of counted objects. `StepKeepsInv` is the stack discipline and the reason the machine
terminates. `TokenerChunks` shows that cutting a text changes nothing, `RoundTrip` that every printed value
within the depth limit is read back (and that one level more is refused), `ChunkedParsing` that this holds for a
printed text in any number of pieces, `TokenerValues` that whatever parses can be printed and parsed again.
`JsonGrammar` is a grammar of the texts the reader takes, written as one function per kind of phrase, and
`GrammarExact` proves for every text that the machine gives the grammar's verdict: its value, or its error.
`Rfc4627` has the values of that standard as syntax trees, with what each stands for, and `Rfc3629` is UTF-8;
both are independent of the reader and the writer. `RfcReading` proves for every such text, with any white
space, that it is read as what it stands for if and only if a condition on the tree holds, which names all that
goes wrong: `\f`, upper-case hexadecimal digits and `\u0000`, two `\u` escapes for one code, integers beyond 32
bits, `1E5` (read as 1), equal names, and more than 31 levels. `RfcStrings` and `RfcNumbers` hold its parts.
`JsonExtensions` says what is taken beyond the standard and which error is reported where. `JsonComments` has
what the grammar says about comments: `**` and a slash do not end one, and a text that ends inside a comment
behind a value is a success that returns that value, although an enclosing array or object was never closed.
`JsonTokener` is the reader as written, with its batched loops; it may be called again after any outcome, an
error included. `Ownership` and `ParserOwnership` run the machine on reference counts. `TokenerRuns` has the
steps that all proofs about runs are put together from.

**The json writer and containers.** `JsonPrinter` is the printed form, `RfcWriting` proves that it is a text of
RFC 4627 that stands for the value, laid out with single blanks, and `JsonWriter` has the functions that append
it to a `PrintBuf`; what `sprintf` with `%lf` makes of a double is a parameter, and
`TokenerValues.WrittenExactly` says for which of its results the text is read back. `ArrayList` is the growing
array, `LinkHash` the open-addressing table with a list threaded through its slots, which refines an
insertion-ordered member list.

**The glob matcher.** `Glob` is the search of `curl_fnmatch`; `GlobMeaning` compares it with a relation that
only says how a string is cut into parts. `MATCH` is exact for every pattern. The call does not always come
back, and where it does it may have read past its arguments: a negated set at the end of the string makes the
search read behind the string unless the rest of the pattern is refused at once, a range that ends below its
start makes the scanner of a set hang, and `[][` at the end of a pattern sends it past the pattern's terminator.
`GlobScan` takes a set apart into its pieces and says exactly which texts behind an opening bracket do that, and
`GoneExactly` which patterns and strings do. `GlobBodies` says for every other text whether it is a set and what
it contains: what its pieces name together. `GlobSets` and `GlobClasses` have families of sets, and where what
they contain differs from the usual reading: `[ac-d]` contains `b`, and `[[:digit:][:alpha:]]` no digit, because
of two named classes only one is looked at; each with the exact condition. `GlobMatcher` holds the loops.

**The LED protocol.** `LedProtocol` is a state machine over three queues, in any interleaving, for any number of
sessions and waiting applications; `LedRuns` counts its messages from the requests made, and `LedSystem` is the
three programs. The code does not do what the names say: a request "without" acknowledgement is acknowledged and
never reaches the device. The theorems state the laws the code keeps, one run in which a stale acknowledgement
answers the wrong request, and for which lists of requests an answer can come before the device has glowed
(`TooEarlyExactly`).

**The codecs.** `Base64` has one definition of the text (section 4 of RFC 4648) that both encoders compute and
that the decoder inverts, and `Base64Texts` says what is decoded from any text; `Gzip` accepts exactly the
headers of section 2.3 of RFC 1952, which `Rfc1952` has in numbers; `GzipWriter` is the state machine around it;
`Crc32` proves the table and the table-driven update against division bit by bit (section 8 of RFC 1952), and
`CrcBursts` that no error burst of at most 32 bits goes unnoticed.

Where the code and its comments disagree the model follows the code: `Curl_base64_encode` returns an empty
string, not NULL, for empty input; `Curl_base64_decode` never reads behind its input although its comment says
it may; the buffer size in the comment of `_mwBase64Encode` is too small unless the length is a multiple of 3
(`Base64.DocumentedBound`).

## Model

| member | source | states |
|---|---|---|
| Tokener.StepKeepsInv | json-c-0.9/json_tokener.c:191-609 | for every state and character: each level below the top waits in `array_add` on an array or in `object_value_add` on an object with a field name, the depth stays in 0..31, and a move that does not consume lowers a rank, so no chain of `redo_char` jumps is infinite |
| TokenerChunks.ChunkIndependence | json-c-0.9/json_tokener.c:161-177 | a text that is used up without a decision may be cut anywhere: feeding the rest gives the same state, status, value and unread part as feeding both at once, inside escapes, `\u` digits, words, numbers and keys as well |
| TokenerChunks.ContinueThenRest | json-c-0.9/json_tokener.c:182-628 | when a chunk returns `continue`, the next chunk gives what one call on both would have given |
| TokenerChunks.RunSplits | json-c-0.9/json_tokener.c:188-615 | the run on a text goes through the run on every prefix that does not decide |
| ChunkedParsing.AnyPieces | json-c-0.9/json_tokener.c:182-628 | any number of pieces gives the state, status, value and unread part of one call on the whole text, as long as that call would not have stopped before the last piece |
| ChunkedParsing.PrintedInPieces | json-c-0.9/json_tokener.c:182-628 | the text of every value within the depth limit, cut into any pieces and fed one after the other, is read back as that value |
| Decimal.IntRoundTrip | json-c-0.9/json_object.c:319-323 | for every 32-bit integer, scanning its decimal text gives it back |
| RoundTrip.ReadText | json-c-0.9/json_tokener.c:346-436 | reading the escaped form of any NUL-free string, in a string or a key, collects that string |
| RoundTrip.ReadItems | json-c-0.9/json_tokener.c:497-530 | the printed items of an array are read back one after the other, with the separators the printer writes |
| RoundTrip.ReadMembers | json-c-0.9/json_tokener.c:532-609 | the printed members of an object are read back in order, for distinct keys |
| RoundTrip.ParseValue | json-c-0.9/json_tokener.c:182-628 | at every depth: reading a printed value leads to a finished level holding that value, or to the depth error when the nesting exceeds what is left of the stack |
| RoundTrip.ParsePrint | json-c-0.9/json_object.c:192-227 | parsing what is printed gives success and the same tree in the same member order, with the whole text read, exactly when the non-empty nesting is at most 31, and the depth error otherwise; for every tree whose doubles are written the way the reader takes them |
| TokenerValues.ParsedValues | json-c-0.9/json_tokener.c:102-113 | every value the parser returns has NUL-free strings, distinct keys, doubles written the way the reader takes them, and at most 31 levels of non-empty nesting |
| TokenerValues.Reparse | json-c-0.9/json_tokener.c:102-113 | whatever parses prints, each double with the text it was read from, to a text that parses to the same value |
| TokenerValues.WrittenExactly | json-c-0.9/json_object.c:356-360 | what the writer makes of a tree is read back as what was written if and only if the tree nests at most 31 levels and `%lf` has made of every double a text that is read as a double |
| TokenerValues.InfinityLost | json-c-0.9/json_object.c:356-360 | `1e999` is accepted, but where `%lf` writes it as `inf` the written text is refused |
| GrammarExact.LanguageExact | json-c-0.9/json_tokener.c:182-628 | for every C string, `json_tokener_parse` gives the grammar's verdict: success with its value, or its error; a success is a part of an array or object that was never closed if and only if the grammar finds the text cut inside a comment |
| RfcReading.TextsExactly | json-c-0.9/json_tokener.c:102-113 | for every value of RFC 4627 between any white space: the text is taken and gives what it stands for if and only if no string or name in it holds `\f`, an upper-case hexadecimal digit, `\u0000` or two escapes for one code, each integer fits 32 bits, each number with an upper-case exponent mark has a fraction, the names of an object differ as bytes, and no more than 31 non-empty levels nest |
| RfcReading.EscapeDecodes | json-c-0.9/json_tokener.c:400-437 | for every four lower-case hexadecimal digits: the quoted `\u` escape is read as a string whose bytes decode, as RFC 3629 defines it, to exactly the number of the digits; four zeros give the empty string |
| RfcReading.KnownRead | json-c-0.9/json_tokener.c:346-437 | a string of characters, known escapes and lower-case `\u` escapes is read as their bytes one after the other, up to the first NUL |
| RfcReading.IntegersRead | json-c-0.9/json_tokener.c:464-494 | digits with a minus or without, leading zeros or not, are read as their number saturated to 64 bits and cut to 32, and an upper-case exponent behind them changes nothing |
| RfcReading.WrongInputs | json-c-0.9/json_tokener.c:371-494 | a string with `\f` and one with `\u00E9` are refused, and `1E5` is read as 1 |
| RfcStrings.KeptExactly | json-c-0.9/json_tokener.c:346-437 | what is kept of a string are the bytes it stands for if and only if none of its `\u` escapes is zero and no two of them stand for one code |
| JsonExtensions.WordsInAnyCase | json-c-0.9/json_tokener.c:276-291 | each letter of `null`, `true` and `false` can be a capital |
| JsonExtensions.SingleQuotes | json-c-0.9/json_tokener.c:230-235 | a string can stand in single quotes |
| JsonExtensions.CommaBeforeBracket | json-c-0.9/json_tokener.c:497-530 | an array can have a comma in front of its closing bracket |
| JsonExtensions.WhateverBehind | json-c-0.9/json_tokener.c:269-270 | what stands behind a complete value changes neither its acceptance nor its value |
| JsonExtensions.UnexpectedCharacter | json-c-0.9/json_tokener.c:263-265 | a character that begins no value, white space or comment is reported as unexpected |
| JsonExtensions.ItemSeparator | json-c-0.9/json_tokener.c:519-530 | behind an item anything but a comma, the closing bracket, white space or a slash is the array error |
| JsonExtensions.PairSeparator | json-c-0.9/json_tokener.c:599-610 | behind a member anything but a comma, the closing bracket, white space or a slash is the value-separator error |
| JsonExtensions.NameExpected | json-c-0.9/json_tokener.c:532-544 | a member that does not begin with a quote is the key-name error |
| JsonExtensions.ColonExpected | json-c-0.9/json_tokener.c:571-579 | anything but a colon behind a name is the key-separator error |
| JsonExtensions.WordBroken | json-c-0.9/json_tokener.c:276-291 | a word that goes on with another character is the error of that word |
| JsonExtensions.MinusAlone | json-c-0.9/json_tokener.c:464-494 | a minus with no number behind it is the number error |
| JsonExtensions.StrayCharacters | json-c-0.9/json_tokener.c:293-301 | a backslash in front of a character that is no escape is the string error, and a slash that begins no comment the comment error |
| JsonComments.CommentExactly | json-c-0.9/json_tokener.c:305-344 | a block comment ends at the first star with a slash behind it if and only if an even number of stars stands in front of that star |
| JsonComments.CommentIsBlank | json-c-0.9/json_tokener.c:294-344 | such a comment in front of a text changes neither its acceptance nor its value |
| JsonComments.LineCommentIsBlank | json-c-0.9/json_tokener.c:320-334 | nor does a comment that ends with its line |
| JsonComments.StarsHideTheEnd | json-c-0.9/json_tokener.c:305-344 | the comment in `/***/1` is not ended, and the text is refused |
| JsonComments.InnerExactly | json-c-0.9/json_tokener.c:616-628 | for every text: the call succeeds with containers still open if and only if the grammar finds the text cut inside a comment behind a value, and then that value is what is returned |
| JsonComments.InnerValueReturned | json-c-0.9/json_tokener.c:616-628 | one family of such texts: an array whose first item is followed by a comment that is not ended, whatever the item is |
| JsonComments.TrueReturned | json-c-0.9/json_tokener.c:616-628 | for example `[true/*` gives `true` |
| JsonTokener.JsonTokener.Scan | json-c-0.9/json_tokener.c:305-334 | one batched loop stops at the first character that is not of its kind, or at the end, and has passed exactly the characters in between |
| JsonTokener.JsonTokener.OnBatch | json-c-0.9/json_tokener.c:464-473 | a batch appended in one call leaves the tokener where one step per character would have left it |
| JsonTokener.JsonTokener.EatHex | json-c-0.9/json_tokener.c:400-437 | the loop over `\u` digits, within one visit or cut by the end of a chunk, agrees with the machine |
| JsonTokener.JsonTokener.OnFinish | json-c-0.9/json_tokener.c:269-274 | a finished level hands its value on and is reset |
| JsonTokener.JsonTokener.OnOpen | json-c-0.9/json_tokener.c:497-511 | the first item of an array opens a level, or the depth error is reported at level 31 |
| JsonTokener.JsonTokener.OnAdd | json-c-0.9/json_tokener.c:513-597 | the value in flight is added to the array or, replacing an equal key, to the object |
| JsonTokener.JsonTokener.RedoChar | json-c-0.9/json_tokener.c:190-274 | the chain of non-consuming moves for one character ends and agrees with the machine |
| JsonTokener.JsonTokener.ParseEx | json-c-0.9/json_tokener.c:182-628 | the reader with its batched loops leaves the same state, buffer, status and value as the machine that takes one character per step, for every chunk, and whatever the outcome was it can be called again |
| JsonTokener.JsonTokener.Reset | json-c-0.9/json_tokener.c:80-100 | a reset tokener is a new one |
| JsonTokener.ParseString | json-c-0.9/json_tokener.c:102-113 | `json_tokener_parse` gives the status and the value of the machine on the whole text |
| PrintBuf.PrintBuf.constructor | json-c-0.9/printbuf.c:32-45 | a new buffer is empty, with 32 characters of room |
| PrintBuf.PrintBuf.Append | json-c-0.9/printbuf.c:48-66 | append, through every growth: the text is kept, the position stays below the size and the terminator is in place; a buffer that is too small comes to twice its size, or to eight more than is needed if that is greater |
| PrintBuf.PrintBuf.AppendFast | json-c-0.9/printbuf.h:42-49 | the macro is the same append |
| PrintBuf.PrintBuf.Reset | json-c-0.9/printbuf.c:131-135 | an empty, terminated text in the same buffer |
| PrintBuf.PrintBuf.CopyString | json-c-0.9/json_tokener.c:554 | a copied buffer ends at the first NUL |
| JsonWriter.EscapeStr | json-c-0.9/json_object.c:84-125 | the loop that copies runs of plain characters writes the escape of every character, one after the other |
| RfcWriting.PrintIsJson | json-c-0.9/json_object.c:192-227 | for every value: the printed text is a text of RFC 4627 that stands for the value if and only if its doubles are numbers of the standard with a fraction or an exponent; and then it has one blank behind each opening bracket, comma and colon and in front of each closing bracket, no other white space, lower-case digits, and an escape only where the writer makes one |
| JsonWriter.Write | json-c-0.9/json_object.c:393-400 | the `_to_json_string` functions append exactly the printed form, with every double as `%lf` writes it |
| JsonWriter.WriteItems | json-c-0.9/json_object.c:442-457 | the loop over an array appends its printed form, doubles included |
| JsonWriter.WriteMembers | json-c-0.9/json_object.c:207-227 | the loop over the members appends the object's printed form, in member order, doubles included |
| JsonWriter.PrintNulFree | json-c-0.9/json_object.c:111-119 | a printed value holds no NUL when its doubles' texts hold none, so a C string carries all of it |
| JsonWriter.ToJsonString | json-c-0.9/json_object.c:192-204 | the returned C string is the printed form, doubles as `%lf` writes them, with a new buffer or a reused one |
| Ownership.GetConserves | json-c-0.9/json_object.c:130-136 | taking a reference keeps every count equal to the references held |
| Ownership.PutConserves | json-c-0.9/json_object.c:138-144 | dropping a reference keeps every count equal to the references held, through all deletions it causes |
| Ownership.PutAllConserves | json-c-0.9/json_object.c:229-238 | the same for all references of a deleted container |
| ObjectHeap.ObjectHeap.JsonObjectGet | json-c-0.9/json_object.c:130-136 | the counter in place does what `Ownership.Get` says |
| ObjectHeap.ObjectHeap.JsonObjectPut | json-c-0.9/json_object.c:138-144 | counting down, deleting at zero and putting the children in a loop does what `Ownership.Put` says |
| ParserOwnership.StepOwned | json-c-0.9/json_tokener.c:190-609 | every step keeps it: each count equals the references held by stack levels, parents and the object in flight, and the heap holds the values the machine speaks of, each object once |
| ParserOwnership.RunOwned | json-c-0.9/json_tokener.c:182-628 | so does every run |
| ParserOwnership.ParseOwnership | json-c-0.9/json_tokener.c:80-113 | after `json_tokener_parse`: on success the heap holds exactly the returned tree, each object with one owner and reachable from the result; on an error it is empty |
| LinkHash.LookupEnds | json-c-0.9/linkhash.c:157-170 | a lookup meets a slot where it stops if and only if the key is there or some slot is EMPTY |
| LinkHash.ProbedSlots | json-c-0.9/linkhash.c:130-168 | the slots probed for a key are its hash plus 0, 1, 2 and so on, modulo the size |
| LinkHash.EmptyMeansAbsent | json-c-0.9/linkhash.c:164 | stopping at an EMPTY slot proves the key absent |
| LinkHash.AllFreedStrands | json-c-0.9/linkhash.c:163-168 | a table whose slots are all FREED is consistent and empty, and no lookup on it ends |
| LinkHash.StrandedTable | json-c-0.9/linkhash.c:123-215 | such a table is reached: for any keys with a home slot each, inserting and deleting them one after the other leaves an empty table on which no lookup ends |
| LinkHash.InsertConsistent | json-c-0.9/linkhash.c:130-151 | filling the first EMPTY or FREED slot and linking it at the tail keeps all table invariants and appends one member |
| LinkHash.DeleteConsistent | json-c-0.9/linkhash.c:181-207 | freeing and unlinking a slot, at the head, the tail or in between, keeps all table invariants and removes that member |
| LinkHash.LhTable.constructor | json-c-0.9/linkhash.c:56-76 | a new table is empty, and all its slots are EMPTY |
| LinkHash.LhTable.LookupEntry | json-c-0.9/linkhash.c:157-170 | the slot of the key, or nothing exactly when the key is absent |
| LinkHash.LhTable.Lookup | json-c-0.9/linkhash.c:173-178 | the value listed for the key, or nothing exactly when it is not listed |
| LinkHash.LhTable.Insert | json-c-0.9/linkhash.c:123-154 | one more member at the end; the table doubles exactly when the load rule says so; otherwise only the first free slot changes |
| LinkHash.LhTable.Resize | json-c-0.9/linkhash.c:90-108 | contents and order are kept in a table without FREED slots |
| LinkHash.LhTable.DeleteEntry | json-c-0.9/linkhash.c:181-207 | the slot becomes FREED and its member goes, in every position of the list |
| LinkHash.Unlink | json-c-0.9/linkhash.c:193-205 | the four cases of unlinking leave a list through the remaining slots |
| LinkHash.LhTable.Delete | json-c-0.9/linkhash.c:210-215 | the return code; of a key inserted more than once one member goes, otherwise all that is left are the members without that key |
| LinkHash.LhTable.ObjectAdd | json-c-0.9/json_object.c:263-268 | the member list changes as an ordered map with replace-at-the-end does; add-only use never leaves a FREED slot and always leaves an EMPTY one |
| JsonValue.AddMemberMeans | json-c-0.9/json_object.c:263-268 | adding a member puts it last; a member of that name goes, and the others keep their order |
| LinkHash.AddOnlyHasEmpty | json-c-0.9/linkhash.c:128 | under the load rule a table of at least three slots without FREED ones has an EMPTY one |
| LinkHash.LoadTestExact | json-c-0.9/linkhash.c:128 | for every size an `int` holds, comparing the count with the double `size * 0.66`, rounded to 53 bits, is comparing 100 times the count with 66 times the size |
| LinkHash.ReusesSlot | json-c-0.9/linkhash.c:133-137 | a replacement that does not resize takes exactly the slot it freed |
| ArrayList.RoomExactly | json-c-0.9/arraylist.c:60-73 | after growing, an index is inside the array exactly when it is below twice the old size; the new size is twice the old one, or the index itself when that is more |
| ArrayList.ArrayList.GetIdx | json-c-0.9/arraylist.c:53-58 | the pointer at an index, null behind the end |
| ArrayList.ArrayList.PutIdx | json-c-0.9/arraylist.c:75-83 | replaces or appends behind a gap of null pointers, and frees exactly the pointer it overwrites |
| ArrayList.ArrayList.Add | json-c-0.9/arraylist.c:85-89 | appends, always in bounds, and frees nothing |
| GlobScan.HangsExactly | curl/lib/curl_fnmatch.c:239-272 | for every text behind an opening bracket: the scanner hangs if and only if, behind complete pieces, a run of letters and a `-` are followed by something lower than the run's first character: the end of the pattern, any lower character but `]`, or one behind a backslash |
| GlobScan.StraysExactly | curl/lib/curl_fnmatch.c:239-309 | the scanner leaves the pattern if and only if the pattern ends with `[][`, plain or negated, or a range ends with two backslashes and a proper end that is the last character of the pattern |
| GlobScan.UnfinishedHangs | curl/lib/curl_fnmatch.c:258-272 | `[a-` at the end of a pattern hangs, and so does `[a-*` with anything behind it |
| GlobScan.BracketPairOverruns | curl/lib/curl_fnmatch.c:296-305 | the pattern `[][` reads past its own end, for every string |
| GlobBodies.SetMeansExactly | curl/lib/curl_fnmatch.c:128-310 | for every text behind an opening bracket: the scan accepts a set up to a place if and only if the text is a sequence of pieces that is closed there, and the marks are what the pieces name together: another character itself, an escaped one itself, a literal `]` and what it takes along, a run its letters, a range that goes up everything from the first letter of its run, each class named, and the negation; a `-` is taken back by every later range that goes up |
| GlobMeaning.MatchExact | curl/lib/curl_fnmatch.c:312-414 | for every pattern and string: MATCH if and only if the pattern is well formed and the string can be cut into parts spelled by its elements |
| GlobMeaning.GoneExactly | curl/lib/curl_fnmatch.c:312-414 | for every pattern and string: the search hangs or leaves its arguments if and only if there is no match and some way of matching uses the string up in front of a negated set behind which the pattern is not refused at once, or comes to a set whose scan is lost; it hangs only at a set whose scan hangs |
| GlobMeaning.OverrunExact | curl/lib/curl_fnmatch.c:383-388 | a well-formed pattern never hangs, and reads behind the string if and only if there is no match and some way of matching uses the string up in front of a negated set |
| GlobMeaning.SafeWithoutNegation | curl/lib/curl_fnmatch.c:312-414 | without negated sets and without a set whose scan is lost the matcher returns one of its three codes |
| GlobMeaning.MalformedNeverMatches | curl/lib/curl_fnmatch.c:393-394 | a pattern that cannot be read to its end never gives MATCH |
| GlobMeaning.StarsCollapse | curl/lib/curl_fnmatch.c:324-325 | repeated stars mean what one star means |
| GlobMeaning.OrdinaryMatches | curl/lib/curl_fnmatch.c:397-400 | a pattern without `*`, `?`, `[` and `\` matches its own text and nothing else |
| GlobMeaning.QuestionMatches | curl/lib/curl_fnmatch.c:336-345 | `?` matches the characters from 32 to 126 and fails on the others |
| GlobMeaning.StarMatches | curl/lib/curl_fnmatch.c:323-335 | a star between ordinary texts matches the strings that begin with the one and end with the other, without overlap |
| GlobMeaning.TerminatorInSet | curl/lib/curl_fnmatch.c:356-382 | at the end of the string exactly the negated sets count as found |
| GlobSets.BodyExact | curl/lib/curl_fnmatch.c:128-272 | for every body of ascending runs and single letters, negated or not, the scanner stops at the closing bracket and has marked exactly the body's characters, the provisional `-` removed |
| GlobSets.RangesExact | curl/lib/curl_fnmatch.c:258-267 | with one letter before each `-` the set is the union of the ranges |
| GlobSets.OneRangeMatches | curl/lib/curl_fnmatch.c:258-272 | `[a-b]` for any letter or digit a and any b: it hangs below a, fails when b is of another alphabet, and otherwise matches exactly the characters from a to b |
| GlobSets.UsualExactly | curl/lib/curl_fnmatch.c:210-267 | a set that is one run contains what it is usually read as, the letters and a range from the last of them, if and only if the run names every character between its first and last letter |
| GlobSets.StaleRangeStart | curl/lib/curl_fnmatch.c:210-267 | `[ac-d]` contains `b`, which the usual reading does not, because the range starts at the first letter of the run |
| GlobSets.BodyVerdict | curl/lib/curl_fnmatch.c:128-272 | every body of runs of letters and digits is accepted exactly when all runs ascend; otherwise the scanner hangs exactly when the first run that does not ascend ends below its first letter, refuses it otherwise, and never leaves the pattern |
| GlobSets.DescendingHangs | curl/lib/curl_fnmatch.c:258-272 | a set that begins with a run of letters and digits and a lower letter or digit as the end of its range hangs, whatever follows |
| GlobSets.SecondRangeHangs | curl/lib/curl_fnmatch.c:258-272 | `[a-bd-c]` hangs at its second range |
| GlobSets.NegatedSetFirst | curl/lib/curl_fnmatch.c:383-411 | a pattern that begins with a negated set fails on an empty string exactly when an escape or a set is refused right behind it, hangs exactly when a hanging set is right behind it, and otherwise reads behind the string |
| GlobSets.NegatedSetAtEnd | curl/lib/curl_fnmatch.c:383-388 | `[!a]` on the empty string is the smallest case |
| GlobSets.RefusedBehindTheString | curl/lib/curl_fnmatch.c:383-411 | the empty string: `[!a]\` and `[!a][` fail, `*[!a]\` does not match, `[!a][a-` hangs |
| GlobClasses.ClassesMarked | curl/lib/curl_fnmatch.c:155-164 | the scan of any named classes, one behind the other, marks all of them |
| GlobClasses.ContainedExactly | curl/lib/curl_fnmatch.c:358-379 | which class contains which, as a table, and for every other pair a character in the one and not in the other |
| GlobClasses.UnionExactly | curl/lib/curl_fnmatch.c:358-379 | what is found is the union of the marked classes if and only if the class that is asked for first contains all the others |
| GlobClasses.OneClassExact | curl/lib/curl_fnmatch.c:358-379 | with at most one named class a set contains its characters and the class |
| GlobClasses.FirstAskedExactly | curl/lib/curl_fnmatch.c:362-381 | of the marked classes the one asked for is the first in the order alnum, alpha, digit, xdigit, print, space, upper, lower, blank, graph |
| GlobClasses.SetMatchesExactly | curl/lib/curl_fnmatch.c:356-396 | a set with any body against one character: it matches if and only if a piece marks the character or the first class in that order holds it, or neither when it is negated |
| GlobClasses.SingleMatches | curl/lib/curl_fnmatch.c:166-208 | a set of one character without a meaning of its own, `[.]` or `[[]`, matches that character and no other |
| GlobClasses.EscapedMatches | curl/lib/curl_fnmatch.c:187-200 | so does a set of one escaped printable character |
| GlobClasses.NamedMatches | curl/lib/curl_fnmatch.c:89-125 | a set of one named class matches exactly the characters with the ASCII codes of that class |
| GlobClasses.SecondClassIgnored | curl/lib/curl_fnmatch.c:364-367 | the scan of `[[:digit:][:alpha:]]` marks both classes, and the pattern matches no digit |
| GlobMatcher.ParseKeyword | curl/lib/curl_fnmatch.c:71-125 | the loop accepts exactly the ten class names followed by `:]` |
| GlobMatcher.MarkRange | curl/lib/curl_fnmatch.c:263-265 | the inner loop marks exactly the characters behind the start up to the end |
| GlobMatcher.SetCharset | curl/lib/curl_fnmatch.c:128-310 | where the text is none of those on which the scan is lost, the loop returns its verdict, its set and its position |
| GlobMatcher.ReturnsExactly | curl/lib/curl_fnmatch.c:312-414 | a match, or no way of matching that is lost, is exactly when the search comes back |
| GlobMatcher.Search | curl/lib/curl_fnmatch.c:312-414 | exactly where the search comes back, the loops with their recursion at stars return its code, and never look behind a terminator |
| GlobMatcher.Fnmatch | curl/lib/curl_fnmatch.c:419-427 | a missing argument fails; otherwise MATCH exactly when the relation holds |
| LedProtocol.StepWellFormed | core/src/core_fsm.c:10-74 | only requests and commands ever reach the core, only commands the device, only acknowledgements the applications |
| LedProtocol.CoreCases | core/src/core_fsm.c:18-74 | what one turn of the core adds to each queue, message by message |
| LedProtocol.StepConserves | core/src/core_fsm.c:105-159 | every step of every process keeps both kinds of acknowledgements and the glowings of each session in balance |
| LedProtocol.AckConservation | application/application_handler.c:4-45 | per session and over all, in every reachable world: delivered, waiting and still owed acknowledgements add up to 2 for a request to the core and 1 for each other request |
| LedProtocol.GlowConservation | application/callback_tester.c:7-16 | the device glows once for each request that wants an acknowledgement, and for no other |
| LedProtocol.NoAckLaw | core/src/core_fsm.c:60-74 | a "no ack" request never reaches the device and is acknowledged all the same |
| LedProtocol.CoreNeverTerminates | core/src/core_fsm.c:138 | no reachable state or core message is `ST_TERM` |
| LedProtocol.Progress | application/application_handler.c:25-42 | an application that waits has an answer in its queue, or the core or the device can take a turn |
| LedProtocol.TurnLowersPotential | core/src/core_fsm.c:129-159 | every turn of the core or the device lowers the potential by exactly 1 |
| LedProtocol.Drain | core/src/core_fsm.c:138-158 | without new requests no run has more turns than the potential, it has drained the queues exactly when it has as many, and until then it can go on |
| LedProtocol.BoardAcksAreHonest | application/application_handler.c:30-45 | with board requests only, the answers delivered are never more than the glowings of the device |
| LedProtocol.TooEarlyExactly | application/application_handler.c:4-45 | for every list of requests: some interleaving of making them delivers more answers than the device has glowed if and only if one of them is not addressed to the board and one of them waits for an answer |
| LedProtocol.StaleAck | application/application_handler.c:40-42 | one such run: a request without acknowledgement, then a board request that is answered by the acknowledgement of the first |
| LedRuns.SentExactly | application/application_handler.c:4-45 | in every run each request writes its own message to the core, with its session, state, event and text in numbers, and nothing else is sent |
| LedRuns.SessionBalance | application/application_handler.c:4-45 | for every run from the start that has drained the core and the device, and every session: its answers are two for each request made for it that asks the core and one for each other, and the device has glowed once for each that wants an acknowledgement |
| LedRuns.OneRequest | core/src/core_fsm.c:18-74 | the messages of each of the three requests on its own, from the request to the last acknowledgement |
| LedSystem.System.CoreTurn | core/src/core_fsm.c:138-157 | reading the queue and searching the transition table does what the step relation says |
| LedSystem.System.CoreMain | core/src/core_fsm.c:129-160 | the core's loop runs until its queue is empty and blocks there; it does not end |
| LedSystem.System.InitLed | core/src/core_fsm.c:18-59 | the messages written for each event |
| LedSystem.System.SendAck | core/src/core_fsm.c:60-74 | an acknowledgement, always |
| LedSystem.System.GetMessageStateEvent | core/src/core_fsm.c:105-126 | the oldest message, and its state and event if it is a LED message |
| LedSystem.System.DeviceTurn | application/callback_tester.c:7-16 | the oldest message goes back to the core with its state and event |
| LedSystem.System.Glow | application/application_handler.c:4-26 | the request that each of the three functions writes |
| LedSystem.System.ReceiveAck | application/application_handler.c:25-27 | the oldest message of the application queue |
| Gzip.MoreData | curl/lib/content_encoding.c:199-274 | a verdict stands under extension, and a header that was incomplete ends in the new data |
| Gzip.HeaderSkipped | curl/lib/content_encoding.c:207-273 | every header of the standard is skipped exactly, whatever follows |
| Gzip.SkippedIsHeader | curl/lib/content_encoding.c:207-273 | whatever is skipped is a header of the standard |
| Gzip.AcceptsExactly | curl/lib/content_encoding.c:199-274 | the skipper accepts exactly the streams that begin with a header, and skips exactly that |
| Gzip.RefusesExactly | curl/lib/content_encoding.c:207-223 | a stream is refused if and only if it has ten bytes and does not begin with 31, 139, 8 and flags below 32 |
| Gzip.UnderflowCompletes | curl/lib/content_encoding.c:225-270 | a stream of ten bytes that is called incomplete is the beginning of one that is accepted |
| GzipWriter.CheckGzipHeader | curl/lib/content_encoding.c:199-274 | pointer, remaining length and loops compute that verdict |
| GzipWriter.NextTells | curl/lib/content_encoding.c:330-414 | each call keeps the meaning of the state: what is saved, what has been handed to inflate, and when the call fails |
| GzipWriter.AnyCut | curl/lib/content_encoding.c:317-414 | however a stream is cut, inflate is handed exactly the bytes behind the header, and the transfer fails exactly when there is no header |
| GzipWriter.GzipWriter.Write | curl/lib/content_encoding.c:277-424 | the calls as written, including the pointer that counts from the saved block into the chunk |
| Base64.RoundTrip | curl/lib/base64.c:82-139 | decoding an encoding gives every non-empty byte sequence back |
| Base64.CanonicalExactly | curl/lib/base64.c:43-66 | encoding what was decoded gives a text back if and only if it consists of digits with at most two `=` at its end, in groups of four, and no spare bit is set |
| Base64Texts.DecodesExactly | curl/lib/base64.c:82-139 | for every text: how many bytes are decoded, and each of them as a byte of the number that the alphabet characters of its group of four stand for, `=` as zero and others passed over |
| Base64Texts.WholeGroups | curl/lib/base64.c:98-105 | without `=` only whole groups of four count |
| Base64Texts.PaddingLeftOut | curl/lib/base64.c:98-105 | an encoding whose `=` signs are left out loses the bytes of its last group |
| Base64.EncodePadded | curl/lib/base64.c:216-233 | an encoding ends with one `=` for each byte missing in its last group, and has no other |
| Base64.EncoderBound | curl/lib/base64.c:179 | `n*4/3+4` holds text and terminator, and is used up exactly when n leaves 1 modulo 3 |
| Base64.DocumentedBound | miniweb/http.c:790-793 | `n*4/3+1` holds them exactly when n is a multiple of 3 |
| Base64.TableAt | curl/lib/base64.c:40-41 | the alphabet |
| Base64Codec.DigitsOf | curl/lib/base64.c:209-214 | the four table indices are the base-64 digits of the group's 24-bit number |
| Base64Codec.SignedDigits | miniweb/http.c:810-813 | on signed characters the shifts and masks leave the same digits |
| Base64Codec.CurlEncode | curl/lib/base64.c:158-247 | the terminated encoding of the input, inside the buffer; size 0 stands for a zero-terminated text |
| Base64Codec.MwEncode | miniweb/http.c:794-831 | the same text as the other encoder, in any buffer that holds it |
| Base64Codec.FindDigit | curl/lib/base64.c:48-53 | the search in the table gives the digit's value, or 64 at the table's terminator |
| Base64Codec.DecodeQuantum | curl/lib/base64.c:43-66 | three bytes of the number that four characters shift together |
| Base64Codec.CurlDecode | curl/lib/base64.c:82-139 | the decoded bytes, zero-terminated, in a buffer of their number plus 4, reading only the text |
| Crc32.TableIs | miniweb/crc32.c:19-84 | each of the 256 entries is its index divided by the reflected polynomial for eight bits |
| Crc32.TableStepIs | miniweb/crc32.c:96 | one table-driven step is the division of one byte, bit by bit |
| Crc32.Crc32Update | miniweb/crc32.c:91-97 | the update over a buffer is the division of the whole message |
| Crc32.Append | miniweb/crc32.c:91-97 | updating with a and then b is updating with a + b |
| Crc32.Checksum | miniweb/crc32.c:86-103 | initial value, update and final complement on a register of 32 bits |
| Crc32.WideChecksum | miniweb/crc32.c:86-103 | the same on a register of 64 bits: the checksum, with all the bits above it set |
| Crc32.CheckValue | miniweb/crc32.c:86-103 | the checksum of no bytes is 0, and that of the digits 1 to 9 is CBF43926 |
| Crc32.ZeroInFrontNoticed | miniweb/crc32.c:86-103 | a zero byte put in front of a message changes its checksum |
| Crc32.CarriedOn | miniweb/crc32.c:86-103 | the checksum of a + b is got by undoing the final complement of the checksum of a and going on with b |
| Crc32.OneByteNoticed | miniweb/crc32.c:86-103 | messages that differ in one byte have different checksums |
| CrcBursts.BurstNoticed | miniweb/crc32.c:86-103 | messages of one length that differ only within 32 consecutive bits have different checksums |
| CrcBursts.LongerMissed | miniweb/crc32.c:86-103 | 32 is the limit: two messages that differ within 33 bits have the same checksum |

## Left out

- Doubles: a double is known by the text it was read from, `ScansAsDouble` says whether `sscanf` reads it, and what `%lf` makes of its value is the parameter `fmt`; how the digits of the two texts are related is not modelled.
- The reader accepts what the code accepts, not what RFC 4627 defines; `RfcReading.TextsExactly` says where a text of the standard is not read as what it stands for.
- Integers out of range: `sscanf "%d"` is modelled as glibc does it on a 64-bit machine, saturating to 64 bits and keeping the low 32.
- Characters stand for bytes; the C locale is assumed for `isspace`, `isprint` and the other classes.
- JsonTokener.JsonTokener.Scan: one method serves the five batched loops of the source, and in a block comment the batch and its `*` are appended in two calls.
- ObjectHeap.ObjectHeap.JsonObjectPut: a deleted object leaves the heap before its children are put, not after; with conserved counts nobody can refer to it in between.
- LinkHash.LhTable.LookupEntry: requires the key or an EMPTY slot, because without either the source's loop does not end; slots are numbers where the source has pointers, and the hash is any function.
- LinkHash.LhTable.Delete: requires the same, because it looks the key up.
- LinkHash.LhTable.Insert: a key that is already present is inserted a second time, as in the source, which never checks; `json_object_object_add` deletes it first.
- ArrayList.ArrayList.PutIdx: requires the index to be below twice the size; beyond that the source writes behind its array.
- ArrayList.ArrayList.GetIdx: requires an index that is not negative; the source checks only the upper bound.
- GlobMatcher.SetCharset: requires that the scan neither hangs nor leaves the text, which `GlobScan.HangsExactly` and `GlobScan.StraysExactly` characterise.
- GlobMatcher.Search: requires that the search comes back, which `GlobMeaning.GoneExactly` characterises; behind the end of a string or a pattern the model stops.
- GlobMatcher.Fnmatch: requires the same.
- GzipWriter.GzipWriter.Write: inflate is a consumer that takes all bytes it is given; its errors, the end of the compressed stream and zlib versions that skip the header themselves are not modelled.
- The LED protocol's queues are unbounded and lossless: `IPC_NOWAIT` overflow, the size arithmetic and the queue library are left out; message texts are five names.
- Allocation failure, integer overflow of sizes and counters, key and value destructors beyond their effect on counts, debug output, `REFCOUNT_DEBUG` and file I/O.
- The rest of json-c (type getters, `json_util.c`), of curl, of miniweb and the utility process: input and output, or straight-line code that would add only easy members.
