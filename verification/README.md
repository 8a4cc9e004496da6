# webrtc2sip: a verified model of its core

webrtc2sip is a media gateway between WebRTC browsers and SIP networks. This project models
the parts of it whose behaviour depends on more than one step or more than one function, and
proves what they promise:

- **JSON** (`Json*.dfy`): the reader of the click-to-call service is a cursor over a buffer
  with a stack of pointers into the value it builds and with error recovery; two writers print
  values, one compact, one laid out over lines. Reader and writers are classes that change
  their fields step by step (`JsonReader`, `JsonWriter`); each method is tied to a function on
  the document (`JsonLexer`, `JsonGrammar`, `JsonPrint`, `JsonPretty`), and the theorems are
  about those functions: reading undoes writing (`JsonLayout`, `JsonRoundTrip`), integers
  (`JsonNumber`), strings, escapes and UTF-8 (`JsonText`), the order on values (`JsonOrder`).
  Which texts are accepted, as what, and with which error the others are refused is said apart
  from the reader: words in `JsonWords`, the units of strings in `JsonStrings`, and trees of
  tokens in `JsonSyntax`.
- **Calls** (`CallBridge`, `CallCommands`, `CallEngine`, `RefCount`, `CallSessions`, `CallHeap`, `CallWorld`):
  every call is a peer with a left and a right leg. `CallBridge` is the state machine over
  new-call, connected and terminated events, with its invariant over every run; `CallCommands`
  says by the states before and after an event which commands it gives; `CallEngine`
  has the classes whose handlers refine it. `RefCount` models the reference-counted wrappers,
  with deletions that cascade through fields; `CallSessions` the cycle between the two sessions
  of a call; `CallHeap` the statements on wrappers by which a handler builds a call; and
  `CallWorld` runs the statements of all handlers beside the state machine.
- **Click-to-call service** (`StreamTransport`, `HttpFraming`, `C2CService`, `C2CRequests`,
  `AccountStore`, `AccountEffects`, `AccountOwnership`, `ActivationMail`, `C2CStream`): bytes arrive in arbitrary segments, are
  framed into HTTP requests, and a request's JSON content acts on three tables of accounts, SIP
  addresses and callers and may cause a mail. `C2CRequests` says which document asks for which
  request, `AccountEffects` which reply and which rows it comes to, `AccountOwnership` whose
  rows a request changes, `ActivationMail` what becomes of a mailed code. `C2CStream` composes
  all of it, and `ClickToCall` is where an incoming call is looked up in those tables.
- **Mail** (`MailQueue`, `MailRuns`, `SmtpReading`): activation mails wait while there is no
  connection and go out when one comes up; `MailRuns` has what holds over whole runs, and
  `SmtpReading` what a server reads from the bytes of a connection.
- **Media plugins** (`PluginRegistry`): a registry that has to stay in step with a lower one.

Bytes are Dafny characters and byte strings are `string`; a `std::map` is a list of entries in
ascending order of its keys (`JsonValue.Entries`); integers are unbounded, and 64-bit wrap-around
is written out where it matters. `JsonGrammar.Source` holds the document, the reader's settings
and, as a function `scan`, the text-to-double conversion of the C library.

## What the code does that its comments do not say

- `decodeNumber` says that a number too large for an integer becomes a double. Its guard looks
  at the digits before the last one and at the last one separately, so a token whose digits
  before the last exceed the threshold, and whose last digit is small, wraps around: 2^64 + 4
  reads as 4 and -2^63 - 2 as a positive number. `DecodeFaithfulIffGuardHolds` says exactly for
  which tokens the comment holds; every number in range is read exactly. A lone `-` reads as 0.
- The reader takes a comma before a closing brace when the name of the member before it is
  empty (`CommaAfterEmptyName`), and after a member that a comment follows any token does for the
  comma (`Separates`, `MemberGoesOn`). `ReadIff` says exactly which tokens are accepted as a value.
- What the reader returns can be written and read again without any change exactly when each
  integer of signed type is at most 2^31 - 1 (`Rereading`). `LargeIntIff` says exactly which
  tokens yield another one, so the condition can be seen on the text (`RereadingOfText`).
- The macro that fetches JSON fields has a parameter that makes a field optional; it has no
  effect, because the type test that follows refuses null (`NullIsNeverOptional`).
- The framing loop goes on when `nDataSize - nConsumedBytes` is large enough, but both are
  counted from different places, and the difference is unsigned. A third complete request can
  therefore wait for the next data event; `RequestsWaitIff` says exactly when a request waits
  (`AnotherTurnIff`, `ThirdRequestWaits`).
- Lines of a mail that consist of a dot are sent as they are, and a server takes such a line for
  the end of the mail: it reads a mail as a whole exactly when its text has none (`BodyIff`,
  `MessageIsReadIff`).
- A number of a request that does not fit 64 bits with a sign is found out after the token has
  been checked, and ends in an exception rather than in a reply (`HandleIs`).
- A failed send while the mail queue is flushed leaves later mails waiting on a live connection
  (`BacklogIff` says when mails wait on one), and a mail submitted then is sent ahead of them.
  Mails keep the order of their submission all along a run exactly when that never happens
  (`AlwaysInOrderIff`); at the end of a run they are in order exactly when every mail that was
  overtaken has been lost since (`OrderIff`).
- A submission asks for a connection exactly when it is the very first event or the event just
  before was the end of a connection (`DialsIff`). A failed `connectTo` is therefore never
  repeated by later submissions.
- The service is to log in with the first mail of each connection. On a connection that came
  up with nothing to flush every mail logs in again (`LogsInTwice`, `LogsInEveryTime`), and a
  connection that replaces a live one may carry mail without any log-in (`NeverLogsIn`).
  `AuthFirstIff` says exactly which connections make it come out right, and
  `LogInsOfConnection` how often each one logs in: when the first send of a flush fails, with
  every mail that follows on it.
- Assigning to a wrapper releases what it held before it looks at what is to be assigned. A
  wrapper that is the last one on its object loses it by self-assignment (`AssignIff`), is left
  on freed memory by being given the same raw pointer again (`RawSelfDangles`), and any
  statement whose release deletes what the statement still needs goes wrong. `ApplyIff` says
  before a statement whether it is one of these, and `RunIffCareful` says it of whole runs.
- A call's two sessions are freed exactly when one of the two links between them has been cut
  before the peer goes (`FreedIffLinkBroken`); termination of a leg cuts its link.
- The activation mail says that its code is valid for two days only and destroyed afterwards.
  The first half holds over every run (`CodeWorksForTwoDays`), the second does not
  (`LateCodeWorks`). A clean-up comes with the first addition and each hundredth after it
  (`AdditionsAreCounted`), and an account goes exactly when one of these finds it not activated
  and untouched for two days (`GoesIffSwept`, `GoneIffSwept`); its code works exactly until
  then, however late that is (`CodeWorksUntilSwept`).
- Requests name SIP and caller rows by number, and the number is not looked up among the
  account's own. `LeavesOthersIff` says exactly which authorized requests leave the rows of
  other accounts alone, and `OthersRowDeleted` has a run in which one does not.
- A new call that is not refused but has no destination or asks for no media is to be rejected.
  Its session has been handed over by then, and the code calls through a null pointer
  (`NullRejectIff`).
- The comment on `StyledWriter`, taken word by word, puts an array that holds an object over
  several lines. The code keeps it on one line when all its objects and arrays are empty and it
  fits, and so does `JsonPretty.Pretty`; `ReadingsDifferIff` says where the two differ, and
  `EmptyObjectOnOneLine` has the least such value.

## Model

| member | source | states |
|---|---|---|
| JsonOrder.Trichotomy | jsoncpp/jsoncpp.cc:2077-2181 | exactly one of a < b, a == b, b < a holds for any two values without NaN, through every level of nesting |
| JsonOrder.Transitivity | jsoncpp/jsoncpp.cc:2077-2119 | the order is transitive, across types, sizes and the comparison of member maps |
| JsonOrder.EqualIsIdentity | jsoncpp/jsoncpp.cc:2139-2181 | values that compare equal are the same value, so equality agrees with the order |
| JsonOrder.ReflexiveIffNanFree | jsoncpp/jsoncpp.cc:2139-2181 | a value equals itself if and only if no NaN is inside it |
| JsonOrder.CompareSoundness | jsoncpp/jsoncpp.cc:2066-2074 | compare gives 0 exactly for identical values and changes sign when its arguments are swapped |
| JsonOrder.KeyTrichotomy | jsoncpp/jsoncpp.cc:1725-1739 | keys of one kind are totally and strictly ordered, which is what the maps rely on |
| JsonOrder.StrLessIff | jsoncpp/jsoncpp.cc:2093-2098 | a string is the smaller one if and only if it has the smaller byte at the first difference, or ends there |
| JsonOrder.LessIff | jsoncpp/jsoncpp.cc:2077-2119 | which of two values is the smaller: by the order of the types, then by magnitude or text, and for containers by size and then at the first entry in which they differ |
| JsonNumber.UintToString | jsoncpp/jsoncpp.cc:145-171 | for every unsigned 64-bit value the digits and the terminator are put at the end of the buffer, at most 21 characters of its 25, and nothing else in it changes |
| JsonNumber.DecimalFits | jsoncpp/jsoncpp.cc:146-149 | no unsigned 64-bit value has more than 20 digits, so the buffer is never underrun |
| JsonNumber.ValueToString | jsoncpp/jsoncpp.cc:3418-3430 | prints every signed 64-bit value in decimal, the least one included |
| JsonNumber.UnsignedToString | jsoncpp/jsoncpp.cc:3433-3440 | prints every unsigned 64-bit value in decimal |
| JsonNumber.DecodeDigitsMeaning | jsoncpp/jsoncpp.cc:761-784 | what the digit loop yields, in terms of the mathematical value of all the digits, of all but the last, and of the last |
| JsonNumber.DecodeFaithfulIffGuardHolds | jsoncpp/jsoncpp.cc:754-792 | any integer token in [-2^63, 2^64-1] is decoded to its value in canonical type; and the promise that larger ones become doubles holds if and only if the guard does not miss |
| JsonNumber.UnsignedMiss | jsoncpp/jsoncpp.cc:773-786 | every number of a whole family beyond 2^64 slips through the guard and is stored modulo 2^64 |
| JsonNumber.GuardMissExample | jsoncpp/jsoncpp.cc:773-786 | 2^64 + 4 is decoded as the integer 4 |
| JsonNumber.LoneMinusIsZero | jsoncpp/jsoncpp.cc:757-792 | a minus sign without digits is decoded as 0 |
| JsonNumber.NumberRoundTrip | jsoncpp/jsoncpp.cc:742-792 | decodeNumber undoes valueToString for every signed and unsigned 64-bit value |
| JsonText.PayloadOfEncoding | jsoncpp/jsoncpp.cc:99-135 | the payload bits of the one to four bytes written for a code point add up to the code point |
| JsonText.Utf8RoundTripIffScalar | jsoncpp/jsoncpp.cc:99-135 | a decoder after section 3 of RFC 3629 gets the code point back from the bytes, whatever follows them, if and only if it is a scalar value |
| JsonText.Utf8Injective | jsoncpp/jsoncpp.cc:99-135 | no two code points have the same bytes |
| JsonText.DecodedCodePointInRange | jsoncpp/jsoncpp.cc:879-932 | every escape that decodes at all gives a code point of at most 0x10FFFF, hence one to four bytes |
| JsonText.SurrogatePairDecodes | jsoncpp/jsoncpp.cc:879-906 | for every code point from 0x10000 to 0x10FFFF the escape of its two surrogates decodes to it (section 2.2 of RFC 2781) |
| JsonText.BasicEscapeDecodes | jsoncpp/jsoncpp.cc:859-866 | every escape that is not a high surrogate decodes to the bytes of that code point |
| JsonText.Quote | jsoncpp/jsoncpp.cc:3503-3564 | the shortcut for strings with nothing to escape gives what the escaping loop gives |
| JsonText.EscapedBodyReads | jsoncpp/jsoncpp.cc:624-637 | an escaped NUL-free byte string is scanned exactly to its closing quote and decoded to the original bytes, wherever it stands |
| JsonText.QuotedStringReads | jsoncpp/jsoncpp.cc:833-877 | decodeString undoes valueToQuotedString on every NUL-free byte string, at any position of a document |
| JsonStrings.HexValueIff | jsoncpp/jsoncpp.cc:918-929 | a byte is the hexadecimal digit of a value if and only if it stands at that place among the digits, in either case of the letters |
| JsonStrings.SimpleEscapeIff | jsoncpp/jsoncpp.cc:849-857 | the escapes of one letter and the byte that each stands for, and no others |
| JsonStrings.UnitFound | jsoncpp/jsoncpp.cc:837-932 | each step of decoding finds a byte, an escape, a code point or two halves of one, and yields the bytes that it means |
| JsonStrings.UnitRefused | jsoncpp/jsoncpp.cc:845-929 | an escape is refused with the error that tells what is wrong: nothing after the backslash, no such letter, too few digits, a byte that is none, or no second half |
| JsonStrings.DecodedIff | jsoncpp/jsoncpp.cc:833-877 | the body of a string decodes to a text if and only if it is a row of such units that mean that text, in either case of the digits |
| JsonTree.AssignThrough | jsoncpp/jsoncpp.cc:976-980 | assigning through a pointer on the node stack changes that value and nothing else, and the last assignment wins |
| JsonTree.ChildSlot | jsoncpp/jsoncpp.cc:2672-2689 | pushing a pointer to a child that is made on demand: assigning through it is assigning the container with that child replaced |
| JsonTree.EnsureLookup | jsoncpp/jsoncpp.cc:2610-2623 | looking a key up for writing changes nothing when it is there and adds a null otherwise |
| JsonGrammar.Source.ReadValue | jsoncpp/jsoncpp.cc:355-403 | for every document: the cursor never goes back or past the end, and the outcome is success exactly when no error was recorded |
| JsonGrammar.Source.ReadMembers | jsoncpp/jsoncpp.cc:640-696 | the same for the members of an object, on success, error and recovery paths |
| JsonGrammar.Source.ReadItems | jsoncpp/jsoncpp.cc:710-739 | the same for the elements of an array |
| JsonGrammar.Source.Parse | jsoncpp/jsoncpp.cc:311-352 | parsing ends on every byte sequence and succeeds exactly when the error list is empty |
| JsonLexer.NextToken | jsoncpp/jsoncpp.cc:406-421 | skipping comments ends on every input, makes progress unless at the end, and never gives a comment |
| JsonLexer.ReadToken | jsoncpp/jsoncpp.cc:434-506 | every token is a non-empty piece of the document unless the document is over, and a string token holds its two quotes |
| JsonWords.TokenIff | jsoncpp/jsoncpp.cc:434-506 | on any bytes, the next token is of a kind and has an extent if and only if a word of that kind stands there after white space: punctuation, a literal name, a number, a closed string, a comment, or the end |
| JsonWords.ErrorIff | jsoncpp/jsoncpp.cc:499-505 | it is an error if and only if no word stands there |
| JsonWords.StringEnds | jsoncpp/jsoncpp.cc:624-637 | a string ends at the first quote that is not the second of a pair with a backslash |
| JsonWords.NumberWordIs | jsoncpp/jsoncpp.cc:742-792 | a number word is read as a double if and only if it is not an optional minus and digits, whatever the mark; none is refused before the text-to-double conversion |
| JsonSyntax.NumberTokenIs | jsoncpp/jsoncpp.cc:742-819 | a number token says its value where it is an integer in range, and what the text-to-double conversion makes of its very text where it is no integer |
| JsonSyntax.ReadIff | jsoncpp/jsoncpp.cc:355-403 | for every document, position and node: reading succeeds, ends and yields exactly what some proper tree of the tokens there says; so nothing else is accepted, and all of these are |
| JsonSyntax.ValueIsSpelled | jsoncpp/jsoncpp.cc:355-403 | soundness: whatever is read is spelled by the tokens that were read, as the value they denote |
| JsonSyntax.ItemsAreSpelled | jsoncpp/jsoncpp.cc:710-739 | the same for elements: values with commas between them, comments only where they may stand |
| JsonSyntax.MembersAreSpelled | jsoncpp/jsoncpp.cc:640-696 | the same for members: name, colon, value and separator, the last value of a name staying |
| JsonSyntax.TreeIsRead | jsoncpp/jsoncpp.cc:355-403 | completeness: the tokens of any proper tree are read as its value, on any node |
| JsonSyntax.MemberGoesOn | jsoncpp/jsoncpp.cc:676-690 | after a member the loop ends at a brace, goes on at a comma, or at any token if a comment stands before it, and fails otherwise |
| JsonSyntax.AcceptedIff | jsoncpp/jsoncpp.cc:311-352 | a document is accepted with a value if and only if its first tokens spell that value and it suits the root setting |
| JsonSyntax.ParseErrors | jsoncpp/jsoncpp.cc:311-352 | a document that is refused has exactly one error, about a token in it that is none of those asked for by the message, and at most the strict root's besides |
| JsonSyntax.RecoveryIs | jsoncpp/jsoncpp.cc:949-963 | recovery drops the tokens up to the first one of the wanted kind, or the end |
| JsonSyntax.RefusedByte | jsoncpp/jsoncpp.cc:392-393 | a byte that begins no value is refused where a value is due, with one error about it, and the node keeps what it holds |
| JsonSyntax.CommaAfterEmptyName | jsoncpp/jsoncpp.cc:650-651 | an object with a comma before its brace is accepted |
| JsonLayout.LayoutParses | jsoncpp/jsoncpp.cc:311-352 | however the tokens of a value are spaced, parsing yields its canonical form: arrays dense, integers in canonical type; failure only when the strict root setting asks for a container |
| JsonLayout.ValueReads | jsoncpp/jsoncpp.cc:355-403 | the same for a value at any offset, followed by anything: the reader stops right after it |
| JsonLayout.ArrayReads | jsoncpp/jsoncpp.cc:699-739 | a printed array reads back dense, missing indexes as null |
| JsonLayout.ItemsRead | jsoncpp/jsoncpp.cc:710-739 | the loop over elements, from any index and with any elements already read |
| JsonLayout.ObjectReads | jsoncpp/jsoncpp.cc:640-696 | a printed object reads back with the same names and canonical values |
| JsonLayout.MembersRead | jsoncpp/jsoncpp.cc:640-696 | the loop over members, with any members already read |
| JsonReader.Reader.GetNextChar | jsoncpp/jsoncpp.cc:983-989 | gives the byte at the cursor and steps over it; gives 0 and stays at the end |
| JsonReader.Reader.SkipSpaces | jsoncpp/jsoncpp.cc:509-520 | moves to the first byte that is no blank |
| JsonReader.Reader.Match | jsoncpp/jsoncpp.cc:523-535 | succeeds exactly when the pattern stands at the cursor, and moves only then |
| JsonReader.Reader.ReadCStyleComment | jsoncpp/jsoncpp.cc:586-596 | finds the end of a comment or reports that there is none |
| JsonReader.Reader.ReadCppStyleComment | jsoncpp/jsoncpp.cc:599-609 | moves past the end of the line |
| JsonReader.Reader.ReadComment | jsoncpp/jsoncpp.cc:538-549 | tells both kinds of comments from anything else after a slash |
| JsonReader.Reader.ReadNumber | jsoncpp/jsoncpp.cc:612-622 | moves past everything that may stand in a number |
| JsonReader.Reader.ReadString | jsoncpp/jsoncpp.cc:624-637 | moves past the closing quote, escaped quotes aside, or reports that there is none |
| JsonReader.Reader.ReadToken | jsoncpp/jsoncpp.cc:434-506 | reads the token that the reference lexer finds and leaves the cursor at its end |
| JsonReader.Reader.SkipCommentTokens | jsoncpp/jsoncpp.cc:406-421 | reads on past comments if the settings allow comments |
| JsonReader.Reader.AddError | jsoncpp/jsoncpp.cc:935-946 | appends one error and fails |
| JsonReader.Reader.RecoverFromError | jsoncpp/jsoncpp.cc:949-963 | moves past the given kind of token or to the end, and drops no error and adds none |
| JsonReader.Reader.AddErrorAndRecover | jsoncpp/jsoncpp.cc:966-973 | exactly one error more, and the cursor where recovery leaves it |
| JsonReader.Reader.DecodeUnicodeEscapeSequence | jsoncpp/jsoncpp.cc:909-932 | the value of four hexadecimal digits, or one error that says where they stop |
| JsonReader.Reader.DecodeUnicodeCodePoint | jsoncpp/jsoncpp.cc:879-906 | the code point of an escape or of a surrogate pair, or exactly one error |
| JsonReader.Reader.DecodeString | jsoncpp/jsoncpp.cc:833-877 | the decoded bytes of a string token, or exactly one error |
| JsonReader.Reader.DecodeDouble | jsoncpp/jsoncpp.cc:795-819 | assigns the double through the top of the node stack, or records one error and changes no value |
| JsonReader.Reader.InspectNumber | jsoncpp/jsoncpp.cc:745-753 | whether a number token has to be read as a double |
| JsonReader.Reader.AccumulateDigits | jsoncpp/jsoncpp.cc:757-784 | the digit loop: the value it builds, that the number is too big, or that a byte is no digit |
| JsonReader.Reader.DecodeNumber | jsoncpp/jsoncpp.cc:742-792 | stores a number token as integer or double through the top of the node stack, or records one error |
| JsonReader.Reader.ReadValue | jsoncpp/jsoncpp.cc:355-403 | the node stack is the same afterwards on every path; cursor, errors, outcome and the value under construction are those of the grammar, and no other part of the root changes |
| JsonReader.Reader.ReadObject | jsoncpp/jsoncpp.cc:640-696 | the same for objects, recovery included |
| JsonReader.Reader.ReadArray | jsoncpp/jsoncpp.cc:699-739 | the same for arrays |
| JsonReader.Reader.ReadChild | jsoncpp/jsoncpp.cc:713-716 | pushing a child, reading it and popping it replaces just that child in its container |
| JsonReader.Reader.ReadMember | jsoncpp/jsoncpp.cc:662-691 | one turn of the loop over members |
| JsonReader.Reader.Parse | jsoncpp/jsoncpp.cc:311-352 | ends on every document with only the root on the node stack; true exactly when there are no errors; root, errors and cursor are those of the grammar |
| JsonPrint.FlatIsLaid | jsoncpp/jsoncpp.cc:3599-3655 | compact text lays out its tokens one by one, in both separator styles |
| JsonPrint.FlatAt | jsoncpp/jsoncpp.cc:3599-3655 | compact text has each token right after the one before it, with nothing between but a blank after each colon in YAML mode |
| JsonPrint.LayoutJoins | jsoncpp/jsoncpp.cc:3599-3655 | texts that lay out tokens can be put one after the other |
| JsonPrint.IndexWalk | jsoncpp/jsoncpp.cc:2506-2525 | walking a sparse array from 0 to size - 1 meets every entry at its index and null elsewhere |
| JsonPrint.NameWalk | jsoncpp/jsoncpp.cc:2855-2877 | looking the i-th member name up finds the i-th entry |
| JsonPretty.PrettyIsLaid | jsoncpp/json/json.h:1715-1728 | the writer's layout holds exactly the value's tokens, with white space between them |
| JsonPretty.OneLineIff | jsoncpp/jsoncpp.cc:3796-3824 | the three tests that the writer makes, one of them a shortcut, together say whether all elements are single pieces and the line is shorter than the margin |
| JsonPretty.ReadingsDifferIff | jsoncpp/json/json.h:1715-1728 | the code departs from the description, taken word by word, exactly on arrays that fit on a line and hold an empty object but nothing larger |
| JsonPretty.EmptyObjectOnOneLine | jsoncpp/jsoncpp.cc:3796-3824 | an array of one empty object is written on one line, where the description gives three |
| JsonPretty.ObjectLines | jsoncpp/jsoncpp.cc:3705-3738 | an object with something in it takes one line for each entry, in the order of the map, three blanks further in, with commas between, and its brace a line of its own |
| JsonPretty.ArrayLines | jsoncpp/jsoncpp.cc:3743-3793 | an array with something in it takes one line with blanks inside its brackets, or one line for each index, null where there is no entry |
| JsonPretty.PrettySettled | jsoncpp/jsoncpp.cc:3837-3849 | no laid-out value ends in white space, which is why the check of the last character finds the right line breaks |
| JsonWriter.ValueToQuotedString | jsoncpp/jsoncpp.cc:3503-3564 | both the shortcut and the loop give the escaped string in quotes |
| JsonWriter.FastWriter.Write | jsoncpp/jsoncpp.cc:3589-3596 | the text is the value's tokens one after the other and a line end, and it lays out exactly those tokens |
| JsonWriter.FastWriter.WriteValue | jsoncpp/jsoncpp.cc:3599-3655 | appends exactly the value's tokens to the document |
| JsonWriter.FastWriter.WriteItems | jsoncpp/jsoncpp.cc:3622-3634 | appends an array, missing indexes as null |
| JsonWriter.FastWriter.WriteMembers | jsoncpp/jsoncpp.cc:3635-3653 | appends an object in the order of its names |
| JsonWriter.StyledWriter.Write | jsoncpp/jsoncpp.cc:3668-3679 | the text is the writer's layout of the value and a line end, and it lays out exactly the value's tokens |
| JsonWriter.StyledWriter.WriteValue | jsoncpp/jsoncpp.cc:3682-3740 | while child values are collected the document is untouched and exactly one text is collected; otherwise the writer's layout is appended; the indentation is restored |
| JsonWriter.StyledWriter.WriteMembers | jsoncpp/jsoncpp.cc:3708-3737 | an object takes one line a member, one level deeper, and its closing brace is back at the old level |
| JsonWriter.StyledWriter.WriteArrayValue | jsoncpp/jsoncpp.cc:3743-3793 | an array is appended in the writer's layout, on one line or on several |
| JsonWriter.StyledWriter.WriteLines | jsoncpp/jsoncpp.cc:3752-3778 | several lines, whether the elements were printed before or are printed now |
| JsonWriter.StyledWriter.WriteLine | jsoncpp/jsoncpp.cc:3779-3791 | one line made of the texts collected before |
| JsonWriter.StyledWriter.IsMultineArray | jsoncpp/jsoncpp.cc:3796-3824 | decides by the rule of that layout; the document is untouched, and the collected texts are all the elements' or none |
| JsonWriter.StyledWriter.PushValue | jsoncpp/jsoncpp.cc:3827-3834 | a piece goes to the collected texts or to the document, never to both |
| JsonWriter.StyledWriter.WriteIndent | jsoncpp/jsoncpp.cc:3837-3849 | a new line with its indentation unless the line has one already |
| JsonRoundTrip.WriteAndRead | jsoncpp/jsoncpp.cc:3589-3679 | for every value without doubles and null pointers, both writers' texts parse, under all settings and whatever the root held, to the same canonical value, which holds the same data |
| JsonRoundTrip.CanonKeepsMeaning | jsoncpp/jsoncpp.cc:785-790 | the canonical form keeps the mathematical value of every integer and what every index and name yields |
| JsonRoundTrip.ReadValueShaped | jsoncpp/jsoncpp.cc:355-403 | whatever the input, the value read is well formed: arrays dense, names NUL-free and in order, integers within 64 bits |
| JsonRoundTrip.Rereading | jsoncpp/jsoncpp.cc:311-352 | what was read from any input can be written and read again: same data always, the same value if and only if its signed integers are small |
| JsonRoundTrip.LargeIntIff | jsoncpp/jsoncpp.cc:754-792 | a token yields an integer of signed type above 2^31 - 1 if and only if it is a negative integer that the guard misses and whose magnitude is, modulo 2^64, above 2^63 and at most 2^64 - 2^31 |
| JsonRoundTrip.RereadingOfText | jsoncpp/jsoncpp.cc:311-352 | what is read from any document without such a token is read again unchanged |
| JsonRoundTrip.RereadingOfToken | jsoncpp/jsoncpp.cc:311-352 | a document that is one integer token is read again unchanged if and only if it is no such token |
| JsonRoundTrip.LargeIntExample | jsoncpp/jsoncpp.cc:773-786 | -2^63 - 2 is decoded as the positive 2^63 - 2 |
| HttpFraming.FramesOfMore | mp_c2c.cc:762-844 | framing a buffer now and the rest with what follows later gives the framing of the whole |
| HttpFraming.StepStable | mp_c2c.cc:762-844 | a request that is complete stays the same whatever bytes follow |
| HttpFraming.TurnsKeepFrames | mp_c2c.cc:762-898 | one run of the loop, however many turns it makes, hands on the first requests of the buffer in order, none twice, and leaves the others in the buffer |
| HttpFraming.FrontOfBuffer | mp_c2c.cc:762-844 | a header block that ends in its only empty line and parses, with as many bytes after it as it says, is one request with that head and those bytes, whatever follows; with fewer, or without parsing, it is none |
| HttpFraming.NoHeaderBlock | mp_c2c.cc:762-772 | without an empty line in the buffer more bytes are awaited |
| HttpFraming.MessagesAreFramed | mp_c2c.cc:762-844 | messages sent one after the other are framed as those very messages, each with its own head and content, whatever follows them |
| HttpFraming.AnotherTurnIff | mp_c2c.cc:886-891 | after a request, the loop goes on exactly unless what follows is at least as long as what was consumed before that request, by less than 50 bytes |
| HttpFraming.RequestsWaitIff | mp_c2c.cc:762-898 | exactly when a complete request is left for the next data event: a step that ends the loop, by its header block or by its position, has one behind it |
| HttpFraming.FrontIsHandled | mp_c2c.cc:762-898 | a complete request at the front of the buffer is always handed on |
| HttpFraming.ThirdRequestWaits | mp_c2c.cc:886-891 | a family of buffers of three complete requests whose third one is left for the next data event |
| HttpFraming.C2CCallback.ParseBuffer | mp_c2c.cc:762-850 | finds the next request, a head that does not parse, or that more bytes are needed |
| HttpFraming.OneAnswer | mp_c2c.cc:853-884 | a request with the method OPTIONS or POST gets one answer, the only one that suits it, and any other message gets none |
| HttpFraming.EachIsAnsweredOnce | mp_c2c.cc:853-884 | of any sequence of messages, those requests are answered exactly once each and in their order, and nothing else is |
| HttpFraming.OnlyJsonPostsAreHanded | mp_c2c.cc:870-883 | the service is given the contents of the JSON posts that have one, unchanged and in order, and nothing else |
| HttpFraming.C2CCallback.OnData | mp_c2c.cc:741-898 | the loop ends on every buffer, consumes at most what is there, and dispatches each complete request it passes once |
| StreamTransport.ReceiveKeepsFaith | mp_net_transport.cc:309-338 | a data event that does not overflow keeps: dispatched requests followed by those in the buffer are those of the whole stream |
| StreamTransport.RunIsFaithful | mp_net_transport.cc:309-338 | the same after every sequence of segments that never overflows |
| StreamTransport.SegmentationIndependence | mp_net_transport.cc:309-338 | two ways of cutting the same stream dispatch prefixes of the same requests, one of them a prefix of the other; all of them exactly when no complete request waits in the buffer |
| StreamTransport.ShortStreamsFit | mp_net_transport.cc:318-323 | a stream of at most 65535 bytes fits however it is cut |
| StreamTransport.LongSegmentsDoNotFit | mp_net_transport.cc:318-323 | a longer segment never does |
| StreamTransport.NetTransport.IsConnected | mp_net_transport.cc:159-163 | a socket is connected exactly when it is in the table |
| StreamTransport.NetTransport.GetPeerByFd | mp_net_transport.cc:181-193 | finds a peer exactly when there is one |
| StreamTransport.NetTransport.InsertPeer | mp_net_transport.cc:195-202 | a peer that is there already stays |
| StreamTransport.NetTransport.RemovePeer | mp_net_transport.cc:204-213 | that peer goes, the others stay |
| StreamTransport.NetTransport.OnClosed | mp_net_transport.cc:228-243 | the peer is marked and goes; no other peer changes |
| StreamTransport.NetTransport.OnConnected | mp_net_transport.cc:244-307 | an allowed connection gets a fresh peer with an empty buffer, a refused one gets none |
| StreamTransport.NetTransport.OnData | mp_net_transport.cc:309-339 | only this peer's buffer changes; on overflow it is emptied and nothing is dispatched |
| StreamTransport.NetTransport.HandleData | mp_net_transport.cc:318-338 | keeps the peer's buffer faithful to its stream |
| StreamTransport.NetTransport.OnEvent | mp_net_transport.cc:221-345 | every event keeps the table's invariant, with each connected peer faithful to its stream |
| MailQueue.MailOrder | mp_mail.cc:102-135 | over every run, whatever fails: each mail is sent, lost or waiting as often as it was submitted; while nothing failed, those sent followed by those waiting are those submitted, in order |
| MailQueue.Overtaking | mp_mail.cc:238-253 | a run in which, after one failed send, a later mail is sent while an earlier one waits |
| MailRuns.FlushIs | mp_mail.cc:238-253 | flushing sends the mails from the front up to the first failure, loses that one, leaves the rest in order, and has a log-in in the first mail at most |
| MailRuns.TrackTells | mp_mail.cc:102-135 | over every run the positions of submission that are sent, lost and waiting are all of them, each once, and tell which mail is where |
| MailRuns.InvertedIff | mp_mail.cc:102-135 | over every run one mail stands behind a later one exactly when the later one was submitted and sent while it waited, and has not been lost |
| MailRuns.OrderIff | mp_mail.cc:102-135 | at the end of a run the mails sent and then those waiting are in the order of submission if and only if every mail that was ever overtaken has been lost |
| MailRuns.AlwaysInOrderIff | mp_mail.cc:102-135 | they are in that order all along a run if and only if no submission is sent at once while others wait on the live connection |
| MailRuns.BacklogIff | mp_mail.cc:238-253 | mails wait on a live connection if and only if its flush failed with mails left and it has not ended or been replaced since |
| MailRuns.DialsIff | mp_mail.cc:118-131 | a submission asks for a connection if and only if it is the first event of all or follows the end of a connection directly |
| MailRuns.NeverDialsAgain | mp_mail.cc:118-131 | while a connection is being set up, submissions only queue and never ask for another |
| MailRuns.AuthFirstIff | mp_mail.cc:238-291 | over every run, whatever fails, the log-in is in the first mail of each connection and in no other if and only if each connection came up with the flag set and its flush sends a mail or one mail at most is sent later, or carries none |
| MailRuns.LogInsOfConnection | mp_mail.cc:238-291 | over every run each connection carries what its flush sends and what is sent later, and logs in never if the flag was not set, once if the flush sends a mail, and otherwise with every mail it carries |
| MailRuns.LogsInOnce | mp_mail.cc:238-291 | in particular it is if connections come up only on request |
| MailRuns.LogsInTwice | mp_mail.cc:185-193 | a connection that came up by itself logs in with both its mails |
| MailRuns.NeverLogsIn | mp_mail.cc:276-291 | a connection that replaces a live one carries its mail without any log-in |
| MailRuns.LogsInEveryTime | mp_mail.cc:185-193 | on a connection that had nothing to flush every mail logs in again, however many there are |
| MailRuns.OnlineIff | mp_mail.cc:118 | over every run a socket is up if and only if it went up and has not gone down since |
| SmtpReading.BodyIff | mp_mail.cc:219-222 | a server reads the text of a mail as a whole, up to the final dot, if and only if no line of it is a dot |
| SmtpReading.MessageIsReadIff | mp_mail.cc:179-222 | a server that reads the bytes of a message by the commands in them gets the log-in exactly when it was asked for, and the sender, the recipient, the subject and the header addresses of that mail; and its text if and only if no line of it is a dot |
| SmtpReading.ConnectionIsRead | mp_mail.cc:179-253 | from the bytes of a whole connection it reads the mails that were sent on it, in order, each with its log-in or without |
| SmtpReading.ActivationMailArrives | mp_c2c.cc:639-660 | so a reader of an activation mail finds the code and the password in what the server read |
| MailQueue.SizeIsExact | mp_mail.cc:154-167 | the size worked out beforehand is the length of the message, with and without log-in |
| MailQueue.FillBuffer | mp_mail.cc:179-222 | copies the whole message into a buffer of that size, piece by piece, and never beyond it |
| MailQueue.CopyHello | mp_mail.cc:181-193 | the greeting and, if needed, the log-in |
| MailQueue.CopyEnvelope | mp_mail.cc:195-203 | sender and recipient |
| MailQueue.CopyHeaders | mp_mail.cc:205-217 | the header lines |
| MailQueue.MailTransport.SendNow | mp_mail.cc:137-236 | sends exactly the message on the live socket, in a buffer that grows when needed |
| MailQueue.MailTransport.SendPendingMails | mp_mail.cc:238-253 | sends from the front until the queue is empty or a send fails |
| MailQueue.MailTransport.SendMail | mp_mail.cc:102-135 | refuses a mail without recipient or content, queues while there is no connection and dials at most once, sends at once otherwise |
| MailQueue.MailTransport.OnConnectionStateChanged | mp_mail.cc:276-291 | flushes when the connection comes up, asks for a log-in again when it goes |
| RefCount.ReleaseFrees | mp_object.h:119-130 | letting go of a wrapper frees exactly the objects that are held by it alone or by fields of such objects, a set that can be told beforehand |
| RefCount.ApplyIff | mp_object.h:93-161 | a statement has its effect without touching freed memory if and only if what it needs outlives its release, which can be told beforehand |
| RefCount.StatementKeeps | mp_object.h:93-161 | such a statement keeps each count equal to the number of live wrappers and every wrapper on a live object, deletions that cascade through fields included |
| RefCount.RunKeeps | mp_object.h:93-161 | over every sequence of such constructions, copies, assignments and destructions: the same, and nothing is freed twice or comes back |
| RefCount.RunIffCareful | mp_object.h:93-161 | every other sequence touches freed memory |
| RefCount.DropRefKeeps | mp_object.h:119-130 | releasing frees the object exactly when it was the last reference, and leaves all other wrappers in place |
| RefCount.LinkKeeps | mp_object.h:137-147 | wrapping and taking a reference keeps the counts |
| RefCount.DestroySlotKeeps | mp_object.h:104-108 | destroying a wrapper removes it and keeps the counts |
| RefCount.AssignIff | mp_object.h:156-161 | an assignment between any two wrappers, fields or not, has its effect if and only if the release deletes the owner of neither and it is not the self-assignment of the last wrapper |
| RefCount.RawSelfDangles | mp_object.h:149-154 | giving the last wrapper of an object that object again, as a raw pointer, leaves the wrapper on freed memory |
| RefCount.Memory.TakeRef | mp_object.h:111-117 | wraps an object and counts it |
| RefCount.Memory.ReleaseRef | mp_object.h:119-130 | uncounts an object and deletes it at zero |
| RefCount.Memory.Delete | mp_object.h:119-130 | deletes an object, its fields' wrappers first |
| RefCount.Memory.DestroyWrapper | mp_object.h:104-108 | the destructor of a wrapper |
| RefCount.Memory.NewObject | mp_object.cc:23-26 | a new object has no references and null wrappers as fields |
| RefCount.Memory.ConstructWrapper | mp_object.h:93-96 | a wrapper made from an object counts as one reference |
| RefCount.Memory.CopyWrapper | mp_object.h:98-102 | a copied wrapper counts as one reference more |
| RefCount.Memory.AssignObject | mp_object.h:149-154 | the assignment of an object to a wrapper, release first; in every state it says whether freed memory would be touched, and stops there |
| RefCount.Memory.AssignWrapper | mp_object.h:156-161 | the same for the assignment of a wrapper |
| CallSessions.LeftTerminates | mp_session_av.cc:64-68 | termination of the left leg, reported once or again, cuts its link and nothing else of the call, with or without a callback |
| CallSessions.RightTerminates | mp_session_av.cc:64-68 | the same for the right leg |
| CallSessions.FreedIffLinkBroken | mp_engine.cc:727-736 | removing the peer frees peer and both sessions, once, unless both links are still there; then both sessions stay |
| CallSessions.OnlyACycleSurvives | mp_engine.cc:727-736 | a session outlives its peer only if the other one does and holds it |
| CallSessions.Leak | mp_engine.cc:727-736 | with both links in place the two sessions stay, each with one reference, unreachable |
| CallSessions.CallbackFreed | mp_session_av.cc:54-61 | the callback that a connected session has installed is freed with the session |
| CallSessions.NoLeak | mp_session_av.cc:42-70 | in whatever order and however often the legs are reported, once one has been, removing the peer frees everything, each object once |
| CallHeap.AdmitMakesCall | mp_wrap.cc:393-472 | from any memory in order, the statements for a new call, its local wrappers gone at the end, leave the call with both links and nothing else new |
| CallWorld.StepTracks | mp_wrap.cc:559-674 | the statements on wrappers of any event touch no freed memory and leave each stored call, its links and callbacks as the state machine has them |
| CallWorld.RunTracks | mp_wrap.cc:266-674 | so do those of every run |
| CallWorld.LiveIffStored | mp_wrap.cc:266-674 | after every run an object is live if and only if it is the peer, a session or a callback of a call in the table |
| CallWorld.FreedForGood | mp_engine.cc:727-736 | what a run has freed is never live again, over every continuation |
| CallBridge.BridgeInvariant | mp_wrap.cc:559-674 | after every run: each peer is keyed by its own id, has an active leg, a leg whose opposite terminated was sent a hangup, and a left leg connects only after its right leg |
| CallBridge.StepKeeps | mp_wrap.cc:559-674 | one event keeps this |
| CallCommands.CommandsIff | mp_wrap.cc:559-674 | over every run, by the states before and after an event: media is attached exactly when a leg of a stored call connects and then both are connected; the left leg is accepted exactly when its right leg connects before it is; a leg is hung up exactly when the other one terminates while it is active, with the same code; new calls are called out or rejected; none twice, and nothing else |
| CallCommands.LegsChange | mp_wrap.cc:570-668 | an event changes only the leg that it names: its state, last code, codecs and link |
| CallCommands.NewCallEnters | mp_wrap.cc:393-472 | a call that is let in comes with both legs connecting, each the other's opposite, under a number of its own |
| CallBridge.RemovedIff | mp_wrap.cc:570-626 | a peer leaves the table exactly at the event that terminates its last active leg |
| CallBridge.GoneForever | mp_engine.cc:727-736 | a peer that has left never comes back, over every continuation |
| CallBridge.NothingHeldWhenRemoved | mp_wrap.cc:585-619 | when a peer is removed both its sessions have terminated and hold each other no longer |
| CallBridge.RightIsOfferedLeftCodecs | mp_wrap.cc:431-436 | with the media coder off, after every run the right leg of a stored call may use exactly what its new-call event first negotiated on the left, whatever was negotiated there later |
| CallBridge.AnswerOffersRightCodecs | mp_wrap.cc:643-659 | with the media coder off, in every run the left leg is accepted with exactly the codecs negotiated on the right, part of those first negotiated on the left |
| CallBridge.CodecsNarrow | mp_wrap.cc:627-668 | whatever an accepted left leg is offered in a run is part of what was first negotiated there |
| CallBridge.NullRejectIff | mp_wrap.cc:385-484 | over every run the code calls reject through a null pointer exactly for the new calls that are not refused and have no destination or ask for no media |
| CallBridge.SideIsOwner | mp_engine.cc:699-716 | looking a session up finds its own peer and the right side |
| CallEngine.SipSessionAV.SetState | mp_session_av.cc:42-70 | sets the state, drops the opposite session on termination only, and has its RTCP callback installed from the first time it connects with the media coder off |
| CallEngine.MPPeer.SetSessionLeftState | mp_peer.h:60-65 | peer and session change state together |
| CallEngine.MPPeer.SetSessionRightState | mp_peer.h:66-71 | peer and session change state together |
| CallEngine.MPPeer.Terminate | mp_wrap.cc:591-616 | marks the leg, hangs up every leg that is still active, and says whether the call is over |
| CallEngine.MPPeer.Connect | mp_wrap.cc:639-665 | marks the leg, accepts the left one when the right one connects first, attaches the media when both are up (`CallCommands.CommandsIff`) |
| CallEngine.MakePeer | mp_wrap.cc:393-472 | the new peer with two linked sessions, both connecting |
| CallEngine.Engine.GetPeerBySessionId | mp_engine.cc:699-716 | finds the first peer with that session on that side |
| CallEngine.Engine.InsertPeer | mp_engine.cc:718-725 | adds this peer and changes no other |
| CallEngine.Engine.RemovePeer | mp_engine.cc:727-736 | removes this peer and changes no other |
| CallEngine.Engine.OnDialogTerminated | mp_wrap.cc:570-626 | the handler over objects does what the state machine does |
| CallEngine.Engine.OnDialogConnected | mp_wrap.cc:627-668 | the handler over objects does what the state machine does |
| CallEngine.Engine.OnInvite | mp_wrap.cc:266-498 | the handler over objects does what the state machine does |
| AccountStore.ServeIsSafe | mp_c2c.cc:235-619 | every request, whatever statements fail, keeps ids and emails unique, keeps activated accounts as they are, and keeps SIP addresses with activated accounts |
| AccountStore.ActivatedForever | mp_c2c.cc:235-619 | once activated, an account stays, activated and with the same id, email, password, token and code, over every continuation of every run |
| AccountStore.SipsAlwaysBelong | mp_c2c.cc:307-354 | after every run each SIP address belongs to an activated account, with no help from cascading deletion |
| AccountStore.KilledIff | db/mp_db.cc:65 | an account is removed exactly when it is old and was never activated |
| AccountStore.AddIsSafe | mp_c2c.cc:571-619 | adding or renaming an account, with its clean-up, touches no activated account's identity |
| AccountStore.SafeUpdate | db/sqlite/mp_db_sqlite.cc:90-127 | an update that keeps id and email, and an activated account's identity, is safe |
| AccountEffects.AuthorizedIff | mp_c2c.cc:322-340 | 404 exactly when no row with the email can be found, 403 exactly when there is one but none that is activated and has the token, and otherwise the account that has both |
| AccountEffects.TokenRequestIs | mp_c2c.cc:307-565 | each request with a token: refused with nothing changed, failed with 603 and nothing changed, or done with 200 and exactly its rows added, with each field as given, or removed |
| AccountEffects.ActivationIs | mp_c2c.cc:425-447 | by email and code, in any case of the letters: which reply, and that nothing changes but that account's activation and time |
| AccountEffects.AdditionIs | mp_c2c.cc:571-619 | after the clean-up the account that has the email is renamed, or a row with these very fields is new; 603 exactly when the table cannot be written or the email is taken unseen |
| AccountEffects.VerificationIs | mp_c2c.cc:288-301 | handing a captcha on stores nothing and is answered with 202 |
| Common.EqualsIgnoringCaseIff | mp_c2c.cc:433 | texts count as equal if and only if they agree byte by byte or have the two forms of one ASCII letter |
| AccountStore.Retry | db/sqlite/mp_db_sqlite.cc:530-546 | tries at most five times, goes on only while busy, and returns the last outcome |
| ActivationMail.MailedIff | mp_c2c.cc:571-619 | one mail goes out for every account added or renamed and none otherwise; it tells the code and the password that the tables then hold for its recipient |
| ActivationMail.TextTells | mp_c2c.cc:639-654 | the text of the mail holds that very code and that very password, each between quotes at a known place |
| ActivationMail.GoesIffSwept | mp_c2c.cc:583-587 | one request, whatever fails: an account goes if and only if the request is a clean-up that finds it not activated and too old; otherwise its row keeps email, code and secrets |
| ActivationMail.NeverReturns | mp_c2c.cc:571-619 | no request brings an account back that is gone |
| ActivationMail.AdditionsAreCounted | mp_c2c.cc:583-587 | the counter that decides which additions are clean-ups is the number of additions so far, failed ones included |
| ActivationMail.GoneIffSwept | mp_c2c.cc:235-619 | over every run an account is gone if and only if a clean-up has taken it, and until then its row says what it said |
| ActivationMail.CodeWorksUntilSwept | mp_c2c.cc:425-447 | over every run a mailed code activates the account the mail spoke of if and only if no clean-up has taken that account, however late; until then no other code does |
| ActivationMail.CodeWorksForTwoDays | mp_c2c.cc:639-654 | so for two days it works, whatever else is requested or fails |
| ActivationMail.LateCodeWorks | mp_c2c.cc:639-654 | twenty days after the first addition its code is still accepted, against what the mail says |
| AccountOwnership.LeavesOthersIff | mp_c2c.cc:307-565 | an authorized request leaves the rows of all other accounts alone if and only if what it names by number is the account's own |
| AccountOwnership.NothingWithoutToken | mp_c2c.cc:322-340 | a request without the token of an activated account, or one that fails, changes nothing |
| AccountOwnership.OthersRowDeleted | mp_c2c.cc:493-530 | a run at whose end one account's SIP row is deleted with another account's token |
| C2CService.NullIsNeverOptional | mp_c2c.cc:249-264 | fields declared optional are required all the same |
| C2CService.HandleIsSafe | mp_c2c.cc:235-569 | any content, well formed or not, is safe for the accounts |
| C2CService.CaptchaGuards | mp_c2c.cc:288-301 | where captchas are asked for, no content whatever adds an account or sends a mail |
| C2CService.DecodeInCanon | mp_c2c.cc:276-569 | what a request asks for does not depend on the type of its integers or on sparse arrays |
| C2CService.WrittenRequestIsServed | mp_c2c.cc:267-274 | a request written by either writer is handled as the value it was written from |
| C2CRequests.DecodeIff | mp_c2c.cc:249-565 | a document is decoded as a request if and only if the fields of that request, by their documented names, say its parts: all eight requests, both captcha settings, every number within 64 bits |
| C2CRequests.HandleIs | mp_c2c.cc:235-569 | what any document comes to: the request that it asks for is served; if only its number is too large it is refused as its account is, or throws; anything else gets 483, and what cannot be read 420 |
| C2CRequests.EmptyIsRefused | mp_c2c.cc:239-243 | an empty content gets 603 |
| C2CRequests.DocumentIsServed | mp_c2c.cc:267-565 | a request written with those names, in any layout, decodes to that very request, and its bytes are handled as it is served |
| C2CRequests.AddedAccountIsThere | mp_c2c.cc:279-305 | so the bytes of a request to add an account leave a row with its email and its name, and cause the mail that tells that row's code and password, exactly when the tables can be written |
| C2CService.C2CTransport.SelectAccountByEmail | db/sqlite/mp_db_sqlite.cc:265-303 | the account with that email, if the statement succeeds |
| C2CService.C2CTransport.UpdateAccount | db/sqlite/mp_db_sqlite.cc:89-127 | replaces the row with that id, or fails and changes nothing |
| C2CService.C2CTransport.SendActivationMail | mp_c2c.cc:621-661 | hands one mail on if there is a mail transport |
| C2CService.C2CTransport.AddAccountAndSendActivationMail | mp_c2c.cc:571-619 | clean-up every so often, then rename or add, and the mail for it |
| C2CService.C2CTransport.OnValidationEvent | mp_c2c.cc:715-726 | only a favourable verdict adds the account, and sends its mail |
| C2CService.C2CTransport.ActivateByCode | mp_c2c.cc:425-447 | activates on the right code only |
| C2CService.C2CTransport.CheckAccount | mp_c2c.cc:322-340 | the account must exist, be activated and match the token, in that order |
| C2CService.C2CTransport.ServeRequest | mp_c2c.cc:279-565 | each action on the tables and its result code |
| C2CService.C2CTransport.HandleJsonContent | mp_c2c.cc:235-569 | parsing, decoding and serving one content, with every refusal and the mail it causes |
| ClickToCall.AdmittedIff | mp_wrap.cc:295-371 | whichever look-ups work, a click-to-call is admitted if and only if the tables hold an activated account under that email and a SIP row of it, the first with the address asked for or else its first, that can be read and has somebody set up to call; and then it is admitted for these two |
| ClickToCall.AdmittedIsOwn | mp_wrap.cc:309-335 | an admitted one is for an activated account with that email and for an address of its own, the one asked for if it is there |
| ClickToCall.TargetedIs | mp_wrap.cc:336-371 | for an account and the SIP row that the request leads to: 483 exactly when the address cannot be read, 404 when nobody is set up to call, else the first stored caller of that row before a configured one |
| ClickToCall.RefusalIs | mp_wrap.cc:301-335 | 500 without a database, 404 without an account, 403 for one that is not activated, 404 without an address |
| ClickToCall.AddressesHaveOrigin | mp_c2c.cc:307-354 | over every run each stored SIP address was sent by a request that carried the email and the token of the account it belongs to now |
| ClickToCall.OnlyRegisteredAddressesAreCalled | mp_wrap.cc:266-470 | so over every run a click-to-call goes out only to an address registered with the account's token; a refused one gets its answer and no peer |
| C2CStream.ServedInOrder | mp_net_transport.cc:221-345 | over every run of the sockets, with any number of peers, however their bytes are cut and mixed: tables, replies and mails are those of the JSON posts served in the order handed on, and each peer's come in the order of its stream |
| C2CStream.RepliesAre | mp_c2c.cc:741-898 | each content has its reply, in order, up to the first one that ends in an exception; after that nothing is served |
| C2CStream.OpenIff | mp_net_transport.cc:228-307 | over every run a peer is connected if and only if it was let in and has not been closed since |
| C2CStream.OverflowForgets | mp_net_transport.cc:318-323 | where a buffer would exceed its limit it starts anew, empty, nothing is served, and no other peer changes |
| C2CStream.ConnectsAfresh | mp_net_transport.cc:244-307 | a new peer starts with nothing buffered, and one that is there stays as it is |
| C2CStream.StepKeepsOrder | mp_net_transport.cc:309-338 | one event keeps this |
| C2CStream.AnyBytesAreSafe | mp_c2c.cc:235-619 | no bytes whatever, from any peers, endanger an activated account or leave a SIP address without one |
| C2CStream.DeliveryIsServed | mp_c2c.cc:741-898 | what one peer's stream comes to is what its handled requests call for, one after the other |
| C2CStream.CutsAgree | mp_net_transport.cc:309-338 | however a stream is cut, the service ends up as serving all its frames in order would leave it, once none waits in the buffer; before that, one cut is only behind the other |
| C2CStream.MessagesAreServed | mp_c2c.cc:741-898 | a peer that sends messages, cut as they may be, has its JSON posts served one after the other, each with its own content, once none waits in the buffer |
| PluginRegistry.PluginsInStep | mp_proxyplugin_mgr.cc:145-222 | after every run a plugin is valid exactly while it is registered, and what is registered exists below with the same kind |
| PluginRegistry.LowerIff | mp_proxyplugin_mgr.cc:145-222 | over every run a plugin is in the lower registry under a kind if and only if the creation that its id counts was of that kind and it was not destroyed after that |
| PluginRegistry.StartedIff | mp_proxyplugin.h:48-54 | over every run it is started if and only if the last event that started or stopped it while it existed below started it |
| PluginRegistry.AttachedIff | mp_wrap.cc:59-143 | over every run a consumer is attached to the producer of the last event that attached it to one that was there, audio to audio and video to video |
| PluginRegistry.StepKeeps | mp_proxyplugin_mgr.cc:145-222 | one event keeps this |
| PluginRegistry.PushesIffAlive | mp_proxyplugin_consumer_audio.cc:83-89 | in every run a consumer pushes to its producer if and only if that one still exists below and is started; it never pushes to a destroyed one |
| PluginRegistry.MPProxyPluginMgr.OnPluginCreated | mp_proxyplugin_mgr.cc:145-196 | registers a valid plugin if it exists below with that kind |
| PluginRegistry.MPProxyPluginMgr.OnPluginDestroyed | mp_proxyplugin_mgr.h:59-66 | takes the plugin out and makes it invalid |
| PluginRegistry.MPProxyPluginMgr.CreatePlugin | tinywrap/ProxyConsumer.cxx:164-182 | a new plugin comes up in both registries |
| PluginRegistry.MPProxyPluginMgr.DestroyPlugin | tinywrap/ProxyConsumer.cxx:184-207 | a destroyed plugin leaves both registries |
| PluginRegistry.MPProxyPluginMgr.ConsumeCallback | mp_proxyplugin_consumer_audio.cc:83-89 | pushes only to a valid producer |

## Left out

JSON

- Comments are read over, but not collected into values or written, and line ends are not normalised (jsoncpp/jsoncpp.cc:538-583, 3875-3930).
- The text of doubles: reading one is the parameter `scan`, and the round trips are for values without doubles and null string pointers.
- The texts of error messages are the constructors of `JsonText.Message`; line and column reports, and the reset of the error list to its old size during recovery, which never changes anything because reading a token records no error.
- Sizes are unbounded: the difference of two map sizes and the index of an array are not cut to 32 bits, nor is three times an array's size.
- The negation of the least signed 64-bit value overflows in C++, where the outcome is undefined; the model wraps it around.
- The `Value*` pointers on the node stack are paths into the tree (`JsonTree`), since the tree is a value; the reader's loops are split into methods such as `ReadMember` and `ReadComma`.
- StyledStreamWriter, BatchAllocator, Path and the internal-map variants.

Calls

- CallBridge.BridgeInvariant: assumes what the SIP stack promises (`StackKeepsPromise`): sessions of a new call are new, a left leg connects only after it was accepted, and what the right leg negotiates is part of what it was offered.
- CallEngine.Engine.OnInvite: takes the verdict on a click-to-call request from the event; `ClickToCall.Admit` is the verdict, and `ClickToCall.Invite` the event. What a call through a null pointer does is undefined; the model records it as the command `RejectThroughNull` and goes on. A caller without a media manager counts as one without a destination.
- The properties of the SIP messages (routes, addresses, credentials), DTMF and other mid-call events, RTCP forwarding.
- Peer ids are unbounded numbers.
- CallWorld.StepTracks: a null wrapper passed as a parameter is modelled as the raw null it holds, and the temporaries of the look-up and of the removal share the one wrapper that the handler has on the peer; `bypass` stands for the encoder's and the decoder's setting alike.
- Threads: each handler is one step, and the mutexes are not modelled.

Click-to-call service

- Requests with chunked transfer coding: the length that was parsed is not recorded there (mp_c2c.cc:806-812).
- HttpFraming.C2CCallback.OnData: the header parser is a parameter; the answers are recorded as actions, their text and sending are not modelled.
- StreamTransport.RunIsFaithful: for streams that never overflow the buffer; on overflow the buffer is emptied, and framing starts anew with what comes next (`NetTransport.OnData` states this case).
- StreamTransport.NetTransport.OnClosed: leaves out the state-change callback, which does nothing in this service (mp_c2c.cc:900-903).
- StreamTransport.NetTransport.OnConnected: leaves out the same; the look-up of the allowed host is a parameter; memory for the buffer never runs out.
- ActivationMail.MailedIff: a mail is handed to the mail queue here, and `MailRuns` says what becomes of it there; base64 is a parameter.
- C2CStream.ServedInOrder: composes the functions that the classes are proved against; an exception that leaves a handler ends the service. Verdicts on captchas are not among its events.
- How a captcha is validated is a parameter, and its verdict an event; MD5, base64, random texts and the clock are parameters or left out.
- AccountStore.SipsAlwaysBelong: for SIP addresses; caller rows take their SIP id straight from the request (mp_c2c.cc:398-407).
- AccountStore.ServeIsSafe: a statement that fails leaves its table as it was, and which statements fail is a parameter; cascading deletions are not enforced, as SQLite does not enforce them unless asked to.
- AccountStore.Retry: stands for both loops that wait for a busy database; the sleeping time is its local variable.
- C2CService.C2CTransport: the tables are kept on values, with one method for each statement whose effect the proofs need; the select statements for SIP and caller rows, which only shape answers here, are left out (`ClickToCall` has those that a call makes).

Mail

- MailQueue.MailOrder: a mail counts as sent when the socket takes all of it; what the SMTP host makes of it is not part of this model.
- MailQueue.MailTransport.SendNow: running out of memory is one of the failed attempts.
- The SMTP host's answers, which the code ignores.

Plugins

- PluginRegistry.MPProxyPluginMgr: plugins are addressed by id where the code follows pointers; preparing, pausing, resampling and picture formats are left out.

Passing values on (tinywrap), configuration, engine settings and the web site are left out: they add no property that spans functions.
