# FileMaker FMPXMLRESULT importer — a Dafny model

`filemaker.py` reads the XML a FileMaker Pro export writes in the FMPXMLRESULT grammar. The export
has a METADATA section of FIELD elements, then a RESULTSET of ROW elements, each holding COL
elements that each hold DATA elements with a cell's text. The importer turns each row into typed
values. This project models the three pieces of logic under the SAX callbacks and proves what they
promise:

- **`flexitime`**: the lenient time-of-day parser, in module `TimeParser` (`flexitime.dfy`).
  - Its regular expression is written out as an explicit scanner. It tries start positions left to
    right, and two hour digits before one. The minutes, the optional seconds, the optional space
    and the optional `[Ap][Mm]` marker are each taken greedily.
  - The match then becomes hour, minute and second. A lower-cased `pm` adds 12 to an hour below 12.
    An hour above 23 becomes 0. Minutes or seconds of 60 or more are an error, which is where
    `datetime.time` raises.
- **`FMPImporter`**: the field registry and the value coercion.
  - Modules `Coercion` (`coercion.dfy`), `OrderedMaps` (`ordered_map.dfy`) and `Importer`
    (`importer.dfy`).
  - The registry is an insertion-ordered map from field name to `(name, kind, maxrepeat, emptyok)`,
    filled by `add_field`.
  - Coercion dispatches on the declared kind:
    - NUMBER keeps only digits and points and parses the rest as an exact decimal.
    - DATE: the empty text gives `None`; otherwise an abstract `strptime` decides.
    - TIME is `flexitime`, with midnight when nothing matches.
    - Any other kind strips the text at both ends.
  - `format_dict` coerces a row key by key; the first error aborts it. `format_node` zips the
    row's DATA texts against the registered names.
- **`FMPXMLHandler` and `XMLNode`**: the node-stack tree builder, in modules `Handler`
  (`handler.dfy`) and `Nodes` (`nodes.dfy`).
  - A class with a sequence-valued stack of open `XMLNode` objects. Each new node is appended to
    the children of the current top and then pushed.
  - Character data is kept only on ROW, COL and DATA nodes.
  - A FIELD end registers the field. A ROW end hands the row to `import_node` and then drops the row
    from its parent's children.
  - The class invariant says that the open nodes are distinct. It also says that each open node is
    the last child of the node below it: the parent's children are exactly what they were before
    that node was pushed, plus the node. This is why a ROW end restores the parent's children to
    what they were before the ROW started.

Python's `int()` for MAXREPEAT and `unicode.strip()` live in `Coercion` and `Chars` (`chars.dfy`).
`Chars` holds ASCII digits and the Python 2.7 unicode whitespace set. `Wrappers` (`wrappers.dfy`)
holds `Option` and `Result`. Every Python exception the core can raise becomes an `Err` value:
- `KeyError` on a missing attribute or an unregistered field;
- `ValueError` from `int()`, `strptime` or `datetime.time`;
- `IndexError` from popping an empty stack;
- `AttributeError` on `None` when there is no current node.

Four behaviours of the source shape the model:
- The meridiem marker is the character class `[Ap][Mm]` (filemaker.py:226), so only `Am`, `AM`, `pm`
  and `pM` are markers. `"3:30 PM"` matches no marker and stays 3:30
  (`TimeParser.ExampleUpperCasePmIgnored`). `"3:30 am"` matches no marker either; it stays 3:30,
  which is also what a marker would give.
- TIME does not always give a time: `datetime.time` (filemaker.py:235) raises for minutes or seconds
  of 60–99.
- `self.fields[name] = ...` (filemaker.py:54) replaces the definition of a name that is already
  registered, and the name keeps its position.
- `import_node` (filemaker.py:124) only reads the row's `RECORDID` attribute; it does not format the row.

## Model

| member | source | states |
|---|---|---|
| TimeParser.DigitRun | filemaker.py:226 | `\d{1,2}` taken greedily consumes 0, 1 or 2 digits: none exactly when no digit is there, two exactly when two digits are there |
| TimeParser.HoursLength | filemaker.py:226 | the hour group after backtracking: two digits exactly when two digits, a separator and a minute digit fit; one exactly when two do not fit and one does; when nonzero, a separator and a minute digit follow |
| TimeParser.MatchAt | filemaker.py:226 | a match found at position p starts at p and its groups are digit strings |
| TimeParser.MatchAtExists | filemaker.py:226 | a match starts at p iff `digit [.:] digit` occurs at p, or at p+1 after a digit at p |
| TimeParser.MatchAtShape | filemaker.py:226 | every match found satisfies the whole pattern: group lengths, separators, optional seconds, optional space and `[Ap][Mm]` marker |
| TimeParser.MatchAtGreedy | filemaker.py:226 | every part of a match is as long as it can be: one hour digit only when two do not fit, one minute digit only when no digit follows, seconds iff a separator and a digit follow the minutes, one second digit only when no digit follows, a marker iff `[Ap][Mm]` follows directly or after one space |
| TimeParser.Search | filemaker.py:227 | the search result is the match at its start position, and no earlier position matches |
| TimeParser.SearchNoneIff | filemaker.py:227-228 | searching from p finds nothing iff no `digit [.:] digit` occurs at or after p |
| TimeParser.FlexitimeNoneIff | filemaker.py:227-228 | flexitime returns nothing iff no `digit [.:] digit` occurs anywhere in the string |
| TimeParser.FlexitimeWithoutDigits | filemaker.py:226-228 | a text without a digit holds no time |
| TimeParser.SearchIsLeftmost | filemaker.py:227 | whenever the pattern matches somewhere, the search finds a match of the pattern that starts no later |
| TimeParser.AdjustHour | filemaker.py:231-234 | a pm marker adds 12 to an hour below 12; a result above 23 becomes 0; the hour is always below 24 |
| TimeParser.ToTime | filemaker.py:229-235 | a valid time iff minutes < 60 and seconds < 60; missing seconds give 0; the hour is the adjusted one |
| TimeParser.Flexitime | filemaker.py:193-235 | nothing iff the search finds no match; a returned time is a valid time of day |
| TimeParser.RenderRoundTrip | filemaker.py:193-235 | every valid time written as HH:MM:SS parses back to itself |
| TimeParser.ExampleNoon | filemaker.py:196-197 | `12:00:00` gives 12:00:00 |
| TimeParser.ExampleWithSeconds | filemaker.py:198-199 | `12:00:59` gives 12:00:59 |
| TimeParser.ExampleLateEvening | filemaker.py:200-201 | `23:30:59` gives 23:30:59 |
| TimeParser.ExampleSingleDigitHour | filemaker.py:202-203 | `3:30:59` gives 3:30:59 |
| TimeParser.ExampleNoSeconds | filemaker.py:204-205 | `3:30` gives 3:30:00 |
| TimeParser.ExampleAfternoonMarker | filemaker.py:206-207 | `3:30 pm` gives 15:30 |
| TimeParser.ExampleMorningMarker | filemaker.py:208-209 | `3:30 am` gives 3:30 |
| TimeParser.ExampleDotMorning | filemaker.py:210-211 | `3.30 am` gives 3:30 |
| TimeParser.ExampleDotAfternoon | filemaker.py:212-213 | `3.30 pm` gives 15:30 |
| TimeParser.ExampleSingleDigitMinute | filemaker.py:214-215 | `3.3 pm` gives 15:03 |
| TimeParser.ExampleMarkerWithoutSpace | filemaker.py:216-217 | `3.3pm` gives 15:03 |
| TimeParser.ExampleTwentyFourWraps | filemaker.py:218-219 | `24:00` gives 0:00 |
| TimeParser.ExampleEmpty | filemaker.py:220 | the empty string gives nothing |
| TimeParser.ExampleUndefined | filemaker.py:221 | `undefined` gives nothing |
| TimeParser.ExampleNoSeparator | filemaker.py:222 | ` 123` gives nothing |
| TimeParser.ExampleEmbedded | filemaker.py:223-224 | ` 12.50  ` gives 12:50 |
| TimeParser.ExampleUpperCasePmIgnored | filemaker.py:226-232 | `3:30 PM` gives 3:30, because `[Ap]` does not accept `P` |
| TimeParser.ExampleTwelveAmStaysTwelve | filemaker.py:231-234 | `12:00 AM` gives 12:00, because only pm adjusts the hour |
| TimeParser.ExampleMinutesOutOfRange | filemaker.py:229-235 | `3:75` is an error, because `datetime.time` rejects minute 75 |
| Chars.Strip | filemaker.py:120 | the result never begins or ends with whitespace and is no longer than the text |
| Chars.StripIsStrip | filemaker.py:120 | strip removes exactly the leading and trailing whitespace: what remains is a slice with whitespace on both sides and non-whitespace at its ends |
| Chars.StripUnique | filemaker.py:120 | the stripped text is the only slice with that property |
| Chars.StripIdempotent | filemaker.py:120 | stripping twice is stripping once |
| Coercion.DecimalValue | filemaker.py:97-101 | a parsed number is never negative |
| Coercion.KeepNumeric | filemaker.py:97 | the substitution leaves only digits and points, and never lengthens the text |
| Coercion.KeepNumericChar | filemaker.py:97 | one character is kept iff it is a digit or a point, and removed otherwise |
| Coercion.KeepNumericCounts | filemaker.py:97 | every digit and every point of the text is kept |
| Coercion.KeepNumericAppend | filemaker.py:97 | the substitution works character by character: it distributes over concatenation |
| Coercion.KeepNumericOfNumeric | filemaker.py:97 | a text of digits and points is left as it is, so the substitution is idempotent |
| Coercion.ParseDecimalSomeIff | filemaker.py:98-103 | the remainder parses iff it has at least one digit and at most one point |
| Coercion.ParseDecimal | filemaker.py:101 | a text of digits is that integer at scale 0; otherwise the scale is the number of characters after the point, all of them digits |
| Coercion.ParseDecimalPointed | filemaker.py:101 | `I.F` parses to the integer I·10^\|F\| + F at scale \|F\| |
| Coercion.DecimalValueSplit | filemaker.py:101 | that decimal's value is I plus F / 10^\|F\| |
| Coercion.FormatNumberRoundTrip | filemaker.py:95-103 | every decimal written in plain notation reads back as itself |
| Coercion.FormatNumber | filemaker.py:95-103 | there is a number iff the raw text holds a digit and at most one point |
| Coercion.ExampleCurrency | filemaker.py:95-103 | `$1,234.56` gives 1234.56 |
| Coercion.ExampleMinusSignDropped | filemaker.py:97 | `-5` gives 5: the sign is removed with the other characters |
| Coercion.ExampleNoNumber | filemaker.py:98-103 | the empty text, `abc`, `1.2.3` and `.` give nothing |
| Coercion.FormatDate | filemaker.py:105-110 | the empty text gives `None`; otherwise the date strptime yields, or an error where it fails |
| Coercion.FormatTime | filemaker.py:112-114 | raises iff flexitime raises; otherwise a valid time, the one flexitime found when it found one |
| Coercion.FormatText | filemaker.py:116-120 | a text that is the value with exactly its surrounding whitespace removed |
| Coercion.FormatValue | filemaker.py:85-93 | NUMBER gives a number or `None` and never raises; DATE gives a date, `None` or an error; TIME gives a valid time or an error; any other kind gives a text and never raises |
| Coercion.FormatValueNumber | filemaker.py:86-87 | NUMBER never raises, and it gives a number iff the raw text has a digit and at most one point |
| Coercion.FormatValueTime | filemaker.py:90-91 | TIME never gives `None`: it gives a time, and midnight when no `digit [.:] digit` occurs |
| Coercion.FormatValueTimeError | filemaker.py:112-114 | TIME raises iff the leftmost match's minutes or seconds are 60 or more |
| Coercion.FormatValueText | filemaker.py:92-93 | any other kind gives the text stripped at both ends, and never raises; formatting stripped text again changes nothing |
| Coercion.ParseInt | filemaker.py:49 | a blank text raises; an accepted text ends in a digit once stripped, and a negative result needs a leading minus sign |
| Coercion.ParseSigned | filemaker.py:49 | an accepted text begins with a digit or a sign and ends with a digit; a negative result begins with a minus sign |
| Coercion.ParseIntSigned | filemaker.py:49 | `int()` of an optional minus sign and digits is their signed value |
| Coercion.ParseIntSpaceAfterSign | filemaker.py:49 | whitespace between the sign and the digits is skipped: a sign, whitespace and digits give the signed value of the digits |
| Coercion.ParseIntRoundTrip | filemaker.py:49 | `int()` reads back every integer's decimal rendering |
| Coercion.ExampleParseInt | filemaker.py:49 | `" 3 "` gives 3 and `- 3` gives -3; the empty text and `x` raise |
| OrderedMaps.PutProperties | filemaker.py:54 | `d[k] = v` binds k to v and changes no other binding; an existing key keeps its position; a new key goes last |
| OrderedMaps.Put | filemaker.py:54 | k is bound to v, the order is the old order extended by at most one key |
| OrderedMaps.PutEachKeys | filemaker.py:67-75 | putting distinct keys one after another, none failing, gives a valid map with exactly those keys in that order |
| OrderedMaps.PutEachBinding | filemaker.py:67-75 | each key put that way is bound to the value computed for it |
| OrderedMaps.PutEachFirstError | filemaker.py:68-74 | when a key fails and all before it succeed, the result is that key's error |
| OrderedMaps.PutEach | filemaker.py:67-75 | a result means every key's value was computed and every key is bound; an error is the error of one of the keys |
| OrderedMaps.Zip | filemaker.py:82 | `zip` pairs equal positions, as many pairs as the shorter list has |
| OrderedMaps.FromPairs | filemaker.py:82 | the map is valid; every pair's key is bound and no other key is; the last pair's value is the one its key keeps |
| OrderedMaps.FromPairsDistinct | filemaker.py:82 | `OrderedDict(pairs)` with distinct keys keeps their order and binds each key to its value |
| Nodes.XMLNode.constructor | filemaker.py:128-132 | a node has its name and attributes, no text and no children |
| Nodes.Texts | filemaker.py:81 | the texts of the nodes, position by position |
| Nodes.DataTexts | filemaker.py:81 | every text is the text of a child of one of the columns |
| Nodes.DataTextsAppend | filemaker.py:81 | the DATA texts are flattened in document order, column after column |
| Nodes.DataTextsSingle | filemaker.py:81 | one column gives the texts of its DATA children |
| Importer.FieldFromAttributes | filemaker.py:46-54 | NAME, TYPE, MAXREPEAT and EMPTYOK are read in that order, and the first missing one is an error; a MAXREPEAT that `int()` rejects is an error, and a missing EMPTYOK after a valid MAXREPEAT is that KeyError; the empty flag is true iff EMPTYOK is exactly `YES` |
| Importer.FormatField | filemaker.py:69-74 | an unregistered key raises KeyError; a registered one fails iff its value does not coerce, which only DATE and TIME can do, and the error carries the field's name and the raw text |
| Importer.FormatFieldValue | filemaker.py:69-75 | a registered key's cell, when it succeeds, holds exactly the value its field's coercion produced |
| Importer.FormatEntriesStep | filemaker.py:68-75 | one more key extends the row built so far by the key's coerced value, or ends it with that key's error |
| Importer.FormatEntriesErrorPersists | filemaker.py:68-74 | an error part-way through a row is the error of the whole row |
| Importer.FormatEntriesOk | filemaker.py:63-77 | when every key is registered and every value coerces, the result has the same keys in the same order, each bound to its coerced value |
| Importer.FormatEntriesFirstError | filemaker.py:68-74 | otherwise the result is the error of the first failing key in row order; an unregistered key gives `UnknownField` |
| Importer.FormatEntries | filemaker.py:63-77 | a row that comes out has every key of the input |
| Importer.FormatEntriesOutcome | filemaker.py:63-77 | a row that comes out means every value coerced; an error is the error of one of the keys |
| Importer.ZipRow | filemaker.py:81-82 | the row is keyed by the first min(#names, #texts) names in declaration order, each bound to the text at its position |
| Importer.FormatRowOk | filemaker.py:79-83 | a row whose cells all coerce has exactly those keys, each bound to its coerced text |
| Importer.FormatRow | filemaker.py:79-83 | a row that comes out has a key for every name that has a text |
| Importer.FormatRowError | filemaker.py:79-83 | an error is the error of the cell of a name that has a text |
| Importer.ExampleQuantityRow | filemaker.py:79-101 | one NUMBER field `Qty` with the text `42` gives `{Qty: 42}` |
| Importer.ImportNode | filemaker.py:122-124 | a row without a RECORDID attribute raises KeyError |
| Importer.FMPImporter.constructor | filemaker.py:41-43 | the registry is empty; a missing or empty date format means `%Y/%m/%d` |
| Importer.FMPImporter.FieldNames | filemaker.py:60-61 | the registered names, each once, in declaration order |
| Importer.FMPImporter.AddField | filemaker.py:46-54 | on success the definition is stored under its name: a new name goes last and an existing name keeps its position; on an error nothing changes |
| Importer.FormatKeyStep | filemaker.py:68-75 | one turn of the loop, case by case: an unregistered key ends the whole row with KeyError, a value that does not coerce ends it with that field's error, and otherwise the row so far gains the key bound to its coerced value |
| Importer.FMPImporter.FormatDict | filemaker.py:63-77 | the loop computes the key-by-key coercion with first-error abort |
| Importer.FMPImporter.FormatNode | filemaker.py:79-83 | the row is the DATA texts zipped against the registered names, formatted by format_dict |
| Handler.FMPXMLHandler.constructor | filemaker.py:141-143 | the stack is empty; without an importer, a fresh one with an empty registry and the default date format is used |
| Handler.FMPXMLHandler.CurrentNode | filemaker.py:184-190 | the top of the stack, or nothing when the stack is empty |
| Handler.FMPXMLHandler.PushNode | filemaker.py:171-178 | the node is appended to the current node's children and pushed; afterwards every open node is the last child of the one below it; the frame allows only the current node's children to change in the tree |
| Handler.FMPXMLHandler.StartElement | filemaker.py:148-151 | a fresh node with the name and attributes, no text and no children, is appended to the current node's children and pushed; no other node changes |
| Handler.FMPXMLHandler.Characters | filemaker.py:165-169 | the content is appended to the top node's text iff its name is ROW, COL or DATA; the frame allows only that text to change; no node at all is an error |
| Handler.FMPXMLHandler.PopNode | filemaker.py:180-182 | the top node is removed and returned; an empty stack is an error |
| Handler.FMPXMLHandler.EndElement | filemaker.py:153-163 | the top node is popped; FIELD registers the popped node's attributes, or raises their error; ROW hands the row to import_node, raises on a missing RECORDID or a missing parent, and leaves the parent's children exactly as before the ROW started; only that parent's children can change in the tree |
| Handler.FMPXMLHandler.Deliver | filemaker.py:148-169 | one event, on values, does what `Step` computes: the stack of open elements, the field registry, the rows handed over and the exception; the stack itself: a start pushes one new node on top of the same nodes, an end pops the top, character data leaves it alone; in the tree, a start appends a new empty node to the current node's children, an end leaves the parent's children as before a ROW that was handed over and unchanged otherwise, and character data grows the current node's text iff it keeps text; the frame names the one node each event kind may change (the current node's children on a start, its parent's children on an end, its text on character data), so every other node's text and children are unchanged; the tree stays well formed |
| Handler.FMPXMLHandler.DeliverStart | filemaker.py:148-151 | a start event on values and in the tree: the same open nodes with one new empty node pushed on top, which is appended to the current node's children; only those children change |
| Handler.FMPXMLHandler.DeliverEnd | filemaker.py:153-163 | an end event on values and in the tree: the top node popped from the same stack; the parent's children as before a ROW that was handed over, unchanged otherwise; only those children change |
| Handler.FMPXMLHandler.DeliverCharData | filemaker.py:165-169 | character data on values and in the current node's text: the stack is unchanged and only the current node's text can change, growing iff the node keeps text |
| Handler.StartAgrees | filemaker.py:148-151 | pushing a node with the event's name and attributes is what `Step` computes for a start |
| Handler.CharDataAgrees | filemaker.py:165-169 | an error exactly when no node is open is what `Step` computes for character data |
| Handler.EndAgrees | filemaker.py:153-163 | endElement's pop, registration, hand-over and errors are what `Step` computes for an end |
| Handler.FMPXMLHandler.Parse | filemaker.py:238-240 | the events, on values, do what `Replay` computes: delivered in order, the first exception ending the parse with the state it left; the tree stays well formed; a completed parse leaves one open node per unclosed element |
| Handler.ReplayErrorPersists | filemaker.py:238-240 | once a callback raises, later events change nothing |
| Handler.ReplayBalance | filemaker.py:238-240 | a parse without an exception leaves one open element more per start than per end |

## Left out

- `importfile`, `main` and the `xml.sax` parser: these are file I/O and a foreign library. `Handler.FMPXMLHandler.Parse` takes the event sequence the parser would deliver.
- `setDocumentLocator` does nothing in the source.
- `time.strptime`: a library call with platform-specific leniency. It is the parameter `strptime` of type `DateParser`, and only the empty-string case of DATE is specified.
- `float()`: NUMBER results are exact decimals (mantissa and scale), not binary floating point. Python 2 `float()` of the texts that reach it (digits and at most one point) is modelled as exact.
- `print` in `format_dict` and `import_node`: output only. The row handed to `import_node` is recorded in the ghost log `imported`. Its lookup of `RECORDID`, which raises on a row without one, is kept.
- `add_database` and `XMLNode.__repr__`: storage of the DATABASE node and debug formatting. A DATABASE end only pops the node.
- The `name`, `row`, `maxrepeat` and `empty` arguments of `format_value` and the `format_*` methods: the source never uses them, so they are dropped.
- Coercion.ParseInt: models Python 2 `int()` on a `unicode` value as surrounding whitespace, an optional sign, whitespace after the sign, and ASCII digits. Non-ASCII decimal digits, which Python also accepts, are not modelled.
- Handler.FMPXMLHandler.Parse: states the effect of the whole parse on values (`Replay`), that the tree stays well formed, and by its frame that only nodes open at the start or created during the parse change. It does not restate the texts and children built along the way; those are stated one event at a time by `Deliver`, whose contract pins the stack and whose frame names the single node each event may change.
- Handler.FMPXMLHandler.PushNode: requires that the node is not already on the stack. The only caller, `startElement`, always passes a freshly built node.
- `FMPXMLHandler(importer)` with an importer argument that Python finds false: an `FMPImporter` instance is always true, so the model takes an optional importer.
- Exceptions become `Err` results. After an error the model's state is the state at the point where Python would have raised. Nothing models what a caller does with the exception.
- setup.py: packaging only.
