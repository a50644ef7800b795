# Metadata squeezer, modelled and verified in Dafny

`Squeezer` reads an HTML document as a stream of byte chunks. It keeps only
what a link preview needs: the `<title>` text, the meta description, the Open
Graph title and description, and the declared character set. It is a
forward-only tokenizer of about forty states (`State`). `feed` moves it one
byte at a time and fires four event handlers on what it recognises:

- `_dispatch_content` for text;
- `_start_tag` for a tag name;
- `_dispatch_attr` for an attribute;
- `_finish_tag` for `>`.

Two versions of the class are modelled:

- **title_squeezer.py**, the complete one. It collapses whitespace (the
  extra state `contentspace`), keeps the first `<title>`, the first charset
  and the first description, and reads the Open Graph fields.
- **squeeze.py**, an earlier version. It copies text verbatim, lets later
  `<title>` and `<meta>` elements overwrite earlier ones, and reports the
  head flag as `enough`.

Each version has three modules:

- **\*Machine** (`TitleSqueezerMachine`, `SqueezeMachine`) is the state
  machine as pure functions of a record holding every field of the object:
  - `Step` is one iteration of the loop in `feed`, and `Run` is the whole
    loop;
  - each handler is a function of the record;
  - `Report` is the `Title` that `feed` returns.
- **TitleSqueezer / Squeeze** hold the class `Squeezer`. Its fields are
  updated in place, byte by byte, by methods shaped like the source's
  branches. Each method is proved to leave the fields equal to the
  corresponding machine function of the old fields. `Feed` is a `while` loop
  whose invariant ties the remaining bytes to `Run`.
- **\*Lemmas** hold what the source promises, proved about the machine.

The other modules:

- `Bytes`: the byte helpers `_isspace`, `bytes.lower`, `bytes.strip` and
  `bytes.split`.
- `Names`: the byte-string constants.
- `Tokenizer`: the state type shared by both versions, and the unrolled
  `</script>` and `</style>` chains.
- `LiteralMatch`: a reference matcher for the literals `-->`, `</script>`
  and `</style>`.
- `HttpEquiv`: the charsets that a `Content-Type` content declares.
- `Variants`: the two versions side by side.

title_squeezer.py has one fault. When `_start_tag` sees a tag that
lower-cases to `/title` while `title` is still `None`, it raises
`AttributeError`. The `_log` argument `self.title.decode(...)` is evaluated
even with debugging off. A document as plain as `<title></title>` raises
this way. The model makes the fault an explicit outcome:

- `Step` and `Run` return `Outcome(m, raised)`;
- `Squeezer.Feed` returns `AttributeError`, with the fields as they stood
  when the exception left `_start_tag`.

The codec lookup `b'A'.decode(charset)` is a parameter `known: bytes -> bool`,
given to the constructor as `knownCodec`.

## Model

| member | source | states |
|---|---|---|
| Bytes.Lower | title_squeezer.py:496-501 | lower-casing keeps the length and lower-cases each byte, ASCII letters only |
| Bytes.LowerOrNone | title_squeezer.py:496-501 | `_lower` keeps `None` and lower-cases a present value byte by byte, keeping its length |
| Bytes.LowerKeepsLowerCase | title_squeezer.py:496-501 | a helper for the literal tag and attribute names: a byte string without upper-case ASCII letters is its own lower case |
| Bytes.SpaceIsStripped | title_squeezer.py:492-494 | `_isspace` accepts exactly tab, line feed, form feed, carriage return and space; `bytes.strip` removes each of them, and vertical tab is the one byte it removes besides |
| Bytes.Strip | title_squeezer.py:581 | the result is a slice of the input with only ASCII whitespace (VT included, as `bytes.strip` has it) before and after it, and it neither starts nor ends with whitespace |
| Bytes.TrimLeft | title_squeezer.py:581 | the result is a suffix of the input, and every byte dropped is whitespace |
| Bytes.TrimRight | title_squeezer.py:581 | the result is a prefix of the input, and every byte dropped is whitespace |
| Bytes.StripIdempotent | title_squeezer.py:581 | stripping twice is stripping once |
| Bytes.Split | title_squeezer.py:552 | `bytes.split(sep)` gives at least one piece, no piece contains `sep`, and joining the pieces with `sep` gives the input back |
| Bytes.SplitJoin | title_squeezer.py:552 | splitting a join of separator-free pieces gives the pieces back |
| Bytes.IndexOf | title_squeezer.py:554 | the index found holds the first occurrence of the byte |
| Bytes.SplitOnce | title_squeezer.py:554-555 | `split(b'=', 1)` gives two parts exactly when `=` occurs; the first part has no `=`, and the parts joined by `=` are the input |
| Bytes.SplitOnceJoin | title_squeezer.py:554 | `split(b'=', 1)` of `key=value` with no `=` in the key gives the key and the value back |
| HttpEquiv.PieceDecl | title_squeezer.py:554-559 | one `;`-piece declares at most one name; a piece without `=` declares nothing, and a declared name is non-empty |
| HttpEquiv.PieceDeclOf | title_squeezer.py:554-559 | a piece `key=value` with no `=` in the key declares the stripped value exactly when the stripped key lower-cases to `charset` and the stripped value is non-empty, and declares nothing otherwise |
| HttpEquiv.CharsetDecls | title_squeezer.py:552-559 | the pieces declare no more names than there are pieces, and no declared name is empty |
| HttpEquiv.DeclsAppend | title_squeezer.py:552-553 | the names declared by two consecutive lists of pieces are those of the first list followed by those of the second, in order |
| HttpEquiv.DeclsMembers | title_squeezer.py:553-559 | a name is declared if and only if some piece declares it |
| HttpEquiv.EmptyContentDeclaresNothing | title_squeezer.py:550-552 | an empty content would declare no charset, so skipping it (`if content:`) loses nothing |
| HttpEquiv.KnownOnly | title_squeezer.py:583-587 | a name is kept if and only if it is declared and accepted by the codec lookup, and no more names are kept than declared |
| HttpEquiv.KnownAppend | title_squeezer.py:553 | filtering by the codec lookup distributes over concatenation |
| LiteralMatch.Scan | title_squeezer.py:381-482 | the reference matcher never holds the whole literal while it reads bytes that do not complete it |
| LiteralMatch.ScanSuffix | title_squeezer.py:381-482 | what the matcher holds after a run of bytes is a suffix of the lower-cased bytes read |
| LiteralMatch.CompleteIsLiteral | title_squeezer.py:381-482 | when the matcher completes, the lower-cased input ends with the literal |
| Tokenizer.ScriptNext | title_squeezer.py:395-432 | the script chain stays in the script states and never reaches a tag-name or attribute state |
| Tokenizer.StyleNext | title_squeezer.py:442-474 | the style chain stays in the style states and never reaches a tag-name or attribute state |
| TitleSqueezerMachine.Init | title_squeezer.py:102-118 | a fresh squeezer is valid, in `content`, with the default charset as effective charset |
| TitleSqueezerMachine.DispatchContent | title_squeezer.py:503-508 | inside `<title>` the title becomes the old title, or nothing, followed by the content; outside it nothing changes; only `title` ever changes, and a captured title only grows |
| TitleSqueezerMachine.StartTag | title_squeezer.py:510-524 | an empty tag changes nothing; it raises if and only if the tag lower-cases to `/title` while `title` is `None`; a non-empty tag resets the attribute map; besides that only `inside_title` and `head_done` change; capture starts only on `title` while no title exists; `head_done` is never cleared and is set only by `/head` or `body` |
| TitleSqueezerMachine.DispatchAttr | title_squeezer.py:526-537 | the map gains the lower-cased name with the value, keeps every other key, and nothing else changes; the assertion `tag == self.lasttag` is the precondition |
| TitleSqueezerMachine.SetCharset | title_squeezer.py:578-588 | an absent or empty value changes nothing; otherwise `charset` is the stripped name, and `eff_charset` becomes it exactly when it names a codec |
| TitleSqueezerMachine.ApplyPiece | title_squeezer.py:554-559 | a piece changes only the two charset fields, and the effective charset only to a known codec |
| TitleSqueezerMachine.ApplyContentType | title_squeezer.py:552-559 | the pieces change only the two charset fields, and the effective charset only to a known codec |
| TitleSqueezerMachine.CharsetFromMeta | title_squeezer.py:545-559 | the charset part of `_finish_tag` changes only the two charset fields, and the effective charset only to a known codec |
| TitleSqueezerMachine.FillFields | title_squeezer.py:560-574 | each of description, `og_title` and `og_description` that is still `None` takes the `content` attribute when `name` or `property` lower-cases to its key and `content` is present; a field already set, or one whose key is not given, keeps its value; no other field changes |
| TitleSqueezerMachine.ExtractMeta | title_squeezer.py:544-574 | the tokenizer fields, title and flags are kept; while no charset is known both charset fields become those of the charset part, and once one is known both are kept; the effective charset changes only to a known codec; the description and Open Graph fields are those `FillFields` gives |
| TitleSqueezerMachine.FinishTag | title_squeezer.py:539-576 | an empty tag changes nothing; otherwise the attribute map is cleared; a tag other than `meta` changes nothing else; the tokenizer fields, title and flags are kept; a charset already set is kept, and the effective charset changes only to a known codec; description, `og_title` and `og_description` are kept once set |
| TitleSqueezerMachine.StepContent | title_squeezer.py:127-149 | `<` begins a tag; whitespace in `content` dispatches one space and moves to `contentspace`, and further whitespace in `contentspace` changes nothing; any other byte is dispatched as text and returns to `content`; the machine stays valid and the effective charset unchanged |
| TitleSqueezerMachine.StepTag | title_squeezer.py:151-166 | after `<`, whitespace dispatches `&lt;` and that byte as text and returns to `content`; `<` dispatches `&lt;` and stays in `tag`; `>` dispatches `&lt;&gt;` and returns to `content`; `!` and `/` move to `tagbang` and `tagslash`; any other byte starts the tag name; the machine stays valid and the effective charset unchanged |
| TitleSqueezerMachine.StepPrefixed | title_squeezer.py:326-379 | after `</`, `<!` or `<!-`, a `<` dispatches `&lt;` and the prefix as text and begins a new tag in `tag`; `-` after `<!` and `<!-` moves to `tagbangdash` and `comment`; a byte that is no whitespace, `<` or `>` starts a tag name beginning with the prefix; the machine stays valid, and the effective charset changes only to a known codec |
| TitleSqueezerMachine.CloseTag | title_squeezer.py:176-184 | closing a tag after its name keeps the machine valid, and changes the effective charset only to a known codec |
| TitleSqueezerMachine.StepTagName | title_squeezer.py:168-188 | `tagname` keeps the machine valid, and changes the effective charset only to a known codec |
| TitleSqueezerMachine.StepTagNameSlash | title_squeezer.py:190-207 | `tagnameslash` keeps the machine valid, and changes the effective charset only to a known codec |
| TitleSqueezerMachine.StepAttrName | title_squeezer.py:209-235 | whitespace records the pending name without a value and starts a new one; `<` records it and begins a new tag; `/` moves to `attrnameslash` and `=` starts an empty value in `attrvalue`; a byte that ends no name is appended to the name; the machine stays valid, and the effective charset changes only to a known codec |
| TitleSqueezerMachine.StepAttrNameCloses | title_squeezer.py:220-228 | `>` in `attrname` records the pending name without a value, finishes the tag and enters `script`, `style` or `content` by the tag name |
| TitleSqueezerMachine.StepAttrNameSlash | title_squeezer.py:237-260 | whitespace records the name with the `/` appended, without a value, and stays in `attrnameslash`; `<` records the name and begins a new tag; a further `/` appends one `/` to the name and `=` starts an empty value in `attrvalue`; a byte that ends no name is appended and returns to `attrname`; the machine stays valid, and the effective charset changes only to a known codec |
| TitleSqueezerMachine.StepAttrNameSlashCloses | title_squeezer.py:249-252 | `>` in `attrnameslash` records the pending name without a value, finishes the tag and returns to `content`, even after `script` or `style` |
| TitleSqueezerMachine.StepAttrValue | title_squeezer.py:262-288 | whitespace records the name with the pending value and returns to `attrname`; `<` records them and begins a new tag; `/` moves to `attrvalueslash` and `"` to `attrquote`; a byte that is no delimiter and no `"` is appended to the value; the machine stays valid, and the effective charset changes only to a known codec |
| TitleSqueezerMachine.StepAttrValueCloses | title_squeezer.py:274-282 | `>` in `attrvalue` records the name with the pending value, finishes the tag and enters `script`, `style` or `content` by the tag name |
| TitleSqueezerMachine.StepAttrQuote | title_squeezer.py:290-294 | `attrquote` keeps the machine valid and the effective charset unchanged |
| TitleSqueezerMachine.StepAttrValueSlash | title_squeezer.py:296-324 | whitespace records the name with the value and a `/` appended, and returns to `attrname`; `<` records the value without the `/` and begins a new tag; a further `/` appends one `/` to the value and `"` moves to `attrquote`; a byte that is no delimiter and no `"` is appended and returns to `attrvalue`; the machine stays valid, and the effective charset changes only to a known codec |
| TitleSqueezerMachine.StepAttrValueSlashCloses | title_squeezer.py:309-317 | `>` in `attrvalueslash` records the name with the value without the `/`, finishes the tag and enters `script`, `style` or `content` by the tag name |
| TitleSqueezerMachine.StepComment | title_squeezer.py:381-393 | the comment states keep the machine valid and the effective charset unchanged |
| TitleSqueezerMachine.CloseRawText | title_squeezer.py:433-440 | the synthesised `/script` or `/style` tag changes only the tag fields and returns to content |
| TitleSqueezerMachine.StepScript | title_squeezer.py:395-440 | the script states keep the machine valid, and change the effective charset only to a known codec |
| TitleSqueezerMachine.StepStyle | title_squeezer.py:442-482 | the style states keep the machine valid, and change the effective charset only to a known codec |
| TitleSqueezerMachine.Step | title_squeezer.py:125-482 | every byte in every state keeps the machine valid, so the assertions of `_dispatch_attr` and `_finish_tag` hold, and the effective charset only ever becomes a known codec |
| TitleSqueezerMachine.Run | title_squeezer.py:123-125 | the whole loop keeps the machine valid, and the effective charset only ever becomes a known codec |
| TitleSqueezerMachine.Report | title_squeezer.py:484-490 | `enough` is `_is_enough()`; the title is `og_title` when present and non-empty, else `title`, and the same for the description; the charsets are passed on |
| TitleSqueezer.Squeezer.constructor | title_squeezer.py:102-118 | the fields are those of a fresh machine |
| TitleSqueezer.Squeezer.IsEnough | title_squeezer.py:590-595 | `_is_enough()` is `IsEnough` of the fields |
| TitleSqueezer.Squeezer.DispatchContent | title_squeezer.py:503-508 | the fields become `DispatchContent` of the old fields |
| TitleSqueezer.Squeezer.StartTag | title_squeezer.py:510-524 | the fields and the raised flag are `StartTag` of the old fields |
| TitleSqueezer.Squeezer.DispatchAttr | title_squeezer.py:526-537 | the fields become `DispatchAttr` of the old fields, with the map updated in place |
| TitleSqueezer.Squeezer.SetCharset | title_squeezer.py:578-588 | the fields become `SetCharset` of the old fields |
| TitleSqueezer.Squeezer.ApplyPiece | title_squeezer.py:554-559 | the fields become `ApplyPiece` of the old fields |
| TitleSqueezer.Squeezer.ApplyContentType | title_squeezer.py:552-559 | the loop over the pieces leaves the fields at `ApplyContentType` of the old fields |
| TitleSqueezer.Squeezer.CharsetFromMeta | title_squeezer.py:545-559 | the fields become `CharsetFromMeta` of the old fields |
| TitleSqueezer.Squeezer.ExtractMeta | title_squeezer.py:544-574 | the fields become `ExtractMeta` of the old fields |
| TitleSqueezer.Squeezer.FillFields | title_squeezer.py:560-574 | the fields become `FillFields` of the old fields |
| TitleSqueezer.Squeezer.FinishTag | title_squeezer.py:539-576 | the fields become `FinishTag` of the old fields |
| TitleSqueezer.Squeezer.ConsumeContent | title_squeezer.py:127-149 | one byte in `content` or `contentspace` leaves the fields at `StepContent` of the old fields |
| TitleSqueezer.Squeezer.ConsumeTag | title_squeezer.py:151-166 | one byte in `tag` leaves the fields at `StepTag` of the old fields |
| TitleSqueezer.Squeezer.ConsumePrefixed | title_squeezer.py:326-379 | one byte after `</`, `<!` or `<!-` leaves the fields at `StepPrefixed` of the old fields |
| TitleSqueezer.Squeezer.ConsumeTagName | title_squeezer.py:168-188 | one byte in `tagname` leaves the fields and the raised flag at `StepTagName` of the old fields |
| TitleSqueezer.Squeezer.EnterAfterTag | title_squeezer.py:179-184 | only the state changes, to `script`, `style` or `content` by the lower-cased tag name |
| TitleSqueezer.Squeezer.ConsumeTagNameSlash | title_squeezer.py:190-207 | one byte in `tagnameslash` leaves the fields and the raised flag at `StepTagNameSlash` of the old fields |
| TitleSqueezer.Squeezer.ConsumeAttrName | title_squeezer.py:209-235 | one byte in `attrname` leaves the fields at `StepAttrName` of the old fields |
| TitleSqueezer.Squeezer.ConsumeAttrNameSlash | title_squeezer.py:237-260 | one byte in `attrnameslash` leaves the fields at `StepAttrNameSlash` of the old fields |
| TitleSqueezer.Squeezer.ConsumeAttrValue | title_squeezer.py:262-288 | one byte in `attrvalue` leaves the fields at `StepAttrValue` of the old fields |
| TitleSqueezer.Squeezer.ConsumeAttrQuote | title_squeezer.py:290-294 | one byte in `attrquote` leaves the fields at `StepAttrQuote` of the old fields |
| TitleSqueezer.Squeezer.ConsumeAttrValueSlash | title_squeezer.py:296-324 | one byte in `attrvalueslash` leaves the fields at `StepAttrValueSlash` of the old fields |
| TitleSqueezer.Squeezer.ConsumeComment | title_squeezer.py:381-393 | one byte in a comment state leaves the fields at `StepComment` of the old fields |
| TitleSqueezer.Squeezer.CloseRawText | title_squeezer.py:433-440 | the synthesised closing tag leaves the fields at `CloseRawText` of the old fields |
| TitleSqueezer.Squeezer.ConsumeScript | title_squeezer.py:395-440 | one byte in a script state leaves the fields at `StepScript` of the old fields |
| TitleSqueezer.Squeezer.ConsumeStyle | title_squeezer.py:442-482 | one byte in a style state leaves the fields at `StepStyle` of the old fields |
| TitleSqueezer.Squeezer.Consume | title_squeezer.py:124-482 | one iteration of the loop leaves the fields and the raised flag at `Step` of the old fields |
| TitleSqueezer.Squeezer.Feed | title_squeezer.py:123-490 | `feed(data)` leaves the fields at `Run` of the old fields over `data`; it returns `AttributeError` exactly when the run raises, and otherwise `Report` of the new fields |
| TitleSqueezerLemmas.RunConcat | title_squeezer.py:123-125 | feeding `a` and then `b` is feeding `a + b`, the first chunk's exception included |
| TitleSqueezerLemmas.WhitespaceRunCollapses | title_squeezer.py:127-149 | a whitespace run in content adds exactly one space to the title while inside `<title>`, and nothing after whitespace or outside the title; it ends in `contentspace` and changes nothing else |
| TitleSqueezerLemmas.ContentSpaceDropsWhitespace | title_squeezer.py:139-149 | in `contentspace` further whitespace changes nothing at all |
| TitleSqueezerLemmas.TextRunVerbatim | title_squeezer.py:127-149 | a run of bytes that are neither whitespace nor `<` is dispatched byte for byte: inside `<title>` the title gains exactly this run, outside nothing but the state changes, and the run ends in `content` |
| TitleSqueezerLemmas.DispatchContentAppend | title_squeezer.py:503-508 | dispatching `a` and then `b` is dispatching `a + b` |
| TitleSqueezerLemmas.QuotedValueVerbatim | title_squeezer.py:290-294 | between quotes every byte but `"`, including `<`, `>` and whitespace, is appended to the pending value and nothing else changes |
| TitleSqueezerLemmas.QuotedValueEnds | title_squeezer.py:285-294 | the closing `"` returns to `attrvalue` with the quoted bytes as the value |
| TitleSqueezerLemmas.QuoteStep | title_squeezer.py:290-294 | one byte of `attrquote`: `"` returns to `attrvalue`, any other byte is appended to the value |
| TitleSqueezerLemmas.ContentOpensTag | title_squeezer.py:131-135 | `<` in content begins a tag with empty name, attribute and value, and changes nothing else |
| TitleSqueezerLemmas.TagStartsName | title_squeezer.py:164-166 | after `<`, a byte that is no delimiter and not `!` starts the tag name |
| TitleSqueezerLemmas.TagOpensSlash | title_squeezer.py:162-163 | after `<`, `/` moves to `tagslash` and changes nothing else |
| TitleSqueezerLemmas.SlashStartsName | title_squeezer.py:339-341 | after `</`, any byte but whitespace, `<` and `>` starts a tag name beginning with `/` |
| TitleSqueezerLemmas.StrayLessThanEscaped | title_squeezer.py:127-159 | inside the title, `<` followed by whitespace or `>` raises nothing, returns to `content` and appends `&lt;` and that byte (`&gt;` for `>`) to the title |
| TitleSqueezerLemmas.PrefixLessThanEscaped | title_squeezer.py:326-379 | inside the title, `<` after `</`, `<!` or `<!-` appends `&lt;` and the prefix to the title, begins a new tag, and changes nothing else |
| TitleSqueezerLemmas.StepRaisesIff | title_squeezer.py:168-207 | a byte raises if and only if it completes, from `tagname` or `tagnameslash`, a start tag that lower-cases to `/title` while no title is captured; a raising byte changes only the tag name and the reset attribute map |
| TitleSqueezerLemmas.TagNameRun | title_squeezer.py:185-188 | in `tagname`, bytes that are not delimiters are appended to the tag name and nothing else happens |
| TitleSqueezerLemmas.AttrNameRun | title_squeezer.py:234-235 | in `attrname`, bytes that end no name are appended to the attribute name and nothing else happens |
| TitleSqueezerLemmas.AttrValueRun | title_squeezer.py:287-288 | in `attrvalue`, bytes that are no delimiter and no `"` are appended to the value and nothing else happens |
| TitleSqueezerLemmas.AttributeRecorded | title_squeezer.py:209-288 | `name=value` followed by whitespace records the lower-cased name with the value and leaves `attrname` ready for the next name; followed by `>` it records them and finishes the tag; nothing raises |
| TitleSqueezerLemmas.TitleTagCloses | title_squeezer.py:514-516 | `>` after the tag name `title`, with no title captured, sets `inside_title`, drops the attribute map and returns to content |
| TitleSqueezerLemmas.SlashTitleTagRaises | title_squeezer.py:517-518 | `>` after the tag name `/title`, with no title captured, raises |
| TitleSqueezerLemmas.OpenTitle | title_squeezer.py:514-516 | `<title>` in content with no title captured sets `inside_title`, leaves the tag name `title` with no attribute map, and changes no metadata |
| TitleSqueezerLemmas.CloseTitle | title_squeezer.py:517-518 | `</title>` in content with no title captured raises |
| TitleSqueezerLemmas.EmptyTitleRaises | title_squeezer.py:514-518 | `<title></title>` raises wherever it meets content with no title captured |
| TitleSqueezerLemmas.ScanningStep | title_squeezer.py:381-482 | every byte in a comment, script or style state moves along the chain exactly as the reference matcher moves along its literal, and only completing the literal does more than change the state |
| TitleSqueezerLemmas.ScanningQuiet | title_squeezer.py:381-482 | bytes that do not complete the literal change nothing but the state: no content, tag or metadata event happens in a comment, script or style |
| TitleSqueezerLemmas.ScanningCloses | title_squeezer.py:381-482 | the rest of the literal, in any ASCII case, closes the comment, script or style: it returns to content, after a synthesised `_start_tag`/`_finish_tag` for `/script` or `/style` in raw text |
| TitleSqueezerLemmas.TripleDashLeavesCommentOpen | title_squeezer.py:389-393 | `--->` does not close a comment: the third dash returns to `comment` |
| TitleSqueezerLemmas.DoubleLessThanMissesScriptEnd | title_squeezer.py:395-407 | `<</script>` does not leave a script, because a mismatch resets without re-reading the byte |
| TitleSqueezerLemmas.RawTextEntered | title_squeezer.py:168-324 | from any state outside comments and raw text, a byte enters `script` (or `style`) if and only if it is a `>` closing a tag that lower-cases to `script` (`style`) from `tagname`, `attrname`, `attrvalue` or `attrvalueslash` |
| TitleSqueezerLemmas.StaysOutOfRawText | title_squeezer.py:127-324 | from any state outside comments and raw text other than `tagname`, `attrname`, `attrvalue` and `attrvalueslash`, no byte enters `script` or `style` |
| TitleSqueezerLemmas.StepGrows | title_squeezer.py:125-482 | one byte in any state only extends a captured title, never overwrites charset, description or Open Graph fields once set, never clears `head_done`, and starts title capture only while no title exists |
| TitleSqueezerLemmas.RunGrows | title_squeezer.py:590-595 | over any input the metadata only grows, so `_is_enough()` once true stays true |
| TitleSqueezerLemmas.MetaCharsetPriority | title_squeezer.py:545-548 | in a `<meta>` with a `charset` attribute, that attribute alone decides the charset, whatever `http-equiv` says |
| TitleSqueezerLemmas.MetaHttpEquivCharset | title_squeezer.py:548-559 | in a `<meta>` without `charset` attribute, while no charset is known, a `Content-Type` `http-equiv` sets the charset to the last name declared and the effective charset to the last one that names a codec, each unchanged when there is none |
| TitleSqueezerLemmas.MetaFillsFields | title_squeezer.py:560-574 | after a `<meta>`, each of description, `og_title` and `og_description` is the `content` attribute when it was `None` and `name` or `property` names it, and its old value otherwise |
| TitleSqueezerLemmas.EnoughWithoutTitle | title_squeezer.py:590-595 | `_is_enough()` counts an Open Graph title that is present but empty, so the squeezer can be enough before the head ends while the reported title, which falls back past an empty `og_title`, is `None` |
| TitleSqueezerLemmas.PieceSetsDecl | title_squeezer.py:554-559 | one piece sets `charset` to the name it declares, and `eff_charset` when that name is a codec |
| TitleSqueezerLemmas.ContentTypeLastWins | title_squeezer.py:552-559 | every `charset=` piece is applied in order: `charset` ends as the last declared name and `eff_charset` as the last known codec, each unchanged when there is none |
| SqueezeMachine.Init | squeeze.py:100-112 | a fresh squeezer is valid, in `content`, with `UTF-8` effective and no metadata |
| SqueezeMachine.DispatchContent | squeeze.py:479-484 | inside `<title>` the title becomes the old title, or nothing, followed by the content; outside it nothing changes; only `title` ever changes, and a captured title only grows |
| SqueezeMachine.StartTag | squeeze.py:486-498 | an empty tag changes nothing; a non-empty tag resets the attribute map; besides that only `inside_title` and `head_done` change; `inside_title` is set on every `title`, cleared on every `/title`, and changed by no other tag; `head_done` is never cleared and is set only by `/head` or `body` |
| SqueezeMachine.DispatchAttr | squeeze.py:500-511 | the map gains the lower-cased name with the value, keeps every other key, and nothing else changes |
| SqueezeMachine.SetCharset | squeeze.py:540-550 | an absent or empty value changes nothing; otherwise `charset` is the stripped name, and `eff_charset` becomes it exactly when it names a codec |
| SqueezeMachine.ApplyPiece | squeeze.py:526-532 | a piece changes only the two charset fields, and the effective charset only to a known codec |
| SqueezeMachine.ApplyContentType | squeeze.py:524-532 | the pieces change only the two charset fields, and the effective charset only to a known codec |
| SqueezeMachine.ContentTypeCharset | squeeze.py:521-532 | the `http-equiv` part changes only the two charset fields |
| SqueezeMachine.CharsetFromMeta | squeeze.py:519-532 | the charset part changes only the two charset fields, and the effective charset only to a known codec |
| SqueezeMachine.ExtractMeta | squeeze.py:518-536 | `<meta>` changes only the charsets and the description, and the description is replaced whenever name is `description` and a content is given |
| SqueezeMachine.FinishTag | squeeze.py:513-538 | an empty tag changes nothing; otherwise the attribute map is cleared; a tag other than `meta` changes nothing else; the tokenizer fields, title and flags are kept, and the effective charset changes only to a known codec |
| SqueezeMachine.StepContent | squeeze.py:118-125 | `content` keeps the machine valid and the effective charset unchanged |
| SqueezeMachine.StepTag | squeeze.py:127-142 | after `<`, whitespace dispatches `&lt;` and that byte as text and returns to `content`; `<` dispatches `&lt;` and stays in `tag`; `>` dispatches `&lt;&gt;` and returns to `content`; `!` and `/` move to `tagbang` and `tagslash`; any other byte starts the tag name; the machine stays valid and the effective charset unchanged |
| SqueezeMachine.StepPrefixed | squeeze.py:302-355 | after `</`, `<!` or `<!-`, a `<` dispatches `&lt;` and the prefix as text and begins a new tag in `tag`; `-` after `<!` and `<!-` moves to `tagbangdash` and `comment`; a byte that is no whitespace, `<` or `>` starts a tag name beginning with the prefix; the machine stays valid, and the effective charset changes only to a known codec |
| SqueezeMachine.CloseTag | squeeze.py:152-160 | closing a tag after its name keeps the machine valid, and changes the effective charset only to a known codec |
| SqueezeMachine.StepTagName | squeeze.py:144-164 | `tagname` keeps the machine valid, and changes the effective charset only to a known codec |
| SqueezeMachine.StepTagNameSlash | squeeze.py:166-183 | `tagnameslash` keeps the machine valid, and changes the effective charset only to a known codec |
| SqueezeMachine.StepAttrName | squeeze.py:185-211 | whitespace records the pending name without a value and starts a new one; `<` records it and begins a new tag; `/` moves to `attrnameslash` and `=` starts an empty value in `attrvalue`; a byte that ends no name is appended to the name; the machine stays valid, and the effective charset changes only to a known codec |
| SqueezeMachine.StepAttrNameCloses | squeeze.py:196-204 | `>` in `attrname` records the pending name without a value, finishes the tag and enters `script`, `style` or `content` by the tag name |
| SqueezeMachine.StepAttrNameSlash | squeeze.py:213-236 | whitespace records the name with the `/` appended, without a value, and stays in `attrnameslash`; `<` records the name and begins a new tag; a further `/` appends one `/` to the name and `=` starts an empty value in `attrvalue`; a byte that ends no name is appended and returns to `attrname`; the machine stays valid, and the effective charset changes only to a known codec |
| SqueezeMachine.StepAttrNameSlashCloses | squeeze.py:225-228 | `>` in `attrnameslash` records the pending name without a value, finishes the tag and returns to `content`, even after `script` or `style` |
| SqueezeMachine.StepAttrValue | squeeze.py:238-264 | whitespace records the name with the pending value and returns to `attrname`; `<` records them and begins a new tag; `/` moves to `attrvalueslash` and `"` to `attrquote`; a byte that is no delimiter and no `"` is appended to the value; the machine stays valid, and the effective charset changes only to a known codec |
| SqueezeMachine.StepAttrValueCloses | squeeze.py:250-258 | `>` in `attrvalue` records the name with the pending value, finishes the tag and enters `script`, `style` or `content` by the tag name |
| SqueezeMachine.StepAttrQuote | squeeze.py:266-270 | `attrquote` keeps the machine valid and the effective charset unchanged |
| SqueezeMachine.StepAttrValueSlash | squeeze.py:272-300 | whitespace records the name with the value and a `/` appended, and returns to `attrname`; `<` records the value without the `/` and begins a new tag; a further `/` appends one `/` to the value and `"` moves to `attrquote`; a byte that is no delimiter and no `"` is appended and returns to `attrvalue`; the machine stays valid, and the effective charset changes only to a known codec |
| SqueezeMachine.StepAttrValueSlashCloses | squeeze.py:285-293 | `>` in `attrvalueslash` records the name with the value without the `/`, finishes the tag and enters `script`, `style` or `content` by the tag name |
| SqueezeMachine.StepComment | squeeze.py:357-369 | the comment states keep the machine valid and the effective charset unchanged |
| SqueezeMachine.StepScript | squeeze.py:371-416 | the script states keep the machine valid, and change the effective charset only to a known codec |
| SqueezeMachine.StepStyle | squeeze.py:418-458 | the style states keep the machine valid, and change the effective charset only to a known codec |
| SqueezeMachine.CloseRawText | squeeze.py:409-416 | the synthesised `/script` or `/style` tag changes only the tag fields and returns to content |
| SqueezeMachine.Step | squeeze.py:115-458 | every byte in every state keeps the machine valid, so the assertions of `_dispatch_attr` and `_finish_tag` hold, and the effective charset only ever becomes a known codec |
| SqueezeMachine.Run | squeeze.py:114-116 | the whole loop keeps the machine valid, and the effective charset only ever becomes a known codec |
| SqueezeMachine.Report | squeeze.py:460-466 | `enough` is `head_done`; title, description and charsets are passed on |
| Squeeze.Squeezer.constructor | squeeze.py:100-112 | the fields are those of a fresh machine |
| Squeeze.Squeezer.DispatchContent | squeeze.py:479-484 | the fields become `DispatchContent` of the old fields |
| Squeeze.Squeezer.StartTag | squeeze.py:486-498 | the fields become `StartTag` of the old fields |
| Squeeze.Squeezer.DispatchAttr | squeeze.py:500-511 | the fields become `DispatchAttr` of the old fields, with the map updated in place |
| Squeeze.Squeezer.SetCharset | squeeze.py:540-550 | the fields become `SetCharset` of the old fields |
| Squeeze.Squeezer.ApplyPiece | squeeze.py:526-532 | the fields become `ApplyPiece` of the old fields |
| Squeeze.Squeezer.ApplyContentType | squeeze.py:524-532 | the loop over the pieces leaves the fields at `ApplyContentType` of the old fields |
| Squeeze.Squeezer.CharsetFromMeta | squeeze.py:519-532 | the fields become `CharsetFromMeta` of the old fields |
| Squeeze.Squeezer.ExtractMeta | squeeze.py:518-536 | the fields become `ExtractMeta` of the old fields |
| Squeeze.Squeezer.FinishTag | squeeze.py:513-538 | the fields become `FinishTag` of the old fields |
| Squeeze.Squeezer.ConsumeContent | squeeze.py:118-125 | one byte in `content` leaves the fields at `StepContent` of the old fields |
| Squeeze.Squeezer.ConsumeTag | squeeze.py:127-142 | one byte in `tag` leaves the fields at `StepTag` of the old fields |
| Squeeze.Squeezer.ConsumePrefixed | squeeze.py:302-355 | one byte in `tagslash`, `tagbang` or `tagbangdash` leaves the fields at `StepPrefixed` of the old fields |
| Squeeze.Squeezer.ConsumeTagName | squeeze.py:144-164 | one byte in `tagname` leaves the fields at `StepTagName` of the old fields |
| Squeeze.Squeezer.ConsumeTagNameSlash | squeeze.py:166-183 | one byte in `tagnameslash` leaves the fields at `StepTagNameSlash` of the old fields |
| Squeeze.Squeezer.ConsumeAttrName | squeeze.py:185-211 | one byte in `attrname` leaves the fields at `StepAttrName` of the old fields |
| Squeeze.Squeezer.ConsumeAttrNameSlash | squeeze.py:213-236 | one byte in `attrnameslash` leaves the fields at `StepAttrNameSlash` of the old fields |
| Squeeze.Squeezer.ConsumeAttrValue | squeeze.py:238-264 | one byte in `attrvalue` leaves the fields at `StepAttrValue` of the old fields |
| Squeeze.Squeezer.ConsumeAttrQuote | squeeze.py:266-270 | one byte in `attrquote` leaves the fields at `StepAttrQuote` of the old fields |
| Squeeze.Squeezer.ConsumeAttrValueSlash | squeeze.py:272-300 | one byte in `attrvalueslash` leaves the fields at `StepAttrValueSlash` of the old fields |
| Squeeze.Squeezer.ConsumeComment | squeeze.py:357-369 | one byte in a comment state leaves the fields at `StepComment` of the old fields |
| Squeeze.Squeezer.ConsumeScript | squeeze.py:371-416 | one byte in a script state leaves the fields at `StepScript` of the old fields |
| Squeeze.Squeezer.ConsumeStyle | squeeze.py:418-458 | one byte in a style state leaves the fields at `StepStyle` of the old fields |
| Squeeze.Squeezer.EnterAfterTag | squeeze.py:155-160 | only the state changes, to `script`, `style` or `content` by the lower-cased tag name |
| Squeeze.Squeezer.CloseRawText | squeeze.py:409-416 | the synthesised closing tag leaves the fields at `CloseRawText` of the old fields |
| Squeeze.Squeezer.Consume | squeeze.py:115-458 | one iteration of the loop leaves the fields at `Step` of the old fields |
| Squeeze.Squeezer.Feed | squeeze.py:114-466 | `feed(data)` leaves the fields at `Run` of the old fields over `data` and returns `Report` of the new fields |
| SqueezeLemmas.RunConcat | squeeze.py:114-116 | feeding `a` and then `b` is feeding `a + b` |
| SqueezeLemmas.ContentVerbatim | squeeze.py:118-125 | text without `<` is dispatched byte for byte, whitespace included: inside `<title>` the title gains exactly that text, outside nothing changes |
| SqueezeLemmas.DispatchContentAppend | squeeze.py:479-484 | dispatching `a` and then `b` is dispatching `a + b` |
| SqueezeLemmas.ContentOpensTag | squeeze.py:119-123 | `<` in content begins a tag with empty name, attribute and value, and changes nothing else |
| SqueezeLemmas.TagStartsName | squeeze.py:140-142 | after `<`, a byte that is no delimiter and not `!` starts the tag name |
| SqueezeLemmas.TagOpensSlash | squeeze.py:138-139 | after `<`, `/` moves to `tagslash` and changes nothing else |
| SqueezeLemmas.SlashStartsName | squeeze.py:315-317 | after `</`, any byte but whitespace, `<` and `>` starts a tag name beginning with `/` |
| SqueezeLemmas.StrayLessThanEscaped | squeeze.py:118-135 | inside the title, `<` followed by whitespace or `>` returns to `content` and appends `&lt;` and that byte (`&gt;` for `>`) to the title |
| SqueezeLemmas.PrefixLessThanEscaped | squeeze.py:302-355 | inside the title, `<` after `</`, `<!` or `<!-` appends `&lt;` and the prefix to the title, begins a new tag, and changes nothing else |
| SqueezeLemmas.TagNameRun | squeeze.py:163-164 | in `tagname`, bytes that are not delimiters are appended to the tag name and nothing else happens |
| SqueezeLemmas.AttrNameRun | squeeze.py:210-211 | in `attrname`, bytes that end no name are appended to the attribute name and nothing else happens |
| SqueezeLemmas.AttrValueRun | squeeze.py:263-264 | in `attrvalue`, bytes that are no delimiter and no `"` are appended to the value and nothing else happens |
| SqueezeLemmas.AttributeRecorded | squeeze.py:185-264 | `name=value` followed by whitespace records the lower-cased name with the value and leaves `attrname` ready for the next name; followed by `>` it records them and finishes the tag |
| SqueezeLemmas.TitleTagCloses | squeeze.py:491-492 | `>` after the tag name `title` sets `inside_title`, drops the attribute map and returns to content, whatever was captured |
| SqueezeLemmas.SlashTitleTagCloses | squeeze.py:493-494 | `>` after the tag name `/title` clears `inside_title`, drops the attribute map and returns to content |
| SqueezeLemmas.OpenTitle | squeeze.py:491-492 | `<title>` in content enters the title whatever was captured before |
| SqueezeLemmas.CloseTitle | squeeze.py:493-494 | `</title>` in content leaves the title, whether or not one was captured |
| SqueezeLemmas.EmptyTitleCloses | squeeze.py:491-494 | `<title></title>` leaves the title as it was and capture off |
| SqueezeLemmas.SecondTitleAppends | squeeze.py:491-492 | the text after a second `<title>` is appended to the title already captured |
| SqueezeLemmas.LessThanRestarts | squeeze.py:148-151 | `<` inside a tag name or attribute dispatches the pending start tag or attribute, finishes nothing, keeps all metadata, and begins a new tag with the name discarded |
| SqueezeLemmas.MetaCharsetOverwrites | squeeze.py:519-520 | a `charset` attribute sets the charset whatever was declared before |
| SqueezeLemmas.PieceSetsDecl | squeeze.py:526-532 | one piece sets `charset` to the name it declares, and `eff_charset` when that name is a codec |
| SqueezeLemmas.ContentTypeLastWins | squeeze.py:524-532 | every `charset=` piece is applied in order: `charset` ends as the last declared name and `eff_charset` as the last known codec |
| SqueezeLemmas.HttpEquivAppliedLast | squeeze.py:519-532 | with both a `charset` attribute and a `Content-Type` declaring charsets, the `http-equiv` is applied second and decides |
| SqueezeLemmas.MetaCharsetIs | squeeze.py:518-532 | a `<meta>` sets the charset exactly as its charset part does |
| SqueezeLemmas.HttpEquivDecides | squeeze.py:519-532 | with a `charset` attribute and a `Content-Type` that declares charsets, the last declared name is the charset |
| SqueezeLemmas.ContentTypeApplies | squeeze.py:521-532 | a `Content-Type` `http-equiv` with non-empty content applies every `;`-piece of it |
| SqueezeLemmas.MetaDescriptionOverwrites | squeeze.py:533-536 | a description `<meta>` with a `content` attribute replaces the description, even by `None` |
| SqueezeLemmas.StepGrows | squeeze.py:115-458 | one byte in any state only extends a captured title and never clears `head_done` |
| SqueezeLemmas.RunGrows | squeeze.py:114-116 | over any input the title only grows and `head_done` is never cleared |
| SqueezeLemmas.EnoughIsHeadDoneOnly | squeeze.py:460-466 | some state is enough by `_is_enough()` yet `feed` reports not enough, because `feed` reports `head_done` |
| SqueezeLemmas.EnoughCanBeLost | squeeze.py:533-536 | `_is_enough()` can turn false again: a later description `<meta>` without a value overwrites the description with `None` |
| Variants.Flat | squeeze.py:44-97 | the squeeze.py state of a title_squeezer.py state is the same state, except that `contentspace` becomes `content` |
| Variants.InitAgree | squeeze.py:100-112 | both squeezers start at the same tokenizer point |
| Variants.StepAgree | squeeze.py:115-458 | from agreeing points the two tokenizers agree after any byte on which title_squeezer.py does not raise |
| Variants.RunAgree | squeeze.py:114-116 | from agreeing points the two tokenizers agree after any input that title_squeezer.py reads without raising |
| Variants.FeedAgree | title_squeezer.py:123-482 | two fresh squeezers fed the same document agree on state (`contentspace` read as `content`), tag name, attribute name, pending value and attribute map, unless title_squeezer.py raises |
| Variants.WhitespaceDiffers | title_squeezer.py:127-149 | inside `<title>`, a run of two or more whitespace bytes gives title_squeezer.py one space and squeeze.py all of the bytes |
| Variants.EmptyTitleDiffers | title_squeezer.py:517-518 | `<title></title>` with no title captured raises in title_squeezer.py and leaves the title alone in squeeze.py |

## Left out

- `Title.__init__` decodes the title and description with `eff_charset` and
  unescapes HTML entities (title_squeezer.py:24-31, squeeze.py:23-30). These
  are a foreign codec and the entity library. `Report` returns the raw bytes
  that `Title.__init__` receives.
- The charset name is kept as the stripped bytes, not decoded as UTF-8, and
  the codec lookup is the parameter `known`. A name that is not valid UTF-8
  is looked up as its bytes, not as the replacement-character string.
- `Title.__str__` and `Title.__repr__` are JSON and text formatting.
- `_log`, `set_debug` and the `sys.stderr.write` calls are diagnostic output.
  The one `_log` argument that can fail is modelled as the `/title` fault.
- The other `decode(self.eff_charset, 'replace')` calls, in `_start_tag`
  and `_dispatch_attr` (title_squeezer.py:524, 533-537; squeeze.py:490,
  507-511), and the lookup `b'A'.decode(charset, 'replace')` in
  `_set_charset` are assumed never to raise. The constructor of each
  `Squeezer` requires that the default charset be known. Python would
  instead raise `LookupError` on the first tag when the default is no codec.
- StepRaisesIff, TitleSqueezer.Squeezer.Feed and Squeeze.Squeezer.Feed hold
  only for codecs that decode every byte string with `'replace'`, or that
  fail the lookup with `LookupError`. A codec that raises anything else is
  not modelled, because `known` only says whether a name is a codec. With
  `idna`, for example, `_set_charset` raises `UnicodeError`, which it does
  not catch (title_squeezer.py:583-587, squeeze.py:545-549). With
  `punycode`, a later `decode` of a tag, name or value byte of 0x80 or
  above raises `UnicodeDecodeError`. In both cases `feed` raises, and the
  model predicts no exception there.
- `main()` is left out: reading stdin in chunks and argv parsing are I/O.
- `_set_charset`'s `True`/`False` result is dropped, because no caller reads
  it.
- Squeeze.Squeezer.IsEnough: squeeze.py's `_is_enough` is modelled, but `feed`
  never uses it (`EnoughIsHeadDoneOnly`), and it need not stay true
  (`EnoughCanBeLost`).
- After `AttributeError`, the other bytes of the chunk are not read, and the
  fields are left as `_start_tag` left them. A later `feed` goes on from
  there, which is what Python does as well.
- The `State` enum of each file is the datatype `Tokenizer.State`. It has
  the same names. squeeze.py's `feed` has no `contentspace` branch, so
  `SqueezeMachine.Valid` excludes that state. The enum's numeric values are
  not modelled; nothing reads them.
- The raw-text chains of `script` and `style` are written once
  (`Tokenizer.ScriptNext`, `Tokenizer.StyleNext`) and shared by both
  versions. Their source is the same code, line for line.
- SqueezeMachine.StepContent, `CloseTag`, `StepTagName`,
  `StepTagNameSlash`, `StepAttrQuote`, `StepComment`, `StepScript` and
  `StepStyle` state only validity in their own contracts. Their behaviour is
  stated by the lemmas of `SqueezeLemmas` (`ContentVerbatim`,
  `ContentOpensTag`, `TagNameRun`, `LessThanRestarts`, `TitleTagCloses`,
  `SlashTitleTagCloses`, `MetaCharsetIs` and others). `Variants` compares the
  tokenizer fields of the two versions byte by byte, but not their titles.
