# Verified model of the Argus tools

The Argus repository keeps most of its algorithms in its scripts and tools. This project models the
hardest of them in Dafny and proves what they are for. Each source file becomes one or more modules:

- **The comment stripper** (`scripts/lib/comment_scan.py`). `Lexer` gives the lexical grammar of the
  C family, Protobuf, JSON and SQL. `Scan` holds the index-jumping scanners, proved to report exactly
  the comments of that grammar, `Automaton` a scanner that reads one character at a time and agrees
  with them, and `ScanLaws` what literals and comments are by their own spelling. `Join`, `StripLine`,
  `Strip` and `StripMethod` hold the rewriter. `Stability` and `Reduction` say what may change around a
  lexeme without changing it; on top of them `StripTheorem` proves that the stripped text has no comment
  and exactly the tokens of the input, `Visible`, with `Placement`, that it keeps exactly the visible
  characters outside the spans and glues none together, and `StripTwice` and `StripReturn` when a second
  pass changes nothing. `StripLines` gives the whole result line by line, `StripParts` each line piece by
  piece, and `JoinLaws` when lines are joined. `Shell` is the shell automaton with its stack of quoting
  frames and its here-documents; `ShellGrammar` is a grammar of scripts, written without it, whose
  comments it finds exactly, and `ShellLines` proves what acceptance means: an accepted script leaves
  nothing open.
- **The streaming layers** (`services/tts/tools/export-pocket.py`). `Streaming`, `Transposed` and
  `KvCache` prove that chunked execution answers what one call on the whole input answers; `Impulse`
  says which weight every input value meets.
- **The golden responses** (`scripts/golden-http.py`). `Golden` has the templates and the comparer,
  `GoldenKinds` the types of values, told by their constructors, `GoldenTemplate` and `GoldenFits` what
  a template accepts, `GoldenPaths`, `GoldenShape`, `GoldenMark`, `GoldenVolatile` and `GoldenEdits` how
  the recorder edits templates leaf by leaf, `GoldenOff` and `GoldenReplace` what replacing a value does
  to a comparison, `GoldenRecord` and `GoldenFixed` the recorder, and `GoldenVerify` exactly which answers
  a recording accepts.
- **The dependency check** (`scripts/lib/check-deps.py`). `Cycles` is the three-colour search,
  `Tiers` the tier table.
- **The wire codecs**. `WebSocket` (`scripts/isolation-drill.py`, sections 5.2 to 5.5 of RFC 6455)
  and `DnsName` (`scripts/discovery-drill.py`, sections 3.1 and 4.1.4 of RFC 1035), over the byte
  strings of `ByteStrings`.
- **The auth migration** (`services/auth/tools/migrate-auth/auth-migration.cc`). `AuthMigration` is
  the transactional copy and its verification, `RowStream` the byte stream that is hashed.
- **The boot-proof configuration** (`scripts/lib/boot_proof.py`). `Boot` has the line patterns and the
  rules, `BootLines` how lines are cut and read, `BootRules` what is written for every section and key, `BootRun` the rendering loop with its
  ports, `BootMask` and `BootReread` what masking hides.

`Text`, `Splitting` and `Collections` hold what several of them share. Text is a sequence of Unicode
characters. A `ScanError` and the other exceptions become `None` or an
error constructor. Randomness, sockets, the file system and the SQLite engine become parameters: a
tape of draws, a list of chunks that arrive, a function for what is found on disk, a set of faults.
The non-ASCII parts of Python's `isdigit` and `isalnum` are arbitrary sets.

Properties that do not hold of the code as one would first state them:

- `strip_spans` is not idempotent. A second pass changes nothing exactly when, in the text with its split
  lines joined, the last line that shows code does not end in a carriage return
  (`StripReturn.StripIdempotentIff`); otherwise it adds one, as on the text of
  `StripReturn.StripGrowsCrLf`.
- The streaming transposed convolution equals the one-shot result exactly when no chunk produces fewer
  samples than the partial sum is wide (`Transposed.StreamIsOneShotIff`); kernels of at most twice the
  stride always meet this, and `Transposed.ShortChunkFails` shows a longer one with a chunk that does not.
- A stream that ends inside a frame should answer nothing, but `receive` accepts an empty masked frame
  before its mask has arrived, and raises a `TypeError` when as many bytes as the payload has, but fewer
  than four, arrive in place of the mask. After an empty masked fragment, ping or pong it reads the
  bytes of the mask as the next frame, which may end the message or raise the same error.
  `WebSocket.CutStreamIff` shows that these are the only cases, for all frames before it, every frame
  and every cut, and `WebSocket.CutMasks` gives the inputs.
- `read_name` reads labels of up to 191 bytes, not only 63; `encode_name` writes empty labels, and counts
  characters where the format counts bytes. Exactly the names with labels of 1 to 191 ASCII characters
  come back (`DnsName.NameBytesBackIff`); `DnsName.EmptyNameLost` and `DnsName.AccentLost` are names that
  do not.
- A declared path that ends in `[]` makes `replace_path` raise an `IndexError` exactly when it reaches a
  row (`GoldenReplace.RaisesIff`). None of the 22 entries of `VOLATILE_FIELDS` declares such a path, and a
  path that ends in a key never raises (`GoldenReplace.WalkableSafe`).
- A masked configuration does not hide a secret when an option with a line break moves `masked` into
  another section. `BootReread.MaskStableIff` gives the exact condition, which can be told from the
  template, the options and the ports; `BootReread.PlainOptionsHide` that options without a line break
  never meet it, and `BootReread.BrokenScratchShows` a scratch directory with which the masked texts of
  any two secrets differ.
- An accepted shell script may still swallow the newline after it, when it ends in the middle of an
  escape. `ShellLines.ScriptsComposeIff` shows that this is the only way in which it influences the
  lines that follow, `ShellLines.DanglingEnds` that such a script ends in a backslash, and
  `ShellLines.BackslashDangles` that there is one.

## Model

| member | source | states |
|---|---|---|
| Scan.SkipQuoted | scripts/lib/comment_scan.py:69-82 | The offset after the closing quote of a literal of the grammar, one-line or multiline, or a failure exactly where the grammar has none |
| Scan.CFamilySpans | scripts/lib/comment_scan.py:85-147 | The scanner fails exactly where the grammar does and otherwise reports exactly its comments, with every raw string, literal and number skipped as one lexeme |
| Scan.SqlSpans | scripts/lib/comment_scan.py:468-499 | The same for SQL, with doubled quotes inside literals |
| Scan.SpansAreComments | scripts/lib/comment_scan.py:85-147 | Spans are in bounds, ordered, disjoint, non-empty; a character lies in a span if and only if the labelled text has it in a comment; each span is one whole comment |
| Automaton.NextFollows | scripts/lib/comment_scan.py:85-147 | A one-character-at-a-time automaton passes one lexeme of the grammar at a time and gives all its characters the lexeme's label, or fails where the grammar does |
| Automaton.SpansAreLabels | scripts/lib/comment_scan.py:69-147 | For every text the spans exist if and only if the automaton accepts, and a position lies in a span if and only if the automaton is in a comment there |
| Automaton.SqlQuoteRun | scripts/lib/comment_scan.py:486-497 | The jump over an SQL literal, doubled quotes included, leaves the automaton in code exactly at the literal's end, or the literal never ends |
| Automaton.BodyRun | scripts/lib/comment_scan.py:110-121 | A raw string ends at the first closing sequence of its own delimiter, read character by character |
| ScanLaws.RawHides | scripts/lib/comment_scan.py:110-121 | Behind each of the prefixes R, u8R, uR, UR and LR, for every delimiter of at most 16 allowed characters and every body without its closing sequence, the C++ scanner passes the whole literal without a span and goes on behind it |
| ScanLaws.WordsPass | scripts/lib/comment_scan.py:108-146 | Any other word, and every word in the other languages, leaves the quote behind it an ordinary one |
| ScanLaws.LiteralHides | scripts/lib/comment_scan.py:69-82 | An ordinary literal, escapes included, is passed without a span |
| ScanLaws.LineComment | scripts/lib/comment_scan.py:92-100 | A line comment is one span up to its newline |
| ScanLaws.BlockComment | scripts/lib/comment_scan.py:101-107 | A block comment is one span up to its first closing sequence |
| Stability.NextStable | scripts/lib/comment_scan.py:85-147 | A lexeme does not depend on the text after it beyond the next character (two for a digit separator): changing the rest keeps the lexeme |
| Reduction.ReducesLexed | scripts/lib/comment_scan.py:791-864 | Cutting comments and white space, and writing white space, under the stripper's neighbour rules leaves a text that lexes to the remaining cells: no cut or join forms a new comment or literal |
| Reduction.ReducesSolid | scripts/lib/comment_scan.py:791-864 | Such an edit keeps every token cell, in order |
| Placement.ReducesPlaces | scripts/lib/comment_scan.py:791-864 | Such an edit places its cells in the text in order and glues no two of them together |
| Join.JoinSplitSpans | scripts/lib/comment_scan.py:780-788 | The loop over the spans from last to first computes the joined text, or fails when the scanner does |
| Join.JoinStepSafe | scripts/lib/comment_scan.py:780-788 | Replacing one comment that splits a line of code by a space keeps all tokens and all earlier comments where they were |
| Join.JoinAllSafe | scripts/lib/comment_scan.py:780-788 | Lexing resumes identically after all the joins: the joined text scans and has the tokens of the input |
| JoinLaws.JoinLast | scripts/lib/comment_scan.py:780-788 | The last comment, with the blanks around it, is replaced by one space if and only if it holds a newline and something visible stands before it on its first line and behind it on its last; then the comments before it are treated |
| JoinLaws.NoneSplits | scripts/lib/comment_scan.py:780-788 | No comment of the joined text splits a line of code |
| StripLine.StripTextLine | scripts/lib/comment_scan.py:791-815 | The index loop over a line and its mask computes the stripped line |
| StripLine.StrippedReduces | scripts/lib/comment_scan.py:791-815 | A stripped line keeps its tokens, glues no two of them together and has no comment left |
| StripParts.LineGlued | scripts/lib/comment_scan.py:791-815 | The stripped line glues the pieces of code between the comments: after a blank or at the start the blanks of a piece go, otherwise one space parts it unless a blank, a bracket, a comma or a semicolon touches the gap; behind a last comment the end is trimmed |
| StripParts.LineParts | scripts/lib/comment_scan.py:791-815 | Every line of a scanned text has such pieces |
| StripMethod.FillMask | scripts/lib/comment_scan.py:821-824 | The mask is set exactly at the positions inside a span |
| StripMethod.KeepLines | scripts/lib/comment_scan.py:825-841 | Every line of the text is kept, stripped or dropped as its row of cells says |
| StripMethod.GatherLines | scripts/lib/comment_scan.py:842-857 | The blank-line rules after dropped lines, with the stack of lines popped in place |
| StripMethod.StripSpansRun | scripts/lib/comment_scan.py:818-864 | The whole imperative rewriter computes the function the theorems are about |
| StripTheorem.StripPreservesTokens | scripts/lib/comment_scan.py:780-864 | For every text that scans, the result scans again without a comment and has exactly the tokens of the text, character for character and cut at the same places; it fails only where scanning does |
| StripLines.StripKeepsLines | scripts/lib/comment_scan.py:818-864 | The result is made of lines of the joined text: each line of code, stripped where it holds a comment, and between two of them at most the first group of blank lines, by the opener and closer rules; a line with a comment and no code leaves nothing |
| StripLines.KeptLines | scripts/lib/comment_scan.py:825-857 | Of any lines, those of code are kept, all and in order, and no line that holds a comment and no code is |
| StripLines.NothingGoes | scripts/lib/comment_scan.py:825-857 | Where every comment shares its line with code, all lines up to the last one of code are kept |
| Visible.StripKeepsVisible | scripts/lib/comment_scan.py:818-864 | The visible characters of the result are exactly those of the text outside its spans, in order, and the result has no spans |
| Visible.StripPlaces | scripts/lib/comment_scan.py:780-864 | Where each character of the result stood: in order, outside the spans, or white space that was written in; every visible character outside the spans is there; and two neighbours of the result of which neither is white space, a bracket, a comma or a semicolon were neighbours in the text, so nothing is glued together |
| StripReturn.StripIdempotentIff | scripts/lib/comment_scan.py:780-864 | Stripping a stripped text changes nothing if and only if, in the text with its split lines joined, the last line that shows code does not end in a carriage return; otherwise the second pass adds exactly one |
| StripReturn.PrintedEnds | scripts/lib/comment_scan.py:825-864 | Whatever lines are dropped in between, the printed text ends in CR LF if and only if the last line that shows code ended in a carriage return |
| StripReturn.StripOnce | scripts/lib/comment_scan.py:780-864 | A text without carriage returns is stripped once and for all |
| StripTwice.StripClean | scripts/lib/comment_scan.py:818-864 | What a second pass does to any comment-free clean text: the identity, or one more carriage return |
| StripReturn.StripGrowsCrLf | scripts/lib/comment_scan.py:862-864 | A text that grows by a carriage return in the first pass and by another one in the second |
| Shell.Step | scripts/lib/comment_scan.py:218-411 | In every reachable state the bottom frame is the only `code` frame, the frame below a parameter expansion exists when it is read, and every step advances; a comment is only found at a hash sign in command position |
| Shell.ShellSpans | scripts/lib/comment_scan.py:218-420 | Text is accepted exactly when the run ends with one frame and no pending here-document; the spans are ordered, disjoint comments that hold no newline and never the `#!` line |
| Shell.RunSpans | scripts/lib/comment_scan.py:218-411 | From any valid state, all spans of a run are such comments, in order |
| Shell.DocsEnd | scripts/lib/comment_scan.py:201-215 | Consuming here-documents moves forward and at most one past the end of the text |
| ShellGrammar.GrammarScanned | scripts/lib/comment_scan.py:189-420 | Scanning the text of any script of a grammar of plain words, escapes, single, double and ANSI quotes, parameters, substitutions, backquotes, arithmetic, groups, case, redirections, here-strings, here-documents and comments reports exactly the comments of that script |
| ShellGrammar.RunPiece | scripts/lib/comment_scan.py:218-411 | Each construct of the grammar, in any frame where it may stand, is passed with its own comments and leaves the frame as it was |
| ShellGrammar.QuotesHide | scripts/lib/comment_scan.py:252-258 | Single quotes hide everything up to the next one |
| ShellGrammar.DoubleQuotesHide | scripts/lib/comment_scan.py:259-263 | Double quotes hide any text without a quote, a backslash, a dollar sign and a backquote, and the scan is back in the same frame behind them |
| ShellGrammar.AnsiHides | scripts/lib/comment_scan.py:189-198 | So does `$'...'`, in which a backslash escapes |
| ShellGrammar.ParamsHide | scripts/lib/comment_scan.py:288-292 | So does `${...}` |
| ShellGrammar.HashComments | scripts/lib/comment_scan.py:235-243 | A hash sign after a separator is a comment up to the end of its line |
| ShellGrammar.DocsQueue | scripts/lib/comment_scan.py:297-304 | A here-document, bare, escaped or quoted, waits behind those that the line has opened before |
| ShellGrammar.DocsTaken | scripts/lib/comment_scan.py:201-233 | At the next newline outside of quotes and parameters, arithmetic included, all waiting here-documents are passed in their order |
| ShellGrammar.DocsWait | scripts/lib/comment_scan.py:229-233 | Inside double quotes and parameters a newline leaves them waiting |
| ShellGrammar.OpenRefused | scripts/lib/comment_scan.py:418-419 | A script that ends inside a quoted or nested part is refused |
| ShellGrammar.OpenQuoteRefused | scripts/lib/comment_scan.py:252-255 | So is one that ends inside single quotes |
| ShellGrammar.OpenDocRefused | scripts/lib/comment_scan.py:416-417 | So is one that ends before its here-document does |
| ShellLines.StepStable | scripts/lib/comment_scan.py:201-411 | A step that succeeds in a script is the same step when further lines follow it |
| ShellLines.AlikeRun | scripts/lib/comment_scan.py:305-327 | The `case` counter of the outermost frame never influences the spans or the verdict |
| ShellLines.ScriptsComposeIff | scripts/lib/comment_scan.py:218-420 | An accepted script leaves nothing open: for all lines that follow, other than a `#!` script, the whole is accepted exactly when those lines are, with the comments of both, shifted; this holds if and only if the script does not end in the middle of an escape |
| ShellLines.ScriptsCompose | scripts/lib/comment_scan.py:218-420 | The same for one script and the lines after it |
| ShellLines.DanglingEnds | scripts/lib/comment_scan.py:244-247 | Only a script whose last character is a backslash ends in the middle of an escape |
| ShellLines.DanglingBreaks | scripts/lib/comment_scan.py:234-247 | After such a script a comment that starts the next line is not found |
| ShellLines.BackslashDangles | scripts/lib/comment_scan.py:234-247 | A lone backslash is accepted and is such a script |
| Streaming.StreamIsConv | services/tts/tools/export-pocket.py:50-68 | For every chunking into positive multiples of the stride, the concatenated outputs equal one convolution of the carried state followed by the whole input |
| Streaming.StreamingConv.Forward | services/tts/tools/export-pocket.py:60-68 | One streaming call: its output, the columns it carries over, and the ValueError of any padding but the constant one, which leaves the state alone |
| Streaming.StreamingConv.Run | services/tts/tools/export-pocket.py:50-68 | Any run of calls from the zero state answers what the stateless branch answers on the whole input |
| Streaming.ConvSplits | services/tts/tools/export-pocket.py:60-68 | Convolving the whole is convolving a first part, then the rest behind the kept columns |
| Impulse.ConvImpulse | services/tts/tools/export-pocket.py:50-68 | An input value at time t of channel c meets the weight of tap k at output j if and only if t is j strides and k dilations, and no other weight |
| Impulse.ConvAdds | services/tts/tools/export-pocket.py:50-68 | But for the bias the convolution of a sum is the sum of the convolutions, so the impulse responses determine it |
| Impulse.OutputsFit | services/tts/tools/export-pocket.py:50-68 | There is an output exactly where all taps stand over the input |
| Transposed.StreamIsOneShotIff | services/tts/tools/export-pocket.py:71-83 | Over any chunking the outputs are the first stride * N samples of the one-shot result, bias counted once, if and only if no chunk is shorter than the partial sum is wide |
| Transposed.ForwardStep | services/tts/tools/export-pocket.py:71-83 | One call after any input answers the next samples of the whole and stores exactly what is still owed |
| Transposed.ShortKernelAlwaysFits | services/tts/tools/export-pocket.py:71-83 | Kernels of at most twice the stride meet the condition for every chunking |
| Transposed.ShortChunkFails | services/tts/tools/export-pocket.py:71-83 | With a kernel of three, stride one and a chunk of one column, whatever its weights and sample, the call answers two samples where one is due |
| Impulse.OneShotImpulse | services/tts/tools/export-pocket.py:71-83 | An input value at time t reaches exactly the outputs from t strides on, one weight of the kernel each |
| Impulse.OneShotAdds | services/tts/tools/export-pocket.py:71-83 | But for the bias the transposed convolution is additive too |
| Transposed.StreamingUpsample.Call | services/tts/tools/export-pocket.py:71-83 | One call and the partial sum it overwrites |
| Transposed.StreamingUpsample.Run | services/tts/tools/export-pocket.py:71-83 | The equivalence for a run of calls on the mutable state |
| KvCache.Cache.Append | services/tts/tools/export-pocket.py:28-43 | The buffer then begins with the history and the new entries, nothing behind them changes, and the window holds, under their absolute positions, exactly the entries from `context` positions before the offset on, which are all a new query may attend to |
| KvCache.Cache.Increment | services/tts/tools/export-pocket.py:46-47 | After an append, the cache holds the history with the new entries if and only if they are counted in full; a smaller count makes the history end that much earlier |
| KvCache.Cache.Run | services/tts/tools/export-pocket.py:28-47 | After any run of appends that fits, the buffer prefix is the history, and every window on the way served its queries |
| GoldenTemplate.UnionMatches | scripts/golden-http.py:1687-1704 | A union marker, read back by the comparer, accepts exactly the values of one of the types it was written from, the types told by constructors and masks |
| GoldenKinds.TypeIsKind | scripts/golden-http.py:1664-1704 | The type of a value is its constructor, unless it is a text that masks a value of one of the six types |
| GoldenMark.MarkersAccept | scripts/golden-http.py:1664-1704 | Each of the six markers, by its text: `<VOLATILE:boolean>` accepts the booleans and the text `<masked:boolean>` and nothing else, and so on |
| GoldenFits.TemplateFits | scripts/golden-http.py:1716-1729 | Exactly which values the template of a list of values accepts |
| GoldenTemplate.TemplateAccepts | scripts/golden-http.py:1716-1729 | The template of any list of values accepts all of them if and only if rows share their keys and no array is empty, typed paths and mixed positions included |
| GoldenTemplate.MatchesIsEquality | scripts/golden-http.py:1792-1842 | Without markers the comparer finds no difference if and only if the two values are equal |
| GoldenPaths.NullLeafAt | scripts/golden-http.py:1732-1743 | A path is listed as a null leaf if and only if it leads to the null marker |
| GoldenPaths.EmptyArrayAt | scripts/golden-http.py:1766-1776 | Every listed path leads to an array without a template |
| GoldenPaths.EmptyArrayListed | scripts/golden-http.py:1766-1776 | In a template the recorder builds, every such array is listed |
| GoldenPaths.SetLeafIff | scripts/golden-http.py:1746-1753 | On a declared path `set_leaf` raises nothing if and only if the path leads to an object up to its last key, new or not; then it leads to the value that was set |
| GoldenPaths.SetLeafElsewhere | scripts/golden-http.py:1746-1753 | Every path that parts from it leads where it led |
| GoldenPaths.FlagEmptyPuts | scripts/golden-http.py:1756-1763 | On a declared path that leads to an array template, `flag_empty` raises nothing and flags exactly that template |
| GoldenPaths.PutElsewhere | scripts/golden-http.py:1746-1763 | Such an edit leaves every path that parts from it alone |
| GoldenShape.PutLoose | scripts/golden-http.py:1871-1888 | Replacing a leaf by a marker for the values at its path keeps the template accepting the body |
| GoldenShape.FlaggedIsStrict | scripts/golden-http.py:1889-1897 | Once every empty array is flagged, acceptance up to empty arrays is acceptance |
| GoldenMark.LeafMatches | scripts/golden-http.py:1707-1713 | An enum marker accepts exactly its members, an or-null marker exactly null and the objects with its names and types, the types told by constructors and masks |
| GoldenMark.TemplateReaches | scripts/golden-http.py:1716-1729 | The template has a node wherever all the values have the declared path |
| GoldenMark.EditLeavesHold | scripts/golden-http.py:1871-1879 | The loops over the null templates and enums raise nothing and keep the template accepting the value |
| GoldenVolatile.FillNullsHold | scripts/golden-http.py:1880-1888 | So does the loop over the null leaves, in whatever order they come |
| GoldenVolatile.FlagAllHold | scripts/golden-http.py:1889-1897 | So does the loop over the empty arrays, and when all are declared none is left unflagged |
| GoldenVolatile.MarkAccepts | scripts/golden-http.py:1864-1899 | Whatever `mark` records without a report accepts the value it was made from, and it never raises |
| GoldenEdits.VolatileIff | scripts/golden-http.py:1779-1789 | Exactly which values `volatile_value` accepts: for a list any list whose items fit the template, an empty one where declared; otherwise the type of the value, or null where declared |
| GoldenEdits.MarkIff | scripts/golden-http.py:1864-1899 | Exactly which values the mark of a key accepts when the key is not shaped |
| GoldenEdits.ShapedMarkAt | scripts/golden-http.py:1864-1897 | A shaped mark has the declared enum or or-null marker at every declared leaf |
| GoldenEdits.ShapedMarkEnds | scripts/golden-http.py:1864-1897 | At every other end of the template it has what the value gave it, with declared null leaves filled and declared empty arrays flagged |
| GoldenEdits.EditLeavesThere | scripts/golden-http.py:1871-1879 | The loops over the null templates and enums write each marker where it is declared |
| GoldenEdits.FillNullsThere | scripts/golden-http.py:1880-1888 | The loop over the null leaves writes the declared type or null |
| GoldenEdits.FlagAllThere | scripts/golden-http.py:1889-1897 | The loop over the empty arrays flags each declared one |
| GoldenFixed.TypedBelow | scripts/golden-http.py:1859-1862 | The typed paths of a key are those declared below its rows |
| GoldenFixed.EmptyAllowed | scripts/golden-http.py:1792-1842 | An empty list is accepted unless the flag is missing, empty, zero, false or null |
| GoldenReplace.ReplaceIff | scripts/golden-http.py:1919-1931 | Replacing through lists what a path leads to: the two values compare equal off some paths afterwards if and only if they did so off those paths and this one before and, unless both sides were given the same text, what was written accepts what the other side has there |
| GoldenReplace.ReplaceSteps | scripts/golden-http.py:1919-1931 | On a declared path `replace_path`, which takes a key and its `[]` together, is the replacement one step at a time |
| GoldenReplace.RaisesIff | scripts/golden-http.py:1919-1931 | For every path whose text can be declared, and every value: it raises if and only if the path ends in `[]` and reaches a row |
| GoldenReplace.RowsPathRaises | scripts/golden-http.py:1919-1924 | The path `rows[]` raises if and only if the field is a list that is not empty |
| GoldenReplace.WalkableSafe | scripts/golden-http.py:1919-1931 | A path that ends in a key never raises |
| GoldenOff.MatchIsAgreement | scripts/golden-http.py:1792-1842 | Where nothing off the paths reads as a marker, showing no difference off them is being equal off them |
| GoldenRecord.FixIff | scripts/golden-http.py:1904-1916 | Fixing the same paths on both sides leaves exactly the comparison off these paths |
| GoldenFixed.FixedTexts | scripts/golden-http.py:1904-1916 | Everything that stands at a declared placeholder then reads `<BYTES>`, everything at a generated path `<GENERATED>`, and nothing else is written there |
| GoldenRecord.KeysIff | scripts/golden-http.py:1859-1900 | Marking the keys leaves the comparison off the keys, and at each key acceptance by its mark |
| GoldenVerify.VerifyIff | scripts/golden-http.py:1845-1931 | Exactly which answers a recording accepts: those that agree with the recorded one everywhere off the declared paths and whose values at the keys are accepted by the marks made there |
| GoldenVerify.RecordThenVerify | scripts/golden-http.py:1845-1931 | Record, then verify: for a body without markers off its declared paths, keys that part from the other declared paths and describable values, recording without a report raises nothing, nor does verifying, and the body shows no difference from its recording |
| GoldenVerify.VerifyDiscriminates | scripts/golden-http.py:1845-1931 | Whatever the table declares, an answer that passes agrees with the recorded one everywhere off the declared paths |
| Cycles.FindCycles | scripts/lib/check-deps.py:209-227 | Every tuple is a closed walk with distinct interior units; no edge closes two of them; without the edges that close them the graph has no closed walk, so nothing is reported if and only if it has none; the search ends on every finite graph |
| Cycles.Finder.Visit | scripts/lib/check-deps.py:213-222 | The recursion keeps grey units on the stack, black units in an order in which every edge points back but for the closing edges reported, and restores the stack |
| Cycles.Finder.Report | scripts/lib/check-deps.py:217-218 | The tuple built for a back edge is a genuine cycle that this edge closes |
| Tiers.Classify | scripts/lib/check-deps.py:252-268 | Exactly the forbidden and the deferred edges are listed, and the unit graph has an edge exactly where some link crosses units |
| Tiers.ForbiddenIff | scripts/lib/check-deps.py:11-50 | A link between two units is forbidden if and only if it goes up the tiers or stays in a tier above 2 |
| Tiers.AllowedPairs | scripts/lib/check-deps.py:11-11 | Tier 1 may link to 1, and each higher tier to all lower ones, tier 2 also to itself |
| Tiers.PackageTiers | scripts/lib/check-deps.py:27-40 | The tier of every package, by its path |
| Tiers.ServiceUnit | scripts/lib/check-deps.py:43-46 | A service and everything below it are one unit |
| Tiers.ClosedWalkTier | scripts/lib/check-deps.py:11-50 | With no forbidden and no deferred edge, every closed walk lies wholly in tier 1 or wholly in tier 2 |
| Tiers.CheckDeps | scripts/lib/check-deps.py:252-269 | The verdict of the whole check, cycles included: none is missed once the closing edges of those reported are cut |
| WebSocket.ReceiveInvertsSend | scripts/isolation-drill.py:194-265 | For every data opcode, mask and payload below 2^64 bytes, `receive` returns what `_send` wrote and leaves the bytes after it |
| WebSocket.ReadsEncoded | scripts/isolation-drill.py:194-255 | Any frame, masked or not, final or not, is read back whatever follows it |
| WebSocket.WireBytes | scripts/isolation-drill.py:194-208 | The bytes on the wire: flags and opcode, the mask bit and the length in one, two or eight big-endian bytes, the mask, and every payload byte xored bit by bit with the mask byte at its index modulo four |
| WebSocket.ReceiveAssembles | scripts/isolation-drill.py:232-265 | A fragmented message is assembled from its data frames alone, every ping between them is answered in order, and the opcode is that of the last frame |
| WebSocket.ReceivePasses | scripts/isolation-drill.py:232-265 | Fragments and control frames leave their payloads and their pongs, whatever comes after them |
| WebSocket.CutStreamIff | scripts/isolation-drill.py:232-265 | For a stream of any fragments and control frames that ends anywhere inside any frame: exactly when it is answered and exactly when it raises a `TypeError`, the mask bytes that are taken for a frame included |
| WebSocket.CutStream | scripts/isolation-drill.py:232-265 | What it answers: nothing or the error, the whole message of a closing frame, or what the unread bytes of the mask answer as the next frame, after the pings before |
| WebSocket.Leftover | scripts/isolation-drill.py:232-265 | What fewer than four bytes are taken for: exactly when they end the message, with what, and exactly when they raise |
| WebSocket.CutFrame | scripts/isolation-drill.py:232-255 | For every frame and every place where the stream may end inside it: exactly when it is read all the same, and what is left unread then, and exactly when masking it raises a `TypeError` |
| WebSocket.CutMessage | scripts/isolation-drill.py:232-265 | For every message whose last frame is cut: answered if and only if that frame is masked, empty and its header has arrived, and then with the whole message; a `TypeError` if and only if too few bytes for the mask but enough for the payload have arrived; the pings before are answered |
| WebSocket.CutServerStream | scripts/isolation-drill.py:232-265 | A stream that ends inside an unmasked frame answers nothing |
| WebSocket.CutMasks | scripts/isolation-drill.py:249-255 | Inputs that are accepted early, that crash, whose mask is taken for the end of the message and whose mask is taken for a frame that crashes |
| WebSocket.SyncSocket.Send | scripts/isolation-drill.py:194-208 | The bytes sent are the encoding of the frame; only sizes that fit 64 bits succeed |
| WebSocket.SyncSocket.Take | scripts/isolation-drill.py:216-230 | The next bytes however the stream was cut, or nothing and nothing lost |
| WebSocket.SyncSocket.ReceiveMessage | scripts/isolation-drill.py:232-265 | The answer, the bytes left and the pongs depend on the bytes that arrive, not on their chunking |
| DnsName.ReadName | scripts/discovery-drill.py:164-188 | The loop ends on every packet, self-referential pointers included, and computes the reading function |
| DnsName.ReadsLayout | scripts/discovery-drill.py:164-188 | A name of labels and at most 16 pointers, laid out anywhere, is read with the offset just past its first pointer or its terminator |
| DnsName.ReadHasLayout | scripts/discovery-drill.py:164-188 | Whatever is read stands in the packet as such a layout |
| DnsName.TooManyPointers | scripts/discovery-drill.py:175-184 | More than 16 pointers are an error however the name ends |
| DnsName.SelfPointer | scripts/discovery-drill.py:175-184 | A pointer to itself is reported |
| DnsName.EncodedRoundTripIff | scripts/discovery-drill.py:155-188 | An encoded name comes back with its own end if and only if every label has 1 to 191 bytes |
| DnsName.EncodeName | scripts/discovery-drill.py:155-161 | The bytes of any name, each label after the count of its characters, or the error of a label above 255 |
| DnsName.NameSplits | scripts/discovery-drill.py:155-161 | A name of labels, with any dots behind it, is taken apart into exactly these labels |
| DnsName.CharDecodes | scripts/discovery-drill.py:155-161 | Each character is written as the shortest UTF-8 sequence of its code point |
| DnsName.NameBytesBackIff | scripts/discovery-drill.py:155-188 | A name, wherever its encoding stands, is read back as the bytes of its labels with its own end if and only if every label has 1 to 191 characters, all ASCII |
| DnsName.NameRoundTripIff | scripts/discovery-drill.py:155-188 | An ASCII name is read with its own end if and only if every label has 1 to 191 characters, and then its text is the name without the dots at its end |
| DnsName.EmptyNameLost | scripts/discovery-drill.py:155-188 | The empty name is not read back with its own end |
| DnsName.AccentLost | scripts/discovery-drill.py:155-188 | A name of one accented letter is written with a length too small by one and cannot be read |
| RowStream.HashRows | services/auth/tools/migrate-auth/auth-migration.cc:150-199 | The loop hashes exactly the row stream and counts the rows |
| RowStream.RowWire | services/auth/tools/migrate-auth/auth-migration.cc:159-190 | The bytes of a row of one column, by the type of its value |
| RowStream.ColumnsWire | services/auth/tools/migrate-auth/auth-migration.cc:159-190 | The columns of a row follow one another |
| RowStream.StreamDecodes | services/auth/tools/migrate-auth/auth-migration.cc:159-190 | For a fixed column count, rows whose texts and blobs have no byte in 0..5 are determined by their stream |
| RowStream.StreamCollides | services/auth/tools/migrate-auth/auth-migration.cc:159-190 | Without that condition, any two byte strings give two different two-column rows that share a stream |
| AuthMigration.MergeKeeps | services/auth/tools/migrate-auth/auth-migration.cc:240-245 | The insert alters no existing row and adds the source's other rows with their values |
| AuthMigration.MergeTwice | services/auth/tools/migrate-auth/auth-migration.cc:240-245 | A second insert into a table changes nothing |
| AuthMigration.CopyTwice | services/auth/tools/migrate-auth/auth-migration.cc:221-259 | After a copy of all tables the target has every id of the source, and a copy into such a target changes nothing, whatever it would fill in |
| AuthMigration.SelectionsAgree | services/auth/tools/migrate-auth/auth-migration.cc:135-148 | The two ordered selections are equal if and only if the tables agree on the source's columns |
| AuthMigration.SumsDecide | services/auth/tools/migrate-auth/auth-migration.cc:378-406 | When the selected rows are plain and the digest tells their two streams apart if they differ, equal counts and checksums mean agreement |
| AuthMigration.MissingRefused | services/auth/tools/migrate-auth/auth-migration.cc:378-406 | Whatever the digest, equal counts mean that no row of the source is missing |
| AuthMigration.Target.CopyAuthTables | services/auth/tools/migrate-auth/auth-migration.cc:221-259 | All three tables or none, and exactly when the copy commits; after one that commits, another copy changes nothing |
| AuthMigration.Target.VerifyAuthTables | services/auth/tools/migrate-auth/auth-migration.cc:339-412 | The loop accepts exactly when every table is present, covered, readable and has equal sums; whatever the digest, what it accepts has every row of the source |
| AuthMigration.Target.MigrateAuth | services/auth/tools/migrate-auth/auth-migration.cc:414-484 | The target ends as the merge of all three tables if the copy commits, which is told from the tables and the faults, and unchanged otherwise; it is accepted if and only if the copy commits and the verification passes. When no row that was there disagreed with the source, every row of the source is in the target with its values and the migration succeeds; under the condition of SumsDecide, only then |
| Boot.SplitsBack | scripts/lib/boot_proof.py:179-186 | Rendered lines without a break are read back as they were written |
| BootLines.LineCut | scripts/lib/boot_proof.py:99-99 | Each of the ten line boundaries of `splitlines` ends a line, a carriage return together with a newline behind it |
| BootLines.LineWhole | scripts/lib/boot_proof.py:99-99 | A text without any of them is one line |
| BootLines.LineParsed | scripts/lib/boot_proof.py:32-32 | An indent, a key, an equals sign with blanks around it and a value are read as that |
| BootLines.SectionParsed | scripts/lib/boot_proof.py:33-33 | A header is read as the name between its brackets without the blanks around it |
| BootRules.RenderAt | scripts/lib/boot_proof.py:99-171 | Every line of the output: headers and other lines as they are, each assignment as its section and key say, with the port or secret that comes after those of the lines before |
| BootRules.PortIff | scripts/lib/boot_proof.py:12-15 | Exactly which keys of which sections take a port |
| BootRules.SecretIff | scripts/lib/boot_proof.py:16-26 | Exactly which keys of which sections are secrets |
| BootRules.DrawnWritten | scripts/lib/boot_proof.py:112-153 | What is written for them: the port, the port behind the loopback address, the secret in quotes |
| BootRules.FixedWritten | scripts/lib/boot_proof.py:130-149 | The fixed values by section and key, the certificate and its key included |
| BootRules.DatabaseWritten | scripts/lib/boot_proof.py:154-156 | A database goes under the data directory of the scratch directory, by the last part of its path |
| BootRules.PathWritten | scripts/lib/boot_proof.py:157-160 | Other paths are looked up unless they are empty or absolute |
| BootRules.ModelsWritten | scripts/lib/boot_proof.py:159-160 | So are the paths of models under any other key |
| BootRules.PeerWritten | scripts/lib/boot_proof.py:161-165 | Under any other key a quoted peer address, whatever its scheme, host, port and path, leads to the closed port |
| BootRules.KeptWritten | scripts/lib/boot_proof.py:161-171 | Any other value without quotes, or without a colon, stays as it is |
| BootRules.QuoteReadsBack | scripts/lib/boot_proof.py:66-67 | A quoted value reads back and ends at its last quote and not before |
| BootRules.DecimalValue | scripts/lib/boot_proof.py:112-129 | A port is written in decimal without leading zeros |
| Boot.MaskConfig | scripts/lib/boot_proof.py:182-197 | The masking loop computes the masked text |
| BootMask.ReadsBack | scripts/lib/boot_proof.py:32-33 | A rewritten line has the same indent, key and separator when it is parsed again, and is no section header |
| BootMask.QualifiedOnce | scripts/lib/boot_proof.py:148-149 | A qualified name has one reading as a section and a key |
| BootMask.MaskHidesSecrets | scripts/lib/boot_proof.py:81-197 | When no rendered line holds a break, the masked text masks every secret line and no other, and is a function of the template and the ports alone |
| BootReread.MaskStableIff | scripts/lib/boot_proof.py:81-197 | For all options: if no secret line is read in a section under which its name is not hidden, all renders of one template that differ only in their secrets have identical masked output; if one is, renders whose secrets differ have different masked output |
| BootReread.JoinedRead | scripts/lib/boot_proof.py:179-186 | Rendered lines that hold breaks are read as the pieces of each, in order, also where a carriage return ends one |
| BootReread.PlainOptionsHide | scripts/lib/boot_proof.py:81-197 | Options and resolved paths without a line break never expose a secret |
| BootReread.BrokenScratchExposes | scripts/lib/boot_proof.py:154-197 | A scratch directory with a line break in its name exposes the secret of the next line |
| BootReread.BrokenScratchShows | scripts/lib/boot_proof.py:81-197 | With it, two renders of one template whose secrets differ have different masked texts |
| BootRun.Ports.Fresh | scripts/lib/boot_proof.py:43-57 | The first usable draw among ten thousand, in range and not taken, which is then taken; failure exactly when there is none |
| BootRun.RenderConfig | scripts/lib/boot_proof.py:81-179 | The loop renders the template with the ports and secrets it drew; all ports of a render are pairwise distinct and none was taken or reserved before; it fails if and only if the draws do not last for the closed port and one port for every line that takes one |

## Left out

- The Python, CMake, YAML, TOML, env, gitconfig and Dockerfile scanners: they use library parsers or add easier variants of the same claims.
- ShellGrammar.GrammarScanned: the grammar does not generate every accepted script, for example several here-documents on a line (`DocsQueue` and `DocsTaken` cover them step by step), the words `case` and `esac` inside plain text, and comments before a carriage return.
- Stripping shell scripts: the shell scanner is modelled, the rewriter only for the C family, Protobuf, JSON and SQL.
- Error texts and line numbers of exceptions: only which error occurs is modelled.
- Floating-point rounding in the layers: arithmetic is over the reals, and batch dimensions are one.
- The state-free branch of `scattered_append`, the attention mask and the ONNX export: they belong to the library that is patched.
- The wording and order of the lines `differences` returns: the model decides whether there are any.
- Declared paths of golden-http.py are lists of steps, not text, which assumes field names that are not empty, hold no dot and do not end in `[]`.
- `normalize`, `violates`, the probe plan and the HTTP side of golden-http.py: requests and file handling around the comparer.
- In-place editing of nested dictionaries in golden-http.py: `set_leaf`, `flag_empty` and `replace_path` are functions on values; the program edits a fresh copy, so no alias can be seen.
- The branches of `shell_spans` and the loop of `consume_heredocs` are functions on the rest of the text, and the main loop is a method over them; the lists inside `frames` are values.
- JSON numbers are reals: NaN and the infinities that Python's parser accepts are not covered.
- The CMake parsing of check-deps.py: the edges are the input, and the tier recorded with an edge is the tier of its dependency.
- The WebSocket handshake, deadlines and timeouts: bytes arrive in chunks or the connection ends.
- Decoding of DNS labels that are not ASCII: labels are compared as bytes, and as text when they are ASCII; `decode("utf-8", "replace")` of other bytes is not modelled.
- Path checks, schema application and source validation of the migration: the model starts when both databases are open; constraints other than the primary key are faults, and values are taken as stored unchanged, without SQLite's type affinity.
- `Fnv1a` itself: the digest is an arbitrary function of the byte stream.
- The camera, notification, productivity and identity migrations: near copies of the auth one.
- The health, rpc and tls entries of the boot-proof summary, and what `resolve_path` finds on disk: the first are last assignments, the second is a parameter.
- Service start-up wiring, configuration clamps, drills that only observe a running system, audio fixtures and model probes.
