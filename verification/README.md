# ncer parser, modelled in Dafny

A model of `load_data` in `parser.py`. This is the loader that turns a
tab-delimited file of genomic intervals into documents for a document store.
Each line holds four fields: chromosome, start, end and percentile. For each line
the code:

1. strips the surrounding white space and splits on the tab delimiter;
2. unpacks exactly four fields;
3. formats the variant id `<chrom>:g.<start>_<end>` from the raw fields;
4. builds the record `{chrom, start, end, percentile}` of raw strings;
5. removes null-like values with `dict_sweep`;
6. yields `{"_id": id, "ncer": record}`.

A line that does not unpack into four fields raises `ValueError`, and that ends
the generator.

The model follows the code, not the docstring of `load_data` (parser.py:19-20),
which speaks of parsing "according to the schema given by `data_schema`" and of
"normalizing data format". There is no integer or float conversion: all four
fields stay strings.
No `chr` prefix is added or stripped, so `"1\t100\t200\t0.85"` gets the id
`1:g.100_200`, not `chr1:g.100_200`. There is no skip-and-continue and no skip
counter: the first malformed line ends the run, and the documents yielded before
it stay yielded.

Files (each a module):

- `pystr.dfy` (`PyStr`): Python's `str.strip()` and `str.split(sep)`, plus
  `Join` (`sep.join`) as the reference inverse of `Split`.
- `sweep.dfy` (`Sweep`): what `dict_sweep(d, vals=['', 'null', 'N/A', None, [], {}])`
  does to a flat dict of strings.
- `parser.dfy` (`Parser`): the constants, the record and document shapes, and
  `ParseLine`, the loop body for one line. `ParseLine` is `Unpack` applied to the
  line's `Fields`. `Unpack` uses three builders: `VariantId` is the id format
  (parser.py:40), `RawVariant` is the record literal (parser.py:41-46), and
  `MakeDocument` is the yielded dict (parser.py:48-51).
- `parser_facts.dfy` (`ParserFacts`): what a line yields, stated against the
  line's text.
- `loader.dfy` (`Loader`): the whole run. `Load` is a recursive reference
  definition and `Run` is the loop with its line counter.

Record keys and document keys are enumerations (`Field`, `DocKey`). Their
`Name()` gives the dict key spelling (`"chrom"`, …, `"_id"`, `"ncer"`).
`Parser.KeyNamesDistinct` proves the spellings are pairwise distinct, so each map
has exactly as many entries as the Python dict.

## Model

| member | source | states |
|---|---|---|
| PyStr.Strip | parser.py:39 | `line.strip()` returns a trimmed string. It sits inside the line, and everything around it is white space. |
| PyStr.StripPadded | parser.py:39 | Stripping `a + x + b` gives `x` when `a` and `b` are all white space and `x` is trimmed. So the result of `strip()` is unique. |
| PyStr.StripIdempotent | parser.py:39 | Stripping twice is the same as stripping once. |
| PyStr.Split | parser.py:39 | `split('\t')` yields one more piece than the string has tabs. No piece contains a tab, and joining the pieces with tabs gives back the string. |
| PyStr.SplitJoin | parser.py:39 | Splitting tab-joined, tab-free fields gives back exactly those fields. |
| Sweep.NullLikeIff | parser.py:47 | A string value matches the sweep list exactly when it is `""`, `"null"` or `"N/A"`. `None`, `[]` and `{}` never equal a string. |
| Sweep.DictSweep | parser.py:47 | A key survives the sweep iff its value is not in the list. A surviving key keeps its value, and no key is added. |
| Sweep.SweepIdempotent | parser.py:47 | No sweep value is left after a sweep, and a second sweep changes nothing. |
| Sweep.SweepKeepsClean | parser.py:47 | A record with no sweep value comes through the sweep unchanged. |
| Parser.Fields | parser.py:39 | The fields of a line number one more than the tabs in its stripped text, and none contains a tab. |
| Parser.Unpack | parser.py:39-51 | The four-name unpack succeeds iff the split produced exactly four fields. Otherwise the unpack error reports how many it produced. A document has exactly the keys `_id` and the source name, with a text value under `_id` and a record under the source name. |
| Parser.ParseLine | parser.py:39-51 | A line yields a document iff its stripped text has exactly three tabs. Otherwise the unpack error reports a field count, which is never 4. A document has exactly the keys `_id` and the source name. |
| Parser.KeyNamesDistinct | parser.py:41-51 | The four record keys have distinct spellings, and `"_id"` differs from `"ncer"`. |
| ParserFacts.ParsedDocument | parser.py:39-47 | For a parsed line, the id is `f0 + ":g." + f1 + "_" + f2` over the raw fields. The record holds a column iff that field is not null-like, and then with the field's text. |
| ParserFacts.SweptVariant | parser.py:41-47 | The swept raw record keeps a column exactly when its field is not null-like, with the field unchanged. |
| ParserFacts.ParseTabLine | parser.py:39-51 | Four tab-free fields joined by tabs and padded with white space parse into one document, provided the first field is non-empty and does not start with white space and the last field is non-empty and does not end with it. Its id is built from the raw fields, including any the sweep removes. Its record is the swept four-field map. |
| ParserFacts.TrailingEmptyFieldLost | parser.py:39 | The strip runs before the split, so `c\ts\te\t` loses its trailing empty field and fails the unpack with 3 fields. This holds for tab-free `c`, `s`, `e` where `c` is non-empty and does not start with white space and `e` is non-empty and does not end with it. |
| ParserFacts.BlankLineFails | parser.py:39 | An empty or all-white-space line splits into one field and fails the unpack. |
| ParserFacts.EdgeFieldsNonEmpty | parser.py:39-47 | The chrom and percentile fields of a parsed line are never empty. Each is swept only when it is `"null"` or `"N/A"`. |
| ParserFacts.ParseCleanTabLine | parser.py:39-51 | A line of four tab-free fields joined by tabs, none of them null-like, keeps all four fields, as strings, in its record. The first field must be non-empty and must not start with white space, and the last field must be non-empty and must not end with it. |
| ParserFacts.ParseEmptyCoordinates | parser.py:40-47 | Empty start and end fields are swept from the record, but the id still carries them (`<chrom>:g._`). |
| ParserFacts.ExampleLine | parser.py:39-51 | `"1\t100\t200\t0.85"` yields id `1:g.100_200` and the four fields as strings. |
| ParserFacts.ExampleEmptyCoordinates | parser.py:40-47 | `"1\t\t\t0.5"` yields id `1:g._` and a record holding only chrom and percentile. |
| ParserFacts.ExampleTrailingTab | parser.py:39 | `"1\t2\t3\t"` fails the unpack with 3 fields. |
| Loader.Load | parser.py:32-51 | A completed run has read every line (`count` equals the number of lines) and yielded one document per line. An aborted run has read at least one line and yielded one document fewer than it read. |
| Loader.LoadData | parser.py:26-30 | A missing input file fails before any line is read, and only then is the result `MissingFile`. |
| Loader.LoadCompletesIff | parser.py:35-51 | A run completes iff every line parses. |
| Loader.LoadInOrder | parser.py:35-51 | The i-th document of a completed run is the document of the i-th line. |
| Loader.LoadStopsAtFirstFailure | parser.py:34-39 | An aborted run stops at the first failing line. Its count is that line's position plus one, its error is that line's error, and it yielded, in order, the documents of every earlier line. |
| Loader.AbortedPrefixCompletes | parser.py:35-51 | The documents of an aborted run are exactly what a complete run over the lines before the failing one yields. |
| Loader.RunLines | parser.py:34-51 | The loop with its counter, which returns at the first unpack failure, ends exactly as the recursive `Load` does. |
| Loader.Run | parser.py:26-52 | The existence check followed by the loop ends exactly as `LoadData` says. |

## Left out

- File handling: the path join, the open and the line iteration (parser.py:26, 32, 35). The existence check is a boolean parameter of `LoadData`/`Run`, and the file's lines are a `seq<string>`. Each line may keep its newline, which the strip removes.
- The error values' contents. The missing-file case raises `FileExistsError` with the message `Cannot find input file: <path>` (parser.py:5, 29-30); the model has only the outcome `MissingFile`. The unpack `ValueError` is modelled only as `UnpackError(got)`, without its message.
- Logging (parser.py:13-14, 29, 33, 36, 52), including the progress percentage `count / FILE_LINES`, which uses floating point, and the `FILE_LINES` constant.
- Generator laziness. The run is one value: the documents yielded before the end, plus how the run ended.
- The configuration globals (parser.py:10-12) are constants: `SourceName = "ncer"` and `Delimiter = '\t'`. `file_name` only feeds the path join.
- `dict_sweep` beyond a flat dict of strings. Its treatment of nested lists and dicts cannot arise here, because every value is a string.
- Key order. Python dicts keep insertion order: the yielded dict lists `_id` before `ncer`, and the record lists chrom, start, end and percentile minus the swept keys (parser.py:41-51). The model's maps (`Variant`, `Document`) are unordered, so this order is not modelled.
- PyStr.IsSpace lists the characters Python's `str.isspace()` accepts, as code points. The table is fixed and does not follow future Unicode versions.
