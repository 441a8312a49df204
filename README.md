# ai_sql_converter: chunking, merging and assembly

This project models the deterministic core of `ai_sql_converter` in Dafny. That
tool hands SQL text to a language model piece by piece. It has two parts.

- **`SQLExtractor`** (`sql_extractor.py`) reads a file of stored procedures.
  - It cuts the file into chunks, line by line. A line whose stripped,
    lower-cased text starts with `create proc` opens a procedure, and a line
    whose stripped, lower-cased text is `go` closes it.
  - A closed procedure becomes one `full` chunk when its estimate (`len // 3`)
    is at most 6000 tokens.
  - Otherwise it becomes a `header` chunk plus `body` chunks. A body that is
    itself over budget is packed greedily into numbered parts.
  - It then has each chunk analysed and merges the analyses of body parts into
    the header's record kept in `partial_results`. It keeps the results that
    reach the final list.
- **`SQLConverter`** (`sql_converter.py`) works on whole files.
  - It splits SQL text on the substring `go` and strips the pieces. It
    subdivides oversized statements on `create proc` and then on `begin`.
  - It cleans the code fences out of each model answer.
  - It joins the answers with `"\n\nGO\n\n"`.
  - It derives the output file name with `get_target_file_path`.

The language model is not modelled. Its outcome for each chunk is an input:
- for the extractor, a record or a failure (an exception after the retries);
- for the converter, the reply text or `None`.

Files:
- `wrappers.dfy`: `Option` and `Result`.
- `lists.dfy`: flattening lists of lists.
- `pystr.dfy`: the Python string built-ins the code relies on. These are
  `strip`, `lower`, `startswith`, `in`, `split(sep)`, `join`, `replace(x, '')`
  and `split()[-1]`.
- `extraction_chunks.dfy`: what the extractor's chunker computes.
  - `Run` is the line-by-line state machine, written as a function.
  - `Procedures` is an independent, procedure-at-a-time reading of the same
    input.
  - The lemmas prove the two agree, and prove the header/body split and the
    packing.
- `sql_extractor.dfy`: the class `SqlExtractor`.
  - Its `partialResults` field is the source's `partial_results`.
  - Its methods carry the loops of the source and are proved equal to the
    specification functions.
  - It also holds the merge and aggregation rules and their lemmas.
- `sql_converter.dfy`:
  - the statement chunker (nested loops proved equal to a specification
    function);
  - the class `SqlConverter`;
  - the fence cleanup, the assembler and the target path, with their lemmas.

Where the written description of the tool and the code disagree, the model
follows the code:
- The converter splits on the case-sensitive substring `go` wherever it
  occurs (inside `good` or `category` too). It does not split on a standalone
  `GO` line.
- A body analysis whose procedure has no stored header record is returned
  unchanged. In the aggregation it then counts like any other body result.
- Any failed analysis, including a header's, makes `process_sql_file`
  return `[]`.
- The last part of a multi-part body is merged and returns `None` like the
  other later parts. So when the header's analysis names the procedure as its
  chunks do, a procedure split into two or more body parts never reaches the
  final list; only its merged record in `partial_results` holds it.
- The chunks are named by the create line's last word, while the stored
  record carries the name the header's analysis returned. For
  `create procedure foo(@a int)` the chunks are named `int)`, so no body part
  finds the header's record. Each part is then returned unchanged and the
  last part reaches the final list.
- The body-start test is a prefix test, so a line starting with `asc` or
  `assert` also starts the body.

## Model

| member | source | states |
|---|---|---|
| ExtractionChunking.EstimateTokens | sql_extractor.py:54-67 | the estimate `n` is the length divided by three, rounded down: `3n <= len < 3n + 3` |
| ExtractionChunking.EstimateMonotone | sql_extractor.py:67 | a text no shorter than another never gets a smaller estimate |
| ExtractionChunking.HeaderLengthSpec | sql_extractor.py:124-134 | no header line starts the body; the first line after the header (if any) starts with `as` or `begin` once stripped and lower-cased |
| ExtractionChunking.Pack | sql_extractor.py:140-154 | the greedy packing of the body lines into parts (no contract of its own; PackSpec states its properties) |
| ExtractionChunking.PackFrom | sql_extractor.py:144-154 | the packing loop from an intermediate state (no contract of its own; PackFromKeepsLines and PackFromGoodParts state its properties) |
| ExtractionChunking.PackSpec | sql_extractor.py:140-154 | the packed parts concatenated are exactly the body lines in order; each part is non-empty and its per-line estimates sum to at most 6000 unless it is a single line |
| ExtractionChunking.PackFromKeepsLines | sql_extractor.py:144-154 | from any intermediate state the packing loop only appends lines, in order, to the parts already made |
| ExtractionChunking.PackFromGoodParts | sql_extractor.py:144-154 | from a state whose parts are within budget (or single lines), every part the loop emits is too |
| ExtractionChunking.ClosedChunks | sql_extractor.py:117-188 | the chunks of a procedure closed by `go`: at least one, the first a `full` or `header` chunk, `full` exactly when the estimate is at most 6000, every chunk named by the procedure |
| ExtractionChunking.ClosedChunksFit | sql_extractor.py:183-188 | a closed procedure whose estimate is at most 6000 is exactly one `full` chunk holding all its lines joined by newlines |
| ExtractionChunking.ClosedChunksOneBody | sql_extractor.py:172-182 | an over-budget procedure whose body fits is a `header` chunk with the lines before the first body-start line, followed by one un-numbered `body` chunk with the rest |
| ExtractionChunking.NumberedParts | sql_extractor.py:138-171 | an over-budget body gives the header chunk first, then `k >= 1` body chunks numbered `0..k-1`, each with total `k`; the parts hold the body lines in order, each within budget unless a single line |
| ExtractionChunking.KeepNonBlank | sql_extractor.py:201 | every chunk kept has non-blank content, and a chunk is kept exactly when it was emitted and is not blank |
| ExtractionChunking.KeepNonBlankSingle | sql_extractor.py:201 | one chunk is kept exactly when its content is not blank |
| ExtractionChunking.KeepNonBlankConcat | sql_extractor.py:201 | filtering two runs of chunks one after the other is filtering each, so the kept chunks keep their order and multiplicity |
| ExtractionChunking.ProcedureEndClosed | sql_extractor.py:116-117 | a procedure counted as closed ends just after a `go` line |
| ExtractionChunking.ProcedureEndCut | sql_extractor.py:100-108 | a procedure not closed is cut just before the next create line or at the end of input |
| ExtractionChunking.ProcedureEndSkips | sql_extractor.py:113-117 | no line a procedure takes in before its end is a create line or a `go` line |
| ExtractionChunking.Procedures | sql_extractor.py:96-117 | the independent, procedure-at-a-time reading of the lines (no contract of its own; ProceduresWellFormed and RunOutside state what it is) |
| ExtractionChunking.ProceduresWellFormed | sql_extractor.py:96-117 | every procedure found starts with a create line, is named by that line's last word, ends with its `go` line when closed, and holds no other create or `go` line |
| ExtractionChunking.Step | sql_extractor.py:96-191 | one iteration of the line loop (no contract of its own; StepAtCreate, StepAtGo and StepInside state its cases) |
| ExtractionChunking.Run | sql_extractor.py:96-199 | the line loop followed by the final flush (no contract of its own; RunOutside and RunInside state what it emits) |
| ExtractionChunking.StepAtCreate | sql_extractor.py:100-110 | a create line while a procedure is open flushes the open lines as a `full` chunk, unchecked for size, and opens a new procedure named by its last word |
| ExtractionChunking.StepAtGo | sql_extractor.py:116-191 | a `go` line inside a procedure appends that procedure's chunks (by size) and leaves the procedure |
| ExtractionChunking.StepInside | sql_extractor.py:113-114 | any other line inside a procedure is collected and nothing is emitted |
| ExtractionChunking.InsideAtEnd | sql_extractor.py:193-199 | at end of input the open procedure is flushed as one `full` chunk whatever its size |
| ExtractionChunking.RunOutside | sql_extractor.py:96-114 | from outside a procedure the state machine emits exactly the chunks of the procedures of the remaining lines; lines outside any procedure contribute nothing |
| ExtractionChunking.RunInside | sql_extractor.py:96-199 | from inside an open procedure the state machine emits exactly the chunks of the procedures of the open lines followed by the rest |
| ExtractionChunking.ExtractionChunks | sql_extractor.py:88-201 | empty input yields no chunks, and every chunk returned has non-blank content |
| ExtractionChunking.ChunksByProcedure | sql_extractor.py:88-201 | the chunker's result is, in input order, each procedure's chunks (closed ones by size, unterminated ones as `full`), with blank chunks dropped |
| PyStr.Strip | sql_extractor.py:97 | `strip()` never lengthens the text (StripSpec states what it removes) |
| PyStr.StripSpec | sql_extractor.py:97 | the stripped text has no whitespace at either end, and is empty exactly when the text is blank |
| PyStr.LastWord | sql_extractor.py:110 | `split()[-1]` is never longer than the line (LastWordSpec states that it is the last whole word) |
| PyStr.LastWordSpec | sql_extractor.py:110 | the procedure name holds no whitespace, is a whole word ending the right-stripped line, and is empty only for a blank line |
| PyStr.Split | sql_converter.py:87 | `split(sep)` yields at least one piece, and the first piece is a prefix of the text (JoinSplit and SplitPiecesAvoidSep state the rest) |
| PyStr.SplitPiecesAvoidSep | sql_converter.py:87 | no piece of `split(sep)` contains the separator |
| PyStr.JoinSplit | sql_extractor.py:96 | joining the pieces of `split(sep)` with `sep` gives the text back, so the lines are the input in order |
| Extractor.Union | sql_extractor.py:306 | the merged table list holds exactly the tables of either list, without duplicates |
| Extractor.FirstMatch | sql_extractor.py:295-311 | the index found is the first partial result with the chunk's procedure name; `None` exactly when there is none |
| Extractor.MergeBody | sql_extractor.py:292-313 | names and parameters of the partial results are unchanged; the result is `None` exactly for a body part with index > 0 whose procedure is stored; a matched body takes the stored parameters; any other result is the analysis unchanged; for a numbered part with a match only the first matching record changes: part 0 overwrites its description and tables, a later part appends a newline and its description and adds its tables; in every other case the partial results are unchanged |
| Extractor.MergePart | sql_extractor.py:304-307 | a later part keeps the stored record's name and parameters, appends a newline and its description to the stored description, and adds its tables to the stored ones |
| Extractor.MergeParts | sql_extractor.py:303-307 | merging any number of later parts keeps the stored record's name and parameters |
| Extractor.MergePartsSpec | sql_extractor.py:303-307 | once all parts are merged, the stored description is the parts' descriptions joined by newlines and its tables are every table any part named |
| Extractor.LaterParts | sql_extractor.py:377-386 | the later body parts of a stored procedure leave the final list alone and fold into its stored record, in order |
| Extractor.HeaderThenFirstPart | sql_extractor.py:308-310 | the header analysis is stored; part 0 then overwrites its description and tables and is returned with the header's parameters, reaching the final list only when it is the only part |
| Extractor.MultiPartProcedure | sql_extractor.py:377-386 | for a header with `k` numbered body parts: the final list gains the single part (with the header's parameters) when `k = 1` and nothing otherwise; one record is stored with the header's name and parameters, all descriptions joined and all tables |
| Extractor.HeaderThenSingleBody | sql_extractor.py:377-386 | a header followed by one un-numbered body stores the header's record unchanged and puts the body's analysis in the final list, with the header's parameters when the names agree and unchanged otherwise |
| Extractor.UnmatchedParts | sql_extractor.py:377-386 | numbered body parts of a procedure with no stored record are each returned unchanged, and only the last reaches the final list |
| Extractor.MismatchedHeaderName | sql_extractor.py:295-296 | when the header's analysis names the procedure differently from its chunks, the header's record is stored unchanged and the last body part reaches the final list unchanged |
| Extractor.ParameterListName | sql_extractor.py:110 | the chunks of `create procedure foo(@a int)` are named `int)` |
| Extractor.ProcessFrom | sql_extractor.py:377-386 | the aggregation loop over the remaining chunks (no contract of its own; the lemmas around it state its behaviour) |
| Extractor.ProcessFile | sql_extractor.py:344-392 | `process_sql_file` on the file's text: the aggregation over its chunks from empty partial results (no contract of its own) |
| Extractor.FailureYieldsNothing | sql_extractor.py:390-392 | one failed analysis anywhere makes the file yield an empty final list |
| Extractor.FullChunksReturnedInOrder | sql_extractor.py:377-383 | when every chunk is `full`, the final list is the analyses in chunk order and no partial result is added |
| Extractor.PartialsKeyedByHeaders | sql_extractor.py:373-392 | for any outcomes, failures included, processing never removes, renames or re-parameterises a stored partial result; it only appends |
| Extractor.SqlExtractor.constructor | sql_extractor.py:43-52 | a new extractor has no partial results |
| Extractor.SqlExtractor.SplitSqlIntoChunks | sql_extractor.py:69-201 | the line loop returns exactly the chunks of the chunker's specification |
| Extractor.SqlExtractor.ClosedProcedureChunks | sql_extractor.py:117-188 | the chunks for a closed procedure are its `full` chunk, or its header and body chunks, as specified |
| Extractor.SqlExtractor.SplitHeaderBody | sql_extractor.py:124-134 | the header is the lines before the first body-start line and the body is the rest |
| Extractor.SqlExtractor.PackBody | sql_extractor.py:140-154 | the packing loop yields the specified parts, each joined by newlines |
| Extractor.SqlExtractor.ExtractFromChunk | sql_extractor.py:292-313 | a failure propagates and changes nothing; a success returns the merge result and leaves the merged partial results in the field |
| Extractor.SqlExtractor.ProcessSqlFile | sql_extractor.py:344-392 | the final list and the partial results left in the field are those of the aggregation specification from empty partial results |
| Converter.StrippedPiecesSpec | sql_converter.py:401 | every kept piece is non-empty, already stripped and free of the separator |
| Converter.StatementsSpec | sql_converter.py:401 | every statement is non-empty, stripped and holds no `go` |
| Converter.ConverterChunks | sql_converter.py:391-425 | the chunk list of `split_sql_content` (no contract of its own; the lemmas below state its properties) |
| Converter.StatementChunks | sql_converter.py:407-423 | the chunks of one statement: itself when it fits, else the chunks of its `create proc` pieces (no contract of its own) |
| Converter.PieceChunks | sql_converter.py:410-421 | the chunks of one `create proc` piece: none when blank, its `begin` blocks when oversized, else `create proc` plus the piece (no contract of its own) |
| Converter.BlockChunks | sql_converter.py:415-419 | the chunks of the `begin` blocks of an oversized piece (no contract of its own; BlockChunksSpec states its properties) |
| Converter.SplitSqlContent | sql_converter.py:391-425 | the nested loops return exactly the specified chunk list |
| Converter.ChunkStatement | sql_converter.py:404-423 | a statement within budget is one chunk, itself; an oversized one is split as specified |
| Converter.SplitStatement | sql_converter.py:409-421 | the loop over the `create proc` pieces yields the specified chunks |
| Converter.SplitPiece | sql_converter.py:415-419 | the loop over the `begin` blocks yields the specified chunks |
| Converter.SmallStatementsAreChunks | sql_converter.py:403-423 | when every statement is within budget the chunks are the statements, in order |
| Converter.ConverterChunksWithinBudget | sql_converter.py:401-423 | for text whose statements all fit, the chunks are exactly the stripped, non-blank pieces between the `go`s |
| Converter.BlockChunksSpec | sql_converter.py:415-419 | every block chunk is non-blank and is either `create proc` plus the whole piece or starts with `begin`; without a block equal to the piece all start with `begin` |
| Converter.OversizedPieceSpec | sql_converter.py:413-419 | an oversized piece without `begin` is emitted whole after `create proc`; one with `begin` yields chunks that all start with `begin` |
| Converter.ProcChunksNotBlank | sql_converter.py:409-421 | no chunk of an oversized statement is blank |
| Converter.StatementChunksNotBlank | sql_converter.py:403-423 | no chunk of non-blank statements is blank |
| Converter.ConverterChunksNotBlank | sql_converter.py:391-425 | no chunk the splitter returns is blank |
| Converter.ThreeStatements | sql_converter.py:401-423 | three trimmed statements without `g`, written `s1 go s2 go s3`, are exactly the three chunks when each fits |
| Converter.ThreeStatementExample | tests/test_sql_converter.py:58-62 | the unit test's input yields exactly its three statements as chunks |
| Converter.SqlConverter.SplitSqlIntoChunks | sql_converter.py:79-111 | the method's copy returns the same list as `split_sql_content` for every input and budget |
| Converter.CleanModelOutput | sql_converter.py:72-73 | the fence cleanup of a reply (no contract of its own; the lemmas below state its properties) |
| PyStr.RemoveAll | sql_converter.py:73 | `replace(pat, '')` never lengthens the text (RemoveAllIsJoinOfSplit and RemoveAllAbsent state what it removes) |
| PyStr.RemoveAllIsJoinOfSplit | sql_converter.py:73 | `replace(pat, '')` equals joining the pieces of `split(pat)` with nothing |
| PyStr.RemoveAllAbsent | sql_converter.py:73 | removing a pattern that does not occur changes nothing |
| Converter.RemoveFenceLeavesNone | sql_converter.py:73 | after removing every fence, none is left, not even one formed across a removed fence |
| Converter.CleanOutputHasNoFence | sql_converter.py:72-73 | the cleaned answer holds no code fence and has no whitespace at either end |
| Converter.CleanOutputIdempotent | sql_converter.py:72-73 | an answer already stripped and without fences is unchanged by the cleanup |
| Converter.CleanTwice | sql_converter.py:72-73 | cleaning a cleaned answer changes nothing |
| Converter.Truthy | sql_converter.py:131 | the kept answers are non-empty answers that were returned, and every non-empty answer is kept; none are kept exactly when every answer is `None` or empty |
| Converter.TruthySingle | sql_converter.py:131 | one answer is kept exactly when it is present and not empty |
| Converter.TruthyConcat | sql_converter.py:131 | filtering two runs of answers one after the other is filtering each, so the kept answers keep their order and multiplicity |
| Converter.AssembleResults | sql_converter.py:131-132 | the result is `None` exactly when every answer is `None` or empty, and otherwise is non-empty |
| Converter.SplitJoinedResults | sql_converter.py:132 | splitting the joined answers on the separator gives the answers back when none contains `"\n\nGO"` |
| Converter.AssembleSplitsBack | sql_converter.py:131-132 | the assembled text splits on the separator into the kept answers, in chunk order |
| Converter.SplitExt | sql_converter.py:235 | root and extension concatenate to the path; the extension is empty or starts with a dot and holds no other dot and no `/`; it is non-empty exactly when the last path component has a dot preceded by a non-dot character in that component |
| Converter.TargetFilePath | sql_converter.py:229-237 | `get_target_file_path` (no contract of its own; TargetFilePathSpec states it) |
| Converter.TargetFilePathSpec | sql_converter.py:229-237 | with `auto` in any letter case the target is the source's root plus `_result.sql`, which differs from the source; otherwise it is the configured value |
| Converter.SqlConverter.constructor | sql_converter.py:20-21 | the converter keeps the source and target database types it is given |
| Converter.SqlConverter.ValidateDbType | sql_converter.py:37-41 | validation succeeds exactly for the six supported database types, and otherwise yields the error |
| Converter.SqlConverter.ConvertSqlChunk | sql_converter.py:43-77 | an answer is produced exactly when both database types are supported and the model replied; it is the cleaned reply, without fences and stripped |
| Converter.SqlConverter.ConvertEach | sql_converter.py:120-128 | one converted answer per chunk, in chunk order |
| Converter.SqlConverter.ConvertSqlParallel | sql_converter.py:113-132 | the result is the assembly of the converted answers in chunk order, and is `None` exactly when every converted answer is `None` or empty |
| Converter.SqlConverter.NothingConverted | sql_converter.py:131-132 | the assembled answer is missing exactly when every cleaned reply is missing or empty |

## Left out

- The language-model calls are not modelled: `client.chat.completions.create`
  in `_convert_sql_chunk` and in `extract_from_chunk`, and the JSON
  validation of the reply. They are opaque foreign calls, so each chunk's
  outcome is an input.
- The retry and back-off loop of `extract_from_chunk` (timeouts, `sleep`,
  which `except` branch fires) is not modelled. Only its final outcome, a
  record or an exception, is an input.
- Concurrency is not modelled: the thread pool, `run_in_executor`,
  `create_task` and `gather`. `gather` keeps task order, so the model maps over
  the chunks in order.
- File, environment and console I/O are not modelled: reading the SQL file,
  `load_sql_files`, the prompt load and save functions, `load_dotenv`,
  `os.getenv` and `print`. The file's text is a parameter. The database types
  are constructor arguments.
- The read failure in `process_sql_file` (an unreadable file returns `[]`) is
  not modelled, because the text is given.
- Prompt building is not modelled: the message list, `PromptOptimizer` and the
  `chunk_index` argument of `extract_from_chunk`, which is used only in a
  message.
- Timing and orchestration are not modelled: the `time.time()` logging, the
  module-level and method `convert_sql`, and `main`.
- Extractor.Union: `list(set(a + b))` has a hash-dependent order. The model
  keeps the first occurrence of each table, and its contract speaks only of
  membership and absence of duplicates.
- PyStr.Lower: `lower()` is modelled on ASCII letters only.
  This matters for the keyword tests only where a non-ASCII letter lowers to
  an ASCII one.
- Converter.SplitExt: `os.path.splitext` is modelled as on a POSIX system,
  with `/` as the only separator. Leading dots of the file name do not
  start an extension.
- Whole-file scenarios with a repeated procedure name are not stated. The
  scenario lemmas (`LaterParts`, `HeaderThenFirstPart`,
  `MultiPartProcedure`, `HeaderThenSingleBody`) start with no stored record
  for the procedure's name. A name that occurs twice in a file is covered
  only by `MergeBody`'s general contract: a body merges into the first
  stored record with its name.
