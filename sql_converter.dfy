/** `SQLConverter`: it splits SQL text into statement chunks, has each chunk
    converted by a language model, cleans the model's answers and joins them.
    The model's answer for a chunk is an input (`None` when the call fails). */
module Converter {
  import opened Wrappers
  import opened Lists
  import opened PyStr

  /** The default `max_chunk_size`. */
  const MaxChunkSize: int := 8000

  // ---------------------------------------------------------------- statement chunks

  /** The stripped, non-blank pieces, in order. */
  function StrippedNonBlank(pieces: seq<string>): (r: seq<string>)
    ensures |r| <= |pieces|
    decreases |pieces|
  {
    if pieces == [] then []
    else
      var last := Strip(pieces[|pieces| - 1]);
      StrippedNonBlank(pieces[..|pieces| - 1]) + (if last != "" then [last] else [])
  }

  /** `[stmt.strip() for stmt in sql_content.split('go') if stmt.strip()]`: the
      separator is the lower-case substring `go` wherever it occurs. */
  function Statements(content: string): seq<string>
  {
    StrippedNonBlank(Split(content, "go"))
  }

  /** The chunks for the blocks of an oversized procedure piece. */
  function BlockChunks(blocks: seq<string>, proc: string): seq<string>
    decreases |blocks|
  {
    if blocks == [] then []
    else
      var block := blocks[|blocks| - 1];
      BlockChunks(blocks[..|blocks| - 1], proc)
        + if Strip(block) == "" then []
          else if block == proc then ["create proc" + block]
          else ["begin" + block]
  }

  /** The chunks for one piece of an oversized statement cut at `create proc`. */
  function PieceChunks(proc: string, maxChunkSize: int): seq<string>
  {
    if Strip(proc) == "" then []
    else if |proc| > maxChunkSize then BlockChunks(Split(proc, "begin"), proc)
    else ["create proc" + proc]
  }

  function ProcChunks(procs: seq<string>, maxChunkSize: int): seq<string>
    decreases |procs|
  {
    if procs == [] then []
    else ProcChunks(procs[..|procs| - 1], maxChunkSize) + PieceChunks(procs[|procs| - 1], maxChunkSize)
  }

  /** The chunks for one statement: itself, or its pieces when it is oversized. */
  function StatementChunks(stmt: string, maxChunkSize: int): seq<string>
  {
    if |stmt| > maxChunkSize then ProcChunks(Split(stmt, "create proc"), maxChunkSize) else [stmt]
  }

  function AllStatementChunks(stmts: seq<string>, maxChunkSize: int): seq<string>
    decreases |stmts|
  {
    if stmts == [] then []
    else AllStatementChunks(stmts[..|stmts| - 1], maxChunkSize) + StatementChunks(stmts[|stmts| - 1], maxChunkSize)
  }

  lemma AllStatementChunksSnoc(stmts: seq<string>, i: nat, maxChunkSize: int)
    requires i < |stmts|
    ensures AllStatementChunks(stmts[..i + 1], maxChunkSize)
         == AllStatementChunks(stmts[..i], maxChunkSize) + StatementChunks(stmts[i], maxChunkSize)
  {
    assert stmts[..i + 1][..i] == stmts[..i];
  }

  /** The result of `split_sql_content(sql_content, max_chunk_size)`. */
  function ConverterChunks(content: string, maxChunkSize: int): seq<string>
  {
    AllStatementChunks(Statements(content), maxChunkSize)
  }

  /** `split_sql_content`; `SQLConverter._split_sql_into_chunks` is a verbatim copy of it.
      The two inner loops are the methods `SplitStatement` and `SplitPiece`. */
  method SplitSqlContent(content: string, maxChunkSize: int) returns (chunks: seq<string>)
    ensures chunks == ConverterChunks(content, maxChunkSize)
  {
    chunks := [];
    var statements := Statements(content);
    var i := 0;
    while i < |statements|
      invariant 0 <= i <= |statements|
      invariant chunks == AllStatementChunks(statements[..i], maxChunkSize)
    {
      AllStatementChunksSnoc(statements, i, maxChunkSize);
      var more := ChunkStatement(statements[i], maxChunkSize);
      chunks := chunks + more;
      i := i + 1;
    }
    assert statements[..i] == statements;
  }

  /** The body of the loop over the statements: a statement that fits is one chunk. */
  method ChunkStatement(stmt: string, maxChunkSize: int) returns (chunks: seq<string>)
    ensures chunks == StatementChunks(stmt, maxChunkSize)
  {
    if |stmt| > maxChunkSize {
      chunks := SplitStatement(stmt, maxChunkSize);
    } else {
      chunks := [stmt];
    }
  }

  /** The loop over `stmt.split('create proc')` of an oversized statement. */
  method SplitStatement(stmt: string, maxChunkSize: int) returns (chunks: seq<string>)
    ensures chunks == ProcChunks(Split(stmt, "create proc"), maxChunkSize)
  {
    chunks := [];
    var procs := Split(stmt, "create proc");
    var j := 0;
    while j < |procs|
      invariant 0 <= j <= |procs|
      invariant chunks == ProcChunks(procs[..j], maxChunkSize)
    {
      var proc := procs[j];
      assert procs[..j + 1][..j] == procs[..j];
      assert ProcChunks(procs[..j + 1], maxChunkSize)
          == ProcChunks(procs[..j], maxChunkSize) + PieceChunks(proc, maxChunkSize);
      if Strip(proc) == "" {
        j := j + 1;
        continue;
      }
      if |proc| > maxChunkSize {
        var more := SplitPiece(proc);
        chunks := chunks + more;
      } else {
        chunks := chunks + ["create proc" + proc];
      }
      j := j + 1;
    }
    assert procs[..j] == procs;
  }

  /** The loop over `proc.split('begin')` of an oversized piece. */
  method SplitPiece(proc: string) returns (chunks: seq<string>)
    ensures chunks == BlockChunks(Split(proc, "begin"), proc)
  {
    chunks := [];
    var blocks := Split(proc, "begin");
    var k := 0;
    while k < |blocks|
      invariant 0 <= k <= |blocks|
      invariant chunks == BlockChunks(blocks[..k], proc)
    {
      var block := blocks[k];
      assert blocks[..k + 1][..k] == blocks[..k];
      if Strip(block) == "" {
        k := k + 1;
        continue;
      }
      chunks := chunks + [if block == proc then "create proc" + block else "begin" + block];
      k := k + 1;
    }
    assert blocks[..k] == blocks;
  }

  // ---------------------------------------------------------------- cleaning the model's answer

  const Fence := "```"

  /** `converted.strip()` then `.replace('```sql', '').replace('```', '').strip()`. */
  function CleanModelOutput(text: string): string
  {
    Strip(RemoveAll(RemoveAll(Strip(text), "```sql"), Fence))
  }

  /** Removing the fences leaves a leading backtick, or two, only where the input had them. */
  lemma {:induction false} RemoveFenceLeadingTicks(t: string)
    ensures StartsWith(RemoveAll(t, Fence), "`") ==> StartsWith(t, "`")
    ensures StartsWith(RemoveAll(t, Fence), "``") ==> StartsWith(t, "``")
    decreases |t|
  {
    if t != [] && !StartsWith(t, Fence) {
      var r := RemoveAll(t[1..], Fence);
      assert RemoveAll(t, Fence) == [t[0]] + r;
      RemoveFenceLeadingTicks(t[1..]);
      if StartsWith([t[0]] + r, "``") {
        assert r[..1] == ([t[0]] + r)[1..2];
        assert t[1..][..1] == t[1..2];
      }
    } else if t != [] {
      RemoveFenceLeadingTicks(t[|Fence|..]);
      assert t[..2] == Fence[..2];
    }
  }

  /** After `replace('```', '')` no fence is left, even one formed across a removed fence. */
  lemma {:induction false} RemoveFenceLeavesNone(t: string)
    ensures !Contains(RemoveAll(t, Fence), Fence)
    decreases |t|
  {
    if t == [] {
      assert !OccursAt("", Fence, 0);
    } else if StartsWith(t, Fence) {
      RemoveFenceLeavesNone(t[|Fence|..]);
    } else {
      var r := RemoveAll(t[1..], Fence);
      RemoveFenceLeavesNone(t[1..]);
      RemoveFenceLeadingTicks(t[1..]);
      ContainsCons(t[0], r, Fence);
      assert !OccursAt([t[0]] + r, Fence, 0);
    }
  }

  /** The cleaned answer holds no code fence and has no surrounding whitespace. */
  lemma CleanOutputHasNoFence(text: string)
    ensures var r := CleanModelOutput(text);
      && !Contains(r, Fence)
      && (r != [] ==> !IsSpace(r[0]) && !IsSpace(r[|r| - 1]))
  {
    var t := RemoveAll(RemoveAll(Strip(text), "```sql"), Fence);
    RemoveFenceLeavesNone(RemoveAll(Strip(text), "```sql"));
    StripSpec(t);
    var start := StripIsSlice(t);
    if Contains(Strip(t), Fence) {
      ContainsSlice(t, start, start + |Strip(t)|, Fence);
    }
  }

  /** Text without a fence has no ```` ```sql ```` marker either. */
  lemma NoFenceNoSqlFence(text: string)
    requires !Contains(text, Fence)
    ensures !Contains(text, "```sql")
  {
    forall i: nat | i <= |text|
      ensures !OccursAt(text, "```sql", i)
    {
      if i + 6 <= |text| {
        assert text[i..i + 3] == text[i..i + 6][..3];
        assert !OccursAt(text, Fence, i);
      }
    }
  }

  /** An answer that is already clean (stripped, without fences) is kept as it is,
      so cleaning twice is cleaning once. */
  lemma CleanOutputIdempotent(text: string)
    requires Strip(text) == text && !Contains(text, Fence)
    ensures CleanModelOutput(text) == text
  {
    NoFenceNoSqlFence(text);
    RemoveAllAbsent(text, "```sql");
    RemoveAllAbsent(text, Fence);
  }

  lemma CleanTwice(text: string)
    ensures CleanModelOutput(CleanModelOutput(text)) == CleanModelOutput(text)
  {
    var r := CleanModelOutput(text);
    CleanOutputHasNoFence(text);
    StripStripped(r);
    CleanOutputIdempotent(r);
  }

  // ---------------------------------------------------------------- joining the answers

  /** The separator `_convert_sql_parallel` puts between converted chunks. */
  const ResultSeparator := "\n\nGO\n\n"

  /** `[r for r in results if r]`: the answers that are neither `None` nor empty, in order. */
  function Truthy(results: seq<Option<string>>): (r: seq<string>)
    ensures forall k :: 0 <= k < |r| ==> r[k] != "" && Some(r[k]) in results
    ensures forall k :: 0 <= k < |results| && results[k].Some? && results[k].value != "" ==> results[k].value in r
    ensures r == [] <==> forall k :: 0 <= k < |results| ==> results[k] == None || results[k] == Some("")
    decreases |results|
  {
    if results == [] then []
    else
      var init := results[..|results| - 1];
      var last := results[|results| - 1];
      assert results == init + [last];
      Truthy(init) + if last.Some? && last.value != "" then [last.value] else []
  }

  /** A single answer is kept exactly when it is present and not empty. */
  lemma TruthySingle(x: Option<string>)
    ensures Truthy([x]) == if x.Some? && x.value != "" then [x.value] else []
  {
    assert [x][..0] == [];
  }

  /** The filter keeps the order and the multiplicity of the answers: filtering
      two runs of answers one after the other is filtering each. */
  lemma {:induction false} TruthyConcat(a: seq<Option<string>>, b: seq<Option<string>>)
    ensures Truthy(a + b) == Truthy(a) + Truthy(b)
    decreases |b|
  {
    if b == [] {
      assert a + b == a;
    } else {
      var init, last := b[..|b| - 1], b[|b| - 1];
      assert (a + b)[..|a + b| - 1] == a + init;
      assert (a + b)[|a + b| - 1] == last;
      assert b[..|b| - 1] == init;
      TruthyConcat(a, init);
      ConcatAssoc(Truthy(a), Truthy(init), if last.Some? && last.value != "" then [last.value] else []);
    }
  }

  /** The value of `_convert_sql_parallel` once every chunk has its answer (`gather`
      keeps the chunk order): the truthy answers joined by the separator, or
      `None` when there is none. */
  function AssembleResults(results: seq<Option<string>>): (r: Option<string>)
    ensures r.None? <==> forall k :: 0 <= k < |results| ==> results[k] == None || results[k] == Some("")
    ensures r.Some? ==> r.value != ""
  {
    var kept := Truthy(results);
    if kept == [] then None
    else
      JoinNonEmpty(kept, ResultSeparator);
      Some(Join(kept, ResultSeparator))
  }

  lemma JoinNonEmpty(xs: seq<string>, sep: string)
    requires xs != [] && xs[0] != ""
    ensures Join(xs, sep) != ""
  {
  }

  /** The separator cannot straddle the end of an answer that has no `"\n\nGO"` in it. */
  lemma SeparatorNotStraddling(a: string)
    requires !Contains(a, "\n\nGO")
    ensures forall i :: 0 <= i < |a| ==> !OccursAt(a + ResultSeparator, ResultSeparator, i)
  {
    var sep := ResultSeparator;
    forall i | 0 <= i < |a|
      ensures !OccursAt(a + sep, sep, i)
    {
      if i + 4 <= |a| {
        assert (a + sep)[i..i + 4] == a[i..i + 4];
        assert !OccursAt(a, "\n\nGO", i);
        assert (a + sep)[i..i + 6][..4] == (a + sep)[i..i + 4];
      } else {
        assert (a + sep)[|a|] == '\n' && (a + sep)[|a| + 1] == '\n';
        assert i + 6 <= |a + sep| ==> (a + sep)[i..i + 6][|a| - i] == (a + sep)[|a|];
        assert i + 6 <= |a + sep| ==> (a + sep)[i..i + 6][|a| - i + 1] == (a + sep)[|a| + 1];
      }
    }
  }

  /** The separator itself contains `"\n\nGO"`. */
  lemma SeparatorContainsMarker(a: string)
    requires !Contains(a, "\n\nGO")
    ensures !Contains(a, ResultSeparator)
  {
    forall i: nat | i <= |a|
      ensures !OccursAt(a, ResultSeparator, i)
    {
      if i + 6 <= |a| {
        assert a[i..i + 4] == a[i..i + 6][..4];
        assert !OccursAt(a, "\n\nGO", i);
      }
    }
  }

  /** Splitting the joined answers on the separator gives the answers back. */
  lemma {:induction false} SplitJoinedResults(xs: seq<string>)
    requires xs != []
    requires forall k :: 0 <= k < |xs| ==> !Contains(xs[k], "\n\nGO")
    ensures Split(Join(xs, ResultSeparator), ResultSeparator) == xs
    decreases |xs|
  {
    if |xs| == 1 {
      SeparatorContainsMarker(xs[0]);
      SplitSingleton(xs[0], ResultSeparator);
    } else {
      SeparatorNotStraddling(xs[0]);
      SplitAcross(xs[0], ResultSeparator, Join(xs[1..], ResultSeparator));
      SplitJoinedResults(xs[1..]);
      assert [xs[0]] + xs[1..] == xs;
    }
  }

  /** When no answer contains `"\n\nGO"`, the joined text splits back into the kept answers. */
  lemma AssembleSplitsBack(results: seq<Option<string>>)
    requires forall k :: 0 <= k < |results| && results[k].Some? ==> !Contains(results[k].value, "\n\nGO")
    ensures AssembleResults(results).Some? ==>
      Split(AssembleResults(results).value, ResultSeparator) == Truthy(results)
  {
    var kept := Truthy(results);
    if kept != [] {
      forall k | 0 <= k < |kept|
        ensures !Contains(kept[k], "\n\nGO")
      {
        var j :| 0 <= j < |results| && results[j] == Some(kept[k]);
      }
      SplitJoinedResults(kept);
    }
  }

  // ---------------------------------------------------------------- target file path

  /** `p.rfind(c)` */
  function RFind(p: string, c: char): (r: int)
    ensures -1 <= r < |p|
    ensures r >= 0 ==> p[r] == c
    ensures forall k :: r < k < |p| ==> p[k] != c
    decreases |p|
  {
    if p == [] then -1 else if p[|p| - 1] == c then |p| - 1 else RFind(p[..|p| - 1], c)
  }

  /** `os.path.splitext` on a POSIX path: the extension starts at the last dot of the
      last path component, unless that component is dots up to there. */
  function SplitExt(p: string): (r: (string, string))
    ensures r.0 + r.1 == p
    ensures r.1 == [] || (r.1[0] == '.' && forall k :: 0 <= k < |r.1| ==> r.1[k] != '/')
    ensures forall k :: 1 <= k < |r.1| ==> r.1[k] != '.'
    ensures r.1 != [] <==>
      exists i, k :: RFind(p, '/') < k < i < |p| && p[i] == '.' && p[k] != '.'
  {
    var sepIndex := RFind(p, '/');
    var dotIndex := RFind(p, '.');
    if dotIndex > sepIndex && exists k :: sepIndex + 1 <= k < dotIndex && p[k] != '.' then
      assert forall k :: dotIndex <= k < |p| ==> p[k] != '/';
      var k :| sepIndex + 1 <= k < dotIndex && p[k] != '.';
      assert p[dotIndex] == '.';
      (p[..dotIndex], p[dotIndex..])
    else
      (p, "")
  }

  /** `get_target_file_path` */
  function TargetFilePath(sourceFile: string, targetConfig: string): string
  {
    if Lower(targetConfig) == "auto" then SplitExt(sourceFile).0 + "_result.sql" else targetConfig
  }

  /** With `auto` (in any letter case) the target is the source without its
      extension plus `_result.sql`, so it never is the source file itself; any other
      configuration is the target path as given. */
  lemma TargetFilePathSpec(sourceFile: string, targetConfig: string)
    ensures var r := TargetFilePath(sourceFile, targetConfig);
      && (Lower(targetConfig) == "auto" ==>
            && r == SplitExt(sourceFile).0 + "_result.sql"
            && r != sourceFile)
      && (Lower(targetConfig) != "auto" ==> r == targetConfig)
  {
    if Lower(targetConfig) == "auto" {
      var (root, ext) := SplitExt(sourceFile);
      var r := root + "_result.sql";
      assert sourceFile[|root|..] == ext;
      assert r[|root|..] == "_result.sql";
      assert ext != "_result.sql";
    }
  }

  // ---------------------------------------------------------------- the class

  /** `self.supported_db_types` */
  const SupportedDbTypes: set<string> := {"SYBASE", "MYSQL", "POSTGRESQL", "ORACLE", "SQLSERVER", "DB2"}

  class SqlConverter {
    /** `self.source_db_type` and `self.target_db_type`, read from the environment at construction. */
    const sourceDbType: string
    const targetDbType: string

    constructor (sourceDbType: string, targetDbType: string)
      ensures this.sourceDbType == sourceDbType && this.targetDbType == targetDbType
    {
      this.sourceDbType := sourceDbType;
      this.targetDbType := targetDbType;
    }

    /** `_validate_db_type`: `True`, or the `ValueError` it raises. */
    function ValidateDbType(dbType: string): (r: Result<bool, string>)
      ensures r.Success? <==> dbType in SupportedDbTypes
      ensures r.Success? ==> r.value
    {
      if dbType in SupportedDbTypes then Success(true) else Failure("Unsupported database type: " + dbType)
    }

    /** `_convert_sql_chunk`, given the content of the model's reply (`None` when the
        call raises or the reply has no content): `None` unless both database types
        are supported, otherwise the cleaned reply. */
    function ConvertSqlChunk(reply: Option<string>): (r: Option<string>)
      ensures r.Some? <==> ValidateDbType(sourceDbType).Success? && ValidateDbType(targetDbType).Success? && reply.Some?
      ensures r.Some? ==> r.value == CleanModelOutput(reply.value)
      ensures r.Some? ==> !Contains(r.value, Fence) && Strip(r.value) == r.value
    {
      if ValidateDbType(sourceDbType).Failure? || ValidateDbType(targetDbType).Failure? then None
      else match reply
        case None => None
        case Some(text) =>
          CleanOutputHasNoFence(text);
          StripStripped(CleanModelOutput(text));
          Some(CleanModelOutput(text))
    }

    /** `_split_sql_into_chunks`, the same code as `split_sql_content`. */
    method SplitSqlIntoChunks(content: string, maxChunkSize: int) returns (chunks: seq<string>)
      ensures chunks == ConverterChunks(content, maxChunkSize)
    {
      chunks := SplitSqlContent(content, maxChunkSize);
    }

    /** The converted chunks in chunk order, as `asyncio.gather` returns them. */
    function ConvertEach(replies: seq<Option<string>>): (r: seq<Option<string>>)
      ensures |r| == |replies|
      ensures forall k :: 0 <= k < |r| ==> r[k] == ConvertSqlChunk(replies[k])
      decreases |replies|
    {
      if replies == [] then []
      else ConvertEach(replies[..|replies| - 1]) + [ConvertSqlChunk(replies[|replies| - 1])]
    }

    /** `_convert_sql_parallel` with the default chunk size; `replies[i]` is the model's
        reply for the `i`-th chunk. */
    method ConvertSqlParallel(content: string, replies: seq<Option<string>>) returns (r: Option<string>)
      requires |replies| == |ConverterChunks(content, MaxChunkSize)|
      ensures r == AssembleResults(ConvertEach(replies))
      ensures r.None? <==> forall i :: 0 <= i < |replies| ==> ConvertSqlChunk(replies[i]) == None || ConvertSqlChunk(replies[i]) == Some("")
    {
      var chunks := SplitSqlIntoChunks(content, MaxChunkSize);
      var results: seq<Option<string>> := [];
      var i := 0;
      while i < |chunks|
        invariant 0 <= i <= |chunks|
        invariant results == ConvertEach(replies[..i])
      {
        assert replies[..i + 1][..i] == replies[..i];
        results := results + [ConvertSqlChunk(replies[i])];
        i := i + 1;
      }
      assert replies[..i] == replies;
      r := AssembleResults(results);
      NothingConverted(replies);
    }

    /** The assembled answer is missing exactly when every cleaned reply is missing or empty. */
    lemma NothingConverted(replies: seq<Option<string>>)
      ensures AssembleResults(ConvertEach(replies)).None? <==>
        forall i :: 0 <= i < |replies| ==> ConvertSqlChunk(replies[i]) == None || ConvertSqlChunk(replies[i]) == Some("")
    {
      var results := ConvertEach(replies);
      assert forall i :: 0 <= i < |replies| ==> results[i] == ConvertSqlChunk(replies[i]);
    }
  }

  // ---------------------------------------------------------------- properties of the statement chunks

  /** A text that starts with a non-whitespace character is not blank. */
  lemma PrefixedNotBlank(prefix: string, rest: string)
    requires prefix != [] && !IsSpace(prefix[0])
    ensures Strip(prefix + rest) != ""
  {
    StripSpec(prefix + rest);
    assert (prefix + rest)[0] == prefix[0];
  }

  /** The statements are the pieces between the `go`s, stripped, with the blank ones
      dropped: none is blank, none has surrounding whitespace, none contains `go`. */
  lemma {:induction false} StrippedPiecesSpec(pieces: seq<string>, sep: string)
    requires forall k :: 0 <= k < |pieces| ==> !Contains(pieces[k], sep)
    ensures forall k :: 0 <= k < |StrippedNonBlank(pieces)| ==>
      var stmt := StrippedNonBlank(pieces)[k];
      stmt != "" && Strip(stmt) == stmt && !Contains(stmt, sep)
    decreases |pieces|
  {
    if pieces != [] {
      var init := pieces[..|pieces| - 1];
      var piece := pieces[|pieces| - 1];
      StrippedPiecesSpec(init, sep);
      var last := Strip(piece);
      if last != "" {
        StripSpec(piece);
        StripStripped(last);
        var start := StripIsSlice(piece);
        if Contains(last, sep) {
          ContainsSlice(piece, start, start + |last|, sep);
        }
      }
    }
  }

  lemma StatementsSpec(content: string)
    ensures forall k :: 0 <= k < |Statements(content)| ==>
      var stmt := Statements(content)[k];
      stmt != "" && Strip(stmt) == stmt && !Contains(stmt, "go")
  {
    SplitPiecesAvoidSep(content, "go");
    StrippedPiecesSpec(Split(content, "go"), "go");
  }

  /** When every statement fits the budget, the chunks are the statements. */
  lemma {:induction false} SmallStatementsAreChunks(stmts: seq<string>, maxChunkSize: int)
    requires forall k :: 0 <= k < |stmts| ==> |stmts[k]| <= maxChunkSize
    ensures AllStatementChunks(stmts, maxChunkSize) == stmts
    decreases |stmts|
  {
    if stmts != [] {
      SmallStatementsAreChunks(stmts[..|stmts| - 1], maxChunkSize);
      assert stmts[..|stmts| - 1] + [stmts[|stmts| - 1]] == stmts;
    }
  }

  lemma ConverterChunksWithinBudget(content: string, maxChunkSize: int)
    requires forall k :: 0 <= k < |Statements(content)| ==> |Statements(content)[k]| <= maxChunkSize
    ensures ConverterChunks(content, maxChunkSize) == Statements(content)
  {
    SmallStatementsAreChunks(Statements(content), maxChunkSize);
  }

  /** Every block chunk is `begin` plus a block, or `create proc` plus the whole piece. */
  lemma {:induction false} BlockChunksSpec(blocks: seq<string>, proc: string)
    ensures forall k :: 0 <= k < |BlockChunks(blocks, proc)| ==>
      var c := BlockChunks(blocks, proc)[k];
      Strip(c) != "" && (c == "create proc" + proc || StartsWith(c, "begin"))
    ensures (forall k :: 0 <= k < |blocks| ==> blocks[k] != proc) ==>
      forall k :: 0 <= k < |BlockChunks(blocks, proc)| ==> StartsWith(BlockChunks(blocks, proc)[k], "begin")
    decreases |blocks|
  {
    if blocks != [] {
      var block := blocks[|blocks| - 1];
      BlockChunksSpec(blocks[..|blocks| - 1], proc);
      PrefixedNotBlank("create proc", block);
      PrefixedNotBlank("begin", block);
      assert ("begin" + block)[..5] == "begin";
    }
  }

  /** Joining two or more pieces gives a text longer than any one of them. */
  lemma {:induction false} JoinLonger(xs: seq<string>, sep: string, k: nat)
    requires |xs| >= 2 && k < |xs| && sep != []
    ensures |Join(xs, sep)| > |xs[k]|
    decreases |xs|
  {
    if |xs| > 2 && k > 0 {
      JoinLonger(xs[1..], sep, k - 1);
    }
  }

  lemma JoinSingle(xs: seq<string>, sep: string)
    ensures |xs| == 1 ==> Join(xs, sep) == xs[0]
  {
  }

  /** An oversized piece is cut at `begin`: with no `begin` in it, it is emitted whole
      as `create proc` plus the piece; otherwise every chunk starts with `begin`. */
  lemma OversizedPieceSpec(proc: string, maxChunkSize: int)
    requires |proc| > maxChunkSize && Strip(proc) != ""
    ensures !Contains(proc, "begin") ==> PieceChunks(proc, maxChunkSize) == ["create proc" + proc]
    ensures Contains(proc, "begin") ==>
      forall k :: 0 <= k < |PieceChunks(proc, maxChunkSize)| ==> StartsWith(PieceChunks(proc, maxChunkSize)[k], "begin")
  {
    var blocks := Split(proc, "begin");
    SplitSingleton(proc, "begin");
    if Contains(proc, "begin") {
      JoinSplit(proc, "begin");
      JoinSingle(blocks, "begin");
      forall k | 0 <= k < |blocks|
        ensures blocks[k] != proc
      {
        JoinLonger(blocks, "begin", k);
      }
      BlockChunksSpec(blocks, proc);
    } else {
      assert blocks == [proc] && blocks[..0] == [];
      assert BlockChunks(blocks, proc) == BlockChunks([], proc) + ["create proc" + proc];
    }
  }

  /** No chunk is blank. */
  lemma {:induction false} ProcChunksNotBlank(procs: seq<string>, maxChunkSize: int)
    ensures forall k :: 0 <= k < |ProcChunks(procs, maxChunkSize)| ==> Strip(ProcChunks(procs, maxChunkSize)[k]) != ""
    decreases |procs|
  {
    if procs != [] {
      var proc := procs[|procs| - 1];
      ProcChunksNotBlank(procs[..|procs| - 1], maxChunkSize);
      BlockChunksSpec(Split(proc, "begin"), proc);
      PrefixedNotBlank("create proc", proc);
    }
  }

  lemma {:induction false} StatementChunksNotBlank(stmts: seq<string>, maxChunkSize: int)
    requires forall k :: 0 <= k < |stmts| ==> Strip(stmts[k]) != ""
    ensures forall k :: 0 <= k < |AllStatementChunks(stmts, maxChunkSize)| ==>
      Strip(AllStatementChunks(stmts, maxChunkSize)[k]) != ""
    decreases |stmts|
  {
    if stmts != [] {
      var stmt := stmts[|stmts| - 1];
      StatementChunksNotBlank(stmts[..|stmts| - 1], maxChunkSize);
      ProcChunksNotBlank(Split(stmt, "create proc"), maxChunkSize);
    }
  }

  lemma ConverterChunksNotBlank(content: string, maxChunkSize: int)
    ensures forall k :: 0 <= k < |ConverterChunks(content, maxChunkSize)| ==>
      Strip(ConverterChunks(content, maxChunkSize)[k]) != ""
  {
    StatementsSpec(content);
    StatementChunksNotBlank(Statements(content), maxChunkSize);
  }

  /** No character of `s` is `c`. */
  predicate Avoids(s: string, c: char)
  {
    forall i :: 0 <= i < |s| ==> s[i] != c
  }

  /** A piece that does not hold the first character of the separator ends at the
      separator that follows it. */
  lemma SplitAtSeparator(a: string, sep: string, rest: string)
    requires sep != [] && Avoids(a, sep[0])
    ensures Split(a + sep + rest, sep) == [a] + Split(rest, sep)
    ensures !Contains(a, sep)
  {
    forall i | 0 <= i < |a|
      ensures !OccursAt(a + sep, sep, i)
    {
      assert (a + sep)[i] == a[i];
      if i + |sep| <= |a + sep| {
        assert (a + sep)[i..i + |sep|][0] == (a + sep)[i];
      }
    }
    SplitAcross(a, sep, rest);
    forall i: nat | i <= |a|
      ensures !OccursAt(a, sep, i)
    {
      if i + |sep| <= |a| {
        assert a[i..i + |sep|][0] == a[i];
      }
    }
  }

  /** A statement text with no blank at either end. */
  predicate Trimmed(s: string)
  {
    s != [] && !IsSpace(s[0]) && !IsSpace(s[|s| - 1])
  }

  /** Padding a trimmed text with one blank on either side is undone by `strip`. */
  lemma StripPadding(t: string)
    requires Trimmed(t)
    ensures Strip([' '] + t + [' ']) == t
    ensures Strip(t + [' ']) == t
    ensures Strip([' '] + t) == t
  {
    assert ([' '] + t + [' '])[1..] == t + [' '];
    assert ([' '] + t)[1..] == t;
    assert (t + [' '])[..|t|] == t;
    assert TrimLeft(t + [' ']) == t + [' '];
    assert TrimRight(t + [' ']) == t;
    assert TrimLeft([' '] + t) == TrimLeft(t) == t;
  }

  /** Three pieces without a `g`, joined by `go`, split back into those pieces. */
  lemma SplitThree(a: string, b: string, c: string)
    requires Avoids(a, 'g') && Avoids(b, 'g') && Avoids(c, 'g')
    ensures Split(a + "go" + (b + "go" + c), "go") == [a, b, c]
  {
    SplitAtSeparator(c, "go", "");
    SplitSingleton(c, "go");
    SplitAtSeparator(b, "go", c);
    SplitAtSeparator(a, "go", b + "go" + c);
  }

  /** The statements of `s1 go s2 go s3`, for trimmed texts without a `g`. */
  lemma StatementsOfThree(s1: string, s2: string, s3: string)
    requires Trimmed(s1) && Trimmed(s2) && Trimmed(s3)
    requires Avoids(s1, 'g') && Avoids(s2, 'g') && Avoids(s3, 'g')
    ensures Statements(s1 + " go " + s2 + " go " + s3) == [s1, s2, s3]
  {
    var a, b, c := s1 + [' '], [' '] + s2 + [' '], [' '] + s3;
    assert Avoids(a, 'g') && Avoids(b, 'g') && Avoids(c, 'g');
    assert s1 + " go " + s2 + " go " + s3 == a + "go" + (b + "go" + c);
    SplitThree(a, b, c);
    StripPadding(s1);
    StripPadding(s2);
    StripPadding(s3);
    StrippedThree(a, b, c);
  }

  lemma StrippedThree(a: string, b: string, c: string)
    requires Strip(a) != "" && Strip(b) != "" && Strip(c) != ""
    ensures StrippedNonBlank([a, b, c]) == [Strip(a), Strip(b), Strip(c)]
  {
    assert StrippedNonBlank([a]) == [Strip(a)] by { assert [a][..0] == []; }
    assert StrippedNonBlank([a, b]) == [Strip(a), Strip(b)] by { assert [a, b][..1] == [a]; }
    assert [a, b, c][..2] == [a, b];
  }

  /** Three trimmed statements without a `g`, written `s1 go s2 go s3`, are the three
      chunks when each fits the budget. */
  lemma ThreeStatements(s1: string, s2: string, s3: string, maxChunkSize: int)
    requires Trimmed(s1) && Trimmed(s2) && Trimmed(s3)
    requires Avoids(s1, 'g') && Avoids(s2, 'g') && Avoids(s3, 'g')
    requires |s1| <= maxChunkSize && |s2| <= maxChunkSize && |s3| <= maxChunkSize
    ensures ConverterChunks(s1 + " go " + s2 + " go " + s3, maxChunkSize) == [s1, s2, s3]
  {
    StatementsOfThree(s1, s2, s3);
    ConverterChunksWithinBudget(s1 + " go " + s2 + " go " + s3, maxChunkSize);
  }

  /** The input of the unit test `test_split_sql_into_chunks` yields three chunks. */
  lemma ThreeStatementExample()
    ensures ConverterChunks("SELECT * FROM table1" + " go " + "INSERT INTO table2 VALUES (1, 2)"
                            + " go " + "UPDATE table3 SET col = 1", MaxChunkSize)
         == ["SELECT * FROM table1", "INSERT INTO table2 VALUES (1, 2)", "UPDATE table3 SET col = 1"]
  {
    ThreeStatements("SELECT * FROM table1", "INSERT INTO table2 VALUES (1, 2)",
                    "UPDATE table3 SET col = 1", MaxChunkSize);
  }
}
