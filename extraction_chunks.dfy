/** What `SQLExtractor._split_sql_into_chunks` computes, as functions.

    `Run` is the line-by-line state machine of the source (one `Step` per line).
    `Procedures` is an independent, procedure-at-a-time description of the same
    input; `RunOutside`/`RunInside` prove that the state machine emits exactly
    the chunks of those procedures, in order. */
module ExtractionChunking {
  import opened Wrappers
  import opened Lists
  import opened PyStr

  /** `self.max_input_tokens` */
  const MaxInputTokens: nat := 6000

  /** `_estimate_tokens`: a third of the length, rounded down. */
  function EstimateTokens(text: string): (n: nat)
    ensures 3 * n <= |text| < 3 * n + 3
  {
    |text| / 3
  }

  /** A longer text never gets a smaller estimate. */
  lemma EstimateMonotone(a: string, b: string)
    requires |a| <= |b|
    ensures EstimateTokens(a) <= EstimateTokens(b)
  {
  }

  // ---------------------------------------------------------------- lines

  /** `line.strip().lower()` */
  function Normalized(line: string): string
  {
    Lower(Strip(line))
  }

  /** A line that opens a procedure. */
  predicate IsCreateLine(line: string)
  {
    var l := Normalized(line);
    StartsWith(l, "create proc") || StartsWith(l, "create procedure")
  }

  /** A line that closes a procedure. */
  predicate IsGoLine(line: string)
  {
    var l := Normalized(line);
    |l| == 2 && l[0] == 'g' && l[1] == 'o'
  }

  /** A line that starts the body of a procedure (a prefix test, so `asc` and `assert` count). */
  predicate IsBodyStart(line: string)
  {
    var l := Normalized(line);
    StartsWith(l, "as") || StartsWith(l, "begin")
  }

  /** `line.split()[-1].strip()`: the name of the procedure a create line opens. */
  function ProcName(line: string): string
  {
    LastWord(line)
  }

  /** The three line classes are exclusive where it matters. */
  lemma LineKinds(line: string)
    ensures IsCreateLine(line) ==> !IsGoLine(line) && !IsBodyStart(line)
    ensures IsGoLine(line) ==> !IsBodyStart(line)
  {
    var l := Normalized(line);
    if StartsWith(l, "create proc") {
      assert l[0] == l[..11][0] == 'c';
    }
  }

  // ---------------------------------------------------------------- chunks

  datatype ChunkKind = Full | Header | Body

  /** `chunk_index` / `total_chunks` of a multi-part body. */
  datatype PartInfo = PartInfo(index: nat, total: nat)

  /** One chunk dictionary: `type`, `content`, `proc_name` and the optional part keys. */
  datatype Chunk = Chunk(kind: ChunkKind, content: string, procName: string, part: Option<PartInfo>)

  function FullChunk(lines: seq<string>, name: string): Chunk
  {
    Chunk(Full, Join(lines, "\n"), name, None)
  }

  /** The number of header lines: those before the first body-start line. */
  function HeaderLength(lines: seq<string>): (n: nat)
    ensures n <= |lines|
    decreases |lines|
  {
    if lines == [] || IsBodyStart(lines[0]) then 0 else 1 + HeaderLength(lines[1..])
  }

  /** The header lines are exactly those before the first body-start line. */
  lemma {:induction false} HeaderLengthSpec(lines: seq<string>)
    ensures forall j :: 0 <= j < HeaderLength(lines) ==> !IsBodyStart(lines[j])
    ensures HeaderLength(lines) < |lines| ==> IsBodyStart(lines[HeaderLength(lines)])
    decreases |lines|
  {
    if lines != [] && !IsBodyStart(lines[0]) {
      HeaderLengthSpec(lines[1..]);
      forall j | 1 <= j < HeaderLength(lines)
        ensures !IsBodyStart(lines[j])
      {
        assert lines[j] == lines[1..][j - 1];
      }
    }
  }

  /** Line `k` is a body start where the header ends, and not before. */
  lemma HeaderLengthAt(lines: seq<string>, k: nat)
    requires k < |lines|
    ensures k < HeaderLength(lines) ==> !IsBodyStart(lines[k])
    ensures k == HeaderLength(lines) ==> IsBodyStart(lines[k])
  {
    HeaderLengthSpec(lines);
  }

  /** The sum of the per-line estimates. */
  function TokenSum(lines: seq<string>): nat
    decreases |lines|
  {
    if lines == [] then 0 else TokenSum(lines[..|lines| - 1]) + EstimateTokens(lines[|lines| - 1])
  }

  /** The greedy packing of body lines into parts: a part is closed when the next
      line would take its running estimate over the budget (and it is not empty). */
  function PackFrom(lines: seq<string>, current: seq<string>, tokens: nat, parts: seq<seq<string>>): seq<seq<string>>
    decreases |lines|
  {
    if lines == [] then
      if current != [] then parts + [current] else parts
    else
      var t := EstimateTokens(lines[0]);
      if tokens + t > MaxInputTokens && current != [] then
        PackFrom(lines[1..], [lines[0]], t, parts + [current])
      else
        PackFrom(lines[1..], current + [lines[0]], tokens + t, parts)
  }

  function Pack(lines: seq<string>): seq<seq<string>>
  {
    PackFrom(lines, [], 0, [])
  }

  /** Each part joined by newlines (`'\n'.join(current_body_chunk)`). */
  function JoinEach(parts: seq<seq<string>>): (r: seq<string>)
    ensures |r| == |parts|
  {
    seq(|parts|, i requires 0 <= i < |parts| => Join(parts[i], "\n"))
  }

  /** The `enumerate(body_chunks)` loop: one numbered body chunk per part. */
  function NumberedBodyChunks(parts: seq<string>, name: string): (r: seq<Chunk>)
    ensures |r| == |parts|
  {
    seq(|parts|, i requires 0 <= i < |parts| => Chunk(Body, parts[i], name, Some(PartInfo(i, |parts|))))
  }

  /** A part the packer may emit: non-empty, and within the budget unless it is a
      single line that exceeds the budget on its own. */
  predicate GoodPart(part: seq<string>)
  {
    part != [] && (TokenSum(part) <= MaxInputTokens || |part| == 1)
  }

  lemma TokenSumSnoc(lines: seq<string>, line: string)
    ensures TokenSum(lines + [line]) == TokenSum(lines) + EstimateTokens(line)
  {
    assert (lines + [line])[..|lines|] == lines;
  }

  /** The packer keeps the lines, in order. */
  lemma {:induction false} PackFromKeepsLines(lines: seq<string>, current: seq<string>, tokens: nat, parts: seq<seq<string>>)
    ensures Flatten(PackFrom(lines, current, tokens, parts)) == Flatten(parts) + current + lines
    decreases |lines|
  {
    if lines == [] {
      if current != [] {
        FlattenSnoc(parts, current);
      }
    } else {
      var line := lines[0];
      var t := EstimateTokens(line);
      assert [line] + lines[1..] == lines;
      if tokens + t > MaxInputTokens && current != [] {
        PackFromKeepsLines(lines[1..], [line], t, parts + [current]);
        FlattenSnoc(parts, current);
      } else {
        PackFromKeepsLines(lines[1..], current + [line], tokens + t, parts);
      }
      ConcatAssoc(Flatten(parts) + current, [line], lines[1..]);
    }
  }

  /** Every part the packer emits is a good one. */
  lemma {:induction false} PackFromGoodParts(lines: seq<string>, current: seq<string>, tokens: nat, parts: seq<seq<string>>)
    requires tokens == TokenSum(current)
    requires forall k :: 0 <= k < |parts| ==> GoodPart(parts[k])
    requires current == [] || GoodPart(current)
    ensures forall k :: 0 <= k < |PackFrom(lines, current, tokens, parts)| ==> GoodPart(PackFrom(lines, current, tokens, parts)[k])
    decreases |lines|
  {
    if lines != [] {
      var line := lines[0];
      var t := EstimateTokens(line);
      if tokens + t > MaxInputTokens && current != [] {
        TokenSumSnoc([], line);
        PackFromGoodParts(lines[1..], [line], t, parts + [current]);
      } else {
        TokenSumSnoc(current, line);
        PackFromGoodParts(lines[1..], current + [line], tokens + t, parts);
      }
    }
  }

  /** The parts of `Pack(lines)` are, in order, exactly the lines, and each is
      within the budget or a single over-long line. */
  lemma PackSpec(lines: seq<string>)
    ensures Flatten(Pack(lines)) == lines
    ensures forall k :: 0 <= k < |Pack(lines)| ==> GoodPart(Pack(lines)[k])
  {
    PackFromKeepsLines(lines, [], 0, []);
    PackFromGoodParts(lines, [], 0, []);
  }

  /** The chunks for a procedure closed by a `go` line. */
  function ClosedChunks(lines: seq<string>, name: string): (r: seq<Chunk>)
    ensures |r| >= 1 && r[0].kind != Body
    ensures r[0].kind == Full <==> EstimateTokens(Join(lines, "\n")) <= MaxInputTokens
    ensures forall i :: 0 <= i < |r| ==> r[i].procName == name
  {
    var content := Join(lines, "\n");
    if EstimateTokens(content) > MaxInputTokens then
      var h := HeaderLength(lines);
      var header := Chunk(Header, Join(lines[..h], "\n"), name, None);
      var bodyContent := Join(lines[h..], "\n");
      if EstimateTokens(bodyContent) > MaxInputTokens then
        [header] + NumberedBodyChunks(JoinEach(Pack(lines[h..])), name)
      else
        [header, Chunk(Body, bodyContent, name, None)]
    else
      [Chunk(Full, content, name, None)]
  }

  /** A body too large for one chunk packs into at least one part. */
  lemma PackNonEmpty(lines: seq<string>)
    requires EstimateTokens(Join(lines, "\n")) > MaxInputTokens
    ensures Pack(lines) != []
  {
    PackSpec(lines);
  }

  /** A procedure within the budget is one `full` chunk holding all its lines, from
      the create line through the `go` line. */
  lemma ClosedChunksFit(lines: seq<string>, name: string)
    requires EstimateTokens(Join(lines, "\n")) <= MaxInputTokens
    ensures ClosedChunks(lines, name) == [Chunk(Full, Join(lines, "\n"), name, None)]
  {
  }

  /** An over-budget procedure whose body fits: a `header` chunk with the lines before
      the first body-start line, then one `body` chunk with the rest. */
  lemma ClosedChunksOneBody(lines: seq<string>, name: string)
    requires EstimateTokens(Join(lines, "\n")) > MaxInputTokens
    requires EstimateTokens(Join(lines[HeaderLength(lines)..], "\n")) <= MaxInputTokens
    ensures var h := HeaderLength(lines);
      ClosedChunks(lines, name) == [Chunk(Header, Join(lines[..h], "\n"), name, None),
                                    Chunk(Body, Join(lines[h..], "\n"), name, None)]
  {
  }

  /** An over-budget procedure with an over-budget body: the header chunk, then one
      numbered body chunk per packed part. The parts hold the body lines in order,
      each within the budget unless it is a single line; the `k` parts are numbered
      `0` to `k - 1`, each with total `k`. */
  lemma NumberedParts(lines: seq<string>, name: string)
    requires EstimateTokens(Join(lines, "\n")) > MaxInputTokens
    requires EstimateTokens(Join(lines[HeaderLength(lines)..], "\n")) > MaxInputTokens
    ensures var r := ClosedChunks(lines, name);
      var h := HeaderLength(lines);
      var parts := Pack(lines[h..]);
      && |r| == |parts| + 1 >= 2
      && r[0] == Chunk(Header, Join(lines[..h], "\n"), name, None)
      && Flatten(parts) == lines[h..]
      && (forall k :: 0 <= k < |parts| ==> GoodPart(parts[k]))
      && forall i :: 1 <= i < |r| ==>
           r[i] == Chunk(Body, Join(parts[i - 1], "\n"), name, Some(PartInfo(i - 1, |parts|)))
  {
    var h := HeaderLength(lines);
    var parts := Pack(lines[h..]);
    PackNonEmpty(lines[h..]);
    PackSpec(lines[h..]);
    var header := Chunk(Header, Join(lines[..h], "\n"), name, None);
    var numbered := NumberedBodyChunks(JoinEach(parts), name);
    var r := ClosedChunks(lines, name);
    assert r == [header] + numbered;
    forall i | 1 <= i < |r|
      ensures r[i] == Chunk(Body, Join(parts[i - 1], "\n"), name, Some(PartInfo(i - 1, |parts|)))
    {
      assert r[i] == numbered[i - 1];
    }
  }

  /** The final list comprehension: drop chunks whose content is blank. */
  function KeepNonBlank(chunks: seq<Chunk>): (r: seq<Chunk>)
    ensures forall i :: 0 <= i < |r| ==> Strip(r[i].content) != ""
    ensures forall c :: c in r <==> c in chunks && Strip(c.content) != ""
    ensures |r| <= |chunks|
    decreases |chunks|
  {
    if chunks == [] then []
    else
      var last := chunks[|chunks| - 1];
      var init := chunks[..|chunks| - 1];
      assert chunks == init + [last];
      KeepNonBlank(init) + if Strip(last.content) != "" then [last] else []
  }

  /** A single chunk is kept exactly when its content is not blank. */
  lemma KeepNonBlankSingle(c: Chunk)
    ensures KeepNonBlank([c]) == if Strip(c.content) != "" then [c] else []
  {
    assert [c][..0] == [];
  }

  /** The filter keeps the order and the multiplicity of the chunks: filtering
      two runs of chunks one after the other is filtering each. */
  lemma {:induction false} KeepNonBlankConcat(a: seq<Chunk>, b: seq<Chunk>)
    ensures KeepNonBlank(a + b) == KeepNonBlank(a) + KeepNonBlank(b)
    decreases |b|
  {
    if b == [] {
      assert a + b == a;
    } else {
      var init, last := b[..|b| - 1], b[|b| - 1];
      assert (a + b)[..|a + b| - 1] == a + init;
      assert (a + b)[|a + b| - 1] == last;
      KeepNonBlankConcat(a, init);
      ConcatAssoc(KeepNonBlank(a), KeepNonBlank(init), if Strip(last.content) != "" then [last] else []);
    }
  }

  // ---------------------------------------------------------------- the state machine

  /** `chunks`, `current_chunk`, `in_procedure`, `current_proc_name`. */
  datatype ScanState = ScanState(chunks: seq<Chunk>, current: seq<string>, inProcedure: bool, procName: string)

  const InitialScan := ScanState([], [], false, "")

  /** One iteration of the loop over `sql_content.split('\n')`. */
  function Step(st: ScanState, line: string): ScanState
  {
    var entered :=
      if IsCreateLine(line) then
        var flush := st.inProcedure && st.current != [];
        ScanState(if flush then st.chunks + [FullChunk(st.current, st.procName)] else st.chunks,
                  if flush then [] else st.current, true, ProcName(line))
      else st;
    if !entered.inProcedure then entered
    else
      var current := entered.current + [line];
      if IsGoLine(line) then ScanState(entered.chunks + ClosedChunks(current, entered.procName), [], false, "")
      else entered.(current := current)
  }

  /** The loop over the remaining lines, then the flush of an unterminated procedure. */
  function Run(lines: seq<string>, st: ScanState): seq<Chunk>
    decreases |lines|
  {
    if lines == [] then
      if st.current != [] then st.chunks + [FullChunk(st.current, st.procName)] else st.chunks
    else Run(lines[1..], Step(st, lines[0]))
  }

  /** The result of `_split_sql_into_chunks(sql_content)`. */
  function ExtractionChunks(content: string): (r: seq<Chunk>)
    ensures content == "" ==> r == []
    ensures forall i :: 0 <= i < |r| ==> Strip(r[i].content) != ""
  {
    if content == "" then [] else KeepNonBlank(Run(Split(content, "\n"), InitialScan))
  }

  // ---------------------------------------------------------------- procedures

  /** A procedure: its name, its lines from the create line on, and whether a `go` line closed it. */
  datatype Procedure = Procedure(name: string, lines: seq<string>, closed: bool)

  /** Where the procedure opened at `lines[0]` ends, scanning from `k`: just after
      the first `go` line, or before the next create line, or at the end of input. */
  function ProcedureEnd(lines: seq<string>, k: nat): (r: (nat, bool))
    requires 1 <= k <= |lines|
    ensures k <= r.0 <= |lines|
    decreases |lines| - k
  {
    if k == |lines| then (k, false)
    else if IsGoLine(lines[k]) then (k + 1, true)
    else if IsCreateLine(lines[k]) then (k, false)
    else ProcedureEnd(lines, k + 1)
  }

  /** A closed procedure ends just after a `go` line. */
  lemma {:induction false} ProcedureEndClosed(lines: seq<string>, k: nat)
    requires 1 <= k <= |lines|
    ensures var r := ProcedureEnd(lines, k); r.1 ==> r.0 > k && IsGoLine(lines[r.0 - 1])
    decreases |lines| - k
  {
    if k < |lines| && !IsGoLine(lines[k]) && !IsCreateLine(lines[k]) {
      ProcedureEndClosed(lines, k + 1);
    }
  }

  /** An unterminated procedure is cut before a create line or at the end of input. */
  lemma {:induction false} ProcedureEndCut(lines: seq<string>, k: nat)
    requires 1 <= k <= |lines|
    ensures var r := ProcedureEnd(lines, k); !r.1 ==> r.0 == |lines| || IsCreateLine(lines[r.0])
    decreases |lines| - k
  {
    if k < |lines| && !IsGoLine(lines[k]) && !IsCreateLine(lines[k]) {
      ProcedureEndCut(lines, k + 1);
    }
  }

  /** The last line of a procedure, or its `go` line. */
  function LastInner(r: (nat, bool)): int
  {
    if r.1 then r.0 - 1 else r.0
  }

  /** No line a procedure takes in before its end is a create or a `go` line. */
  lemma {:induction false} ProcedureEndSkips(lines: seq<string>, k: nat)
    requires 1 <= k <= |lines|
    ensures forall j :: k <= j < LastInner(ProcedureEnd(lines, k)) ==> !IsGoLine(lines[j]) && !IsCreateLine(lines[j])
    decreases |lines| - k
  {
    if k < |lines| && !IsGoLine(lines[k]) && !IsCreateLine(lines[k]) {
      ProcedureEndSkips(lines, k + 1);
      assert ProcedureEnd(lines, k) == ProcedureEnd(lines, k + 1);
    }
  }

  /** The procedures of the input in order; lines outside any procedure are skipped. */
  function Procedures(lines: seq<string>): seq<Procedure>
    decreases |lines|
  {
    if lines == [] then []
    else if !IsCreateLine(lines[0]) then Procedures(lines[1..])
    else
      var (n, closed) := ProcedureEnd(lines, 1);
      [Procedure(ProcName(lines[0]), lines[..n], closed)] + Procedures(lines[n..])
  }

  /** A procedure as the grouping reads it: it starts at a create line and takes
      its name from it; a closed one ends with its `go` line; no line in between
      is a create or a `go` line. */
  predicate WellFormed(p: Procedure)
  {
    && |p.lines| >= 1
    && IsCreateLine(p.lines[0])
    && p.name == ProcName(p.lines[0])
    && (p.closed ==> |p.lines| >= 2 && IsGoLine(p.lines[|p.lines| - 1]))
    && forall j :: 1 <= j < |p.lines| - (if p.closed then 1 else 0) ==>
         !IsGoLine(p.lines[j]) && !IsCreateLine(p.lines[j])
  }

  /** The procedure opened by the first line is well formed. */
  lemma FirstProcedureWellFormed(lines: seq<string>)
    requires lines != [] && IsCreateLine(lines[0])
    ensures WellFormed(FirstProcedure(lines))
  {
    var r := ProcedureEnd(lines, 1);
    ProcedureEndClosed(lines, 1);
    ProcedureEndSkips(lines, 1);
    var p := FirstProcedure(lines);
    assert p.lines == lines[..r.0] && p.closed == r.1;
    assert p.lines[0] == lines[0];
    if r.1 {
      assert p.lines[|p.lines| - 1] == lines[r.0 - 1];
    }
    forall j | 1 <= j < |p.lines| - (if p.closed then 1 else 0)
      ensures !IsGoLine(p.lines[j]) && !IsCreateLine(p.lines[j])
    {
      assert p.lines[j] == lines[j];
    }
  }

  /** Every procedure found in the input is well formed. */
  lemma ProceduresWellFormed(lines: seq<string>)
    ensures forall i :: 0 <= i < |Procedures(lines)| ==> WellFormed(Procedures(lines)[i])
  {
    ProceduresAllWellFormed(lines);
    forall i | 0 <= i < |Procedures(lines)|
      ensures WellFormed(Procedures(lines)[i])
    {
      AllWellFormedAt(Procedures(lines), i);
    }
  }

  predicate AllWellFormed(ps: seq<Procedure>)
  {
    ps == [] || (WellFormed(ps[0]) && AllWellFormed(ps[1..]))
  }

  lemma {:induction false} AllWellFormedAt(ps: seq<Procedure>, i: nat)
    requires AllWellFormed(ps) && i < |ps|
    ensures WellFormed(ps[i])
  {
    if i > 0 {
      AllWellFormedAt(ps[1..], i - 1);
    }
  }

  lemma {:induction false} ProceduresAllWellFormed(lines: seq<string>)
    ensures AllWellFormed(Procedures(lines))
    decreases |lines|
  {
    if lines == [] {
    } else if !IsCreateLine(lines[0]) {
      ProceduresSkipLine(lines);
      ProceduresAllWellFormed(lines[1..]);
    } else {
      var n := ProcedureEnd(lines, 1).0;
      ProceduresAtCreate(lines);
      FirstProcedureWellFormed(lines);
      ProceduresAllWellFormed(lines[n..]);
      AllWellFormedCons(FirstProcedure(lines), Procedures(lines[n..]));
    }
  }

  lemma AllWellFormedCons(p: Procedure, ps: seq<Procedure>)
    requires WellFormed(p) && AllWellFormed(ps)
    ensures AllWellFormed([p] + ps)
  {
    assert ([p] + ps)[1..] == ps;
  }

  /** The procedure opened by a create line at the start of `lines`. */
  function FirstProcedure(lines: seq<string>): Procedure
    requires lines != []
  {
    var r := ProcedureEnd(lines, 1);
    Procedure(ProcName(lines[0]), lines[..r.0], r.1)
  }

  /** A closed procedure is emitted by size; an unterminated one (cut by the next
      create line or by the end of input) is one `full` chunk whatever its size. */
  function EmitProcedure(p: Procedure): seq<Chunk>
  {
    if p.closed then ClosedChunks(p.lines, p.name) else [FullChunk(p.lines, p.name)]
  }

  function EmitAll(ps: seq<Procedure>): seq<Chunk>
    decreases |ps|
  {
    if ps == [] then [] else EmitProcedure(ps[0]) + EmitAll(ps[1..])
  }

  /** Lines of a procedure that is open: its create line, then neither create nor `go` lines. */
  predicate OpenProcedure(c: seq<string>)
  {
    |c| >= 1 && IsCreateLine(c[0]) && forall j :: 1 <= j < |c| ==> !IsGoLine(c[j]) && !IsCreateLine(c[j])
  }

  lemma OpenProcedureSingle(l: string)
    requires IsCreateLine(l)
    ensures OpenProcedure([l])
  {
  }

  lemma OpenProcedureSnoc(c: seq<string>, l: string)
    requires OpenProcedure(c) && !IsCreateLine(l) && !IsGoLine(l)
    ensures OpenProcedure(c + [l])
  {
    var c' := c + [l];
    assert c'[0] == c[0];
    forall j | 1 <= j < |c'|
      ensures !IsGoLine(c'[j]) && !IsCreateLine(c'[j])
    {
      if j < |c| {
        assert c'[j] == c[j];
      }
    }
  }

  lemma {:induction false} EndSkip(xs: seq<string>, k: nat, m: nat)
    requires 1 <= k <= m <= |xs|
    requires forall j :: k <= j < m ==> !IsGoLine(xs[j]) && !IsCreateLine(xs[j])
    ensures ProcedureEnd(xs, k) == ProcedureEnd(xs, m)
    decreases m - k
  {
    if k < m {
      assert !IsGoLine(xs[k]) && !IsCreateLine(xs[k]);
      EndSkip(xs, k + 1, m);
    }
  }

  lemma EmitAllCons(p: Procedure, ps: seq<Procedure>)
    ensures EmitAll([p] + ps) == EmitProcedure(p) + EmitAll(ps)
  {
    assert ([p] + ps)[1..] == ps;
  }

  /** How `Procedures` reads input that starts with a create line. */
  lemma ProceduresSkipLine(xs: seq<string>)
    requires xs != [] && !IsCreateLine(xs[0])
    ensures Procedures(xs) == Procedures(xs[1..])
  {
  }

  lemma ProceduresAtCreate(xs: seq<string>)
    requires xs != [] && IsCreateLine(xs[0])
    ensures Procedures(xs) == [Procedure(ProcName(xs[0]), xs[..ProcedureEnd(xs, 1).0], ProcedureEnd(xs, 1).1)]
                              + Procedures(xs[ProcedureEnd(xs, 1).0..])
  {
  }

  /** Outside a procedure, the state machine emits the chunks of the procedures of the rest. */
  lemma {:induction false} RunOutside(lines: seq<string>, st: ScanState)
    requires !st.inProcedure && st.current == []
    ensures Run(lines, st) == st.chunks + EmitAll(Procedures(lines))
    decreases |lines|, 2
  {
    if lines != [] {
      var l := lines[0];
      if IsCreateLine(l) {
        var st' := Step(st, l);
        assert st' == ScanState(st.chunks, [l], true, ProcName(l));
        RunInside([l], lines[1..], st');
        assert [l] + lines[1..] == lines;
      } else {
        assert Step(st, l) == st;
        RunOutside(lines[1..], st);
      }
    }
  }

  /** Inside a procedure whose lines so far are `c`, the state machine emits the
      chunks of the procedures of `c + lines`. */
  lemma {:induction false} RunInside(c: seq<string>, lines: seq<string>, st: ScanState)
    requires OpenProcedure(c)
    requires st == ScanState(st.chunks, c, true, ProcName(c[0]))
    ensures Run(lines, st) == st.chunks + EmitAll(Procedures(c + lines))
    decreases |lines|, 2
  {
    if lines == [] {
      InsideAtEnd(c, st);
      assert c + lines == c;
    } else if IsCreateLine(lines[0]) {
      InsideThenCreate(c, lines, st);
    } else if IsGoLine(lines[0]) {
      InsideThenGo(c, lines, st);
    } else {
      InsideThenOther(c, lines, st);
    }
  }

  lemma InsideAtEnd(c: seq<string>, st: ScanState)
    requires OpenProcedure(c)
    requires st == ScanState(st.chunks, c, true, ProcName(c[0]))
    ensures Run([], st) == st.chunks + EmitAll(Procedures(c))
  {
    EndSkip(c, 1, |c|);
    ProceduresAtCreate(c);
    assert c[..|c|] == c && c[|c|..] == [];
    EmitAllCons(Procedure(ProcName(c[0]), c, false), []);
  }

  /** A create line inside a procedure flushes it as `full` and opens the next one. */
  lemma StepAtCreate(st: ScanState, l: string)
    requires st.inProcedure && st.current != [] && IsCreateLine(l)
    ensures Step(st, l) == ScanState(st.chunks + [FullChunk(st.current, st.procName)], [l], true, ProcName(l))
  {
    LineKinds(l);
  }

  /** A `go` line inside a procedure closes it. */
  lemma StepAtGo(st: ScanState, l: string)
    requires st.inProcedure && IsGoLine(l)
    ensures Step(st, l) == ScanState(st.chunks + ClosedChunks(st.current + [l], st.procName), [], false, "")
  {
    LineKinds(l);
  }

  /** Any other line inside a procedure joins it. */
  lemma StepInside(st: ScanState, l: string)
    requires st.inProcedure && !IsCreateLine(l) && !IsGoLine(l)
    ensures Step(st, l) == st.(current := st.current + [l])
  {
  }

  /** An open procedure followed by a create line is cut there. */
  lemma ProceduresCutAtCreate(c: seq<string>, lines: seq<string>)
    requires OpenProcedure(c) && lines != [] && IsCreateLine(lines[0])
    ensures Procedures(c + lines) == [Procedure(ProcName(c[0]), c, false)] + Procedures(lines)
  {
    var xs := c + lines;
    assert xs[0] == c[0] && xs[|c|] == lines[0];
    assert ProcedureEnd(xs, 1) == (|c|, false) by {
      LineKinds(lines[0]);
      EndSkip(xs, 1, |c|);
      assert ProcedureEnd(xs, |c|) == (|c|, false);
    }
    ProceduresAtCreate(xs);
    assert xs[..|c|] == c && xs[|c|..] == lines;
  }

  /** An open procedure followed by a `go` line is closed by it. */
  lemma ProceduresClosedAtGo(c: seq<string>, lines: seq<string>)
    requires OpenProcedure(c) && lines != [] && IsGoLine(lines[0])
    ensures Procedures(c + lines) == [Procedure(ProcName(c[0]), c + [lines[0]], true)] + Procedures(lines[1..])
  {
    var xs := c + lines;
    assert xs[0] == c[0] && xs[|c|] == lines[0];
    assert ProcedureEnd(xs, 1) == (|c| + 1, true) by {
      EndSkip(xs, 1, |c|);
      assert ProcedureEnd(xs, |c|) == (|c| + 1, true);
    }
    ProceduresAtCreate(xs);
    assert xs[..|c| + 1] == c + [lines[0]] && xs[|c| + 1..] == lines[1..];
  }

  lemma {:induction false} InsideThenCreate(c: seq<string>, lines: seq<string>, st: ScanState)
    requires OpenProcedure(c) && lines != [] && IsCreateLine(lines[0])
    requires st == ScanState(st.chunks, c, true, ProcName(c[0]))
    ensures Run(lines, st) == st.chunks + EmitAll(Procedures(c + lines))
    decreases |lines|, 1
  {
    var l := lines[0];
    var name := ProcName(c[0]);
    ProceduresCutAtCreate(c, lines);
    EmitAllCons(Procedure(name, c, false), Procedures(lines));
    var st' := ScanState(st.chunks + [FullChunk(c, name)], [l], true, ProcName(l));
    StepAtCreate(st, l);
    assert Run(lines, st) == Run(lines[1..], st');
    OpenProcedureSingle(l);
    RunInside([l], lines[1..], st');
    assert [l] + lines[1..] == lines;
    ConcatAssoc(st.chunks, [FullChunk(c, name)], EmitAll(Procedures(lines)));
  }

  lemma {:induction false} InsideThenGo(c: seq<string>, lines: seq<string>, st: ScanState)
    requires OpenProcedure(c) && lines != [] && IsGoLine(lines[0])
    requires st == ScanState(st.chunks, c, true, ProcName(c[0]))
    ensures Run(lines, st) == st.chunks + EmitAll(Procedures(c + lines))
    decreases |lines|, 1
  {
    var l := lines[0];
    var name := ProcName(c[0]);
    ProceduresClosedAtGo(c, lines);
    EmitAllCons(Procedure(name, c + [l], true), Procedures(lines[1..]));
    var st' := ScanState(st.chunks + ClosedChunks(c + [l], name), [], false, "");
    StepAtGo(st, l);
    assert Run(lines, st) == Run(lines[1..], st');
    RunOutside(lines[1..], st');
    ConcatAssoc(st.chunks, ClosedChunks(c + [l], name), EmitAll(Procedures(lines[1..])));
  }

  lemma {:induction false} InsideThenOther(c: seq<string>, lines: seq<string>, st: ScanState)
    requires OpenProcedure(c) && lines != [] && !IsCreateLine(lines[0]) && !IsGoLine(lines[0])
    requires st == ScanState(st.chunks, c, true, ProcName(c[0]))
    ensures Run(lines, st) == st.chunks + EmitAll(Procedures(c + lines))
    decreases |lines|, 1
  {
    var l := lines[0];
    var st' := ScanState(st.chunks, c + [l], true, ProcName(c[0]));
    StepInside(st, l);
    assert Run(lines, st) == Run(lines[1..], st');
    OpenProcedureSnoc(c, l);
    RunInside(c + [l], lines[1..], st');
    ConcatAssoc(c, [l], lines[1..]);
    assert [l] + lines[1..] == lines;
  }

  /** The chunker emits, per procedure and in input order, that procedure's chunks,
      and then drops the blank ones. */
  lemma ChunksByProcedure(content: string)
    ensures ExtractionChunks(content) == KeepNonBlank(EmitAll(Procedures(Split(content, "\n"))))
  {
    var lines := Split(content, "\n");
    if content == "" {
      assert lines == [""];
      assert !IsCreateLine("");
      assert Procedures(lines) == Procedures(lines[1..]) == [];
      return;
    }
    RunOutside(lines, InitialScan);
    assert InitialScan.chunks + EmitAll(Procedures(lines)) == EmitAll(Procedures(lines));
  }
}
