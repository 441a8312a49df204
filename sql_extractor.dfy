/** `SQLExtractor`: it splits a SQL file into chunks, has each chunk analysed,
    and merges the analyses of a long procedure (a header and body parts) into
    one record kept in `partialResults`.

    The analysis of a chunk is a call to a language model; here its outcome
    (after the retries) is an input: `Success(record)` or `Failure(message)`
    for an exception. */
module Extractor {
  import opened Wrappers
  import opened Lists
  import opened PyStr
  import opened ExtractionChunking

  /** `SQLExtraction` */
  datatype Extraction = Extraction(
    procName: string,
    description: string,
    inParams: seq<string>,
    outParams: seq<string>,
    inoutParams: seq<string>,
    relatedTables: seq<string>)

  predicate NoDuplicates(xs: seq<string>)
  {
    forall i, j :: 0 <= i < j < |xs| ==> xs[i] != xs[j]
  }

  /** The distinct elements of `xs`. */
  function Dedup(xs: seq<string>): (r: seq<string>)
    ensures forall x :: x in r <==> x in xs
    ensures NoDuplicates(r)
    decreases |xs|
  {
    if xs == [] then []
    else
      var init := Dedup(xs[..|xs| - 1]);
      var last := xs[|xs| - 1];
      assert xs == xs[..|xs| - 1] + [last];
      if last in init then init else init + [last]
  }

  /** `list(set(a + b))` */
  function Union(a: seq<string>, b: seq<string>): (r: seq<string>)
    ensures forall x :: x in r <==> x in a || x in b
    ensures NoDuplicates(r)
  {
    Dedup(a + b)
  }

  /** The index of the first partial result for procedure `name` (the loop over
      `self.partial_results` that stops at the first match). */
  function FirstMatch(partials: seq<Extraction>, name: string): (r: Option<nat>)
    ensures r.Some? ==> r.value < |partials| && partials[r.value].procName == name
    ensures r.Some? ==> forall k :: 0 <= k < r.value ==> partials[k].procName != name
    ensures r.None? ==> forall k :: 0 <= k < |partials| ==> partials[k].procName != name
    decreases |partials|
  {
    if partials == [] then None
    else if partials[0].procName == name then Some(0)
    else match FirstMatch(partials[1..], name)
      case None => None
      case Some(i) => Some(i + 1)
  }

  /** The same procedures with the same parameters, in the same order. */
  predicate SameKeys(a: seq<Extraction>, b: seq<Extraction>)
  {
    && |a| == |b|
    && forall i :: 0 <= i < |a| ==>
         && a[i].procName == b[i].procName
         && a[i].inParams == b[i].inParams
         && a[i].outParams == b[i].outParams
         && a[i].inoutParams == b[i].inoutParams
  }

  /** What one successful analysis leaves behind: the partial results, and the
      value `extract_from_chunk` returns (`None` for an intermediate body part). */
  datatype MergeOutcome = MergeOutcome(partials: seq<Extraction>, result: Option<Extraction>)

  /** The merge `extract_from_chunk` applies to the record `e` the model returned. */
  function MergeBody(partials: seq<Extraction>, chunk: Chunk, e: Extraction): (m: MergeOutcome)
    ensures SameKeys(partials, m.partials)
    ensures m.result.None? <==>
      chunk.kind == Body && FirstMatch(partials, chunk.procName).Some? && chunk.part.Some? && chunk.part.value.index > 0
    ensures m.result.Some? ==>
      && m.result.value.procName == e.procName
      && m.result.value.description == e.description
      && m.result.value.relatedTables == e.relatedTables
    ensures m.result.Some? && chunk.kind == Body && FirstMatch(partials, chunk.procName).Some? ==>
      var prev := partials[FirstMatch(partials, chunk.procName).value];
      && m.result.value.inParams == prev.inParams
      && m.result.value.outParams == prev.outParams
      && m.result.value.inoutParams == prev.inoutParams
    ensures m.result.Some? && !(chunk.kind == Body && FirstMatch(partials, chunk.procName).Some?) ==>
      m.result.value == e
    ensures !(chunk.kind == Body && FirstMatch(partials, chunk.procName).Some?) || chunk.part.None? ==>
      m.partials == partials
    ensures chunk.kind == Body && FirstMatch(partials, chunk.procName).Some? && chunk.part.Some? ==>
      var j := FirstMatch(partials, chunk.procName).value;
      var prev := partials[j];
      && (forall k :: 0 <= k < |partials| && k != j ==> m.partials[k] == partials[k])
      && (chunk.part.value.index > 0 ==>
            && m.partials[j].description == prev.description + "\n" + e.description
            && forall t :: t in m.partials[j].relatedTables <==> t in prev.relatedTables || t in e.relatedTables)
      && (chunk.part.value.index == 0 ==>
            m.partials[j].description == e.description && m.partials[j].relatedTables == e.relatedTables)
  {
    if chunk.kind != Body then MergeOutcome(partials, Some(e))
    else match FirstMatch(partials, chunk.procName)
      case None => MergeOutcome(partials, Some(e))
      case Some(j) =>
        var prev := partials[j];
        var withParams := e.(inParams := prev.inParams, outParams := prev.outParams, inoutParams := prev.inoutParams);
        match chunk.part
          case None => MergeOutcome(partials, Some(withParams))
          case Some(info) =>
            if info.index > 0 then
              var merged := MergePart(prev, e);
              MergeOutcome(partials[j := merged], None)
            else
              MergeOutcome(partials[j := prev.(description := e.description, relatedTables := e.relatedTables)], Some(withParams))
  }

  /** A later part of a body merged into the record stored for its procedure:
      its description is appended after a newline and its tables are added. */
  function MergePart(prev: Extraction, e: Extraction): (r: Extraction)
    ensures r.procName == prev.procName
    ensures r.inParams == prev.inParams && r.outParams == prev.outParams && r.inoutParams == prev.inoutParams
    ensures r.description == prev.description + "\n" + e.description
    ensures forall t :: t in r.relatedTables <==> t in prev.relatedTables || t in e.relatedTables
  {
    prev.(description := prev.description + "\n" + e.description,
          relatedTables := Union(prev.relatedTables, e.relatedTables))
  }

  /** A body result that `process_sql_file` keeps: a single body, or the last part. */
  predicate KeepsBodyResult(chunk: Chunk)
  {
    chunk.part.None? || chunk.part.value.index == chunk.part.value.total - 1
  }

  /** The final results and the partial results of `process_sql_file`. */
  datatype FileResult = FileResult(finals: seq<Extraction>, partials: seq<Extraction>)

  /** The loop of `process_sql_file` over the remaining chunks, from the given
      final and partial results; the first failure ends it with no final results. */
  function ProcessFrom(chunks: seq<Chunk>, outcomes: seq<Result<Extraction, string>>,
                       finals: seq<Extraction>, partials: seq<Extraction>): FileResult
    requires |outcomes| == |chunks|
    decreases |chunks|
  {
    if chunks == [] then FileResult(finals, partials)
    else match outcomes[0]
      case Failure(_) => FileResult([], partials)
      case Success(e) =>
        var chunk := chunks[0];
        var m := MergeBody(partials, chunk, e);
        match m.result
          case None => ProcessFrom(chunks[1..], outcomes[1..], finals, m.partials)
          case Some(x) =>
            if chunk.kind == Header then ProcessFrom(chunks[1..], outcomes[1..], finals, m.partials + [x])
            else if chunk.kind == Full || KeepsBodyResult(chunk) then
              ProcessFrom(chunks[1..], outcomes[1..], finals + [x], m.partials)
            else ProcessFrom(chunks[1..], outcomes[1..], finals, m.partials)
  }

  /** `process_sql_file` on a file whose text is `content`. */
  function ProcessFile(content: string, outcomes: seq<Result<Extraction, string>>): FileResult
    requires |outcomes| == |ExtractionChunks(content)|
  {
    ProcessFrom(ExtractionChunks(content), outcomes, [], [])
  }

  // ---------------------------------------------------------------- properties

  /** One failed analysis, anywhere, makes the whole file yield no results. */
  lemma {:induction false} FailureYieldsNothing(chunks: seq<Chunk>, outcomes: seq<Result<Extraction, string>>,
                                                finals: seq<Extraction>, partials: seq<Extraction>, i: nat)
    requires |outcomes| == |chunks|
    requires i < |outcomes| && outcomes[i].Failure?
    ensures ProcessFrom(chunks, outcomes, finals, partials).finals == []
    decreases |chunks|
  {
    if outcomes[0].Success? {
      var chunk := chunks[0];
      var m := MergeBody(partials, chunk, outcomes[0].value);
      var f := if m.result.Some? && chunk.kind != Header && (chunk.kind == Full || KeepsBodyResult(chunk))
               then finals + [m.result.value] else finals;
      var p := if m.result.Some? && chunk.kind == Header then m.partials + [m.result.value] else m.partials;
      assert ProcessFrom(chunks, outcomes, finals, partials) == ProcessFrom(chunks[1..], outcomes[1..], f, p);
      FailureYieldsNothing(chunks[1..], outcomes[1..], f, p, i - 1);
    }
  }

  /** The successful outcomes, as records. */
  function Successes(es: seq<Extraction>): (r: seq<Result<Extraction, string>>)
    ensures |r| == |es|
    ensures forall i :: 0 <= i < |es| ==> r[i] == Success(es[i])
  {
    seq(|es|, i requires 0 <= i < |es| => Success(es[i]))
  }

  /** Procedures that fit in one chunk each are returned as analysed, in order,
      and leave no partial results behind. */
  lemma {:induction false} FullChunksReturnedInOrder(chunks: seq<Chunk>, es: seq<Extraction>,
                                                     finals: seq<Extraction>, partials: seq<Extraction>)
    requires |es| == |chunks|
    requires forall i :: 0 <= i < |chunks| ==> chunks[i].kind == Full
    ensures ProcessFrom(chunks, Successes(es), finals, partials) == FileResult(finals + es, partials)
    decreases |chunks|
  {
    if chunks == [] {
      assert finals + es == finals;
    } else {
      assert Successes(es)[1..] == Successes(es[1..]);
      FullChunksReturnedInOrder(chunks[1..], es[1..], finals + [es[0]], partials);
      ConcatAssoc(finals, [es[0]], es[1..]);
      assert [es[0]] + es[1..] == es;
    }
  }

  /** Processing never removes, renames or re-parameterises a stored partial
      result: it only appends records. This holds whether or not an analysis
      fails, since a failure leaves the partial results as they stand. */
  lemma {:induction false} PartialsKeyedByHeaders(chunks: seq<Chunk>, outcomes: seq<Result<Extraction, string>>,
                                                  finals: seq<Extraction>, partials: seq<Extraction>)
    requires |outcomes| == |chunks|
    ensures var r := ProcessFrom(chunks, outcomes, finals, partials);
      && |partials| <= |r.partials|
      && SameKeys(partials, r.partials[..|partials|])
    decreases |chunks|
  {
    if chunks != [] && outcomes[0].Success? {
      var chunk := chunks[0];
      var m := MergeBody(partials, chunk, outcomes[0].value);
      var p := if m.result.Some? && chunk.kind == Header then m.partials + [m.result.value] else m.partials;
      var f := if m.result.Some? && chunk.kind != Header && (chunk.kind == Full || KeepsBodyResult(chunk))
               then finals + [m.result.value] else finals;
      assert ProcessFrom(chunks, outcomes, finals, partials) == ProcessFrom(chunks[1..], outcomes[1..], f, p);
      PartialsKeyedByHeaders(chunks[1..], outcomes[1..], f, p);
      var r := ProcessFrom(chunks[1..], outcomes[1..], f, p);
      assert r.partials[..|partials|] == r.partials[..|p|][..|partials|];
    }
  }

  /** The descriptions the analyses of the body parts returned, in order. */
  function Descriptions(es: seq<Extraction>): (r: seq<string>)
    ensures |r| == |es|
    ensures forall i :: 0 <= i < |es| ==> r[i] == es[i].description
  {
    seq(|es|, i requires 0 <= i < |es| => es[i].description)
  }

  /** Every table any of the analyses named. */
  function TableSet(es: seq<Extraction>): (r: set<string>)
    ensures forall t :: t in r <==> exists k :: 0 <= k < |es| && t in es[k].relatedTables
  {
    set k, t | 0 <= k < |es| && t in es[k].relatedTables :: t
  }

  /** Body chunks of procedure `name` that follow its first part. */
  predicate LaterPartsOf(chunks: seq<Chunk>, name: string)
    decreases |chunks|
  {
    chunks == [] ||
      (&& chunks[0].kind == Body && chunks[0].procName == name
       && chunks[0].part.Some? && chunks[0].part.value.index > 0
       && LaterPartsOf(chunks[1..], name))
  }

  /** The numbered parts of a body from the second on are later parts. */
  lemma {:induction false} NumberedLaterParts(contents: seq<string>, name: string, i: nat)
    requires 1 <= i <= |contents|
    ensures LaterPartsOf(NumberedBodyChunks(contents, name)[i..], name)
    decreases |contents| - i
  {
    var chunks := NumberedBodyChunks(contents, name)[i..];
    if i < |contents| {
      NumberedLaterParts(contents, name, i + 1);
      assert chunks[1..] == NumberedBodyChunks(contents, name)[i + 1..];
      assert chunks[0] == Chunk(Body, contents[i], name, Some(PartInfo(i, |contents|)));
    }
  }

  /** A later part merges into the record stored for its procedure and yields nothing. */
  lemma LaterPartStep(chunks: seq<Chunk>, es: seq<Extraction>, name: string,
                      finals: seq<Extraction>, partials: seq<Extraction>, acc: Extraction)
    requires |chunks| == |es| >= 1 && LaterPartsOf(chunks, name)
    requires FirstMatch(partials, name).None? && acc.procName == name
    ensures ProcessFrom(chunks, Successes(es), finals, partials + [acc])
         == ProcessFrom(chunks[1..], Successes(es[1..]), finals, partials + [MergePart(acc, es[0])])
  {
    var ps := partials + [acc];
    assert FirstMatch(ps, name) == Some(|partials|) by {
      assert ps[|partials|].procName == name;
    }
    var merged := MergePart(acc, es[0]);
    assert MergeBody(ps, chunks[0], es[0]) == MergeOutcome(ps[|partials| := merged], None);
    assert ps[|partials| := merged] == partials + [merged];
    assert Successes(es)[1..] == Successes(es[1..]);
  }

  /** Merging the tables of part `i` extends the tables of parts `..i` to those of `..i + 1`. */
  lemma TablesStep(tables: seq<string>, es: seq<Extraction>, i: nat)
    requires i < |es|
    requires forall t :: t in tables <==> t in TableSet(es[..i])
    ensures forall t :: t in Union(tables, es[i].relatedTables) <==> t in TableSet(es[..i + 1])
  {
    forall t
      ensures t in Union(tables, es[i].relatedTables) <==> t in TableSet(es[..i + 1])
    {
      if t in TableSet(es[..i + 1]) {
        var k :| 0 <= k < i + 1 && t in es[..i + 1][k].relatedTables;
        if k < i {
          assert es[..i][k] == es[k];
        }
      }
      if t in tables {
        var k :| 0 <= k < i && t in es[..i][k].relatedTables;
        assert es[..i + 1][k] == es[k];
      }
      if t in es[i].relatedTables {
        assert es[..i + 1][i] == es[i];
      }
    }
  }

  /** The record stored for a procedure once the parts `es` have merged into it in
      order: each appends its description after a newline and unions in its tables. */
  function MergeParts(acc: Extraction, es: seq<Extraction>): (r: Extraction)
    ensures r.procName == acc.procName
    ensures r.inParams == acc.inParams && r.outParams == acc.outParams && r.inoutParams == acc.inoutParams
    decreases |es|
  {
    if es == [] then acc else MergeParts(MergePart(acc, es[0]), es[1..])
  }

  /** Merging the parts from `i` on completes the joined description and the table set. */
  lemma {:induction false} MergePartsSpec(acc: Extraction, es: seq<Extraction>, i: nat)
    requires 1 <= i <= |es|
    requires acc.description == Join(Descriptions(es)[..i], "\n")
    requires forall t :: t in acc.relatedTables <==> t in TableSet(es[..i])
    ensures MergeParts(acc, es[i..]).description == Join(Descriptions(es), "\n")
    ensures forall t :: t in MergeParts(acc, es[i..]).relatedTables <==> t in TableSet(es)
    decreases |es| - i
  {
    if i == |es| {
      assert es[..i] == es;
      assert Descriptions(es)[..i] == Descriptions(es);
      assert es[i..] == [];
    } else {
      var merged := MergePart(acc, es[i]);
      assert merged.description == Join(Descriptions(es)[..i + 1], "\n") by {
        assert Descriptions(es)[..i + 1] == Descriptions(es)[..i] + [es[i].description];
        JoinSnoc(Descriptions(es)[..i], es[i].description, "\n");
      }
      TablesStep(acc.relatedTables, es, i);
      MergePartsSpec(merged, es, i + 1);
      assert es[i..][0] == es[i] && es[i..][1..] == es[i + 1..];
    }
  }

  /** The later parts of a stored procedure merge into its record, in order, and
      leave the final results alone. */
  lemma {:induction false} LaterParts(chunks: seq<Chunk>, es: seq<Extraction>, name: string,
                                      finals: seq<Extraction>, partials: seq<Extraction>, acc: Extraction)
    requires |chunks| == |es| && LaterPartsOf(chunks, name)
    requires FirstMatch(partials, name).None? && acc.procName == name
    ensures ProcessFrom(chunks, Successes(es), finals, partials + [acc])
         == FileResult(finals, partials + [MergeParts(acc, es)])
    decreases |chunks|
  {
    if chunks != [] {
      LaterPartStep(chunks, es, name, finals, partials, acc);
      LaterParts(chunks[1..], es[1..], name, finals, partials, MergePart(acc, es[0]));
    }
  }

  /** A procedure split into a header and numbered body parts, all analysed: its
      partial record keeps the header's name and parameters, gathers the parts'
      descriptions joined by newlines and every table they name. A single part is
      returned with the header's parameters; with two parts or more the last part
      is an intermediate merge too, so the procedure gets no final result. */
  lemma MultiPartProcedure(name: string, headerContent: string, contents: seq<string>,
                           header: Extraction, es: seq<Extraction>,
                           finals: seq<Extraction>, partials: seq<Extraction>)
    requires |contents| == |es| >= 1
    requires header.procName == name && FirstMatch(partials, name).None?
    ensures var chunks := [Chunk(Header, headerContent, name, None)] + NumberedBodyChunks(contents, name);
      var r := ProcessFrom(chunks, Successes([header] + es), finals, partials);
      && r.finals == finals + (if |es| == 1
                               then [es[0].(inParams := header.inParams, outParams := header.outParams,
                                            inoutParams := header.inoutParams)]
                               else [])
      && |r.partials| == |partials| + 1
      && r.partials[..|partials|] == partials
      && var last := r.partials[|partials|];
         && last.procName == name
         && last.inParams == header.inParams && last.outParams == header.outParams
         && last.inoutParams == header.inoutParams
         && last.description == Join(Descriptions(es), "\n")
         && forall t :: t in last.relatedTables <==> t in TableSet(es)
  {
    var acc := header.(description := es[0].description, relatedTables := es[0].relatedTables);
    var withParams := es[0].(inParams := header.inParams, outParams := header.outParams, inoutParams := header.inoutParams);
    var f := if |es| == 1 then finals + [withParams] else finals;
    HeaderThenFirstPart(name, headerContent, contents, header, es, finals, partials);
    assert Descriptions(es)[..1] == [es[0].description];
    assert forall t :: t in acc.relatedTables <==> t in TableSet(es[..1]) by {
      assert es[..1][0] == es[0];
    }
    NumberedLaterParts(contents, name, 1);
    assert Successes(es)[1..] == Successes(es[1..]);
    LaterParts(NumberedBodyChunks(contents, name)[1..], es[1..], name, f, partials, acc);
    MergePartsSpec(acc, es, 1);
  }

  /** The header's record is stored; part 0 then overwrites its description and
      tables and is returned with the header's parameters, kept when it is the only part. */
  lemma HeaderThenFirstPart(name: string, headerContent: string, contents: seq<string>,
                            header: Extraction, es: seq<Extraction>,
                            finals: seq<Extraction>, partials: seq<Extraction>)
    requires |contents| == |es| >= 1
    requires header.procName == name && FirstMatch(partials, name).None?
    ensures var withParams := es[0].(inParams := header.inParams, outParams := header.outParams,
                                     inoutParams := header.inoutParams);
      ProcessFrom([Chunk(Header, headerContent, name, None)] + NumberedBodyChunks(contents, name),
                  Successes([header] + es), finals, partials)
      == ProcessFrom(NumberedBodyChunks(contents, name)[1..], Successes(es)[1..],
                     if |es| == 1 then finals + [withParams] else finals,
                     partials + [header.(description := es[0].description, relatedTables := es[0].relatedTables)])
  {
    var chunks := [Chunk(Header, headerContent, name, None)] + NumberedBodyChunks(contents, name);
    var outcomes := Successes([header] + es);
    assert chunks[1..] == NumberedBodyChunks(contents, name);
    assert outcomes[1..] == Successes(es);
    assert outcomes[0] == Success(header);
    FirstPartStep(name, contents, es, finals, partials, header);
  }

  /** Part 0 of a body, with the header's record stored, overwrites its description
      and tables and is returned with the header's parameters. */
  lemma FirstPartStep(name: string, contents: seq<string>, es: seq<Extraction>,
                      finals: seq<Extraction>, partials: seq<Extraction>, header: Extraction)
    requires |contents| == |es| >= 1
    requires header.procName == name && FirstMatch(partials, name).None?
    ensures var withParams := es[0].(inParams := header.inParams, outParams := header.outParams,
                                     inoutParams := header.inoutParams);
      ProcessFrom(NumberedBodyChunks(contents, name), Successes(es), finals, partials + [header])
      == ProcessFrom(NumberedBodyChunks(contents, name)[1..], Successes(es)[1..],
                     if |es| == 1 then finals + [withParams] else finals,
                     partials + [header.(description := es[0].description, relatedTables := es[0].relatedTables)])
  {
    var ps := partials + [header];
    var part0 := Chunk(Body, contents[0], name, Some(PartInfo(0, |contents|)));
    assert NumberedBodyChunks(contents, name)[0] == part0;
    assert FirstMatch(ps, name) == Some(|partials|) by {
      assert ps[|partials|].procName == name;
    }
    var acc := header.(description := es[0].description, relatedTables := es[0].relatedTables);
    var withParams := es[0].(inParams := header.inParams, outParams := header.outParams, inoutParams := header.inoutParams);
    assert MergeBody(ps, part0, es[0]) == MergeOutcome(ps[|partials| := acc], Some(withParams));
    assert ps[|partials| := acc] == partials + [acc];
  }

  /** A record stored for another procedure does not become a match. */
  lemma FirstMatchSnoc(partials: seq<Extraction>, x: Extraction, name: string)
    requires FirstMatch(partials, name).None?
    ensures FirstMatch(partials + [x], name) == if x.procName == name then Some(|partials|) else None
  {
    var ps := partials + [x];
    assert forall k :: 0 <= k < |partials| ==> ps[k] == partials[k];
    if x.procName == name {
      assert ps[|partials|].procName == name;
    }
  }

  /** A header followed by one un-numbered body chunk: the header's record is
      stored unchanged, and the body's analysis reaches the final list, with the
      header's parameters when the header's analysis names the procedure as the
      chunks do, and unchanged otherwise. */
  lemma HeaderThenSingleBody(name: string, headerContent: string, bodyContent: string,
                             header: Extraction, e: Extraction,
                             finals: seq<Extraction>, partials: seq<Extraction>)
    requires FirstMatch(partials, name).None?
    ensures ProcessFrom([Chunk(Header, headerContent, name, None), Chunk(Body, bodyContent, name, None)],
                        Successes([header, e]), finals, partials)
         == FileResult(finals + [if header.procName == name
                                 then e.(inParams := header.inParams, outParams := header.outParams,
                                         inoutParams := header.inoutParams)
                                 else e],
                       partials + [header])
  {
    var chunks := [Chunk(Header, headerContent, name, None), Chunk(Body, bodyContent, name, None)];
    var outcomes := Successes([header, e]);
    var ps := partials + [header];
    var x := if header.procName == name
             then e.(inParams := header.inParams, outParams := header.outParams, inoutParams := header.inoutParams)
             else e;
    FirstMatchSnoc(partials, header, name);
    assert outcomes[0] == Success(header) && outcomes[1] == Success(e);
    assert MergeBody(partials, chunks[0], header) == MergeOutcome(partials, Some(header));
    assert ProcessFrom(chunks, outcomes, finals, partials) == ProcessFrom(chunks[1..], outcomes[1..], finals, ps);
    assert MergeBody(ps, chunks[1], e) == MergeOutcome(ps, Some(x));
    assert chunks[1..][1..] == [] && outcomes[1..][1..] == [];
    assert ProcessFrom(chunks[1..], outcomes[1..], finals, ps) == ProcessFrom([], [], finals + [x], ps);
  }

  /** Numbered body parts of a procedure that has no stored record are returned
      unchanged; only the last one reaches the final list. */
  lemma {:induction false} UnmatchedParts(contents: seq<string>, es: seq<Extraction>, name: string, i: nat,
                                          finals: seq<Extraction>, partials: seq<Extraction>)
    requires |contents| == |es| && i < |es|
    requires FirstMatch(partials, name).None?
    ensures ProcessFrom(NumberedBodyChunks(contents, name)[i..], Successes(es)[i..], finals, partials)
         == FileResult(finals + [es[|es| - 1]], partials)
    decreases |es| - i
  {
    var chunks := NumberedBodyChunks(contents, name)[i..];
    var outcomes := Successes(es)[i..];
    assert chunks[0] == Chunk(Body, contents[i], name, Some(PartInfo(i, |contents|)));
    assert outcomes[0] == Success(es[i]);
    assert MergeBody(partials, chunks[0], es[i]) == MergeOutcome(partials, Some(es[i]));
    if i == |es| - 1 {
      assert chunks[1..] == [];
    } else {
      assert chunks[1..] == NumberedBodyChunks(contents, name)[i + 1..];
      assert outcomes[1..] == Successes(es)[i + 1..];
      UnmatchedParts(contents, es, name, i + 1, finals, partials);
    }
  }

  /** When the header's analysis names the procedure differently from its chunks
      (the chunks are named by the create line's last word, so for
      `create procedure foo(@a int)` they are named `int)`), no body part finds a
      stored record: the header's record is stored as it is, each part is
      returned unchanged, and the last part reaches the final list. */
  lemma MismatchedHeaderName(name: string, headerContent: string, contents: seq<string>,
                             header: Extraction, es: seq<Extraction>,
                             finals: seq<Extraction>, partials: seq<Extraction>)
    requires |contents| == |es| >= 1
    requires header.procName != name && FirstMatch(partials, name).None?
    ensures ProcessFrom([Chunk(Header, headerContent, name, None)] + NumberedBodyChunks(contents, name),
                        Successes([header] + es), finals, partials)
         == FileResult(finals + [es[|es| - 1]], partials + [header])
  {
    var chunks := [Chunk(Header, headerContent, name, None)] + NumberedBodyChunks(contents, name);
    var outcomes := Successes([header] + es);
    FirstMatchSnoc(partials, header, name);
    assert chunks[1..] == NumberedBodyChunks(contents, name)[0..];
    assert outcomes[1..] == Successes(es)[0..];
    UnmatchedParts(contents, es, name, 0, finals, partials + [header]);
  }

  /** The name the chunks of `create procedure foo(@a int)` carry. */
  lemma ParameterListName()
    ensures ProcName("create procedure foo(@a int)") == "int)"
  {
    var line := "create procedure foo(@a int)";
    assert TrimRight(line) == line;
    assert TrailingWordLength(line[..|line| - 4]) == 0;
    assert TrailingWordLength(line) == 4;
    assert line[|line| - 4..] == "int)";
  }

  // ---------------------------------------------------------------- the class

  class SqlExtractor {
    /** `self.partial_results`: the header analyses that body parts merge into. */
    var partialResults: seq<Extraction>

    constructor ()
      ensures partialResults == []
    {
      partialResults := [];
    }

    /** `_split_sql_into_chunks` */
    method SplitSqlIntoChunks(content: string) returns (chunks: seq<Chunk>)
      ensures chunks == ExtractionChunks(content)
    {
      if content == "" {
        return [];
      }
      var lines := Split(content, "\n");
      var emitted: seq<Chunk> := [];
      var current: seq<string> := [];
      var inProcedure := false;
      var procName := "";
      var i := 0;
      while i < |lines|
        invariant 0 <= i <= |lines|
        invariant Run(lines[i..], ScanState(emitted, current, inProcedure, procName)) == Run(lines, InitialScan)
      {
        var line := lines[i];
        ghost var before := ScanState(emitted, current, inProcedure, procName);
        if IsCreateLine(line) {
          if inProcedure && current != [] {
            emitted := emitted + [FullChunk(current, procName)];
            current := [];
          }
          inProcedure := true;
          procName := ProcName(line);
        }
        if inProcedure {
          current := current + [line];
          if IsGoLine(line) {
            var closed := ClosedProcedureChunks(current, procName);
            emitted := emitted + closed;
            current := [];
            inProcedure := false;
            procName := "";
          }
        }
        assert ScanState(emitted, current, inProcedure, procName) == Step(before, line);
        assert lines[i..][1..] == lines[i + 1..];
        i := i + 1;
      }
      if current != [] {
        emitted := emitted + [FullChunk(current, procName)];
      }
      chunks := KeepNonBlank(emitted);
    }

    /** The chunks of a procedure whose `go` line has just been read: whole, or
        split into header and body, the body packed into numbered parts when it is
        still over the budget. */
    method ClosedProcedureChunks(current: seq<string>, name: string) returns (out: seq<Chunk>)
      ensures out == ClosedChunks(current, name)
    {
      var content := Join(current, "\n");
      if EstimateTokens(content) <= MaxInputTokens {
        return [Chunk(Full, content, name, None)];
      }
      var headerLines, bodyLines := SplitHeaderBody(current);
      var bodyContent := Join(bodyLines, "\n");
      var header := Chunk(Header, Join(headerLines, "\n"), name, None);
      if EstimateTokens(bodyContent) <= MaxInputTokens {
        return [header, Chunk(Body, bodyContent, name, None)];
      }
      var bodyChunks := PackBody(bodyLines);
      out := [header];
      var n := 0;
      while n < |bodyChunks|
        invariant 0 <= n <= |bodyChunks|
        invariant out == [header] + NumberedBodyChunks(bodyChunks, name)[..n]
      {
        out := out + [Chunk(Body, bodyChunks[n], name, Some(PartInfo(n, |bodyChunks|)))];
        n := n + 1;
      }
      assert NumberedBodyChunks(bodyChunks, name)[..n] == NumberedBodyChunks(bodyChunks, name);
    }

    /** The lines before the first body-start line, and the rest. */
    method SplitHeaderBody(lines: seq<string>) returns (header: seq<string>, body: seq<string>)
      ensures header == lines[..HeaderLength(lines)]
      ensures body == lines[HeaderLength(lines)..]
    {
      ghost var h := HeaderLength(lines);
      header := [];
      body := [];
      var inBody := false;
      var k := 0;
      while k < |lines|
        invariant 0 <= k <= |lines|
        invariant inBody <==> h < k
        invariant header == lines[..if k < h then k else h]
        invariant body == if h < k then lines[h..k] else []
      {
        var line := lines[k];
        HeaderLengthAt(lines, k);
        if IsBodyStart(line) {
          inBody := true;
        }
        if inBody {
          assert lines[h..k + 1] == lines[h..k] + [line];
          body := body + [line];
        } else {
          assert lines[..k + 1] == lines[..k] + [line];
          header := header + [line];
        }
        k := k + 1;
      }
    }

    /** The body lines packed greedily into parts, each part joined by newlines. */
    method PackBody(bodyLines: seq<string>) returns (bodyChunks: seq<string>)
      ensures bodyChunks == JoinEach(Pack(bodyLines))
    {
      bodyChunks := [];
      ghost var parts: seq<seq<string>> := [];
      var currentPart: seq<string> := [];
      var tokens: nat := 0;
      var j := 0;
      while j < |bodyLines|
        invariant 0 <= j <= |bodyLines|
        invariant bodyChunks == JoinEach(parts)
        invariant PackFrom(bodyLines[j..], currentPart, tokens, parts) == Pack(bodyLines)
      {
        var line := bodyLines[j];
        var lineTokens := EstimateTokens(line);
        assert bodyLines[j..][0] == line && bodyLines[j..][1..] == bodyLines[j + 1..];
        if tokens + lineTokens > MaxInputTokens && currentPart != [] {
          assert PackFrom(bodyLines[j..], currentPart, tokens, parts)
              == PackFrom(bodyLines[j + 1..], [line], lineTokens, parts + [currentPart]);
          bodyChunks := bodyChunks + [Join(currentPart, "\n")];
          parts := parts + [currentPart];
          currentPart := [];
          tokens := 0;
        }
        currentPart := currentPart + [line];
        tokens := tokens + lineTokens;
        assert [] + [line] == [line];
        j := j + 1;
      }
      if currentPart != [] {
        bodyChunks := bodyChunks + [Join(currentPart, "\n")];
        parts := parts + [currentPart];
      }
    }

    /** `extract_from_chunk`, given the outcome of the model call for `chunk`: a
        failure propagates; a body analysis is merged into the first partial result
        of its procedure. */
    method ExtractFromChunk(chunk: Chunk, outcome: Result<Extraction, string>) returns (r: Result<Option<Extraction>, string>)
      modifies this
      ensures outcome.Failure? ==> r == Failure(outcome.error) && partialResults == old(partialResults)
      ensures outcome.Success? ==>
        var m := MergeBody(old(partialResults), chunk, outcome.value);
        r == Success(m.result) && partialResults == m.partials
    {
      if outcome.Failure? {
        return Failure(outcome.error);
      }
      var extraction := outcome.value;
      if chunk.kind == Body {
        var i := 0;
        while i < |partialResults|
          invariant 0 <= i <= |partialResults|
          invariant partialResults == old(partialResults)
          invariant forall k :: 0 <= k < i ==> partialResults[k].procName != chunk.procName
        {
          var prev := partialResults[i];
          if prev.procName == chunk.procName {
            extraction := extraction.(inParams := prev.inParams, outParams := prev.outParams,
                                      inoutParams := prev.inoutParams);
            if chunk.part.Some? {
              if chunk.part.value.index > 0 {
                var merged := MergePart(prev, extraction);
                partialResults := partialResults[i := merged];
                return Success(None);
              } else {
                partialResults := partialResults[i := prev.(description := extraction.description,
                                                            relatedTables := extraction.relatedTables)];
              }
            }
            break;
          }
          i := i + 1;
        }
      }
      return Success(Some(extraction));
    }

    /** `process_sql_file` on a file whose text is `content`; `outcomes[i]` is how
        the analysis of the `i`-th chunk ends. */
    method ProcessSqlFile(content: string, outcomes: seq<Result<Extraction, string>>) returns (finals: seq<Extraction>)
      requires |outcomes| == |ExtractionChunks(content)|
      modifies this
      ensures finals == ProcessFile(content, outcomes).finals
      ensures partialResults == ProcessFile(content, outcomes).partials
    {
      var chunks := SplitSqlIntoChunks(content);
      partialResults := [];
      var results: seq<Extraction> := [];
      var i := 0;
      while i < |chunks|
        invariant 0 <= i <= |chunks|
        invariant ProcessFrom(chunks[i..], outcomes[i..], results, partialResults) == ProcessFile(content, outcomes)
      {
        var chunk := chunks[i];
        assert chunks[i..][1..] == chunks[i + 1..] && outcomes[i..][1..] == outcomes[i + 1..];
        ghost var before := partialResults;
        var r := ExtractFromChunk(chunk, outcomes[i]);
        if r.Failure? {
          return [];
        }
        assert partialResults == MergeBody(before, chunk, outcomes[i].value).partials;
        if r.value.Some? {
          var result := r.value.value;
          if chunk.kind == Header {
            partialResults := partialResults + [result];
          } else if chunk.kind == Full {
            results := results + [result];
          } else if chunk.part.None? || chunk.part.value.index == chunk.part.value.total - 1 {
            results := results + [result];
          }
        }
        i := i + 1;
      }
      return results;
    }
  }
}
