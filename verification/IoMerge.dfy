/** Putting the detections of several recognizers and of both language branches together. */
module IoMerge {
  import opened Models
  import opened Ordering
  import opened FirstOccurrences
  import opened IoLocations
  import opened Base
  import Text

  type Input = Entry<InputCategory>
  type Output = Entry<OutputCategory>

  /** Collects detections, each `(category, description)` once. */
  class Accumulator {
    var inputs: seq<Input>
    var outputs: seq<Output>
    var seenInputs: set<Input>
    var seenOutputs: set<Output>

    ghost predicate Valid()
      reads this
    {
      seenInputs == Elements(inputs) && seenOutputs == Elements(outputs)
    }

    constructor ()
      ensures Valid() && inputs == [] && outputs == []
    {
      inputs, outputs, seenInputs, seenOutputs := [], [], {}, {};
    }

    method AddInput(category: InputCategory, description: string)
      requires Valid()
      modifies this`inputs, this`seenInputs
      ensures Valid()
      ensures inputs ==
              if Entry(category, description) in old(inputs) then old(inputs)
              else old(inputs) + [Entry(category, description)]
    {
      var key := Entry(category, description);
      if key in seenInputs { return; }
      seenInputs := seenInputs + {key};
      inputs := inputs + [key];
    }

    method AddOutput(category: OutputCategory, description: string)
      requires Valid()
      modifies this`outputs, this`seenOutputs
      ensures Valid()
      ensures outputs ==
              if Entry(category, description) in old(outputs) then old(outputs)
              else old(outputs) + [Entry(category, description)]
    {
      var key := Entry(category, description);
      if key in seenOutputs { return; }
      seenOutputs := seenOutputs + {key};
      outputs := outputs + [key];
    }

    method AddInputs(entries: seq<Input>)
      requires Valid()
      modifies this`inputs, this`seenInputs
      ensures Valid()
      ensures Dedup(old(inputs)) == old(inputs) ==> inputs == Dedup(old(inputs) + entries)
    {
      ghost var was := inputs;
      assert was + [] == was;
      for i := 0 to |entries|
        invariant Valid()
        invariant Dedup(was) == was ==> inputs == Dedup(was + entries[..i])
      {
        assert was + entries[..i + 1] == was + entries[..i] + [entries[i]];
        DedupSnoc(was + entries[..i], entries[i]);
        AddInput(entries[i].category, entries[i].description);
      }
      assert entries[..|entries|] == entries;
    }

    method AddOutputs(entries: seq<Output>)
      requires Valid()
      modifies this`outputs, this`seenOutputs
      ensures Valid()
      ensures Dedup(old(outputs)) == old(outputs) ==> outputs == Dedup(old(outputs) + entries)
    {
      ghost var was := outputs;
      assert was + [] == was;
      for i := 0 to |entries|
        invariant Valid()
        invariant Dedup(was) == was ==> outputs == Dedup(was + entries[..i])
      {
        assert was + entries[..i + 1] == was + entries[..i] + [entries[i]];
        DedupSnoc(was + entries[..i], entries[i]);
        AddOutput(entries[i].category, entries[i].description);
      }
      assert entries[..|entries|] == entries;
    }
  }

  /** The aggregator's merge of the language-agnostic and the Go detections. */
  method MergeIo(inputs: seq<Input>, goInputs: seq<Input>, outputs: seq<Output>, goOutputs: seq<Output>)
    returns (mergedInputs: seq<Input>, mergedOutputs: seq<Output>)
    ensures mergedInputs == Dedup(inputs + goInputs)
    ensures mergedOutputs == Dedup(outputs + goOutputs)
  {
    var acc := new Accumulator();
    assert [] + inputs == inputs && [] + outputs == outputs;
    DedupIdempotent(inputs);
    DedupIdempotent(outputs);
    DedupPrefix(inputs, goInputs);
    DedupPrefix(outputs, goOutputs);
    acc.AddInputs(inputs);
    acc.AddInputs(goInputs);
    acc.AddOutputs(outputs);
    acc.AddOutputs(goOutputs);
    return acc.inputs, acc.outputs;
  }

  /** `_dedup_inputs` and `_dedup_outputs`: one pass over the sources in turn. */
  method DedupSources<T(==)>(sources: seq<seq<T>>) returns (merged: seq<T>)
    ensures merged == Dedup(Flatten(sources))
  {
    var seen: set<T> := {};
    merged := [];
    for i := 0 to |sources|
      invariant merged == Dedup(Flatten(sources[..i])) && seen == Elements(merged)
    {
      assert sources[..i + 1][..i] == sources[..i];
      merged, seen := DedupSource(sources[i], merged, seen, Flatten(sources[..i]));
    }
    assert sources[..|sources|] == sources;
  }

  // ---------------------------------------------------------------- the layers

  function KeepsFileRead(digit: char -> bool): Input -> bool {
    e => !IsTunedFileRead(e, digit)
  }

  function KeepsFileWritten(digit: char -> bool): Output -> bool {
    e => !IsTunedFileWritten(e, digit)
  }

  function KeepsCli(digit: char -> bool): Input -> bool {
    e => !IsTunedBinary(e, digit)
  }

  /** What the recognizers emit, before any deduplication. */
  datatype RawInputs = RawInputs(http: seq<Input>, scheduler: seq<Input>, activemq: seq<Input>, file: seq<Input>,
        cli: seq<Input>)

  datatype RawOutputs = RawOutputs(http: seq<Output>, activemq: seq<Output>, file: seq<Output>)

  /** The sources the composer merges, pruned. */
  function PrunedInputs(ins: RawInputs, digit: char -> bool): seq<seq<Input>> {
    [ins.http, ins.scheduler, ins.activemq, Filter(KeepsFileRead(digit), ins.file), Filter(KeepsCli(digit), ins.cli)]
  }

  function PrunedOutputs(outs: RawOutputs, digit: char -> bool): seq<seq<Output>> {
    [outs.http, outs.activemq, Filter(KeepsFileWritten(digit), outs.file)]
  }

  // ---------------------------------------------------------------- what the composer keeps

  /** What each recognizer emitted, in the order of the recognizers. */
  function InputSources(ins: RawInputs): seq<seq<Input>> {
    [ins.http, ins.scheduler, ins.activemq, ins.file, ins.cli]
  }

  function OutputSources(outs: RawOutputs): seq<seq<Output>> {
    [outs.http, outs.activemq, outs.file]
  }

  /** Everything is kept but reads of the configuration file and the main binary. */
  function InputsKept(digit: char -> bool): seq<Input -> bool> {
    [(e: Input) => true, (e: Input) => true, (e: Input) => true,
     (e: Input) => !(e.category == FileRead && LocationPath(e.description, digit) == Some("config/config.go")),
     (e: Input) => !(e.category == CliArgument && Text.StartsWith(e.description, "binary ")
                     && LocationPath(e.description, digit) == Some("cmd/main.go"))]
  }

  function OutputsKept(digit: char -> bool): seq<Output -> bool> {
    [(e: Output) => true, (e: Output) => true,
     (e: Output) => !(e.category == FileWritten && LocationPath(e.description, digit) == Some("config/config.go"))]
  }

  lemma PrunedInputsMerge(ins: RawInputs, digit: char -> bool)
    ensures Merges(Dedup(Flatten(PrunedInputs(ins, digit))), InputSources(ins), InputsKept(digit))
  {
    var raws, keeps, xss := InputSources(ins), InputsKept(digit), PrunedInputs(ins, digit);
    KeepAll(keeps[0], raws[0]);
    KeepAll(keeps[1], raws[1]);
    KeepAll(keeps[2], raws[2]);
    FilterSame(KeepsFileRead(digit), keeps[3], raws[3]);
    FilterSame(KeepsCli(digit), keeps[4], raws[4]);
    PrunedMerge(raws, keeps, xss);
  }

  lemma PrunedOutputsMerge(outs: RawOutputs, digit: char -> bool)
    ensures Merges(Dedup(Flatten(PrunedOutputs(outs, digit))), OutputSources(outs), OutputsKept(digit))
  {
    var raws, keeps, xss := OutputSources(outs), OutputsKept(digit), PrunedOutputs(outs, digit);
    KeepAll(keeps[0], raws[0]);
    KeepAll(keeps[1], raws[1]);
    FilterSame(KeepsFileWritten(digit), keeps[2], raws[2]);
    PrunedMerge(raws, keeps, xss);
  }

  /** `extract_go_io` on lists the recognizers have deduplicated: prune, then deduplicate again. */
  method ExtractGoIo(ins: RawInputs, outs: RawOutputs, digit: char -> bool) returns (inputs: seq<Input>,
        outputs: seq<Output>)
    ensures inputs == Dedup(Flatten(PrunedInputs(ins, digit)))
    ensures outputs == Dedup(Flatten(PrunedOutputs(outs, digit)))
    ensures Merges(inputs, InputSources(ins), InputsKept(digit))
    ensures Merges(outputs, OutputSources(outs), OutputsKept(digit))
  {
    PrunedInputsMerge(ins, digit);
    PrunedOutputsMerge(outs, digit);
    var fileReads := Filter(KeepsFileRead(digit), ins.file);
    var fileWrites := Filter(KeepsFileWritten(digit), outs.file);
    var cli := Filter(KeepsCli(digit), ins.cli);
    inputs := DedupSources([ins.http, ins.scheduler, ins.activemq, fileReads, cli]);
    outputs := DedupSources([outs.http, outs.activemq, fileWrites]);
  }

  /** The composer returns exactly what the first three recognizers emitted, and of the other two what is
      neither a read of the configuration file nor the main binary. */
  lemma InputReturnedIff(r: seq<Input>, ins: RawInputs, e: Input, digit: char -> bool)
    requires Merges(r, InputSources(ins), InputsKept(digit))
    ensures e in r <==>
              || e in ins.http || e in ins.scheduler || e in ins.activemq
              || (e in ins.file
                  && !(e.category == FileRead && LocationPath(e.description, digit) == Some("config/config.go")))
              || (e in ins.cli
                  && !(e.category == CliArgument && Text.StartsWith(e.description, "binary ")
                       && LocationPath(e.description, digit) == Some("cmd/main.go")))
  {
    var raws, keeps := InputSources(ins), InputsKept(digit);
    assert e in r <==> KeptIn(raws, keeps, 0, e) || KeptIn(raws, keeps, 1, e) || KeptIn(raws, keeps, 2, e)
                       || KeptIn(raws, keeps, 3, e) || KeptIn(raws, keeps, 4, e);
  }

  lemma OutputReturnedIff(r: seq<Output>, outs: RawOutputs, e: Output, digit: char -> bool)
    requires Merges(r, OutputSources(outs), OutputsKept(digit))
    ensures e in r <==>
              || e in outs.http || e in outs.activemq
              || (e in outs.file
                  && !(e.category == FileWritten && LocationPath(e.description, digit) == Some("config/config.go")))
  {
    var raws, keeps := OutputSources(outs), OutputsKept(digit);
    assert e in r <==> KeptIn(raws, keeps, 0, e) || KeptIn(raws, keeps, 1, e) || KeptIn(raws, keeps, 2, e);
  }

  /** At a plain path a file read, emitted by nobody else, is returned exactly when its file is not the
      configuration file; */
  lemma PlainFileReadReturnedIff(r: seq<Input>, ins: RawInputs, site: CallSite, text: string, digit: char -> bool)
    requires Merges(r, InputSources(ins), InputsKept(digit)) && DigitClass(digit) && PlainPath(site.file)
    requires var e := Entry(FileRead, FileReadDescription(site, text));
             && e in ins.file && e !in ins.http && e !in ins.scheduler && e !in ins.activemq && e !in ins.cli
    ensures Entry(FileRead, FileReadDescription(site, text)) in r <==> site.file != "config/config.go"
  {
    InputReturnedIff(r, ins, Entry(FileRead, FileReadDescription(site, text)), digit);
    PrintedPathIsReadIff("file read " + text + " " + ViaCall(site), site.file, site.line, digit);
  }

  /** so with a file written, */
  lemma PlainFileWrittenReturnedIff(r: seq<Output>, outs: RawOutputs, site: CallSite, text: string,
        digit: char -> bool)
    requires Merges(r, OutputSources(outs), OutputsKept(digit)) && DigitClass(digit) && PlainPath(site.file)
    requires var e := Entry(FileWritten, FileWrittenDescription(site, text));
             e in outs.file && e !in outs.http && e !in outs.activemq
    ensures Entry(FileWritten, FileWrittenDescription(site, text)) in r <==> site.file != "config/config.go"
  {
    OutputReturnedIff(r, outs, Entry(FileWritten, FileWrittenDescription(site, text)), digit);
    PrintedPathIsReadIff("file written " + text + " " + ViaCall(site), site.file, site.line, digit);
  }

  /** and a binary entry point, unless it is the main one. */
  lemma PlainBinaryReturnedIff(r: seq<Input>, ins: RawInputs, name: string, file: string, line: nat,
        digit: char -> bool)
    requires Merges(r, InputSources(ins), InputsKept(digit)) && DigitClass(digit) && PlainPath(file)
    requires var e := Entry(CliArgument, BinaryDescription(name, file, line));
             && e in ins.cli && e !in ins.http && e !in ins.scheduler && e !in ins.activemq && e !in ins.file
    ensures Entry(CliArgument, BinaryDescription(name, file, line)) in r <==> file != "cmd/main.go"
  {
    InputReturnedIff(r, ins, Entry(CliArgument, BinaryDescription(name, file, line)), digit);
    PrintedPathIsReadIff("binary " + name + " via func main()", file, line, digit);
    BinaryDescriptionHasPrefix(name, file, line);
  }

  function EachDeduped<T(==)>(xss: seq<seq<T>>): (yss: seq<seq<T>>)
    ensures |yss| == |xss| && forall i :: 0 <= i < |xss| ==> yss[i] == Dedup(xss[i])
  {
    seq(|xss|, i requires 0 <= i < |xss| => Dedup(xss[i]))
  }

  /** Deduplicating every source first changes nothing. */
  lemma {:induction false} DedupFlatten<T>(xss: seq<seq<T>>)
    ensures Dedup(Flatten(EachDeduped(xss))) == Dedup(Flatten(xss))
  {
    if xss != [] {
      var n := |xss| - 1;
      DedupFlatten(xss[..n]);
      assert EachDeduped(xss)[..n] == EachDeduped(xss[..n]);
      var a, b := Flatten(EachDeduped(xss[..n])), Flatten(xss[..n]);
      DedupParts(a, Dedup(xss[n]));
      DedupIdempotent(xss[n]);
      DedupParts(b, xss[n]);
    }
  }

  function DedupedInputs(ins: RawInputs): RawInputs {
    RawInputs(Dedup(ins.http), Dedup(ins.scheduler), Dedup(ins.activemq), Dedup(ins.file), Dedup(ins.cli))
  }

  function DedupedOutputs(outs: RawOutputs): RawOutputs {
    RawOutputs(Dedup(outs.http), Dedup(outs.activemq), Dedup(outs.file))
  }

  lemma EachDedupedInputs(ins: RawInputs, keepFile: Input -> bool, keepCli: Input -> bool)
    ensures EachDeduped([ins.http, ins.scheduler, ins.activemq,
                         Filter(keepFile, ins.file), Filter(keepCli, ins.cli)]) ==
            [Dedup(ins.http), Dedup(ins.scheduler), Dedup(ins.activemq),
             Filter(keepFile, Dedup(ins.file)), Filter(keepCli, Dedup(ins.cli))]
  {
    DedupFilter(keepFile, ins.file);
    DedupFilter(keepCli, ins.cli);
  }

  lemma EachDedupedOutputs(outs: RawOutputs, keepFile: Output -> bool)
    ensures EachDeduped([outs.http, outs.activemq, Filter(keepFile, outs.file)]) ==
            [Dedup(outs.http), Dedup(outs.activemq), Filter(keepFile, Dedup(outs.file))]
  {
    DedupFilter(keepFile, outs.file);
  }

  /** Deduplicating the general list, each source and their union is deduplicating everything once. */
  lemma LayersCollapse<T>(general: seq<T>, sources: seq<seq<T>>)
    ensures Dedup(Dedup(general) + Dedup(Flatten(EachDeduped(sources)))) == Dedup(general + Flatten(sources))
  {
    DedupFlatten(sources);
    DedupParts(general, Flatten(sources));
  }

  /** Recognizer, composer and aggregator each deduplicate; together they do what one pass over the
      pruned raw emissions does. */
  lemma InputLayersCollapse(general: seq<Input>, ins: RawInputs, digit: char -> bool)
    ensures Dedup(Dedup(general) + Dedup(Flatten(PrunedInputs(DedupedInputs(ins), digit)))) ==
            Dedup(general + Flatten(PrunedInputs(ins, digit)))
  {
    EachDedupedInputs(ins, KeepsFileRead(digit), KeepsCli(digit));
    LayersCollapse(general, PrunedInputs(ins, digit));
  }

  lemma OutputLayersCollapse(general: seq<Output>, outs: RawOutputs, digit: char -> bool)
    ensures Dedup(Dedup(general) + Dedup(Flatten(PrunedOutputs(DedupedOutputs(outs), digit)))) ==
            Dedup(general + Flatten(PrunedOutputs(outs, digit)))
  {
    EachDedupedOutputs(outs, KeepsFileWritten(digit));
    LayersCollapse(general, PrunedOutputs(outs, digit));
  }

  /** Merging is idempotent: merging the result with either side again changes nothing. */
  lemma MergeIsIdempotent<T>(xs: seq<T>, ys: seq<T>)
    ensures Dedup(Dedup(xs + ys) + ys) == Dedup(xs + ys) && Dedup(Dedup(xs + ys) + xs) == Dedup(xs + ys)
  {
    DedupPrefix(xs + ys, ys);
    DedupPrefix(xs + ys, xs);
    DedupAbsorbs(xs + ys, ys);
    DedupAbsorbs(xs + ys, xs);
  }
}
