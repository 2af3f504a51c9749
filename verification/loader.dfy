/** The whole run of `load_data`: the file's lines parsed in order, each yielding
    one document, until the end of the file or the first line whose unpack fails,
    which ends the generator with the error. */
module Loader {
  import opened Parser

  /** How a run ends. `MissingFile` is the error raised before anything is read
      when the input file does not exist. `count` is the source's line counter:
      the number of lines read, which on a failure includes the failing line.
      `emitted` are the documents yielded before the failure, which the consumer
      has already received when the error reaches it. */
  datatype Outcome =
    | MissingFile
    | Completed(docs: seq<Document>, count: nat)
    | Aborted(emitted: seq<Document>, count: nat, error: ParseError)

  /** One more document in front of the outcome of the remaining lines. */
  function Emit(doc: Document, rest: Outcome): Outcome {
    match rest
    case MissingFile => MissingFile
    case Completed(docs, n) => Completed([doc] + docs, n + 1)
    case Aborted(docs, n, e) => Aborted([doc] + docs, n + 1, e)
  }

  /** The per-line step of the run, `ParseLine` in `LoadData`; the facts below
      about the run hold whatever the step does with a line. */
  type LineParser = string -> Result<Document>

  /** The generator over the lines of an existing file, as a recursive reference:
      a completed run has read every line and yielded one document per line; an
      aborted run has read at least one line and yielded one document fewer than
      it has read. */
  function Load(parse: LineParser, lines: seq<string>): (o: Outcome)
    ensures !o.MissingFile?
    ensures o.Completed? ==> o.count == |lines| == |o.docs|
    ensures o.Aborted? ==> 1 <= o.count <= |lines| && |o.emitted| == o.count - 1
    decreases |lines|
  {
    if |lines| == 0 then Completed([], 0)
    else
      match parse(lines[0])
      case Err(e) => Aborted([], 1, e)
      case Ok(doc) => Emit(doc, Load(parse, lines[1..]))
  }

  /** `load_data` with the existence check of the input file as a parameter: a
      missing file fails before any line is read. */
  function LoadData(fileExists: bool, lines: seq<string>): (o: Outcome)
    ensures !fileExists <==> o.MissingFile?
  {
    if !fileExists then MissingFile else Load(ParseLine, lines)
  }

  /** Every line parses. */
  ghost predicate AllParse(parse: LineParser, lines: seq<string>) {
    forall i :: 0 <= i < |lines| ==> parse(lines[i]).Ok?
  }

  /** A run completes exactly when every line parses. */
  lemma {:induction false} LoadCompletesIff(parse: LineParser, lines: seq<string>)
    ensures Load(parse, lines).Completed? <==> AllParse(parse, lines)
    decreases |lines|
  {
    if |lines| > 0 {
      LoadCompletesIff(parse, lines[1..]);
      if parse(lines[0]).Ok? {
        assert forall i :: 1 <= i < |lines| ==> lines[1..][i - 1] == lines[i];
      }
    }
  }

  /** A completed run yields, in line order, the document of each line. */
  lemma {:induction false} LoadInOrder(parse: LineParser, lines: seq<string>)
    requires Load(parse, lines).Completed?
    ensures forall i :: 0 <= i < |lines| ==> parse(lines[i]) == Ok(Load(parse, lines).docs[i])
    decreases |lines|
  {
    if |lines| > 0 {
      var doc := parse(lines[0]).value;
      LoadInOrder(parse, lines[1..]);
      assert Load(parse, lines).docs == [doc] + Load(parse, lines[1..]).docs;
      forall i | 1 <= i < |lines|
        ensures parse(lines[i]) == Ok(Load(parse, lines).docs[i])
      {
        assert lines[1..][i - 1] == lines[i];
      }
    }
  }

  /** An aborted run stops at the first line that does not parse: its count is
      that line's position plus one, its error is that line's, and it has yielded,
      in order, the documents of all the lines before it and nothing after. */
  lemma {:induction false} LoadStopsAtFirstFailure(parse: LineParser, lines: seq<string>)
    requires Load(parse, lines).Aborted?
    ensures var n := Load(parse, lines).count - 1;
            && n < |lines|
            && parse(lines[n]) == Err(Load(parse, lines).error)
            && (forall i :: 0 <= i < n ==> parse(lines[i]) == Ok(Load(parse, lines).emitted[i]))
    decreases |lines|
  {
    if parse(lines[0]).Ok? {
      var doc := parse(lines[0]).value;
      LoadStopsAtFirstFailure(parse, lines[1..]);
      assert Load(parse, lines).emitted == [doc] + Load(parse, lines[1..]).emitted;
      var n := Load(parse, lines).count - 1;
      assert lines[1..][n - 1] == lines[n];
      forall i | 1 <= i < n
        ensures parse(lines[i]) == Ok(Load(parse, lines).emitted[i])
      {
        assert lines[1..][i - 1] == lines[i];
      }
    }
  }

  /** The generator is prefix-closed: the documents of an aborted run are exactly
      what a complete run over the lines before the failing one yields. */
  lemma {:induction false} AbortedPrefixCompletes(parse: LineParser, lines: seq<string>)
    requires Load(parse, lines).Aborted?
    ensures Load(parse, lines[..Load(parse, lines).count - 1]) == Completed(Load(parse, lines).emitted, Load(parse, lines).count - 1)
    decreases |lines|
  {
    if parse(lines[0]).Ok? {
      var doc := parse(lines[0]).value;
      AbortedPrefixCompletes(parse, lines[1..]);
      var n := Load(parse, lines).count - 1;
      assert lines[..n][1..] == lines[1..][..n - 1];
    }
  }

  /** The loop of the source over the lines of an open file: a counter bumped
      before each line is parsed, each document yielded as soon as it is built,
      and a return at the first line whose unpack fails. */
  method RunLines(parse: LineParser, lines: seq<string>) returns (o: Outcome)
    ensures o == Load(parse, lines)
  {
    var count := 0;
    var docs: seq<Document> := [];
    while count < |lines|
      invariant 0 <= count <= |lines|
      invariant |docs| == count
      invariant forall j :: 0 <= j < count ==> parse(lines[j]) == Ok(docs[j])
    {
      var line := lines[count];
      count := count + 1;
      match parse(line)
      case Err(e) =>
        assert parse(lines[count - 1]).Err?;
        LoadCompletesIff(parse, lines);
        LoadStopsAtFirstFailure(parse, lines);
        assert Load(parse, lines).count == count;
        return Aborted(docs, count, e);
      case Ok(doc) =>
        docs := docs + [doc];
    }
    LoadCompletesIff(parse, lines);
    LoadInOrder(parse, lines);
    o := Completed(docs, count);
  }

  /** `load_data` as the source writes it: the existence check, then the loop over
      the lines with `ParseLine` as the step. It ends exactly as `LoadData` says. */
  method Run(fileExists: bool, lines: seq<string>) returns (o: Outcome)
    ensures o == LoadData(fileExists, lines)
  {
    if !fileExists {
      return MissingFile;
    }
    o := RunLines(ParseLine, lines);
  }
}
