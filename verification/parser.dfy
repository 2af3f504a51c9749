/** One line of the input file turned into one document: strip, split on the tab
    delimiter, unpack exactly four fields, format the variant id from the raw
    fields, build the four-field record and sweep its null-like values. */
module Parser {
  import opened PyStr
  import opened Sweep

  /** The name the record is published under in every document. */
  const SourceName: string := "ncer"

  /** The character separating the fields of a line. */
  const Delimiter: char := '\t'

  /** A key of the record; `Name` is its spelling in the emitted dict. */
  datatype Field = Chrom | Start | End | Percentile {
    function Name(): string {
      match this
      case Chrom => "chrom"
      case Start => "start"
      case End => "end"
      case Percentile => "percentile"
    }
  }

  /** A record: field to raw text, never converted to a number. */
  type Variant = map<Field, string>

  /** A key of an emitted document: the id, or the source name. */
  datatype DocKey = Id | Source {
    function Name(): string {
      match this
      case Id => "_id"
      case Source => SourceName
    }
  }

  /** A value of an emitted document: the id string, or the swept record. */
  datatype Value = Text(text: string) | Record(variant: Variant)

  /** An emitted document, the dict `{"_id": id, "ncer": variant}`. */
  type Document = map<DocKey, Value>

  /** The `ValueError` raised when the split line does not unpack into four
      names; `got` is how many fields the split produced. */
  datatype ParseError = UnpackError(got: nat)

  datatype Result<T> = Ok(value: T) | Err(error: ParseError)

  /** The variant id `<chrom>:g.<start>_<end>`, from the fields exactly as read. */
  function VariantId(chrom: string, start: string, end: string): string {
    chrom + ":g." + start + "_" + end
  }

  /** The record before sweeping: the four fields as read. */
  function RawVariant(chrom: string, start: string, end: string, percentile: string): Variant {
    map[Chrom := chrom, Start := start, End := end, Percentile := percentile]
  }

  /** The yielded dict. */
  function MakeDocument(id: string, variant: Variant): Document {
    map[Id := Text(id), Source := Record(variant)]
  }

  /** The fields of a line: its stripped text split on the delimiter. */
  function Fields(line: string): (fields: seq<string>)
    ensures |fields| == Count(Strip(line), Delimiter) + 1
    ensures forall i :: 0 <= i < |fields| ==> Delimiter !in fields[i]
  {
    Split(Strip(line), Delimiter)
  }

  /** The four-name unpack and what follows it: four fields make the document
      of the id and the swept record; any other count is the unpack error, which
      reports the count. A document has exactly the two keys, the source name
      holding a record. */
  function Unpack(fields: seq<string>): (r: Result<Document>)
    ensures r.Ok? <==> |fields| == 4
    ensures r.Err? ==> r.error.got == |fields|
    ensures r.Ok? ==> r.value.Keys == {Id, Source} && r.value[Id].Text? && r.value[Source].Record?
  {
    if |fields| != 4 then Err(UnpackError(|fields|))
    else
      var chrom, start, end, percentile := fields[0], fields[1], fields[2], fields[3];
      var id := VariantId(chrom, start, end);
      var variant := DictSweep(RawVariant(chrom, start, end, percentile), NullVals);
      Ok(MakeDocument(id, variant))
  }

  /** The loop body for one line: the document it yields, or the unpack error
      that ends the run. A line parses exactly when its stripped text holds three
      tabs; the error reports the field count, which is then never four; and a
      document always has exactly the two keys, the source name holding a record. */
  function ParseLine(line: string): (r: Result<Document>)
    ensures r.Ok? <==> Count(Strip(line), Delimiter) == 3
    ensures r.Err? ==> r.error.got == Count(Strip(line), Delimiter) + 1 && r.error.got != 4
    ensures r.Ok? ==> r.value.Keys == {Id, Source} && r.value[Id].Text? && r.value[Source].Record?
  {
    Unpack(Fields(line))
  }

  /** The record keys and the document keys are distinct strings, so the
      Python dicts have four and two entries, exactly like the maps here. */
  lemma KeyNamesDistinct()
    ensures forall f: Field, g: Field :: f != g ==> f.Name() != g.Name()
    ensures Id.Name() != Source.Name()
  {
    forall f: Field, g: Field | f != g
      ensures f.Name() != g.Name()
    {
      assert |f.Name()| != |g.Name()| || f.Name()[0] != g.Name()[0];
    }
  }
}
