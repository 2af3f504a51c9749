/** What one parsed line yields, stated against the text of the line. */
module ParserFacts {
  import opened PyStr
  import opened Sweep
  import opened Parser

  /** A sequence of four is the display of its four elements. */
  lemma FourElements(f: seq<string>)
    requires |f| == 4
    ensures f == [f[0], f[1], f[2], f[3]]
  {
  }

  /** Four fields joined by tabs. */
  function TabLine(chrom: string, start: string, end: string, percentile: string): string {
    chrom + [Delimiter] + start + [Delimiter] + end + [Delimiter] + percentile
  }

  lemma TabLineIsJoin(chrom: string, start: string, end: string, percentile: string)
    ensures TabLine(chrom, start, end, percentile) == Join([chrom, start, end, percentile], Delimiter)
  {
    var fs := [chrom, start, end, percentile];
    assert fs[1..][1..][1..] == [percentile];
    assert Join([end, percentile], Delimiter) == end + [Delimiter] + percentile;
    assert fs[1..][1..] == [end, percentile];
    assert Join([start, end, percentile], Delimiter) == start + [Delimiter] + (end + [Delimiter] + percentile);
    assert fs[1..] == [start, end, percentile];
  }

  /** One column of a swept record: present exactly when its field is not
      null-like, and then with the field's text unchanged. */
  ghost predicate Kept(variant: Variant, column: Field, field: string) {
    && (column in variant <==> !IsNullLike(field))
    && (column in variant ==> variant[column] == field)
  }

  /** The record kept from four raw fields, column by column in line order. */
  ghost predicate SweptFrom(variant: Variant, fields: seq<string>)
    requires |fields| == 4
  {
    && Kept(variant, Chrom, fields[0])
    && Kept(variant, Start, fields[1])
    && Kept(variant, End, fields[2])
    && Kept(variant, Percentile, fields[3])
  }

  /** The sweep of the raw record keeps each column whose field is not null-like. */
  lemma SweptVariant(chrom: string, start: string, end: string, percentile: string)
    ensures SweptFrom(DictSweep(RawVariant(chrom, start, end, percentile), NullVals), [chrom, start, end, percentile])
  {
  }

  /** A parsed line: the id is built from the raw first three fields; the record
      holds a column exactly when that column's field is not null-like, and holds
      it with the field's text unchanged. */
  lemma ParsedDocument(line: string)
    requires ParseLine(line).Ok?
    ensures |Fields(line)| == 4
    ensures ParseLine(line).value[Id] == Text(Fields(line)[0] + ":g." + Fields(line)[1] + "_" + Fields(line)[2])
    ensures SweptFrom(ParseLine(line).value[Source].variant, Fields(line))
  {
    var f := Fields(line);
    FourElements(f);
    ParseFourFields(line, f[0], f[1], f[2], f[3]);
    SweptVariant(f[0], f[1], f[2], f[3]);
  }

  /** A line whose fields are four yields the document built from them. */
  lemma ParseFourFields(line: string, chrom: string, start: string, end: string, percentile: string)
    requires Fields(line) == [chrom, start, end, percentile]
    ensures ParseLine(line) == Ok(MakeDocument(VariantId(chrom, start, end), DictSweep(RawVariant(chrom, start, end, percentile), NullVals)))
  {
  }

  /** A tab line starting and ending with non-white-space characters is trimmed. */
  lemma TabLineTrimmed(chrom: string, start: string, end: string, percentile: string)
    requires chrom != "" && !IsSpace(chrom[0])
    requires percentile != "" && !IsSpace(percentile[|percentile| - 1])
    ensures Trimmed(TabLine(chrom, start, end, percentile))
  {
    var middle := [Delimiter] + start + [Delimiter] + end + [Delimiter];
    assert TabLine(chrom, start, end, percentile) == chrom + middle + percentile;
    TrimmedBetween(chrom, middle, percentile);
  }

  /** A tab line splits back into its four tab-free fields. */
  lemma SplitTabLine(chrom: string, start: string, end: string, percentile: string)
    requires Delimiter !in chrom && Delimiter !in start && Delimiter !in end && Delimiter !in percentile
    ensures Split(TabLine(chrom, start, end, percentile), Delimiter) == [chrom, start, end, percentile]
  {
    var fs := [chrom, start, end, percentile];
    TabLineIsJoin(chrom, start, end, percentile);
    forall i | 0 <= i < |fs|
      ensures Delimiter !in fs[i]
    {
      if i == 0 {} else if i == 1 {} else if i == 2 {} else {}
    }
    SplitJoin(fs, Delimiter);
  }

  /** Padding a tab line with white space does not change what it strips to. */
  lemma StripTabLine(lead: string, chrom: string, start: string, end: string, percentile: string, trail: string)
    requires AllSpace(lead) && AllSpace(trail)
    requires chrom != "" && !IsSpace(chrom[0])
    requires percentile != "" && !IsSpace(percentile[|percentile| - 1])
    ensures Strip(lead + TabLine(chrom, start, end, percentile) + trail) == TabLine(chrom, start, end, percentile)
  {
    TabLineTrimmed(chrom, start, end, percentile);
    StripPadded(lead, TabLine(chrom, start, end, percentile), trail);
  }

  /** The fields of a white-space-padded tab line are its four tab-free parts. */
  lemma FieldsOfTabLine(lead: string, chrom: string, start: string, end: string, percentile: string, trail: string)
    requires AllSpace(lead) && AllSpace(trail)
    requires Delimiter !in chrom && Delimiter !in start && Delimiter !in end && Delimiter !in percentile
    requires chrom != "" && !IsSpace(chrom[0])
    requires percentile != "" && !IsSpace(percentile[|percentile| - 1])
    ensures Fields(lead + TabLine(chrom, start, end, percentile) + trail) == [chrom, start, end, percentile]
  {
    StripTabLine(lead, chrom, start, end, percentile, trail);
    SplitTabLine(chrom, start, end, percentile);
  }

  /** A line made of four tab-free fields, padded with white space on either side,
      parses into the document whose id is formatted from the raw fields and whose
      record is the four fields with the null-like ones swept out. Fields removed
      by the sweep still appear, verbatim, inside the id. */
  lemma ParseTabLine(lead: string, chrom: string, start: string, end: string, percentile: string, trail: string)
    requires AllSpace(lead) && AllSpace(trail)
    requires Delimiter !in chrom && Delimiter !in start && Delimiter !in end && Delimiter !in percentile
    requires chrom != "" && !IsSpace(chrom[0])
    requires percentile != "" && !IsSpace(percentile[|percentile| - 1])
    ensures ParseLine(lead + TabLine(chrom, start, end, percentile) + trail)
         == Ok(map[Id := Text(chrom + ":g." + start + "_" + end),
                   Source := Record(DictSweep(map[Chrom := chrom, Start := start, End := end, Percentile := percentile], NullVals))])
  {
    FieldsOfTabLine(lead, chrom, start, end, percentile, trail);
    ParseFourFields(lead + TabLine(chrom, start, end, percentile) + trail, chrom, start, end, percentile);
  }

  /** Stripping happens before splitting, so a trailing empty field is lost with the
      trailing white space: three fields and a final tab give three fields, and the
      unpack fails. */
  lemma TrailingEmptyFieldLost(chrom: string, start: string, end: string)
    requires Delimiter !in chrom && Delimiter !in start && Delimiter !in end
    requires chrom != "" && !IsSpace(chrom[0])
    requires end != "" && !IsSpace(end[|end| - 1])
    ensures ParseLine(chrom + [Delimiter] + start + [Delimiter] + end + [Delimiter]) == Err(UnpackError(3))
  {
    var body := chrom + [Delimiter] + start + [Delimiter] + end;
    StripTrailingTab(chrom, start, end);
    SplitThreeFields(chrom, start, end);
    assert Fields(body + [Delimiter]) == [chrom, start, end];
  }

  /** Three tab-free fields joined by tabs split back into those fields. */
  lemma SplitThreeFields(chrom: string, start: string, end: string)
    requires Delimiter !in chrom && Delimiter !in start && Delimiter !in end
    ensures Split(chrom + [Delimiter] + start + [Delimiter] + end, Delimiter) == [chrom, start, end]
  {
    var fs := [chrom, start, end];
    assert Join(fs, Delimiter) == chrom + [Delimiter] + start + [Delimiter] + end by {
      assert fs[1..][1..] == [end];
      assert Join([start, end], Delimiter) == start + [Delimiter] + end;
      assert fs[1..] == [start, end];
    }
    forall i | 0 <= i < |fs|
      ensures Delimiter !in fs[i]
    {
      if i == 0 {} else if i == 1 {} else {}
    }
    SplitJoin(fs, Delimiter);
  }

  /** The strip removes a trailing tab from three fields joined by tabs. */
  lemma StripTrailingTab(chrom: string, start: string, end: string)
    requires chrom != "" && !IsSpace(chrom[0])
    requires end != "" && !IsSpace(end[|end| - 1])
    ensures Strip(chrom + [Delimiter] + start + [Delimiter] + end + [Delimiter]) == chrom + [Delimiter] + start + [Delimiter] + end
  {
    var body := chrom + [Delimiter] + start + [Delimiter] + end;
    TrimmedBetween(chrom, [Delimiter] + start + [Delimiter], end);
    assert chrom + ([Delimiter] + start + [Delimiter]) + end == body;
    assert AllSpace([Delimiter]);
    StripPadded([], body, [Delimiter]);
    assert [] + body + [Delimiter] == body + [Delimiter];
  }

  /** A blank line (nothing but white space, or nothing at all) strips to the empty
      string, which splits into one field, so the unpack fails. */
  lemma BlankLineFails(line: string)
    requires AllSpace(line)
    ensures ParseLine(line) == Err(UnpackError(1))
  {
    StripPadded(line, [], []);
    assert line + [] + [] == line;
  }

  /** A line of four fields strips to those fields joined by tabs. */
  lemma StrippedIsTabLine(line: string, chrom: string, start: string, end: string, percentile: string)
    requires Fields(line) == [chrom, start, end, percentile]
    ensures Strip(line) == TabLine(chrom, start, end, percentile)
  {
    assert Join(Fields(line), Delimiter) == Strip(line);
    TabLineIsJoin(chrom, start, end, percentile);
  }

  /** A trimmed tab line has a non-empty first and last field: an empty one
      would leave the tab, which is white space, at the edge. */
  lemma TrimmedTabLineEdges(chrom: string, start: string, end: string, percentile: string)
    requires Trimmed(TabLine(chrom, start, end, percentile))
    ensures chrom != "" && percentile != ""
  {
    var t := TabLine(chrom, start, end, percentile);
    assert IsSpace(Delimiter);
    assert t[0] == if chrom == "" then Delimiter else chrom[0];
    assert t[|t| - 1] == if percentile == "" then Delimiter else percentile[|percentile| - 1];
  }

  /** The first and last fields of a parsed line are never empty, because the
      strip runs before the split; so the sweep removes chrom or percentile only
      when it reads `null` or `N/A`. */
  lemma EdgeFieldsNonEmpty(line: string)
    requires ParseLine(line).Ok?
    ensures Fields(line)[0] != "" && Fields(line)[3] != ""
    ensures Chrom !in ParseLine(line).value[Source].variant <==> Fields(line)[0] in {"null", "N/A"}
    ensures Percentile !in ParseLine(line).value[Source].variant <==> Fields(line)[3] in {"null", "N/A"}
  {
    ParsedDocument(line);
    var f := Fields(line);
    FourElements(f);
    StrippedIsTabLine(line, f[0], f[1], f[2], f[3]);
    TrimmedTabLineEdges(f[0], f[1], f[2], f[3]);
    NullLikeIff(f[0]);
    NullLikeIff(f[3]);
  }

  /** Sweeping a record none of whose fields is null-like changes nothing. */
  lemma SweepCleanVariant(chrom: string, start: string, end: string, percentile: string)
    requires !IsNullLike(chrom) && !IsNullLike(start) && !IsNullLike(end) && !IsNullLike(percentile)
    ensures DictSweep(RawVariant(chrom, start, end, percentile), NullVals) == RawVariant(chrom, start, end, percentile)
  {
    SweepKeepsClean(RawVariant(chrom, start, end, percentile), NullVals);
  }

  /** Sweeping a record with empty start and end drops exactly those two. */
  lemma SweepEmptyCoordinates(chrom: string, percentile: string)
    requires !IsNullLike(chrom) && !IsNullLike(percentile)
    ensures DictSweep(RawVariant(chrom, "", "", percentile), NullVals) == map[Chrom := chrom, Percentile := percentile]
  {
    NullLikeIff("");
  }

  /** A tab line none of whose fields is null-like keeps all four in its record. */
  lemma ParseCleanTabLine(chrom: string, start: string, end: string, percentile: string)
    requires Delimiter !in chrom && Delimiter !in start && Delimiter !in end && Delimiter !in percentile
    requires chrom != "" && !IsSpace(chrom[0])
    requires percentile != "" && !IsSpace(percentile[|percentile| - 1])
    requires !IsNullLike(chrom) && !IsNullLike(start) && !IsNullLike(end) && !IsNullLike(percentile)
    ensures ParseLine(TabLine(chrom, start, end, percentile))
         == Ok(map[Id := Text(chrom + ":g." + start + "_" + end),
                   Source := Record(map[Chrom := chrom, Start := start, End := end, Percentile := percentile])])
  {
    SweepCleanVariant(chrom, start, end, percentile);
    assert "" + TabLine(chrom, start, end, percentile) + "" == TabLine(chrom, start, end, percentile);
    ParseTabLine("", chrom, start, end, percentile, "");
  }

  /** A tab line with empty start and end: both are swept from the record, while
      the id still carries them, as nothing, between `:g.` and `_`. */
  lemma ParseEmptyCoordinates(chrom: string, percentile: string)
    requires Delimiter !in chrom && Delimiter !in percentile
    requires chrom != "" && !IsSpace(chrom[0])
    requires percentile != "" && !IsSpace(percentile[|percentile| - 1])
    requires !IsNullLike(chrom) && !IsNullLike(percentile)
    ensures ParseLine(TabLine(chrom, "", "", percentile))
         == Ok(map[Id := Text(chrom + ":g._"),
                   Source := Record(map[Chrom := chrom, Percentile := percentile])])
  {
    SweepEmptyCoordinates(chrom, percentile);
    assert chrom + ":g." + "" + "_" + "" == chrom + ":g._";
    assert "" + TabLine(chrom, "", "", percentile) + "" == TabLine(chrom, "", "", percentile);
    ParseTabLine("", chrom, "", "", percentile, "");
  }

  /** The example line of the data file's format: the id carries no `chr` prefix
      and the record keeps the fields as text. */
  lemma ExampleLine()
    ensures ParseLine("1\t100\t200\t0.85")
         == Ok(map[Id := Text("1:g.100_200"),
                   Source := Record(map[Chrom := "1", Start := "100", End := "200", Percentile := "0.85"])])
  {
    assert !IsNullLike("1") by { NullLikeIff("1"); }
    assert !IsNullLike("100") by { NullLikeIff("100"); }
    assert !IsNullLike("200") by { NullLikeIff("200"); }
    assert !IsNullLike("0.85") by { NullLikeIff("0.85"); }
    assert TabLine("1", "100", "200", "0.85") == "1\t100\t200\t0.85" by {
      assert "1" + [Delimiter] + "100" + [Delimiter] + "200" + [Delimiter] + "0.85" == "1\t100\t200\t0.85";
    }
    assert "1" + ":g." + "100" + "_" + "200" == "1:g.100_200";
    ParseCleanTabLine("1", "100", "200", "0.85");
  }

  /** The same with literal fields: `"1\t\t\t0.5"` has the id `"1:g._"`. */
  lemma ExampleEmptyCoordinates()
    ensures ParseLine("1\t\t\t0.5")
         == Ok(map[Id := Text("1:g._"),
                   Source := Record(map[Chrom := "1", Percentile := "0.5"])])
  {
    assert !IsNullLike("1") by { NullLikeIff("1"); }
    assert !IsNullLike("0.5") by { NullLikeIff("0.5"); }
    assert TabLine("1", "", "", "0.5") == "1\t\t\t0.5" by {
      assert "1" + [Delimiter] + "" + [Delimiter] + "" + [Delimiter] + "0.5" == "1\t\t\t0.5";
    }
    assert "1" + ":g._" == "1:g._";
    ParseEmptyCoordinates("1", "0.5");
  }

  /** The trailing-tab line `"1\t2\t3\t"` fails with three fields. */
  lemma ExampleTrailingTab()
    ensures ParseLine("1\t2\t3\t") == Err(UnpackError(3))
  {
    assert "1" + [Delimiter] + "2" + [Delimiter] + "3" + [Delimiter] == "1\t2\t3\t";
    TrailingEmptyFieldLost("1", "2", "3");
  }
}
