/**
 * The column-position parser for the table that `crictl images` prints:
 * a header line naming the columns REPOSITORY, TAG, IMAGE ID and SIZE,
 * followed by one fixed-width row per image. Column boundaries are
 * inferred from where the labels TAG, IMAGE ID and SIZE start in the
 * header; rows whose image id is in the ignore set are dropped.
 */
module CrictlImages {
  import opened Wrappers
  import opened Text

  /** One parsed table row; every field is trimmed. */
  datatype ImageRow = ImageRow(repository: string, tag: string, imageId: string, size: string)

  /** Where the TAG, IMAGE ID and SIZE columns start in the header. */
  datatype ColumnStarts = ColumnStarts(tag: nat, imageId: nat, size: nat)

  const TagLabel := "TAG"
  const ImageIdLabel := "IMAGE ID"
  const SizeLabel := "SIZE"

  /** The tag shown for an image whose TAG column is blank. */
  const NoTag := "<none>"

  /**
   * The column starts read off the header: the first occurrence of each
   * label, accepted only when all three are present and strictly ordered.
   */
  function HeaderColumns(header: string): (c: Option<ColumnStarts>)
    ensures c.Some? ==> FirstOccurrence(header, TagLabel, c.value.tag)
                        && FirstOccurrence(header, ImageIdLabel, c.value.imageId)
                        && FirstOccurrence(header, SizeLabel, c.value.size)
    ensures c.Some? ==> c.value.tag < c.value.imageId < c.value.size
  {
    var t := Find(header, TagLabel);
    var i := Find(header, ImageIdLabel);
    var z := Find(header, SizeLabel);
    if t != -1 && i != -1 && z != -1 && t < i < z then Some(ColumnStarts(t, i, z)) else None
  }

  /** A header lacking any of the three labels is rejected. */
  lemma HeaderMissingLabel(header: string)
    requires !Contains(header, TagLabel) || !Contains(header, ImageIdLabel) || !Contains(header, SizeLabel)
    ensures HeaderColumns(header) == None
  {
  }

  /**
   * With all three labels present, the header is accepted exactly when
   * their first occurrences are strictly ordered, and then those are the
   * column starts.
   */
  lemma HeaderColumnsExact(header: string, t: nat, i: nat, z: nat)
    requires FirstOccurrence(header, TagLabel, t)
    requires FirstOccurrence(header, ImageIdLabel, i)
    requires FirstOccurrence(header, SizeLabel, z)
    ensures HeaderColumns(header) == (if t < i < z then Some(ColumnStarts(t, i, z)) else None)
  {
    FindIsFirstOccurrence(header, TagLabel, t);
    FindIsFirstOccurrence(header, ImageIdLabel, i);
    FindIsFirstOccurrence(header, SizeLabel, z);
  }

  /**
   * The four untrimmed pieces of a data line: before TAG, TAG to IMAGE ID,
   * IMAGE ID to SIZE, and SIZE to the end. Offsets past the end of a
   * short line are clamped, so a short line gives empty pieces.
   */
  function RawFields(line: string, c: ColumnStarts): (f: seq<string>)
    ensures |f| == 4
  {
    [Slice(line, 0, c.tag), Slice(line, c.tag, c.imageId),
     Slice(line, c.imageId, c.size), Slice(line, c.size, |line|)]
  }

  /**
   * Cutting a line never loses or invents text: the four pieces glue back
   * to the line, and a piece that starts past the line's end is empty.
   */
  lemma RawFieldsCoverLine(line: string, c: ColumnStarts)
    requires c.tag <= c.imageId <= c.size
    ensures RawFields(line, c)[0] + RawFields(line, c)[1] + RawFields(line, c)[2]
            + RawFields(line, c)[3] == line
    ensures c.tag >= |line| ==> RawFields(line, c)[1] == [] && RawFields(line, c)[2] == []
                                && RawFields(line, c)[3] == []
    ensures c.imageId >= |line| ==> RawFields(line, c)[2] == [] && RawFields(line, c)[3] == []
    ensures c.size >= |line| ==> RawFields(line, c)[3] == []
  {
    SliceConcat(line, 0, c.tag, c.imageId);
    SliceConcat(line, 0, c.imageId, c.size);
    if c.size <= |line| {
      SliceConcat(line, 0, c.size, |line|);
    } else {
      assert Slice(line, 0, c.size) == line;
    }
  }

  /** Trim the four pieces of a (stripped) data line, and name a blank tag. */
  function ParseRow(line: string, c: ColumnStarts): ImageRow
  {
    var f := RawFields(line, c);
    var tag := Strip(f[1]);
    ImageRow(Strip(f[0]), if tag == [] then NoTag else tag, Strip(f[2]), Strip(f[3]))
  }

  /** What one data line contributes: nothing if blank or ignored, else its row. */
  function DataRow(line: string, c: ColumnStarts, ignored: set<string>): seq<ImageRow>
  {
    var stripped := Strip(line);
    if stripped == [] then []
    else
      var row := ParseRow(stripped, c);
      if row.imageId in ignored then [] else [row]
  }

  /** The rows of the data lines, in order. */
  function DataRows(lines: seq<string>, c: ColumnStarts, ignored: set<string>): seq<ImageRow>
  {
    if lines == [] then []
    else DataRows(lines[..|lines| - 1], c, ignored) + DataRow(lines[|lines| - 1], c, ignored)
  }

  /**
   * `parse_crictl_images_output(output, ignored)`: strip the output, split
   * it into lines, read the column starts from the first line and parse
   * every later line.
   */
  function Parse(output: string, ignored: set<string>): seq<ImageRow>
  {
    var lines := Lines(Strip(output));
    if |lines| < 2 then []
    else
      match HeaderColumns(lines[0])
      case None => []
      case Some(c) => DataRows(lines[1..], c, ignored)
  }

  /**
   * The loop of `parse_crictl_images_output`. An absent ignore set ignores
   * nothing.
   */
  method ParseCrictlImagesOutput(output: string, ignoredImageIds: Option<set<string>>)
    returns (images: seq<ImageRow>)
    ensures images == Parse(output, ignoredImageIds.GetOr({}))
  {
    var ignored := if ignoredImageIds.None? then {} else ignoredImageIds.value;
    images := [];
    var lines := Lines(Strip(output));
    if |lines| < 2 {
      return;
    }
    var header := lines[0];
    var tagCol := Find(header, TagLabel);
    var imageIdCol := Find(header, ImageIdLabel);
    var sizeCol := Find(header, SizeLabel);
    if !(tagCol != -1 && imageIdCol != -1 && sizeCol != -1 && tagCol < imageIdCol < sizeCol) {
      return;
    }
    var c := ColumnStarts(tagCol, imageIdCol, sizeCol);
    assert HeaderColumns(header) == Some(c);
    var data := lines[1..];
    for k := 0 to |data|
      invariant images == DataRows(data[..k], c, ignored)
    {
      DataRowsStep(data, k, c, ignored);
      var stripped := Strip(data[k]);
      if stripped == [] {
        continue;
      }
      var repo := Strip(Slice(stripped, 0, c.tag));
      var tag := Strip(Slice(stripped, c.tag, c.imageId));
      var currentImageId := Strip(Slice(stripped, c.imageId, c.size));
      var size := Strip(Slice(stripped, c.size, |stripped|));
      if tag == [] {
        tag := NoTag;
      }
      DataRowOfLine(data[k], c, ignored);
      if currentImageId in ignored {
        continue;
      }
      images := images + [ImageRow(repo, tag, currentImageId, size)];
    }
    assert data[..|data|] == data;
  }

  /** One more line extends the rows by what that line contributes. */
  lemma DataRowsStep(lines: seq<string>, k: nat, c: ColumnStarts, ignored: set<string>)
    requires k < |lines|
    ensures DataRows(lines[..k + 1], c, ignored) == DataRows(lines[..k], c, ignored) + DataRow(lines[k], c, ignored)
  {
    assert lines[..k + 1][..k] == lines[..k];
  }

  /** What one line contributes, spelled out field by field. */
  lemma DataRowOfLine(line: string, c: ColumnStarts, ignored: set<string>)
    ensures Strip(line) == [] ==> DataRow(line, c, ignored) == []
    ensures Strip(line) != [] ==>
              var s := Strip(line);
              var tag := Strip(Slice(s, c.tag, c.imageId));
              var row := ImageRow(Strip(Slice(s, 0, c.tag)), if tag == [] then NoTag else tag,
                                  Strip(Slice(s, c.imageId, c.size)), Strip(Slice(s, c.size, |s|)));
              DataRow(line, c, ignored) == if row.imageId in ignored then [] else [row]
  {
  }

  // ----- properties of the parse -----

  /** Output that is empty or a header alone parses to no rows. */
  lemma ParseNeedsTwoLines(output: string, ignored: set<string>)
    requires |Lines(Strip(output))| < 2
    ensures Parse(output, ignored) == []
  {
  }

  /** A header without the three labels in order parses to no rows. */
  lemma ParseRejectsBadHeader(output: string, ignored: set<string>)
    requires |Lines(Strip(output))| >= 2
    requires HeaderColumns(Lines(Strip(output))[0]) == None
    ensures Parse(output, ignored) == []
  {
  }

  /** A row as the parser emits it: trimmed fields, a non-empty tag, an id not ignored. */
  predicate CleanRow(r: ImageRow, ignored: set<string>)
  {
    && IsStripped(r.repository) && IsStripped(r.tag) && IsStripped(r.imageId) && IsStripped(r.size)
    && r.tag != [] && r.imageId !in ignored
  }

  lemma {:induction false} ParseRowClean(line: string, c: ColumnStarts)
    ensures CleanRow(ParseRow(line, c), {})
  {
    assert IsStripped(NoTag);
  }

  /** A data line contributes nothing, or the row parsed from its stripped text. */
  lemma DataRowShape(line: string, c: ColumnStarts, ignored: set<string>)
    ensures DataRow(line, c, ignored) == [] || DataRow(line, c, ignored) == [ParseRow(Strip(line), c)]
  {
  }

  lemma DataRowClean(line: string, c: ColumnStarts, ignored: set<string>)
    ensures forall k :: 0 <= k < |DataRow(line, c, ignored)| ==> CleanRow(DataRow(line, c, ignored)[k], ignored)
  {
    DataRowShape(line, c, ignored);
    if Strip(line) != [] {
      ParseRowClean(Strip(line), c);
    }
  }

  lemma {:induction false} DataRowsClean(lines: seq<string>, c: ColumnStarts, ignored: set<string>)
    ensures forall k :: 0 <= k < |DataRows(lines, c, ignored)| ==> CleanRow(DataRows(lines, c, ignored)[k], ignored)
  {
    if lines != [] {
      var init, last := lines[..|lines| - 1], lines[|lines| - 1];
      DataRowsClean(init, c, ignored);
      DataRowClean(last, c, ignored);
      var a, b := DataRows(init, c, ignored), DataRow(last, c, ignored);
      assert DataRows(lines, c, ignored) == a + b;
      forall k | 0 <= k < |a + b| ensures CleanRow((a + b)[k], ignored) {
        if k < |a| {
          assert (a + b)[k] == a[k];
        } else {
          assert (a + b)[k] == b[k - |a|];
        }
      }
    }
  }

  /** Every emitted row is trimmed, has a non-empty tag and a non-ignored id. */
  lemma ParsedRowsAreClean(output: string, ignored: set<string>)
    ensures forall k :: 0 <= k < |Parse(output, ignored)| ==> CleanRow(Parse(output, ignored)[k], ignored)
  {
    var lines := Lines(Strip(output));
    if |lines| >= 2 && HeaderColumns(lines[0]).Some? {
      DataRowsClean(lines[1..], HeaderColumns(lines[0]).value, ignored);
    }
  }

  /** The rows whose image id is not in `ignored`, in their order. */
  function Unignored(rows: seq<ImageRow>, ignored: set<string>): seq<ImageRow>
  {
    if rows == [] then []
    else Unignored(rows[..|rows| - 1], ignored)
         + (if rows[|rows| - 1].imageId in ignored then [] else [rows[|rows| - 1]])
  }

  lemma {:induction false} UnignoredAppend(a: seq<ImageRow>, b: seq<ImageRow>, ignored: set<string>)
    ensures Unignored(a + b, ignored) == Unignored(a, ignored) + Unignored(b, ignored)
    decreases |b|
  {
    if b == [] {
      assert a + b == a;
    } else {
      assert (a + b)[..|a + b| - 1] == a + b[..|b| - 1];
      UnignoredAppend(a, b[..|b| - 1], ignored);
    }
  }

  lemma {:induction false} DataRowsIgnoreIsFilter(lines: seq<string>, c: ColumnStarts, ignored: set<string>)
    ensures DataRows(lines, c, ignored) == Unignored(DataRows(lines, c, {}), ignored)
  {
    if lines != [] {
      var init, last := lines[..|lines| - 1], lines[|lines| - 1];
      DataRowsIgnoreIsFilter(init, c, ignored);
      UnignoredAppend(DataRows(init, c, {}), DataRow(last, c, {}), ignored);
      if DataRow(last, c, {}) != [] {
        assert Unignored(DataRow(last, c, {}), ignored) == DataRow(last, c, ignored) by {
          assert DataRow(last, c, {})[..0] == [];
        }
      }
    }
  }

  /**
   * Ignoring is pure filtering: parsing with an ignore set gives the
   * rows of the unfiltered parse whose id is not in the set, in order.
   */
  lemma ParseIgnoreIsFilter(output: string, ignored: set<string>)
    ensures Parse(output, ignored) == Unignored(Parse(output, {}), ignored)
  {
    var lines := Lines(Strip(output));
    if |lines| >= 2 && HeaderColumns(lines[0]).Some? {
      DataRowsIgnoreIsFilter(lines[1..], HeaderColumns(lines[0]).value, ignored);
    }
  }

  /** The lines that are not blank once stripped, in order. */
  function NonBlank(lines: seq<string>): seq<string>
  {
    if lines == [] then []
    else NonBlank(lines[..|lines| - 1])
         + (if Strip(lines[|lines| - 1]) == [] then [] else [lines[|lines| - 1]])
  }

  /** With nothing ignored, a line contributes a row exactly when it is not blank. */
  lemma DataRowUnfiltered(line: string, c: ColumnStarts)
    ensures DataRow(line, c, {}) == if Strip(line) == [] then [] else [ParseRow(Strip(line), c)]
  {
  }

  lemma {:induction false} DataRowsPerLine(lines: seq<string>, c: ColumnStarts)
    ensures |DataRows(lines, c, {})| == |NonBlank(lines)|
    ensures forall k :: 0 <= k < |NonBlank(lines)| ==>
              DataRows(lines, c, {})[k] == ParseRow(Strip(NonBlank(lines)[k]), c)
  {
    if lines != [] {
      var init, last := lines[..|lines| - 1], lines[|lines| - 1];
      DataRowsPerLine(init, c);
      var a, b := DataRows(init, c, {}), DataRow(last, c, {});
      var na, nb := NonBlank(init), if Strip(last) == [] then [] else [last];
      assert DataRows(lines, c, {}) == a + b;
      assert NonBlank(lines) == na + nb;
      DataRowUnfiltered(last, c);
      assert |b| == |nb|;
      forall k | 0 <= k < |na + nb| ensures (a + b)[k] == ParseRow(Strip((na + nb)[k]), c) {
        if k < |na| {
          assert (a + b)[k] == a[k];
          assert (na + nb)[k] == na[k];
        } else {
          assert k == |a| && k == |na|;
          assert (a + b)[k] == b[0];
          assert (na + nb)[k] == last;
        }
      }
    }
  }

  /**
   * With nothing ignored and a valid header, the output has exactly one
   * row per non-blank data line, in the order of the lines.
   */
  lemma ParseOneRowPerLine(output: string, c: ColumnStarts)
    requires |Lines(Strip(output))| >= 2
    requires HeaderColumns(Lines(Strip(output))[0]) == Some(c)
    ensures var data := Lines(Strip(output))[1..];
            |Parse(output, {})| == |NonBlank(data)|
            && forall k :: 0 <= k < |NonBlank(data)| ==>
                 Parse(output, {})[k] == ParseRow(Strip(NonBlank(data)[k]), c)
  {
    DataRowsPerLine(Lines(Strip(output))[1..], c);
  }
}
