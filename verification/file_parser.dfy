/** Reading the city list out of the text of an input file (src/file_parser.rs).
    Line 1 declares the number of cities after a " : " separator, line 2 is a heading,
    and every later line is `<label> <x> <y>`. Parsing an `f64` is the caller-supplied
    partial function `parseF64`. */
module FileParser {
  import opened Common
  import opened Text

  const Separator: string := " : "

  /** `get_num_points`: the count is the second " : "-separated field of the first
      line, trimmed and parsed as a `usize`. */
  function GetNumPoints(line: Option<string>): Result<nat> {
    match line
    case None => Err("file was empty")
    case Some(l) =>
      var fields := Split(l, Separator);
      if |fields| < 2 then Err("first line not formatted properly")
      else
        match ParseUsize(Trim(fields[1]))
        case None => Err("could not parse number of dimensions")
        case Some(n) => Ok(n)
  }

  /** `get_point`: the coordinates are whitespace-separated fields 1 and 2; field 0 and
      any later field are ignored. Both fields must be present before either is judged
      parseable, and x is judged before y. */
  function GetPoint(line: string, parseF64: string -> Option<real>): Result<Point> {
    var fields := Words(line);
    if |fields| < 2 then Err("x coordinate not provided")
    else
      var x := parseF64(fields[1]);
      if |fields| < 3 then Err("y coordinate not provided")
      else
        var y := parseF64(fields[2]);
        if x.None? then Err("x coordinate was not an integer")
        else if y.None? then Err("y coordinate was not an integer")
        else Ok((x.value, y.value))
  }

  /** The outcomes of `get_num_points`: an absent line, a line without the separator, a
      second field that does not parse, and otherwise exactly the `usize` parse of the
      trimmed second field. */
  lemma GetNumPointsCases(line: Option<string>)
    ensures line.None? <==> GetNumPoints(line) == Err("file was empty")
    ensures line.Some? && !Contains(line.value, Separator) <==>
      GetNumPoints(line) == Err("first line not formatted properly")
    ensures (line.Some? && Contains(line.value, Separator)
      && ParseUsize(Trim(Split(line.value, Separator)[1])).None?) <==>
      GetNumPoints(line) == Err("could not parse number of dimensions")
    ensures GetNumPoints(line).Ok? <==>
      line.Some? && Contains(line.value, Separator)
      && ParseUsize(Trim(Split(line.value, Separator)[1])).Some?
    ensures GetNumPoints(line).Ok? ==>
      GetNumPoints(line).value == ParseUsize(Trim(Split(line.value, Separator)[1])).value
  {
    if line.Some? {
      SplitHasSecond(line.value, Separator);
    }
  }

  /** The outcomes of `get_point`, in their order of precedence: a missing field 1, then a
      missing field 2 (even when field 1 does not parse), then an unparseable x, then an
      unparseable y. */
  lemma GetPointCases(line: string, parseF64: string -> Option<real>)
    ensures |Words(line)| < 2 <==> GetPoint(line, parseF64) == Err("x coordinate not provided")
    ensures |Words(line)| == 2 <==> GetPoint(line, parseF64) == Err("y coordinate not provided")
    ensures |Words(line)| >= 3 && parseF64(Words(line)[1]).None? <==>
      GetPoint(line, parseF64) == Err("x coordinate was not an integer")
    ensures |Words(line)| >= 3 && parseF64(Words(line)[1]).Some? && parseF64(Words(line)[2]).None? <==>
      GetPoint(line, parseF64) == Err("y coordinate was not an integer")
    ensures GetPoint(line, parseF64).Ok? <==>
      |Words(line)| >= 3 && parseF64(Words(line)[1]).Some? && parseF64(Words(line)[2]).Some?
    ensures GetPoint(line, parseF64).Ok? ==>
      GetPoint(line, parseF64).value == (parseF64(Words(line)[1]).value, parseF64(Words(line)[2]).value)
  {
  }

  function FirstLine(ls: seq<string>): Option<string> {
    if ls == [] then None else Some(ls[0])
  }

  /** The lines after the count line and the heading line. */
  function PointLines(ls: seq<string>): seq<string> {
    if |ls| <= 2 then [] else ls[2..]
  }

  /** The loop of `parse_file`: each line becomes one point, in order, and the first
      line that fails ends the loop with its error. */
  method ParsePoints(body: seq<string>, parseF64: string -> Option<real>)
    returns (r: Result<seq<Point>>)
    ensures r.Ok? <==> forall k :: 0 <= k < |body| ==> GetPoint(body[k], parseF64).Ok?
    ensures r.Ok? ==> |r.value| == |body|
    ensures r.Ok? ==> forall k :: 0 <= k < |body| ==> r.value[k] == GetPoint(body[k], parseF64).value
    ensures r.Err? ==>
      exists k :: 0 <= k < |body| && GetPoint(body[k], parseF64) == Err(r.error)
        && forall m :: 0 <= m < k ==> GetPoint(body[m], parseF64).Ok?
  {
    var points: seq<Point> := [];
    var i := 0;
    while i < |body|
      invariant 0 <= i <= |body|
      invariant |points| == i
      invariant forall k :: 0 <= k < i ==>
        GetPoint(body[k], parseF64).Ok? && points[k] == GetPoint(body[k], parseF64).value
    {
      var point := GetPoint(body[i], parseF64);
      if point.Err? {
        return Err(point.error);
      }
      points := points + [point.value];
      i := i + 1;
    }
    return Ok(points);
  }

  /** The line handling of `parse_file`, given the lines `Lines(contents)` of the file:
      the first line must give a count, the second is skipped unread, and the rest are
      parsed as points. The declared count is not compared with the number of points. */
  method ParseLines(lines: seq<string>, parseF64: string -> Option<real>)
    returns (r: Result<seq<Point>>)
    ensures GetNumPoints(FirstLine(lines)).Err? ==>
      r == Err(GetNumPoints(FirstLine(lines)).error)
    ensures GetNumPoints(FirstLine(lines)).Ok? ==>
      (r.Ok? <==> forall k :: 2 <= k < |lines| ==> GetPoint(lines[k], parseF64).Ok?)
    ensures GetNumPoints(FirstLine(lines)).Ok? && r.Ok? ==>
      |r.value| == |PointLines(lines)|
      && forall k :: 2 <= k < |lines| ==> r.value[k - 2] == GetPoint(lines[k], parseF64).value
    ensures GetNumPoints(FirstLine(lines)).Ok? && r.Err? ==>
      exists k :: 2 <= k < |lines| && GetPoint(lines[k], parseF64) == Err(r.error)
        && forall m :: 2 <= m < k ==> GetPoint(lines[m], parseF64).Ok?
  {
    var header := GetNumPoints(FirstLine(lines));
    if header.Err? {
      return Err(header.error);
    }
    var body := PointLines(lines);
    assert forall k :: 2 <= k < |lines| ==> lines[k] == body[k - 2];
    r := ParsePoints(body, parseF64);
    if r.Err? {
      var k :| 0 <= k < |body| && GetPoint(body[k], parseF64) == Err(r.error)
        && forall m :: 0 <= m < k ==> GetPoint(body[m], parseF64).Ok?;
      assert lines[k + 2] == body[k];
    }
  }

  /** `parse_file` once the contents are read: the lines of the contents, handled as
      `ParseLines` does. */
  method ParseContents(contents: string, parseF64: string -> Option<real>)
    returns (r: Result<seq<Point>>)
    ensures var lines := Lines(contents);
      GetNumPoints(FirstLine(lines)).Err? ==> r == Err(GetNumPoints(FirstLine(lines)).error)
    ensures var lines := Lines(contents);
      GetNumPoints(FirstLine(lines)).Ok? ==>
        (r.Ok? <==> forall k :: 2 <= k < |lines| ==> GetPoint(lines[k], parseF64).Ok?)
    ensures var lines := Lines(contents);
      GetNumPoints(FirstLine(lines)).Ok? && r.Ok? ==>
        |r.value| == |PointLines(lines)|
        && forall k :: 2 <= k < |lines| ==> r.value[k - 2] == GetPoint(lines[k], parseF64).value
    ensures var lines := Lines(contents);
      GetNumPoints(FirstLine(lines)).Ok? && r.Err? ==>
        exists k :: 2 <= k < |lines| && GetPoint(lines[k], parseF64) == Err(r.error)
          && forall m :: 2 <= m < k ==> GetPoint(lines[m], parseF64).Ok?
  {
    r := ParseLines(Lines(contents), parseF64);
  }

  /** For a file written line by line, `parse_file` sees exactly those lines: an empty
      file has no count line, and the first line written is the count line. */
  lemma FileLines(ls: seq<string>)
    requires forall k :: 0 <= k < |ls| ==> IsLine(ls[k])
    ensures Lines(Unlines(ls)) == ls
    ensures FirstLine(Lines(Unlines(ls))) == if ls == [] then None else Some(ls[0])
    ensures PointLines(Lines(Unlines(ls))) == if |ls| <= 2 then [] else ls[2..]
  {
    LinesOfUnlines(ls);
  }

  /** A first line `<key> : <count>`, the count padded with whitespace, declares that
      count, provided the key holds no ':' that could start an earlier separator. */
  lemma GetNumPointsOfHeader(line: string, key: string, pad1: string, n: nat, pad2: string)
    requires forall i :: 0 <= i < |key| ==> key[i] != ':'
    requires AllWhitespace(pad1) && AllWhitespace(pad2)
    requires n <= USIZE_MAX
    requires line == key + Separator + (pad1 + ShowNat(n) + pad2)
    ensures GetNumPoints(Some(line)) == Ok(n)
  {
    var tail := pad1 + ShowNat(n) + pad2;
    forall j: nat | j < |key| ensures !OccursAt(line, Separator, j) {
      assert line[j + 1] != ':' by {
        if j + 1 < |key| {
          assert line[j + 1] == key[j + 1];
        } else {
          assert line[j + 1] == Separator[0];
        }
      }
      assert line[j..j + 3][1] == line[j + 1];
    }
    SplitFirst(key, Separator, tail);
    forall i | 0 <= i < |tail| ensures tail[i] != ':' {
      if i < |pad1| {
        assert tail[i] == pad1[i];
      } else if i < |pad1| + |ShowNat(n)| {
        assert tail[i] == ShowNat(n)[i - |pad1|];
      } else {
        assert tail[i] == pad2[i - |pad1| - |ShowNat(n)|];
      }
    }
    NoColonNoOccurrence(tail, Separator, 1);
    assert NoWhitespace(ShowNat(n));
    TrimPadded(pad1, ShowNat(n), pad2);
    ParseShowNat(n);
  }

  /** The header line of the bundled test declares 123 cities. */
  lemma GetNumPointsExample()
    ensures GetNumPoints(Some("DIMENSIONS : 123")) == Ok(123)
  {
    assert ShowNat(123) == "123";
    GetNumPointsOfHeader("DIMENSIONS : 123", "DIMENSIONS", "", 123, "");
  }

  /** A line of fields separated by single spaces yields the parses of fields 1 and 2,
      whatever field 0 and any fields after 2 are. */
  lemma GetPointOfFields(fields: seq<string>, parseF64: string -> Option<real>)
    requires |fields| >= 3
    requires forall k :: 0 <= k < |fields| ==> IsWord(fields[k])
    requires parseF64(fields[1]).Some? && parseF64(fields[2]).Some?
    ensures GetPoint(JoinWords(fields), parseF64) ==
      Ok((parseF64(fields[1]).value, parseF64(fields[2]).value))
  {
    WordsOfJoin(fields);
  }

  /** The point line of the bundled test. */
  lemma GetPointExample(parseF64: string -> Option<real>)
    requires parseF64("123").Some? && parseF64("321").Some?
    ensures GetPoint("column1 123 321", parseF64) ==
      Ok((parseF64("123").value, parseF64("321").value))
  {
    var fields := ["column1", "123", "321"];
    assert JoinWords(fields) == "column1 123 321";
    GetPointOfFields(fields, parseF64);
  }
}
