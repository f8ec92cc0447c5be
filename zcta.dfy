/** The converter of zctaConverter.php for the Census Bureau's 5-digit ZIP
    Code Tabulation Area boundary files.  For each region it reads the
    attribute file into a map from polygon id to ZIP code, then reads the
    coordinate file line by line: the number of whitespace-separated
    fields of a line says whether it opens a polygon (id and centre), adds
    a vertex, ends a ring, is blank or is malformed.  Each finished polygon
    is checked by the database and counted good or bad.

    Files are inputs: the attribute file as its text, the coordinate file
    as its lines already split into fields, file presence as membership in
    a map, and the database check as the predicate `valid`.  Coordinates
    stay the text of their fields. */
module Zcta {

  import opened Wrappers
  import opened Text

  /** One stored vertex, latitude (the second field) before longitude (the
      first), as zctaConverter.php:176-179 stores them. */
  datatype Vertex = Vertex(lat: string, lon: string)

  /** `$this->polygon`: ring number => vertices; ring numbers can skip. */
  type Shape = map<nat, seq<Vertex>>

  /** `$this->poly_count`. */
  datatype Counts = Counts(total: nat, good: nat, bad: nat)

  /** The records of `$this->errors`. */
  datatype Error =
    | NotEndLine(lineNumber: int, lineArray: seq<string>)
    | LineCountError(lineNumber: int, lineArray: seq<string>)
    | BadPolygon(polygon: Shape)
    | Rejected(polygon: Shape)

  /** The fields of the converter that the processing changes. */
  datatype ParseState = ParseState(
    zipIdMap: map<string, string>,
    polyCount: Counts,
    errors: map<(string, string), Error>,
    filePrefix: string,
    polyId: string,
    polygon: Shape,
    polyCenter: (string, string),
    ring: nat,
    lineNumber: int)

  // ---------------------------------------------------------------------
  // The attribute file: preg_match_all('!(\d+)\s+"(\d{5})"!')
  // ---------------------------------------------------------------------

  /** The characters PCRE's `\s` matches. */
  predicate IsSpace(c: char)
  {
    c == ' ' || c == '\t' || c == '\n' || c == '\r' || c as int == 11 || c as int == 12
  }

  /** The length of the run of digits at the start of s. */
  function DigitRun(s: string): (n: nat)
    ensures n <= |s| && AllDigits(s[..n])
    ensures n < |s| ==> !IsDigit(s[n])
  {
    if s != [] && IsDigit(s[0]) then
      var n := 1 + DigitRun(s[1..]);
      assert s[..n] == [s[0]] + s[1..][..n - 1];
      n
    else 0
  }

  /** The length of the run of whitespace at the start of s. */
  function SpaceRun(s: string): (n: nat)
    ensures n <= |s|
    ensures n < |s| ==> !IsSpace(s[n])
  {
    if s != [] && IsSpace(s[0]) then 1 + SpaceRun(s[1..]) else 0
  }

  /** The match of the pattern at the start of s, as (id, code, length).
      The digit and space runs are taken whole: giving back a character of
      either would leave a digit or a space where the pattern needs the
      other or a quote, so the greedy run is the only candidate. */
  function MatchAt(s: string): (m: Option<(string, string, nat)>)
    ensures m.Some? ==> 1 <= m.value.2 <= |s|
    ensures m.Some? ==> |m.value.0| >= 1 && AllDigits(m.value.0) && |m.value.1| == 5 && AllDigits(m.value.1)
  {
    var d := DigitRun(s);
    if d == 0 then None
    else
      var w := SpaceRun(s[d..]);
      var r := s[d + w..];
      if w >= 1 && |r| >= 7 && r[0] == '"' && AllDigits(r[1..6]) && r[6] == '"' then
        Some((s[..d], r[1..6], d + w + 7))
      else None
  }

  /** Every (id, code) pair preg_match_all finds, leftmost first, each
      search resuming after the previous match. */
  function Matches(s: string): (ms: seq<(string, string)>)
    ensures forall i :: 0 <= i < |ms| ==> |ms[i].0| >= 1 && AllDigits(ms[i].0) && |ms[i].1| == 5 && AllDigits(ms[i].1)
    decreases |s|
  {
    if s == [] then []
    else match MatchAt(s)
      case Some((id, code, len)) => [(id, code)] + Matches(s[len..])
      case None => Matches(s[1..])
  }

  /** One attribute record as the files lay it out: the id on one line,
      the quoted ZIP code on the next. */
  function Record(id: string, code: string): string
  {
    id + "\n\"" + code + "\"\n"
  }

  function Render(records: seq<(string, string)>): string
  {
    if records == [] then "" else Record(records[0].0, records[0].1) + Render(records[1..])
  }

  predicate WellFormedRecord(r: (string, string))
  {
    |r.0| >= 1 && AllDigits(r.0) && |r.1| == 5 && AllDigits(r.1)
  }

  lemma {:induction false} DigitRunOf(id: string, t: string)
    requires AllDigits(id)
    requires t != [] && !IsDigit(t[0])
    ensures DigitRun(id + t) == |id|
  {
    if id != [] {
      assert (id + t)[1..] == id[1..] + t;
      DigitRunOf(id[1..], t);
    }
  }

  /** A line break between records matches nothing. */
  lemma SkipBreak(rest: string)
    ensures Matches("\n" + rest) == Matches(rest)
  {
    var s := "\n" + rest;
    assert s[1..] == rest;
    assert DigitRun(s) == 0;
  }

  /** The pattern matches a whole record at the front of the text. */
  lemma MatchAtRecord(id: string, code: string, rest: string)
    requires WellFormedRecord((id, code))
    ensures MatchAt(Record(id, code) + rest) == Some((id, code, |id| + 8))
  {
    var s := Record(id, code) + rest;
    var tail := "\n\"" + code + "\"\n" + rest;
    var d := |id|;
    assert s == id + tail;
    assert DigitRun(s) == d by {
      DigitRunOf(id, tail);
    }
    assert s[..d] == id;
    assert s[d..] == tail;
    assert SpaceRun(tail) == 1 by {
      assert tail[1..][0] == '"';
    }
    var r := s[d + 1..];
    assert r == "\"" + code + "\"\n" + rest;
    assert r[1..6] == code;
  }

  /** A record at the front of the text yields its pair first. */
  lemma MatchesRecord(id: string, code: string, rest: string)
    requires WellFormedRecord((id, code))
    ensures Matches(Record(id, code) + rest) == [(id, code)] + Matches(rest)
  {
    var s := Record(id, code) + rest;
    MatchAtRecord(id, code, rest);
    assert s[|id| + 8..] == "\n" + rest;
    SkipBreak(rest);
  }

  /** Reading a file of well-formed records gives back every record, in
      file order. */
  lemma {:induction false} MatchesRender(records: seq<(string, string)>)
    requires forall i :: 0 <= i < |records| ==> WellFormedRecord(records[i])
    ensures Matches(Render(records)) == records
  {
    if records != [] {
      MatchesRender(records[1..]);
      MatchesRecord(records[0].0, records[0].1, Render(records[1..]));
    }
  }

  /** The map after assigning each pair in turn: a later pair for an id
      overwrites an earlier one. */
  function Assign(m: map<string, string>, pairs: seq<(string, string)>): map<string, string>
  {
    if pairs == [] then m
    else Assign(m, pairs[..|pairs| - 1])[pairs[|pairs| - 1].0 := pairs[|pairs| - 1].1]
  }

  /** The code of the last pair for an id. */
  function LastCode(pairs: seq<(string, string)>, id: string): Option<string>
  {
    if pairs == [] then None
    else if pairs[|pairs| - 1].0 == id then Some(pairs[|pairs| - 1].1)
    else LastCode(pairs[..|pairs| - 1], id)
  }

  /** After the assignments, an id holds the code of its last pair; an id
      without pairs keeps what it had, and no id is removed. */
  lemma {:induction false} AssignLast(m: map<string, string>, pairs: seq<(string, string)>, id: string)
    ensures LastCode(pairs, id).Some? ==> id in Assign(m, pairs) && Assign(m, pairs)[id] == LastCode(pairs, id).value
    ensures LastCode(pairs, id).None? ==> (id in Assign(m, pairs) <==> id in m)
    ensures LastCode(pairs, id).None? && id in m ==> Assign(m, pairs)[id] == m[id]
  {
    if pairs != [] {
      AssignLast(m, pairs[..|pairs| - 1], id);
    }
  }

  // ---------------------------------------------------------------------
  // The coordinate file
  // ---------------------------------------------------------------------

  /** The value PHP compares with 0 in `$poly_id > 0`: that of an integer
      literal, 0 for any other text. */
  function IdValue(token: string): int
  {
    if |token| >= 2 && token[0] == '-' && AllDigits(token[1..]) then -(DigitsValue(token[1..]) as int)
    else if |token| >= 1 && AllDigits(token) then DigitsValue(token)
    else 0
  }

  predicate Positive(id: string) { IdValue(id) > 0 }

  /** `$this->polygon[$this->ring]`, an unset ring reading as empty. */
  function Current(polygon: Shape, ring: nat): seq<Vertex>
  {
    if ring in polygon then polygon[ring] else []
  }

  /** PHP `array_search`: the first index holding v. */
  function ArraySearch(ring: seq<Vertex>, v: Vertex): (r: Option<nat>)
    ensures r.Some? <==> v in ring
    ensures r.Some? ==> r.value < |ring| && ring[r.value] == v && v !in ring[..r.value]
  {
    if ring == [] then None
    else if ring[0] == v then Some(0)
    else match ArraySearch(ring[1..], v)
      case None => None
      case Some(k) => assert ring[..k + 1] == [ring[0]] + ring[1..][..k]; Some(k + 1)
  }

  /** zctaConverter.php:182-191: the vertex joins the current ring unless
      `array_search` finds it at a non-zero index, that is unless it
      occurs in the ring and is not the ring's first vertex.  A repeat of
      the first vertex, which closes the ring, is kept. */
  function AddVertex(polygon: Shape, ring: nat, v: Vertex): (r: Shape)
    ensures var cur := Current(polygon, ring);
      if v in cur && cur[0] != v then r == polygon else r == polygon[ring := cur + [v]]
  {
    var cur := Current(polygon, ring);
    var key := if |cur| > 0 then ArraySearch(cur, v) else None;
    if key.None? || key == Some(0) then polygon[ring := cur + [v]] else polygon
  }

  /** zctaConverter.php:182-191 as written: the search reads the misspelt
      `$this->polgyon`, which is unset, so no key is ever found and every
      vertex joins the current ring. */
  function AddVertexAsWritten(polygon: Shape, ring: nat, v: Vertex): Shape
  {
    var cur := Current(polygon, ring);
    var key: Option<nat> := None;
    if key.None? || key == Some(0) then polygon[ring := cur + [v]] else polygon
  }

  /** A ring (1 2), (3 4) followed by (3 4) again: as written the repeat is
      stored, while the intended search drops it. */
  lemma RepeatStoredAsWritten()
    ensures var a, b := Vertex("2", "1"), Vertex("4", "3");
      && AddVertexAsWritten(map[0 := [a, b]], 0, b) == map[0 := [a, b, b]]
      && AddVertex(map[0 := [a, b]], 0, b) == map[0 := [a, b]]
  {
    var a, b := Vertex("2", "1"), Vertex("4", "3");
    assert Current(map[0 := [a, b]], 0) == [a, b];
    assert [a, b] + [b] == [a, b, b];
    assert [a, b][1] == b;
  }

  predicate EmptyExterior(polygon: Shape) { 0 !in polygon || polygon[0] == [] }

  /** `process_polygon` (zctaConverter.php:240-271): a polygon without an
      exterior ring is recorded as bad and left uncounted; any other is
      counted good or bad as the database judges it. */
  function Finalise(s: ParseState, valid: Shape -> bool): (r: ParseState)
    ensures EmptyExterior(s.polygon) ==>
      r == s.(errors := s.errors[(s.filePrefix, s.polyId) := BadPolygon(s.polygon)])
    ensures !EmptyExterior(s.polygon) ==>
      && r.polyCount == (if valid(s.polygon) then s.polyCount.(good := s.polyCount.good + 1)
                         else s.polyCount.(bad := s.polyCount.bad + 1))
      && r.errors == (if valid(s.polygon) then s.errors
                      else s.errors[(s.filePrefix, s.polyId) := Rejected(s.polygon)])
      && r.(polyCount := s.polyCount, errors := s.errors) == s
  {
    if EmptyExterior(s.polygon) then
      s.(errors := s.errors[(s.filePrefix, s.polyId) := BadPolygon(s.polygon)])
    else if !valid(s.polygon) then
      var e := s.errors[(s.filePrefix, s.polyId) := Rejected(s.polygon)];
      s.(polyCount := s.polyCount.(bad := s.polyCount.bad + 1), errors := e)
    else
      s.(polyCount := s.polyCount.(good := s.polyCount.good + 1))
  }

  /** A three-field line (zctaConverter.php:154-169): the previous polygon
      is finished when its id is positive, then a new polygon starts. */
  function HeaderLine(s: ParseState, fields: seq<string>, valid: Shape -> bool): (r: ParseState)
    requires |fields| == 3
    ensures r.polygon == map[] && r.ring == 0 && r.polyId == fields[0]
    ensures r.polyCenter == (fields[1], fields[2])
    ensures r.polyCount.total == s.polyCount.total + 1
    ensures !Positive(s.polyId) ==> r.polyCount == s.polyCount.(total := s.polyCount.total + 1)
  {
    var p := if Positive(s.polyId) then Finalise(s, valid) else s;
    p.(polygon := map[], polyId := fields[0], polyCenter := (fields[1], fields[2]), ring := 0,
       polyCount := p.polyCount.(total := p.polyCount.total + 1))
  }

  /** A two-field line (zctaConverter.php:171-198): a vertex of the
      current polygon when its id is positive and maps to a five-character
      code; an id without one is counted bad once and switched off, so
      that the rest of its vertices are ignored. */
  function VertexLine(s: ParseState, fields: seq<string>): (r: ParseState)
    requires |fields| == 2
    ensures !Positive(s.polyId) ==> r == s
    ensures Positive(s.polyId) && s.polyId in s.zipIdMap && |s.zipIdMap[s.polyId]| == 5 ==>
      r == s.(polygon := AddVertex(s.polygon, s.ring, Vertex(fields[1], fields[0])))
    ensures Positive(s.polyId) && !(s.polyId in s.zipIdMap && |s.zipIdMap[s.polyId]| == 5) ==>
      r == s.(polyId := "0", polyCount := s.polyCount.(bad := s.polyCount.bad + 1)) && !Positive(r.polyId)
  {
    if !Positive(s.polyId) then s
    else if s.polyId in s.zipIdMap && |s.zipIdMap[s.polyId]| == 5 then
      s.(polygon := AddVertex(s.polygon, s.ring, Vertex(fields[1], fields[0])))
    else
      s.(polyId := "0", polyCount := s.polyCount.(bad := s.polyCount.bad + 1))
  }

  /** A one-field line (zctaConverter.php:200-214): `-99999` starts the
      next ring, `END` changes nothing, anything else is an error. */
  function EndLine(s: ParseState, fields: seq<string>): (r: ParseState)
    requires |fields| == 1
    ensures fields[0] == "-99999" ==> r == s.(ring := s.ring + 1)
    ensures fields[0] == "END" ==> r == s
    ensures fields[0] != "END" && fields[0] != "-99999" ==>
      r == s.(errors := s.errors[(s.filePrefix, s.polyId) := NotEndLine(s.lineNumber, fields)])
  {
    if fields[0] != "END" && fields[0] != "-99999" then
      s.(errors := s.errors[(s.filePrefix, s.polyId) := NotEndLine(s.lineNumber, fields)])
    else if fields[0] == "-99999" then s.(ring := s.ring + 1)
    else s
  }

  /** One line of the coordinate file, dispatched on its number of fields;
      the line number advances by exactly one whatever the line. */
  function Step(s: ParseState, fields: seq<string>, valid: Shape -> bool): (r: ParseState)
    ensures r.lineNumber == s.lineNumber + 1
    ensures r.zipIdMap == s.zipIdMap && r.filePrefix == s.filePrefix
    ensures |fields| == 0 ==> r == s.(lineNumber := s.lineNumber + 1)
    ensures |fields| >= 4 ==>
      r == s.(errors := s.errors[(s.filePrefix, s.polyId) := LineCountError(s.lineNumber, fields)],
              lineNumber := s.lineNumber + 1)
    ensures r.polyCount.total >= s.polyCount.total && r.polyCount.good >= s.polyCount.good
         && r.polyCount.bad >= s.polyCount.bad
  {
    var t :=
      if |fields| == 3 then HeaderLine(s, fields, valid)
      else if |fields| == 2 then VertexLine(s, fields)
      else if |fields| == 1 then EndLine(s, fields)
      else if |fields| == 0 then s
      else s.(errors := s.errors[(s.filePrefix, s.polyId) := LineCountError(s.lineNumber, fields)]);
    t.(lineNumber := s.lineNumber + 1)
  }

  /** The `while` loop of `process_zips` over the lines read so far. */
  function Lines(s: ParseState, lines: seq<seq<string>>, valid: Shape -> bool): (r: ParseState)
    ensures r.lineNumber == s.lineNumber + |lines|
    ensures r.zipIdMap == s.zipIdMap && r.filePrefix == s.filePrefix
    ensures r.polyCount.total >= s.polyCount.total && r.polyCount.good >= s.polyCount.good
         && r.polyCount.bad >= s.polyCount.bad
  {
    if lines == [] then s
    else Step(Lines(s, lines[..|lines| - 1], valid), lines[|lines| - 1], valid)
  }

  /** `process_zips` (zctaConverter.php:139-238): the id is cleared, every
      line is processed, and the last polygon is finished when its id is
      positive. */
  function Zips(s: ParseState, lines: seq<seq<string>>, valid: Shape -> bool): ParseState
  {
    var t := Lines(s.(polyId := "0"), lines, valid);
    if Positive(t.polyId) then Finalise(t, valid) else t
  }

  /** `process_attributes` (zctaConverter.php:120-133). */
  function Attributes(s: ParseState, paf: string): ParseState
  {
    s.(zipIdMap := Assign(s.zipIdMap, Matches(paf)))
  }

  /** Two-digit region code, left-padded with a zero. */
  function Pad2(st: nat): (r: string)
    requires st < 100
    ensures |r| == 2 && AllDigits(r)
  {
    if st < 10 then "0" + NatToString(st)
    else
      assert NatToString(st) == NatToString(st / 10) + [DigitChar(st % 10)];
      NatToString(st)
  }

  /** The padded code reads back as the region number, so no two regions
      share a file prefix. */
  lemma Pad2Value(st: nat)
    requires st < 100
    ensures DigitsValue(Pad2(st)) == st
  {
    NatToStringRoundTrip(st);
    if st < 10 {
      var r := Pad2(st);
      assert r[..1] == "0";
      assert DigitsValue(r[..1]) == 0 by {
        assert r[..1][..0] == [];
      }
    }
  }

  function Prefix(st: nat, year: string): string
    requires st < 100
  {
    "zt" + Pad2(st) + "_d" + year
  }

  /** One region of `main` (zctaConverter.php:104-114): processed only
      when its coordinate file exists. */
  function Region(s: ParseState, st: nat, dir: string, year: string, ext: string,
                  attributeFiles: map<string, string>, coordinateFiles: map<string, seq<seq<string>>>,
                  valid: Shape -> bool): (r: ParseState)
    requires st < 100
    ensures r.filePrefix == Prefix(st, year)
    ensures dir + Prefix(st, year) + ext !in coordinateFiles ==> r == s.(filePrefix := Prefix(st, year))
  {
    var prefix := Prefix(st, year);
    var t := s.(filePrefix := prefix);
    if dir + prefix + ext in coordinateFiles then
      var attributePath := dir + prefix + "a" + ext;
      var paf := if attributePath in attributeFiles then attributeFiles[attributePath] else "";
      Zips(Attributes(t, paf), coordinateFiles[dir + prefix + ext], valid)
    else t
  }

  /** The regions 00 .. n-1 in order. */
  function Regions(s: ParseState, n: nat, dir: string, year: string, ext: string,
                   attributeFiles: map<string, string>, coordinateFiles: map<string, seq<seq<string>>>,
                   valid: Shape -> bool): ParseState
    requires n <= 73
  {
    if n == 0 then s
    else Region(Regions(s, n - 1, dir, year, ext, attributeFiles, coordinateFiles, valid),
                n - 1, dir, year, ext, attributeFiles, coordinateFiles, valid)
  }

  /** The zip map only grows: a region never removes an entry that an
      earlier one made, whatever its files hold. */
  lemma RegionKeepsIds(s: ParseState, st: nat, dir: string, year: string, ext: string,
                       attributeFiles: map<string, string>,
                       coordinateFiles: map<string, seq<seq<string>>>,
                       valid: Shape -> bool, id: string)
    requires st < 100
    requires id in s.zipIdMap
    ensures id in Region(s, st, dir, year, ext, attributeFiles, coordinateFiles, valid).zipIdMap
  {
    var prefix := Prefix(st, year);
    if dir + prefix + ext in coordinateFiles {
      var attributePath := dir + prefix + "a" + ext;
      var paf := if attributePath in attributeFiles then attributeFiles[attributePath] else "";
      var a := Attributes(s.(filePrefix := prefix), paf);
      AssignLast(s.zipIdMap, Matches(paf), id);
      var t := Lines(a.(polyId := "0"), coordinateFiles[dir + prefix + ext], valid);
      assert t.zipIdMap == a.zipIdMap;
      assert Zips(a, coordinateFiles[dir + prefix + ext], valid).zipIdMap == t.zipIdMap;
    }
  }

  /** Over the first n regions the zip map only grows. */
  lemma {:induction false} RegionsKeepIds(s: ParseState, n: nat, dir: string, year: string, ext: string,
                                          attributeFiles: map<string, string>,
                                          coordinateFiles: map<string, seq<seq<string>>>,
                                          valid: Shape -> bool, id: string)
    requires n <= 73
    requires id in s.zipIdMap
    ensures id in Regions(s, n, dir, year, ext, attributeFiles, coordinateFiles, valid).zipIdMap
  {
    if n > 0 {
      var before := Regions(s, n - 1, dir, year, ext, attributeFiles, coordinateFiles, valid);
      assert id in before.zipIdMap by {
        RegionsKeepIds(s, n - 1, dir, year, ext, attributeFiles, coordinateFiles, valid, id);
      }
      RegionKeepsIds(before, n - 1, dir, year, ext, attributeFiles, coordinateFiles, valid, id);
      assert Regions(s, n, dir, year, ext, attributeFiles, coordinateFiles, valid)
          == Region(before, n - 1, dir, year, ext, attributeFiles, coordinateFiles, valid);
    }
  }

  // ---------------------------------------------------------------------
  // The lines the counters and the polygon see
  // ---------------------------------------------------------------------

  /** A header line adds exactly one to the total, whatever the previous
      polygon was; a line of any other kind leaves the total alone. */
  lemma TotalCountsHeaders(s: ParseState, fields: seq<string>, valid: Shape -> bool)
    ensures Step(s, fields, valid).polyCount.total
         == s.polyCount.total + (if |fields| == 3 then 1 else 0)
  {
    if |fields| == 3 && Positive(s.polyId) {
      assert Finalise(s, valid).polyCount.total == s.polyCount.total;
    }
  }

  /** After an id without a code, its vertex lines change nothing but the
      line number until the next header. */
  lemma SwitchedOff(s: ParseState, lines: seq<seq<string>>, valid: Shape -> bool)
    requires !Positive(s.polyId)
    requires forall i :: 0 <= i < |lines| ==> |lines[i]| == 2
    ensures Lines(s, lines, valid) == s.(lineNumber := s.lineNumber + |lines|)
  {
    if lines != [] {
      SwitchedOff(s, lines[..|lines| - 1], valid);
    }
  }

  /** The state of a fresh converter before the first region. */
  function Initial(): ParseState
  {
    ParseState(map[], Counts(0, 0, 0), map[], "", "0", map[], ("", ""), 0, 1)
  }

  /** The `$poly_id` guards as written (zctaConverter.php:156, 173): the
      undefined local reads as null, which is never above 0, so a header
      never finishes the previous polygon and no vertex line does anything. */
  function StepAsWritten(s: ParseState, fields: seq<string>): ParseState
  {
    var t :=
      if |fields| == 3 then
        s.(polygon := map[], polyId := fields[0], polyCenter := (fields[1], fields[2]), ring := 0,
           polyCount := s.polyCount.(total := s.polyCount.total + 1))
      else if |fields| == 2 then s
      else if |fields| == 1 then EndLine(s, fields)
      else if |fields| == 0 then s
      else s.(errors := s.errors[(s.filePrefix, s.polyId) := LineCountError(s.lineNumber, fields)]);
    t.(lineNumber := s.lineNumber + 1)
  }

  function LinesAsWritten(s: ParseState, lines: seq<seq<string>>): ParseState
  {
    if lines == [] then s else StepAsWritten(LinesAsWritten(s, lines[..|lines| - 1]), lines[|lines| - 1])
  }

  /** As written, the polygon being built stays empty whatever the lines. */
  lemma {:induction false} AsWrittenKeepsNoVertex(s: ParseState, lines: seq<seq<string>>)
    requires s.polygon == map[]
    ensures LinesAsWritten(s, lines).polygon == map[]
  {
    if lines != [] {
      AsWrittenKeepsNoVertex(s, lines[..|lines| - 1]);
    }
  }

  /** A file with one polygon of one vertex, under an id that has a ZIP
      code. */
  function SampleState(): ParseState { Initial().(zipIdMap := map["1766" := "10511"]) }

  function SampleLines(): seq<seq<string>> { [["1766", "-73.9", "41.3"], ["-73.9", "41.3"], ["END"]] }

  /** The intended reading stores the vertex, latitude first. */
  lemma SampleVertexKept()
    ensures Lines(SampleState(), SampleLines(), _ => true).polygon == map[0 := [Vertex("41.3", "-73.9")]]
  {
    var s, lines := SampleState(), SampleLines();
    var valid: Shape -> bool := _ => true;
    assert lines[..2][..1] == [lines[0]] && lines[..2] == [lines[0], lines[1]];
    assert lines[..1] == [lines[0]] && lines[..0] == [];
    assert Positive("1766") by {
      assert AllDigits("1766");
      assert "1766"[..3] == "176";
    }
    var s1 := Step(s, lines[0], valid);
    assert s1 == Lines(s, lines[..1], valid);
    assert s1.polyId == "1766" && s1.polygon == map[] && s1.ring == 0 && s1.zipIdMap == s.zipIdMap;
    var v := Vertex("41.3", "-73.9");
    assert VertexLine(s1, lines[1]) == s1.(polygon := AddVertex(map[], 0, v));
    assert AddVertex(map[], 0, v) == map[0 := [v]] by {
      assert Current(map[], 0) + [v] == [v];
    }
    var s2 := Step(s1, lines[1], valid);
    assert s2 == Lines(s, lines[..2], valid);
    assert Lines(s, lines, valid) == Step(s2, lines[2], valid);
  }

  /** The same file as written: the vertex is dropped. */
  lemma SampleVertexDroppedAsWritten()
    ensures LinesAsWritten(SampleState(), SampleLines()).polygon == map[]
    ensures Lines(SampleState(), SampleLines(), _ => true).polygon != map[]
  {
    AsWrittenKeepsNoVertex(SampleState(), SampleLines());
    SampleVertexKept();
    assert 0 in map[0 := [Vertex("41.3", "-73.9")]];
  }

  // ---------------------------------------------------------------------
  // The converter object
  // ---------------------------------------------------------------------

  class Converter {
    const dir: string
    const year: string
    const ext: string
    var zipIdMap: map<string, string>
    var polyCount: Counts
    var errors: map<(string, string), Error>
    var filePrefix: string
    var polyId: string
    var polygon: Shape
    var polyCenter: (string, string)
    var ring: nat
    var lineNumber: int

    function State(): ParseState
      reads this
    {
      ParseState(zipIdMap, polyCount, errors, filePrefix, polyId, polygon, polyCenter, ring, lineNumber)
    }

    /** The constructor sets the paths and the counters and runs `main`
        over the given files. */
    constructor (dir: string, year: string, ext: string,
                 attributeFiles: map<string, string>, coordinateFiles: map<string, seq<seq<string>>>,
                 valid: Shape -> bool)
      ensures this.dir == dir && this.year == year && this.ext == ext
      ensures State() == Regions(Initial(), 73, dir, year, ext, attributeFiles, coordinateFiles, valid)
    {
      this.dir, this.year, this.ext := dir, year, ext;
      zipIdMap, polyCount, errors, filePrefix := map[], Counts(0, 0, 0), map[], "";
      polyId, polygon, polyCenter := "0", map[], ("", "");
      lineNumber := 1;
      ring := 0;
      new;
      ConvertAll(attributeFiles, coordinateFiles, valid);
    }

    /** `main`: regions 00 to 72 in order. */
    method ConvertAll(attributeFiles: map<string, string>, coordinateFiles: map<string, seq<seq<string>>>,
                       valid: Shape -> bool)
      modifies this
      ensures State() == Regions(old(State()), 73, dir, year, ext, attributeFiles, coordinateFiles, valid)
    {
      for st := 0 to 73
        invariant State() == Regions(old(State()), st, dir, year, ext, attributeFiles, coordinateFiles, valid)
      {
        var prefix := "zt" + Pad2(st) + "_d" + year;
        filePrefix := prefix;
        if dir + prefix + ext in coordinateFiles {
          var attributePath := dir + prefix + "a" + ext;
          var paf := if attributePath in attributeFiles then attributeFiles[attributePath] else "";
          ProcessAttributes(paf);
          ProcessZips(coordinateFiles[dir + prefix + ext], valid);
        }
      }
    }

    /** `process_attributes`: every (id, code) match assigned in turn. */
    method ProcessAttributes(paf: string)
      modifies this
      ensures State() == Attributes(old(State()), paf)
    {
      var zips := Matches(paf);
      for key := 0 to |zips|
        invariant State() == old(State()).(zipIdMap := Assign(old(zipIdMap), zips[..key]))
      {
        // the second check of each code, for five digits, always holds
        // for a code the pattern captured
        assert zips[..key + 1][..key] == zips[..key];
        zipIdMap := zipIdMap[zips[key].0 := zips[key].1];
      }
      assert zips[..|zips|] == zips;
    }

    /** `process_zips`. */
    method ProcessZips(lines: seq<seq<string>>, valid: Shape -> bool)
      modifies this
      ensures State() == Zips(old(State()), lines, valid)
    {
      polyId := "0";
      ghost var start := State();
      for i := 0 to |lines|
        invariant State() == Lines(start, lines[..i], valid)
      {
        assert lines[..i + 1][..i] == lines[..i];
        ProcessLine(lines[i], valid);
      }
      assert lines[..|lines|] == lines;
      if IdValue(polyId) > 0 {
        ProcessPolygon(valid);
      }
    }

    /** The body of the `while` loop of `process_zips`. */
    method ProcessLine(lineArray: seq<string>, valid: Shape -> bool)
      modifies this
      ensures State() == Step(old(State()), lineArray, valid)
    {
      var lineCount := |lineArray|;
      if lineCount == 3 {
        ProcessHeader(lineArray, valid);
      } else if lineCount == 2 {
        ProcessVertex(lineArray);
      } else if lineCount == 1 {
        if lineArray[0] != "END" && lineArray[0] != "-99999" {
          errors := errors[(filePrefix, polyId) := NotEndLine(lineNumber, lineArray)];
        } else if lineArray[0] == "-99999" {
          ring := ring + 1;
        }
      } else if lineCount >= 4 {
        errors := errors[(filePrefix, polyId) := LineCountError(lineNumber, lineArray)];
      }
      lineNumber := lineNumber + 1;
    }

    /** The three-field case of the loop body. */
    method ProcessHeader(lineArray: seq<string>, valid: Shape -> bool)
      requires |lineArray| == 3
      modifies this
      ensures State() == HeaderLine(old(State()), lineArray, valid)
    {
      if IdValue(polyId) > 0 {
        ProcessPolygon(valid);
      }
      polygon := map[];
      polyId := lineArray[0];
      polyCenter := (lineArray[1], lineArray[2]);
      ring := 0;
      polyCount := polyCount.(total := polyCount.total + 1);
    }

    /** The two-field case of the loop body. */
    method ProcessVertex(lineArray: seq<string>)
      requires |lineArray| == 2
      modifies this
      ensures State() == VertexLine(old(State()), lineArray)
    {
      if IdValue(polyId) > 0 {
        if polyId in zipIdMap && |zipIdMap[polyId]| == 5 {
          var points := Vertex(lineArray[1], lineArray[0]);
          var key: Option<nat> := None;
          var current := if ring in polygon then polygon[ring] else [];
          if |current| > 0 {
            key := ArraySearch(current, points);
          }
          if key.None? || key == Some(0) {
            polygon := polygon[ring := current + [points]];
          }
        } else {
          polyId := "0";
          polyCount := polyCount.(bad := polyCount.bad + 1);
        }
      }
    }

    /** `process_polygon`. */
    method ProcessPolygon(valid: Shape -> bool)
      modifies this
      ensures State() == Finalise(old(State()), valid)
    {
      if 0 !in polygon || polygon[0] == [] {
        errors := errors[(filePrefix, polyId) := BadPolygon(polygon)];
      } else {
        var result := valid(polygon);
        if !result {
          polyCount := polyCount.(bad := polyCount.bad + 1);
          errors := errors[(filePrefix, polyId) := Rejected(polygon)];
        } else {
          polyCount := polyCount.(good := polyCount.good + 1);
        }
      }
    }
  }
}
