/**
 * `addCityInfo(csvText)`: keep the CSV lines that look like
 * `x,y,name,population,`, take their fields, rank the cities by population
 * (largest first, at most ten), build a name -> {population, rating} table,
 * and annotate every occurrence of a kept name in a text.
 */
module CityInfo {
  import opened Js
  import opened Text
  import opened Lists
  import opened Sorting

  // ---------------------------------------------------------------------
  // The line filter /^(\d\d.\d\d,){2}"?[а-яіїє'\s#]+"?,\d+,/i
  // ---------------------------------------------------------------------

  /**
   * A character of the class `[а-яіїє'\s#]` under the `i` flag without
   * `u`: both cases compare by their upper-case form (ECMA-262, section
   * 22.2.2.7.3, Canonicalize). Besides the listed letters and their upper
   * cases, U+1C80 to U+1C86 upper-case into А-Я and so match too.
   */
  predicate IsNameChar(c: char)
  {
    || ('\U{0410}' <= c <= '\U{044F}')
    || c == '\U{0404}' || c == '\U{0406}' || c == '\U{0407}'
    || c == '\U{0454}' || c == '\U{0456}' || c == '\U{0457}'
    || ('\U{1C80}' <= c <= '\U{1C86}')
    || c == '\'' || c == '#' || IsJsWhitespace(c)
  }

  /**
   * `\d\d.\d\d,` at position `i`. Without the `u` flag, `.` matches one
   * UTF-16 code unit other than a line terminator: a character outside the
   * Basic Multilingual Plane leaves its low surrogate for the `\d` after it,
   * which fails, so `.` stands for one BMP character here.
   */
  predicate CoordAt(s: string, i: nat)
  {
    && i + 6 <= |s|
    && IsDigit(s[i]) && IsDigit(s[i + 1]) && !IsLineTerminator(s[i + 2]) && s[i + 2] as int < 0x1_0000
    && IsDigit(s[i + 3]) && IsDigit(s[i + 4]) && s[i + 5] == ','
  }

  /** `^(\d\d.\d\d,){2}` */
  predicate Coords(s: string)
  {
    CoordAt(s, 0) && CoordAt(s, 6)
  }

  /** Positions `i` up to `j` (at least one) hold name characters. */
  predicate NameRun(s: string, i: nat, j: nat)
  {
    i < j <= |s| && forall m :: i <= m < j ==> IsNameChar(s[m])
  }

  /** Positions `i` up to `j` (at least one) hold digits. */
  predicate DigitRun(s: string, i: nat, j: nat)
  {
    i < j <= |s| && forall m :: i <= m < j ==> IsDigit(s[m])
  }

  /**
   * One way for the pattern to match: the opening `"?` is taken when
   * `open`, the name runs up to `j`, the closing `"?` is taken when
   * `close`, then a comma, digits up to `k`, and a comma.
   */
  predicate MatchesWith(s: string, open: bool, j: nat, close: bool, k: nat)
  {
    var i := if open then 13 else 12;
    var m := if close then j + 1 else j;
    && Coords(s)
    && (open ==> 12 < |s| && s[12] == '"')
    && NameRun(s, i, j)
    && (close ==> j < |s| && s[j] == '"')
    && m < |s| && s[m] == ','
    && DigitRun(s, m + 1, k)
    && k < |s| && s[k] == ','
  }

  /** The language of the filter pattern; it is anchored at the start only. */
  ghost predicate LineGrammar(s: string)
  {
    exists open: bool, j: nat, close: bool, k: nat :: MatchesWith(s, open, j, close, k)
  }

  /** The end of the longest run of name characters from `i`. */
  function NameEnd(s: string, i: nat): (j: nat)
    requires i <= |s|
    ensures i <= j <= |s|
    ensures forall m :: i <= m < j ==> IsNameChar(s[m])
    ensures j < |s| ==> !IsNameChar(s[j])
    decreases |s| - i
  {
    if i < |s| && IsNameChar(s[i]) then NameEnd(s, i + 1) else i
  }

  /** The end of the longest run of digits from `i`. */
  function DigitEnd(s: string, i: nat): (j: nat)
    requires i <= |s|
    ensures i <= j <= |s|
    ensures forall m :: i <= m < j ==> IsDigit(s[m])
    ensures j < |s| ==> !IsDigit(s[j])
    decreases |s| - i
  {
    if i < |s| && IsDigit(s[i]) then DigitEnd(s, i + 1) else i
  }

  /**
   * The filter: neither quote nor comma is a name character and a comma is
   * no digit, so each run is taken whole and no choice is ever revisited.
   */
  predicate KeepLine(s: string)
  {
    && Coords(s) && 12 < |s|
    && var i := if s[12] == '"' then 13 else 12;
       var j := NameEnd(s, i);
       var m := if j < |s| && s[j] == '"' then j + 1 else j;
       && i < j && m < |s| && s[m] == ','
       && var k := DigitEnd(s, m + 1);
          m + 1 < k < |s| && s[k] == ','
  }

  /** A wildcard holding a character outside the Basic Multilingual Plane drops the line. */
  lemma AstralWildcardDropped()
    ensures !KeepLine("12\U{1F600}34,56.78,Київ,5,")
  {
    assert "12\U{1F600}34,56.78,Київ,5,"[2] as int == 0x1F600;
  }

  lemma KeepLineSound(s: string)
    requires KeepLine(s)
    ensures LineGrammar(s)
  {
    var open := s[12] == '"';
    var i := if open then 13 else 12;
    var j := NameEnd(s, i);
    var close := j < |s| && s[j] == '"';
    var m := if close then j + 1 else j;
    var k := DigitEnd(s, m + 1);
    assert MatchesWith(s, open, j, close, k);
  }

  lemma {:induction false} NameEndIs(s: string, i: nat, j: nat)
    requires i <= j <= |s|
    requires forall m :: i <= m < j ==> IsNameChar(s[m])
    requires j < |s| ==> !IsNameChar(s[j])
    ensures NameEnd(s, i) == j
    decreases j - i
  {
    if i < j {
      NameEndIs(s, i + 1, j);
    }
  }

  lemma {:induction false} DigitEndIs(s: string, i: nat, j: nat)
    requires i <= j <= |s|
    requires forall m :: i <= m < j ==> IsDigit(s[m])
    requires j < |s| ==> !IsDigit(s[j])
    ensures DigitEnd(s, i) == j
    decreases j - i
  {
    if i < j {
      DigitEndIs(s, i + 1, j);
    }
  }

  lemma KeepLineComplete(s: string, open: bool, j: nat, close: bool, k: nat)
    requires MatchesWith(s, open, j, close, k)
    ensures KeepLine(s)
  {
    var i := if open then 13 else 12;
    assert IsNameChar(s[i]);
    assert open == (s[12] == '"');
    assert !IsNameChar(s[j]);
    NameEndIs(s, i, j);
    var m := if close then j + 1 else j;
    DigitEndIs(s, m + 1, k);
    KeepLineAt(s, i, j, m, k);
  }

  /** `KeepLine` once the positions it computes are known. */
  lemma KeepLineAt(s: string, i: nat, j: nat, m: nat, k: nat)
    requires Coords(s) && 12 < |s| && i == (if s[12] == '"' then 13 else 12)
    requires i < j <= |s| && NameEnd(s, i) == j && m == (if j < |s| && s[j] == '"' then j + 1 else j)
    requires m + 1 < k < |s| && s[m] == ',' && DigitEnd(s, m + 1) == k && s[k] == ','
    ensures KeepLine(s)
  {
  }

  /** The recogniser accepts exactly the lines the pattern matches. */
  lemma KeepLineIsGrammar(s: string)
    ensures KeepLine(s) <==> LineGrammar(s)
  {
    if KeepLine(s) {
      KeepLineSound(s);
    }
    if LineGrammar(s) {
      var open: bool, j: nat, close: bool, k: nat :| MatchesWith(s, open, j, close, k);
      KeepLineComplete(s, open, j, close, k);
    }
  }

  /** The blank line, the lone `#` line and a line starting with `#` are dropped. */
  lemma DroppedLines()
    ensures !KeepLine("")
    ensures !KeepLine("#")
    ensures !KeepLine("#45.40,34.29,Джанкой,43343,")
  {
    assert "#45.40,34.29,Джанкой,43343,"[0] == '#';
  }

  lemma KeptLineExample()
    ensures KeepLine(VinnytsiaLine)
  {
    var s := VinnytsiaLine;
    assert s[12] != '"' && s[19] == ',' && s[26] == ',';
    VinnytsiaCoords();
    VinnytsiaName();
    VinnytsiaPopulation();
    KeepLineAt(s, 12, 19, 19, 26);
  }

  const VinnytsiaLine := "49.15,28.41,Вінниця,356665,"

  lemma VinnytsiaCoords()
    ensures Coords(VinnytsiaLine)
  {
  }

  lemma VinnytsiaName()
    ensures NameEnd(VinnytsiaLine, 12) == 19
  {
    NameEndIs(VinnytsiaLine, 12, 19);
  }

  lemma VinnytsiaPopulation()
    ensures DigitEnd(VinnytsiaLine, 20) == 26
  {
    DigitEndIs(VinnytsiaLine, 20, 26);
  }

  // ---------------------------------------------------------------------
  // lineToArray
  // ---------------------------------------------------------------------

  lemma CountOfAt(c: char, s: string, p: nat)
    requires p < |s| && s[p] == c
    ensures CountOf(c, s) >= CountOf(c, s[..p]) + 1
  {
    assert s == s[..p] + [s[p]] + s[p + 1..];
    CountOfAppend(c, s[..p] + [s[p]], s[p + 1..]);
    CountOfAppend(c, s[..p], [s[p]]);
    assert [s[p]][..0] == [];
  }

  /** Removing a character other than `c` keeps the number of `c`s. */
  lemma RemoveFirstKeepsCount(c: char, s: string, d: char)
    requires c != d
    ensures CountOf(c, RemoveFirst(s, d)) == CountOf(c, s)
  {
    RemoveFirstAroundIndex(s, d);
    match IndexOf(s, d)
    case None =>
    case Some(k) =>
      assert s == s[..k] + [s[k]] + s[k + 1..];
      CountOfAppend(c, s[..k] + [s[k]], s[k + 1..]);
      CountOfAppend(c, s[..k], [s[k]]);
      CountOfAppend(c, s[..k], s[k + 1..]);
      assert [s[k]][..0] == [];
  }

  /** A kept line has at least four commas, also after its first `#` is removed. */
  lemma KeptLineCommas(s: string)
    requires KeepLine(s)
    ensures CountOf(',', s) >= 4
    ensures CountOf(',', RemoveFirst(s, '#')) >= 4
  {
    var i := if s[12] == '"' then 13 else 12;
    var j := NameEnd(s, i);
    var m := if j < |s| && s[j] == '"' then j + 1 else j;
    var k := DigitEnd(s, m + 1);
    CountOfAt(',', s, k);
    CountOfAt(',', s[..k], m);
    assert s[..k][..m] == s[..m];
    CountOfAt(',', s[..m], 11);
    assert s[..m][..11] == s[..11];
    CountOfAt(',', s[..11], 5);
    RemoveFirstKeepsCount(',', s, '#');
  }

  /** The four fields a city is made of: strings, as `split` leaves them. */
  datatype City = City(x: string, y: string, name: string, population: string)

  /** The joined form of the first `n` pieces is where the joined whole starts. */
  lemma {:induction false} JoinPrefix(parts: seq<string>, sep: char, n: nat)
    requires 1 <= n <= |parts|
    ensures StartsWith(Join(parts, sep), Join(parts[..n], sep))
  {
    if n < |parts| {
      var init := parts[..|parts| - 1];
      JoinPrefix(init, sep, n);
      assert init[..n] == parts[..n];
    } else {
      assert parts[..n] == parts;
    }
  }

  /**
   * `lineToArray(line)`: the first four comma-separated fields of the line
   * after its first `#` is removed. The line needs three commas for all
   * four fields to exist.
   */
  function LineToCity(line: string): (c: City)
    requires HasFields(line)
    ensures StartsWith(RemoveFirst(line, '#'), c.x + [','] + c.y + [','] + c.name + [','] + c.population)
    ensures ',' !in c.x && ',' !in c.y && ',' !in c.name && ',' !in c.population
  {
    var t := RemoveFirst(line, '#');
    var fields := Split(t, ',');
    SplitCount(t, ',');
    SplitPieces(t, ',');
    SplitJoin(t, ',');
    JoinPrefix(fields, ',', 4);
    var f1, f2, f3, f := fields[..1], fields[..2], fields[..3], fields[..4];
    assert Join(f1, ',') == fields[0];
    assert f2[..1] == f1;
    assert Join(f2, ',') == fields[0] + [','] + fields[1];
    assert f3[..2] == f2;
    assert Join(f3, ',') == Join(f2, ',') + [','] + fields[2];
    assert f[..3] == f3;
    assert Join(f, ',') == fields[0] + [','] + fields[1] + [','] + fields[2] + [','] + fields[3];
    City(fields[0], fields[1], fields[2], fields[3])
  }

  /** All four fields of `lineToArray` exist. */
  predicate HasFields(line: string)
  {
    CountOf(',', RemoveFirst(line, '#')) >= 3
  }

  lemma KeptLinesHaveFields(lines: seq<string>)
    requires forall i :: 0 <= i < |lines| ==> KeepLine(lines[i])
    ensures forall i :: 0 <= i < |lines| ==> HasFields(lines[i])
  {
    forall i | 0 <= i < |lines|
      ensures HasFields(lines[i])
    {
      KeptLineCommas(lines[i]);
    }
  }

  /** Five parts joined by commas. */
  function Fields(a: string, b: string, c: string, d: string, r: string): string
  {
    a + [','] + (b + [','] + (c + [','] + (d + [','] + r)))
  }

  /** After four comma-free fields, the third and fourth pieces of the split are the third and fourth fields. */
  lemma FourthPiece(a: string, b: string, c: string, d: string, r: string)
    requires ',' !in a && ',' !in b && ',' !in c && ',' !in d
    ensures var pieces := Split(Fields(a, b, c, d, r), ',');
            |pieces| > 3 && pieces[2] == c && pieces[3] == d
  {
    var u3 := c + [','] + (d + [','] + r);
    var u2 := b + [','] + u3;
    SplitAtSep(a, u2, ',');
    SplitAtSep(b, u3, ',');
    SplitAtSep(c, d + [','] + r, ',');
    SplitAtSep(d, r, ',');
    SplitWithoutSep(a, ',');
    SplitWithoutSep(b, ',');
    SplitWithoutSep(c, ',');
    SplitWithoutSep(d, ',');
  }

  /**
   * Removing the first `#` from four comma-free fields, the fourth without
   * `#`, leaves four comma-free fields with the fourth unchanged.
   */
  lemma RemoveFirstKeepsFields(a: string, b: string, c: string, d: string, r: string)
    returns (a': string, b': string, c': string, r': string)
    requires ',' !in a && ',' !in b && ',' !in c && '#' !in d
    ensures ',' !in a' && ',' !in b' && ',' !in c' && multiset(c') <= multiset(c)
    ensures RemoveFirst(Fields(a, b, c, d, r), '#') == Fields(a', b', c', d, r')
  {
    a', b', c', r' := a, b, c, r;
    var t3 := c + [','] + (d + [','] + r);
    var t2 := b + [','] + t3;
    RemoveFirstAround(a, ',', t2, '#');
    if IndexOf(a, '#').Some? {
      RemoveFirstKeepsAbsent(a, ',', '#');
      a' := RemoveFirst(a, '#');
      return;
    }
    RemoveFirstAround(b, ',', t3, '#');
    if IndexOf(b, '#').Some? {
      RemoveFirstKeepsAbsent(b, ',', '#');
      b' := RemoveFirst(b, '#');
      return;
    }
    RemoveFirstAround(c, ',', d + [','] + r, '#');
    if IndexOf(c, '#').Some? {
      RemoveFirstKeepsAbsent(c, ',', '#');
      RemoveFirstMultiset(c, '#');
      c' := RemoveFirst(c, '#');
      return;
    }
    RemoveFirstAround(d, ',', r, '#');
    assert IndexOf(d, '#').None?;
    r' := RemoveFirst(r, '#');
  }

  /** A line cut at four of its commas is the five parts joined by commas. */
  lemma CutAtCommas(s: string, p1: nat, p2: nat, p3: nat, p4: nat)
    requires p1 < p2 < p3 < p4 < |s|
    requires s[p1] == ',' && s[p2] == ',' && s[p3] == ',' && s[p4] == ','
    ensures s == Fields(s[..p1], s[p1 + 1..p2], s[p2 + 1..p3], s[p3 + 1..p4], s[p4 + 1..])
  {
    var r := s[p4 + 1..];
    var t4 := s[p3 + 1..p4] + [','] + r;
    assert s[p3 + 1..] == t4;
    var t3 := s[p2 + 1..p3] + [','] + t4;
    assert s[p2 + 1..] == t3;
    var t2 := s[p1 + 1..p2] + [','] + t3;
    assert s[p1 + 1..] == t2;
    assert s == s[..p1] + [','] + t2;
  }

  lemma NoCommaBetween(s: string, i: nat, j: nat)
    requires i <= j <= |s| && forall x :: i <= x < j ==> s[x] != ','
    ensures ',' !in s[i..j]
  {
    assert forall x :: 0 <= x < j - i ==> s[i..j][x] == s[i + x];
  }

  lemma DigitsBetween(s: string, i: nat, j: nat)
    requires i < j <= |s| && forall x :: i <= x < j ==> IsDigit(s[x])
    ensures IsDigitString(s[i..j])
  {
    assert forall x :: 0 <= x < j - i ==> s[i..j][x] == s[i + x];
  }

  /** Where the first four commas of a kept line are, when its wildcards hold none. */
  lemma KeptLineCommaPositions(s: string) returns (m: nat, k: nat)
    requires KeepLine(s) && s[2] != ',' && s[8] != ','
    ensures 12 < m && m + 1 < k < |s| && s[5] == ',' && s[11] == ',' && s[m] == ',' && s[k] == ','
    ensures forall x :: 0 <= x < 5 ==> s[x] != ','
    ensures forall x :: 6 <= x < 11 ==> s[x] != ','
    ensures forall x :: 12 <= x < m ==> s[x] != ',' && (IsNameChar(s[x]) || s[x] == '"')
    ensures forall x :: m < x < k ==> IsDigit(s[x])
  {
    var i := if s[12] == '"' then 13 else 12;
    var j := NameEnd(s, i);
    m := if j < |s| && s[j] == '"' then j + 1 else j;
    k := DigitEnd(s, m + 1);
    assert !IsNameChar(',');
    forall x | 12 <= x < m
      ensures s[x] != ',' && (IsNameChar(s[x]) || s[x] == '"')
    {
      if i <= x < j {
        assert IsNameChar(s[x]);
      }
    }
  }

  /** A line cut at four commas into comma-free parts, the fourth of digits. */
  lemma LineParts(s: string, m: nat, k: nat)
    requires 12 < m && m + 1 < k < |s| && s[5] == ',' && s[11] == ',' && s[m] == ',' && s[k] == ','
    requires forall x :: 0 <= x < 5 ==> s[x] != ','
    requires forall x :: 6 <= x < 11 ==> s[x] != ','
    requires forall x :: 12 <= x < m ==> s[x] != ','
    requires forall x :: m < x < k ==> IsDigit(s[x])
    ensures s == Fields(s[..5], s[6..11], s[12..m], s[m + 1..k], s[k + 1..])
    ensures ',' !in s[..5] && ',' !in s[6..11] && ',' !in s[12..m]
    ensures IsDigitString(s[m + 1..k])
  {
    CutAtCommas(s, 5, 11, m, k);
    NoCommaBetween(s, 0, 5);
    NoCommaBetween(s, 6, 11);
    NoCommaBetween(s, 12, m);
    DigitsBetween(s, m + 1, k);
  }

  /**
   * When neither wildcard of the coordinates is a comma, the population
   * field of a kept line is its digit run.
   */
  lemma PopulationIsDigitRun(s: string)
    requires KeepLine(s) && s[2] != ',' && s[8] != ','
    ensures HasFields(s)
    ensures IsDigitString(LineToCity(s).population)
  {
    KeptLineCommas(s);
    var m, k := KeptLineCommaPositions(s);
    LineParts(s, m, k);
    var d := s[m + 1..k];
    assert ',' !in d && '#' !in d;
    var a', b', c', r' := RemoveFirstKeepsFields(s[..5], s[6..11], s[12..m], d, s[k + 1..]);
    FourthPiece(a', b', c', d, r');
    assert Split(RemoveFirst(s, '#'), ',')[3] == d;
  }

  /** A name field: name characters and the optional quotes around them. */
  predicate PlainName(name: string)
  {
    forall x :: 0 <= x < |name| ==> IsNameChar(name[x]) || name[x] == '"'
  }

  /** When neither wildcard of the coordinates is a comma, the name field holds no digit and no pattern syntax. */
  lemma NameIsPlain(s: string)
    requires KeepLine(s) && s[2] != ',' && s[8] != ','
    ensures HasFields(s)
    ensures PlainName(LineToCity(s).name)
  {
    KeptLineCommas(s);
    var m, k := KeptLineCommaPositions(s);
    LineParts(s, m, k);
    var c, d := s[12..m], s[m + 1..k];
    NameField(s, m);
    assert ',' !in d && '#' !in d;
    var a', b', c', r' := RemoveFirstKeepsFields(s[..5], s[6..11], c, d, s[k + 1..]);
    FourthPiece(a', b', c', d, r');
    assert LineToCity(s).name == c';
    PlainNameShrinks(c, c');
  }

  lemma NameField(s: string, m: nat)
    requires 12 <= m <= |s|
    requires forall x :: 12 <= x < m ==> IsNameChar(s[x]) || s[x] == '"'
    ensures PlainName(s[12..m])
  {
    assert forall x :: 0 <= x < m - 12 ==> s[12..m][x] == s[12 + x];
  }

  /** Fewer of the same characters still make a name field. */
  lemma PlainNameShrinks(c: string, c': string)
    requires PlainName(c) && multiset(c') <= multiset(c)
    ensures PlainName(c')
  {
    forall x | 0 <= x < |c'|
      ensures IsNameChar(c'[x]) || c'[x] == '"'
    {
      assert c'[x] in multiset(c');
      assert c'[x] in c;
    }
  }

  /** The `.` of a coordinate matched a comma, so the fields of the line shift. */
  predicate WildcardComma(line: string)
  {
    |line| > 8 && (line[2] == ',' || line[8] == ',')
  }

  /** Every population of a ranked table is a digit string, so `+` never gives `NaN`. */
  lemma RankedIsRegular(csvText: string)
    requires AddCityInfo(csvText).Ranked?
    ensures Regular(Cities(KeptLines(csvText)))
  {
    var lines := KeptLines(csvText);
    var cities := Cities(lines);
    forall i | 0 <= i < |cities|
      ensures IsDigitString(cities[i].population)
    {
      assert !WildcardComma(lines[i]);
      PopulationIsDigitRun(lines[i]);
    }
  }

  /** `.map(lineToArray)` over the kept lines. */
  function Cities(lines: seq<string>): (cs: seq<City>)
    requires forall i :: 0 <= i < |lines| ==> KeepLine(lines[i])
    ensures |cs| == |lines|
    ensures forall i :: 0 <= i < |lines| ==> HasFields(lines[i]) && cs[i] == LineToCity(lines[i])
  {
    KeptLinesHaveFields(lines);
    seq(|lines|, i requires 0 <= i < |lines| && HasFields(lines[i]) => LineToCity(lines[i]))
  }

  // ---------------------------------------------------------------------
  // Ranking: .sort((a, b) => +b.population - +a.population).slice(0, 10)
  // ---------------------------------------------------------------------

  /** A population that `+` turns into a whole number: a non-empty run of digits. */
  predicate IsDigitString(s: string)
  {
    |s| > 0 && forall i :: 0 <= i < |s| ==> IsDigit(s[i])
  }

  /** `+city.population` for a digit string. */
  function Population(c: City): nat
  {
    if IsDigitString(c.population) then DigitsValue(c.population) else 0
  }

  /** Every population is a digit string, so no comparison sees `NaN`. */
  predicate Regular(cities: seq<City>)
  {
    forall i :: 0 <= i < |cities| ==> IsDigitString(cities[i].population)
  }

  function ComparePopulation(a: City, b: City): real
  {
    (Population(b) - Population(a)) as real
  }

  /** The comparator `(a, b) => +b.population - +a.population`. */
  function ByPopulation(): (City, City) -> real
  {
    (a: City, b: City) => ComparePopulation(a, b)
  }

  lemma ByPopulationConsistent()
    ensures Consistent(ByPopulation())
  {
    var cmp := ByPopulation();
    forall a: City, b: City
      ensures Sign(cmp(a, b)) == -Sign(cmp(b, a))
    {
    }
    forall a: City, b: City, c: City | Le(cmp, a, b) && Le(cmp, b, c)
      ensures Le(cmp, a, c)
    {
    }
  }

  function Min(a: nat, b: nat): nat
  {
    if a < b then a else b
  }

  /** The ten most populous cities, largest first. */
  function Rank(cities: seq<City>): (ranked: seq<City>)
    ensures |ranked| == Min(10, |cities|)
  {
    var sorted := SortBy(cities, ByPopulation());
    sorted[..Min(10, |sorted|)]
  }

  /**
   * The ranking is the head of the one stable sort by descending
   * population: larger populations first, equal ones in input order.
   */
  lemma RankOrdered(cities: seq<City>)
    ensures IsStableSortOf(SortBy(cities, ByPopulation()), cities, ByPopulation())
    ensures Rank(cities) == SortBy(cities, ByPopulation())[..|Rank(cities)|]
    ensures forall i, j :: 0 <= i < j < |Rank(cities)| ==> Population(Rank(cities)[i]) >= Population(Rank(cities)[j])
  {
    ByPopulationConsistent();
    SortByIsStableSort(cities, ByPopulation());
    SortBySorted(cities, ByPopulation());
    var sorted := SortBy(cities, ByPopulation());
    forall i, j | 0 <= i < j < |Rank(cities)|
      ensures Population(Rank(cities)[i]) >= Population(Rank(cities)[j])
    {
      assert ByPopulation()(sorted[i], sorted[j]) <= 0.0;
    }
  }

  /** A city left out of the ranking has no larger population than any ranked one. */
  lemma RankIsTop(cities: seq<City>, i: nat, j: nat)
    requires i < |Rank(cities)| <= j < |cities|
    ensures Population(SortBy(cities, ByPopulation())[j]) <= Population(Rank(cities)[i])
  {
    ByPopulationConsistent();
    SortBySorted(cities, ByPopulation());
    var sorted := SortBy(cities, ByPopulation());
    assert ByPopulation()(sorted[i], sorted[j]) <= 0.0;
  }

  // ---------------------------------------------------------------------
  // The table: .reduce(arrayToObject, {})
  // ---------------------------------------------------------------------

  /** The value stored for a name: its population string and its rating. */
  datatype Entry = Entry(population: string, rating: nat)

  /**
   * An object with string keys, as an association list in insertion
   * order. `Object.keys` lists array-index keys first; `RankedKeysAreLiteral`
   * shows that a ranked table has none, so this is also its key order.
   */
  type Table = seq<(string, Entry)>

  /**
   * A property key that is an array index (ECMA-262, section 6.1.7): the
   * canonical decimal form of a whole number below 2^32 - 1.
   */
  predicate IsArrayIndex(key: string)
  {
    IsDigitString(key) && (key[0] != '0' || |key| == 1) && DigitsValue(key) < 0x1_0000_0000 - 1
  }

  /** A key that `Object.keys` lists in insertion order and that `new RegExp` reads literally. */
  predicate LiteralKey(key: string)
  {
    !IsArrayIndex(key) && forall x :: 0 <= x < |key| ==> !IsSyntaxChar(key[x])
  }

  lemma NameCharIsLiteral(c: char)
    requires IsNameChar(c) || c == '"'
    ensures !IsDigit(c) && !IsSyntaxChar(c)
  {
  }

  lemma PlainNameIsLiteral(name: string)
    requires PlainName(name)
    ensures LiteralKey(name)
  {
    forall x | 0 <= x < |name|
      ensures !IsDigit(name[x]) && !IsSyntaxChar(name[x])
    {
      NameCharIsLiteral(name[x]);
    }
  }

  predicate UniqueKeys(table: Table)
  {
    forall i, j :: 0 <= i < j < |table| ==> table[i].0 != table[j].0
  }

  /** `table[key]`. */
  function Lookup(table: Table, key: string): (r: Option<Entry>)
    ensures r.None? <==> forall i :: 0 <= i < |table| ==> table[i].0 != key
  {
    if table == [] then None
    else if table[0].0 == key then Some(table[0].1)
    else Lookup(table[1..], key)
  }

  /** `acc[key] = e`: an existing key keeps its place and takes the new value; a new key goes last. */
  function Put(table: Table, key: string, e: Entry): (r: Table)
    ensures |r| == |table| || |r| == |table| + 1
    ensures forall i :: 0 <= i < |table| ==> r[i].0 == table[i].0
    ensures |r| == |table| + 1 ==> r[|table|].0 == key
  {
    if table == [] then [(key, e)]
    else if table[0].0 == key then [(key, e)] + table[1..]
    else [table[0]] + Put(table[1..], key, e)
  }

  /** After the assignment the key reads the new value and every other key its old one. */
  lemma {:induction false} PutLookup(table: Table, key: string, e: Entry, k: string)
    ensures Lookup(Put(table, key, e), k) == if k == key then Some(e) else Lookup(table, k)
  {
    if table != [] && table[0].0 != key {
      PutLookup(table[1..], key, e, k);
      var r := Put(table, key, e);
      assert r[1..] == Put(table[1..], key, e);
    }
  }

  lemma {:induction false} PutUnique(table: Table, key: string, e: Entry)
    requires UniqueKeys(table)
    ensures UniqueKeys(Put(table, key, e))
  {
    if table != [] && table[0].0 != key {
      var rest := Put(table[1..], key, e);
      PutUnique(table[1..], key, e);
      PutLookup(table[1..], key, e, table[0].0);
      assert Lookup(table[1..], table[0].0).None?;
      assert Lookup(rest, table[0].0).None?;
      var r := [table[0]] + rest;
      forall i, j | 0 <= i < j < |r|
        ensures r[i].0 != r[j].0
      {
        if i == 0 {
          assert r[j] == rest[j - 1];
        }
      }
    }
  }

  /** The last position holding a city of that name. */
  function LastNamed(cities: seq<City>, name: string): (r: Option<nat>)
    ensures r.Some? ==> r.value < |cities| && cities[r.value].name == name
                        && forall j :: r.value < j < |cities| ==> cities[j].name != name
    ensures r.None? ==> forall j :: 0 <= j < |cities| ==> cities[j].name != name
  {
    if cities == [] then None
    else if cities[|cities| - 1].name == name then Some(|cities| - 1)
    else LastNamed(cities[..|cities| - 1], name)
  }

  /** `arrayToObject` folded over the ranking: the rating is the 1-based position. */
  function BuildTable(cities: seq<City>): (table: Table)
    ensures |table| <= |cities|
  {
    if cities == [] then []
    else
      var last := cities[|cities| - 1];
      Put(BuildTable(cities[..|cities| - 1]), last.name, Entry(last.population, |cities|))
  }

  /** Each name appears once in the table. */
  lemma {:induction false} BuildTableUnique(cities: seq<City>)
    ensures UniqueKeys(BuildTable(cities))
  {
    if cities != [] {
      var last := cities[|cities| - 1];
      BuildTableUnique(cities[..|cities| - 1]);
      PutUnique(BuildTable(cities[..|cities| - 1]), last.name, Entry(last.population, |cities|));
    }
  }

  /** The entry the last city of that name would be given, at its 1-based place. */
  function EntryOf(cities: seq<City>, name: string): Option<Entry>
  {
    match LastNamed(cities, name)
    case None => None
    case Some(i) => Some(Entry(cities[i].population, i + 1))
  }

  lemma EntryOfSnoc(cities: seq<City>, name: string)
    requires cities != []
    ensures EntryOf(cities, name)
         == if cities[|cities| - 1].name == name then Some(Entry(cities[|cities| - 1].population, |cities|))
            else EntryOf(cities[..|cities| - 1], name)
  {
    var init := cities[..|cities| - 1];
    if cities[|cities| - 1].name != name {
      assert LastNamed(cities, name) == LastNamed(init, name);
      match LastNamed(init, name)
      case None =>
      case Some(i) => assert cities[i] == init[i];
    }
  }

  /**
   * A name's entry comes from its last city in the ranking: a later
   * duplicate overwrites population and rating.
   */
  lemma {:induction false} BuildTableLookup(cities: seq<City>, name: string)
    ensures Lookup(BuildTable(cities), name) == EntryOf(cities, name)
  {
    if cities != [] {
      var init := cities[..|cities| - 1];
      var last := cities[|cities| - 1];
      BuildTableLookup(init, name);
      PutLookup(BuildTable(init), last.name, Entry(last.population, |cities|), name);
      EntryOfSnoc(cities, name);
    }
  }

  /** Every key is the name of some city. */
  lemma {:induction false} BuildTableKeys(cities: seq<City>, P: string -> bool)
    requires forall j :: 0 <= j < |cities| ==> P(cities[j].name)
    ensures forall i :: 0 <= i < |BuildTable(cities)| ==> P(BuildTable(cities)[i].0)
  {
    if cities != [] {
      BuildTableKeys(cities[..|cities| - 1], P);
    }
  }

  /** The best ranked city's name is the first key: keys follow the rank of first insertion. */
  lemma {:induction false} BuildTableFirstKey(cities: seq<City>)
    requires cities != []
    ensures BuildTable(cities)[0].0 == cities[0].name
  {
    if |cities| > 1 {
      BuildTableFirstKey(cities[..|cities| - 1]);
    }
  }

  // ---------------------------------------------------------------------
  // The pipeline
  // ---------------------------------------------------------------------

  /**
   * The table, or `Irregular` when the `.` of a coordinate in some kept
   * line matched a comma: then the fields shift, and a name may be an
   * array index or hold pattern syntax, and a population may be no number.
   */
  datatype CityTable = Ranked(table: Table) | Irregular

  /** `csvText.split("\n").filter(...)` */
  function KeptLines(csvText: string): (lines: seq<string>)
    ensures forall i :: 0 <= i < |lines| ==> KeepLine(lines[i]) && lines[i] in Split(csvText, '\n')
    ensures forall i :: 0 <= i < |Split(csvText, '\n')| && KeepLine(Split(csvText, '\n')[i])
                        ==> Split(csvText, '\n')[i] in lines
  {
    Filter(Split(csvText, '\n'), KeepLine)
  }

  /** The `cities` object `addCityInfo` builds. */
  function AddCityInfo(csvText: string): (r: CityTable)
    ensures r.Ranked? <==> forall i :: 0 <= i < |KeptLines(csvText)| ==> !WildcardComma(KeptLines(csvText)[i])
    ensures r.Ranked? ==> |r.table| <= 10 && UniqueKeys(r.table)
  {
    var lines := KeptLines(csvText);
    var cities := Cities(lines);
    BuildTableUnique(Rank(cities));
    if forall i :: 0 <= i < |lines| ==> !WildcardComma(lines[i]) then Ranked(BuildTable(Rank(cities))) else Irregular
  }

  /** The ranking takes its cities from the input. */
  lemma RankFrom(cities: seq<City>, P: string -> bool)
    requires forall j :: 0 <= j < |cities| ==> P(cities[j].name)
    ensures forall j :: 0 <= j < |Rank(cities)| ==> P(Rank(cities)[j].name)
  {
    var sorted := SortBy(cities, ByPopulation());
    SortByPermutes(cities, ByPopulation());
    forall j | 0 <= j < |Rank(cities)|
      ensures P(Rank(cities)[j].name)
    {
      assert Rank(cities)[j] == sorted[j];
      assert sorted[j] in multiset(cities);
    }
  }

  /**
   * No key of a ranked table is an array index or holds pattern syntax:
   * `Object.keys` gives the insertion order, and the joined pattern is
   * the alternation of the names as literal strings.
   */
  lemma RankedKeysAreLiteral(csvText: string)
    requires AddCityInfo(csvText).Ranked?
    ensures forall i :: 0 <= i < |AddCityInfo(csvText).table| ==> LiteralKey(AddCityInfo(csvText).table[i].0)
  {
    var lines := KeptLines(csvText);
    var cities := Cities(lines);
    forall j | 0 <= j < |cities|
      ensures PlainName(cities[j].name)
    {
      assert !WildcardComma(lines[j]);
      NameIsPlain(lines[j]);
    }
    RankFrom(cities, PlainName);
    BuildTableKeys(Rank(cities), PlainName);
    var table := BuildTable(Rank(cities));
    forall i | 0 <= i < |table|
      ensures LiteralKey(table[i].0)
    {
      PlainNameIsLiteral(table[i].0);
    }
  }

  /** The rating of a name in the table is its 1-based place among the ten most populous kept cities. */
  lemma AddCityInfoRating(csvText: string, name: string)
    requires AddCityInfo(csvText).Ranked?
    ensures Lookup(AddCityInfo(csvText).table, name) == EntryOf(Rank(Cities(KeptLines(csvText))), name)
  {
    var lines := KeptLines(csvText);
    var cities := Cities(lines);
    var ranked := Rank(cities);
    assert AddCityInfo(csvText) == Ranked(BuildTable(ranked));
    BuildTableLookup(ranked, name);
  }

  // ---------------------------------------------------------------------
  // The returned function: text.replace(new RegExp(keys.join("|"), "g"), ...)
  // ---------------------------------------------------------------------

  /** The first key, in table order, that the text starts with: the alternative tried first wins. */
  function FirstKeyAt(table: Table, s: string): (r: Option<nat>)
    ensures r.Some? ==> r.value < |table| && StartsWith(s, table[r.value].0)
                        && forall j :: 0 <= j < r.value ==> !StartsWith(s, table[j].0)
    ensures r.None? ==> forall j :: 0 <= j < |table| ==> !StartsWith(s, table[j].0)
  {
    if table == [] then None
    else if StartsWith(s, table[0].0) then Some(0)
    else match FirstKeyAt(table[1..], s)
      case None => None
      case Some(k) => Some(k + 1)
  }

  /** The replacement for a matched name. */
  function Note(e: Entry): string
  {
    " (" + NatToString(e.rating) + " место в ТОП-10 самых крупных городов Украины, население "
    + e.population + " человек)"
  }

  /**
   * The global replace, scanning left to right. A match keeps the name
   * and adds its note; after an empty match the scan moves on by one
   * character, and an empty key also matches at the end of the text.
   */
  function Scan(table: Table, s: string): (r: string)
    ensures |r| >= |s|
    decreases |s|
  {
    match FirstKeyAt(table, s)
    case None =>
      if s == [] then [] else [s[0]] + Scan(table, s[1..])
    case Some(i) =>
      var key := table[i].0;
      if key == [] then
        Note(table[i].1) + (if s == [] then [] else [s[0]] + Scan(table, s[1..]))
      else
        key + Note(table[i].1) + Scan(table, s[|key|..])
  }

  /**
   * The returned function applied to `text`. With no city the pattern is
   * empty and matches at 0, and `cities[""].rating` reads a property of
   * `undefined`.
   */
  function Annotate(table: Table, text: string): (r: Result<string>)
    ensures r.Throw? <==> table == []
    ensures r.Throw? ==> r.error.TypeError?
  {
    if table == [] then Throw(TypeError("Cannot read properties of undefined (reading 'rating')"))
    else Ok(Scan(table, text))
  }

  /** A text in which no name occurs, and with no empty name, comes back unchanged. */
  lemma {:induction false} ScanNoKey(table: Table, s: string)
    requires forall p, j :: 0 <= p <= |s| && 0 <= j < |table| ==> !StartsWith(s[p..], table[j].0)
    ensures Scan(table, s) == s
    decreases |s|
  {
    assert s[0..] == s;
    if s != [] {
      forall p, j | 0 <= p <= |s[1..]| && 0 <= j < |table|
        ensures !StartsWith(s[1..][p..], table[j].0)
      {
        assert s[1..][p..] == s[p + 1..];
      }
      ScanNoKey(table, s[1..]);
    }
  }

  /** Where no key starts, the scan copies the text through unchanged. */
  lemma {:induction false} ScanCopiesPrefix(table: Table, u: string, v: string)
    requires forall p :: 0 <= p < |u| ==> FirstKeyAt(table, u[p..] + v).None?
    ensures Scan(table, u + v) == u + Scan(table, v)
    decreases |u|
  {
    if u != [] {
      var w := u + v;
      assert u[0..] + v == w;
      assert FirstKeyAt(table, w).None?;
      assert w[1..] == u[1..] + v;
      forall p | 0 <= p < |u[1..]|
        ensures FirstKeyAt(table, u[1..][p..] + v).None?
      {
        assert u[1..][p..] == u[p + 1..];
      }
      ScanCopiesPrefix(table, u[1..], v);
      calc {
        Scan(table, w);
        [w[0]] + Scan(table, w[1..]);
        [u[0]] + (u[1..] + Scan(table, v));
        { assert [u[0]] + u[1..] == u; }
        u + Scan(table, v);
      }
    } else {
      assert u + v == v;
    }
  }

  /** At a non-empty key the scan keeps the key, adds its note and goes on after the key. */
  lemma ScanAtKey(table: Table, v: string, i: nat)
    requires FirstKeyAt(table, v) == Some(i) && table[i].0 != []
    ensures Scan(table, v) == table[i].0 + Note(table[i].1) + Scan(table, v[|table[i].0|..])
  {
  }

  /** At an empty key the scan adds its note and goes one character on. */
  lemma ScanAtEmptyKey(table: Table, v: string, i: nat)
    requires FirstKeyAt(table, v) == Some(i) && table[i].0 == []
    ensures v != [] ==> Scan(table, v) == Note(table[i].1) + [v[0]] + Scan(table, v[1..])
    ensures v == [] ==> Scan(table, v) == Note(table[i].1)
  {
  }

  /**
   * The scan up to and through the first place where a key starts: the
   * text before it is kept, then the first key (in table order) that
   * starts there is kept and followed by its note, and the scan goes on
   * after the key, or one character on after an empty key.
   */
  lemma ScanFirstOccurrence(table: Table, u: string, v: string, i: nat)
    requires forall p :: 0 <= p < |u| ==> FirstKeyAt(table, u[p..] + v).None?
    requires FirstKeyAt(table, v) == Some(i)
    ensures table[i].0 != [] ==> Scan(table, u + v) == u + (table[i].0 + Note(table[i].1) + Scan(table, v[|table[i].0|..]))
    ensures table[i].0 == [] && v != [] ==> Scan(table, u + v) == u + (Note(table[i].1) + [v[0]] + Scan(table, v[1..]))
    ensures table[i].0 == [] && v == [] ==> Scan(table, u + v) == u + Note(table[i].1)
  {
    ScanCopiesPrefix(table, u, v);
    if table[i].0 != [] {
      ScanAtKey(table, v, i);
    } else {
      ScanAtEmptyKey(table, v, i);
    }
  }

  lemma AnnotateNoKey(table: Table, text: string)
    requires table != []
    requires forall p, j :: 0 <= p <= |text| && 0 <= j < |table| ==> !StartsWith(text[p..], table[j].0)
    ensures Annotate(table, text) == Ok(text)
  {
    ScanNoKey(table, text);
  }

  /** A matched name keeps its place and is followed by its note; the rest of the text is kept. */
  lemma AnnotateExample()
    ensures Annotate([("Вінниця", Entry("356665", 1))], "Вінниця.")
         == Ok("Вінниця" + Note(Entry("356665", 1)) + ".")
  {
    var table := [("Вінниця", Entry("356665", 1))];
    var s := "Вінниця.";
    assert s[..7] == "Вінниця";
    assert FirstKeyAt(table, s) == Some(0);
    assert s[7..] == ".";
    assert FirstKeyAt(table, "") == None;
    assert FirstKeyAt(table, ".") == None;
    assert "."[1..] == "";
    assert Scan(table, ".") == ".";
  }
}
