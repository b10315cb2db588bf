/** The two tables `parse_modes` reads next to the enum
    (tests/test_modes.py:34-42).

    - `modeNames`: every string literal in the block, as found by
      `re.findall(r'"(.*?)"', block)`. The text between two quotes is taken
      lazily, up to the first quote after the opening one. Without the
      DOTALL flag `.` does not match a line feed, so an opening quote
      whose closing quote lies on a later line opens nothing, and the
      search goes on from the next character.
    - `modeSpeeds`: every line whose code (the text before `//`, stripped)
      is not empty gives one entry: that code without its trailing commas,
      read by `int(entry, 0)`. The first entry `int` rejects raises.
 */
module ModeTables {
  import opened Outcomes
  import opened Seqs
  import opened PyStr
  import opened PyInt
  import opened SourceLines

  // ---------------------------------------------------------------------
  // Line 36: the quoted names.

  /** The index in `t` of the quote that closes a literal opened just
      before `t`: the first quote, provided no line feed comes before it. */
  function ClosingQuote(t: string): (r: Option<nat>)
    ensures r.Some? ==> r.value < |t| && t[r.value] == '"'
    ensures r.Some? ==> forall k :: 0 <= k < r.value ==> t[k] != '"' && t[k] != '\n'
    ensures r.None? ==> forall j :: 0 <= j < |t| && t[j] == '"' ==>
      exists k :: 0 <= k < j && t[k] == '\n'
    decreases |t|
  {
    if |t| == 0 then None
    else if t[0] == '"' then Some(0)
    else if t[0] == '\n' then None
    else
      match ClosingQuote(t[1..])
      case Some(j) => Some(j + 1)
      case None =>
        assert forall j :: 1 <= j < |t| ==> t[j] == t[1..][j - 1];
        None
  }

  /** `re.findall(r'"(.*?)"', s)`: the contents of the string literals of
      `s`, in order. */
  function Quoted(s: string): (r: seq<string>)
    ensures forall n :: 0 <= n < |r| ==> '"' !in r[n] && '\n' !in r[n]
    ensures |r| <= |s| / 2
    decreases |s|
  {
    if |s| == 0 then []
    else if s[0] != '"' then Quoted(s[1..])
    else
      var t := s[1..];
      match ClosingQuote(t)
      case Some(j) =>
        var name := t[..j];
        assert forall k :: 0 <= k < j ==> name[k] == t[k];
        [name] + Quoted(t[j + 1..])
      case None => Quoted(t)
  }

  /** Text without quotes opens no literal. */
  lemma {:induction false} QuotedSkipsPlain(p: string, s: string)
    requires '"' !in p
    ensures Quoted(p + s) == Quoted(s)
    decreases |p|
  {
    if |p| > 0 {
      assert (p + s)[0] == p[0];
      assert (p + s)[1..] == p[1..] + s;
      QuotedSkipsPlain(p[1..], s);
    } else {
      assert p + s == s;
    }
  }

  /** A literal without quotes or line feeds is closed by the next quote. */
  lemma {:induction false} ClosingQuoteAfter(name: string, rest: string)
    requires '"' !in name && '\n' !in name
    ensures ClosingQuote(name + rest)
         == match ClosingQuote(rest) case Some(j) => Some(|name| + j) case None => None
    decreases |name|
  {
    if |name| > 0 {
      assert name[0] in name;
      assert (name + rest)[0] == name[0];
      assert (name + rest)[1..] == name[1..] + rest;
      ClosingQuoteAfter(name[1..], rest);
    } else {
      assert name + rest == rest;
    }
  }

  /** One quoted name, as a C initialiser list writes it. */
  function NameEntry(name: string): string {
    "\n  \"" + name + "\","
  }

  /** The body of a `modeNames` initialiser listing `names`. */
  function RenderNames(names: seq<string>): string
    decreases |names|
  {
    if |names| == 0 then "\n" else NameEntry(names[0]) + RenderNames(names[1..])
  }

  /** A quoted literal without quotes or line feeds inside is one name. */
  lemma {:induction false} QuotedLiteral(name: string, rest: string)
    requires '"' !in name && '\n' !in name
    ensures Quoted("\"" + name + "\"" + rest) == [name] + Quoted(rest)
  {
    var s := "\"" + name + "\"" + rest;
    var t := name + ("\"" + rest);
    assert s[0] == '"' && s[1..] == t;
    ClosingQuoteAfter(name, "\"" + rest);
    assert ClosingQuote("\"" + rest) == Some(0);
    assert t[..|name|] == name;
    assert t[|name| + 1..] == rest;
  }

  /** Reading one rendered entry yields its name, then goes on after it. */
  lemma {:induction false} QuotedNameEntry(name: string, rest: string)
    requires '"' !in name && '\n' !in name
    ensures Quoted(NameEntry(name) + rest) == [name] + Quoted(rest)
  {
    var lit := "\"" + name + "\"";
    assert NameEntry(name) + rest == "\n  " + (lit + ("," + rest));
    QuotedSkipsPlain("\n  ", lit + ("," + rest));
    assert lit + ("," + rest) == "\"" + name + "\"" + ("," + rest);
    QuotedLiteral(name, "," + rest);
    QuotedSkipsPlain(",", rest);
  }

  /** Line 36 reads back the names of a rendered `modeNames` table. */
  lemma {:induction false} NamesRoundTrip(names: seq<string>)
    requires forall n :: 0 <= n < |names| ==> '"' !in names[n] && '\n' !in names[n]
    ensures Quoted(RenderNames(names)) == names
    decreases |names|
  {
    if |names| == 0 {
      assert Quoted("\n") == Quoted("");
    } else {
      NamesRoundTrip(names[1..]);
      QuotedNameEntry(names[0], RenderNames(names[1..]));
      assert names == [names[0]] + names[1..];
    }
  }

  /** The lazy match knows nothing of C escapes: `"a\"b"` yields `a\`,
      and the `b"` left over opens nothing. */
  lemma EscapedQuoteEndsName()
    ensures Quoted("\"a\\\"b\"") == ["a\\"]
  {
    var s := "\"a\\\"b\"";
    var t := s[1..];
    assert t == "a\\" + "\"b\"";
    ClosingQuoteAfter("a\\", "\"b\"");
    assert ClosingQuote("\"b\"") == Some(0);
    assert t[..2] == "a\\";
    var u := t[3..];
    assert u == "b" + "\"";
    QuotedSkipsPlain("b", "\"");
    assert ClosingQuote("\""[1..]) == None;
  }

  // ---------------------------------------------------------------------
  // Lines 40-42: the speeds.

  /** Lines 40-41: the entries of the speed table, one per line with code. */
  function SpeedEntries(lines: seq<string>): seq<string> {
    FlatMap(SpeedEntry, lines)
  }

  /** The entry a line of the speed table holds, if its code is not empty. */
  function SpeedEntry(line: string): seq<string> {
    if CodeText(line) != [] then [CleanLine(line)] else []
  }

  /** The index of the first entry `int` rejects, or the number of
      entries when it accepts them all. */
  function FirstRejected(entries: seq<string>): (k: nat)
    ensures k <= |entries|
    ensures forall j :: 0 <= j < k ==> ParseInt(entries[j]).Ok?
    ensures k < |entries| ==> ParseInt(entries[k]).Err?
    decreases |entries|
  {
    if |entries| == 0 || ParseInt(entries[0]).Err? then 0
    else
      var k := FirstRejected(entries[1..]);
      assert forall j :: 1 <= j < |entries| ==> entries[j] == entries[1..][j - 1];
      k + 1
  }

  /** Line 42: `[int(v, 0) for v in entries]`, which raises at the first
      entry `int` rejects. */
  function ParseAll(entries: seq<string>): (r: Result<seq<int>>)
    ensures r.Ok? <==> FirstRejected(entries) == |entries|
    ensures r.Ok? ==> |r.value| == |entries|
    ensures r.Ok? ==> forall k :: 0 <= k < |entries| ==> ParseInt(entries[k]) == Ok(r.value[k])
    ensures r.Err? ==> r.error == ValueError(entries[FirstRejected(entries)])
    decreases |entries|
  {
    if |entries| == 0 then Ok([])
    else
      match ParseInt(entries[0])
      case Err(e) => Err(e)
      case Ok(v) =>
        assert forall k :: 1 <= k < |entries| ==> entries[k] == entries[1..][k - 1];
        match ParseAll(entries[1..])
        case Err(e) => Err(e)
        case Ok(vs) => Ok([v] + vs)
  }

  /** Lines 40-42: the values of the speed table. */
  function ParseSpeeds(lines: seq<string>): Result<seq<int>> {
    ParseAll(SpeedEntries(lines))
  }

  /** Lines 40-41 treat the lines one at a time. */
  lemma SpeedEntriesAppend(a: seq<string>, b: seq<string>)
    ensures SpeedEntries(a + b) == SpeedEntries(a) + SpeedEntries(b)
  {
    FlatMapAppend(SpeedEntry, a, b);
  }

  /** A blank or comment-only line is no entry of the speed table. */
  lemma {:induction false} CodelessLineSkipped(a: seq<string>, line: string, b: seq<string>)
    requires CodeText(line) == []
    ensures ParseSpeeds(a + [line] + b) == ParseSpeeds(a + b)
  {
    SpeedEntriesAppend(a + [line], b);
    SpeedEntriesAppend(a, [line]);
    SpeedEntriesAppend(a, b);
    FlatMapCons(SpeedEntry, line, []);
    assert [line] + [] == [line];
    var ea := SpeedEntries(a);
    assert SpeedEntries([line]) == [];
    assert ea + [] == ea;
  }

  /** The comprehension of line 42 succeeds with the values `int` gives
      the entries one by one whenever it accepts each of them. */
  lemma ParseAllPointwise(entries: seq<string>, vs: seq<int>)
    requires |vs| == |entries|
    requires forall k :: 0 <= k < |entries| ==> ParseInt(entries[k]) == Ok(vs[k])
    ensures ParseAll(entries) == Ok(vs)
  {
    assert forall k :: 0 <= k < |entries| ==> ParseInt(entries[k]).Ok?;
    var r := ParseAll(entries);
    assert r.Ok?;
    forall j | 0 <= j < |vs|
      ensures r.value[j] == vs[j]
    {
      assert ParseInt(entries[j]) == Ok(r.value[j]);
    }
    SameElements(r.value, vs);
  }

  /** The comprehension of line 42 reads two runs of entries one after the
      other. */
  lemma ParseAllAppend(x: seq<string>, y: seq<string>, vx: seq<int>, vy: seq<int>)
    requires ParseAll(x) == Ok(vx) && ParseAll(y) == Ok(vy)
    ensures ParseAll(x + y) == Ok(vx + vy)
  {
    var rel := (e: string, v: int) => ParseInt(e) == Ok(v);
    PointwiseAppend(rel, x, y, vx, vy);
    var xy := x + y;
    var vs := vx + vy;
    assert forall k :: 0 <= k < |xy| ==> rel(xy[k], vs[k]);
    ParseAllPointwise(xy, vs);
  }

  /** Each line with code gives exactly one speed, in its place among the
      speeds of the lines around it. */
  lemma CodeLineGivesOneSpeed(a: seq<string>, line: string, b: seq<string>, va: seq<int>, v: int, vb: seq<int>)
    requires CodeText(line) != [] && ParseInt(CleanLine(line)) == Ok(v)
    requires ParseSpeeds(a) == Ok(va) && ParseSpeeds(b) == Ok(vb)
    ensures ParseSpeeds(a + [line] + b) == Ok(va + [v] + vb)
  {
    SpeedEntriesAppend(a + [line], b);
    SpeedEntriesAppend(a, [line]);
    FlatMapCons(SpeedEntry, line, []);
    assert [line] + [] == [line];
    var e := CleanLine(line);
    assert SpeedEntries([line]) == [e] + [];
    ParseAllCons(e, v, [], []);
    assert [e] + [] == [e] && [v] + [] == [v];
    ParseAllAppend(SpeedEntries(a), [e], va, [v]);
    ParseAllAppend(SpeedEntries(a) + [e], SpeedEntries(b), va + [v], vb);
  }

  /** `strip` removes the unit separator U+001F but `int` does not skip it,
      and `splitlines` does not break a line at it: in `5<U+001F>,` the comma
      shields the separator from line 41's `strip`, and `int` then raises. */
  lemma {:induction false} SeparatorSpeedRaises(pad: string, rest: seq<string>)
    requires AllSpace(pad)
    ensures ParseSpeeds([pad + "5\U{1F},"] + rest) == Err(ValueError("5\U{1F}"))
  {
    var e := "5\U{1F}";
    var line := pad + "5\U{1F},";
    assert line == pad + e + "," && !IsSpace(e[0]) && e[1] != ',' && '/' !in e;
    CleanToken(pad, e, true);
    SeparatorRaises(e, 1);
    FirstEntryRaises(line, rest, e);
  }

  /** A first entry that `int` rejects raises, whatever follows. */
  lemma {:induction false} FirstEntryRaises(line: string, rest: seq<string>, e: string)
    requires CleanLine(line) == e && e != [] && ParseInt(e).Err?
    ensures ParseSpeeds([line] + rest) == Err(ValueError(e))
  {
    assert SpeedEntry(line) == [e];
    FlatMapCons(SpeedEntry, line, rest);
    var entries := SpeedEntries([line] + rest);
    assert entries == [e] + SpeedEntries(rest);
    assert entries[0] == e;
  }

  /** The filter of line 41 tests the stripped code before the commas are
      removed, so a line holding only a comma is an entry, the empty one,
      and `int('', 0)` raises. */
  lemma {:induction false} LoneCommaRaises(pad: string, rest: seq<string>)
    requires AllSpace(pad)
    ensures ParseSpeeds([pad + ","] + rest) == Err(ValueError(""))
  {
    var line := pad + ",";
    assert "," == "," + [];
    assert line == pad + "," + [];
    assert ","[0] == ',' && !IsSpace(',');
    assert '/' !in ",";
    CodeOfIndented(pad, ",");
    assert CleanLine(line) == RStripChar(",", ',');
    assert RStripChar(","[..0], ',') == [];
    FlatMapCons(SpeedEntry, line, rest);
    assert SpeedEntry(line) == [[]];
    var entries := SpeedEntries([line] + rest);
    assert entries == [[]] + SpeedEntries(rest);
    assert entries[0] == [];
  }

  /** One speed as the sketch writes it: indented, in decimal, with a comma. */
  function SpeedLine(v: int): string {
    "  " + FormatDecimal(v) + ","
  }

  /** The body of a `modeSpeeds` initialiser listing `speeds`. */
  function RenderSpeeds(speeds: seq<int>): seq<string>
    decreases |speeds|
  {
    if |speeds| == 0 then [] else [SpeedLine(speeds[0])] + RenderSpeeds(speeds[1..])
  }

  /** A rendered speed line is the entry `str(v)`. */
  lemma SpeedLineEntry(v: int)
    ensures CodeText(SpeedLine(v)) != []
    ensures CleanLine(SpeedLine(v)) == FormatDecimal(v)
  {
    var d := FormatDecimal(v);
    DecimalToken(v);
    CleanToken("  ", d, true);
    assert |CleanLine(SpeedLine(v))| <= |CodeText(SpeedLine(v))|;
  }

  /** The speeds in decimal. */
  function Decimals(speeds: seq<int>): (r: seq<string>)
    ensures |r| == |speeds|
    decreases |speeds|
  {
    if |speeds| == 0 then [] else [FormatDecimal(speeds[0])] + Decimals(speeds[1..])
  }

  /** The entries of a rendered speed table are the speeds in decimal. */
  lemma {:induction false} RenderedSpeedEntries(speeds: seq<int>)
    ensures SpeedEntries(RenderSpeeds(speeds)) == Decimals(speeds)
    decreases |speeds|
  {
    if |speeds| > 0 {
      var line := SpeedLine(speeds[0]);
      var rest := RenderSpeeds(speeds[1..]);
      RenderedSpeedEntries(speeds[1..]);
      SpeedLineEntry(speeds[0]);
      FlatMapCons(SpeedEntry, line, rest);
    }
  }

  /** The comprehension of line 42 on one more entry. */
  lemma ParseAllCons(entry: string, v: int, rest: seq<string>, vs: seq<int>)
    requires ParseInt(entry) == Ok(v) && ParseAll(rest) == Ok(vs)
    ensures ParseAll([entry] + rest) == Ok([v] + vs)
  {
    assert ([entry] + rest)[0] == entry && ([entry] + rest)[1..] == rest;
  }

  /** `int` reads back every speed written in decimal. */
  lemma {:induction false} ParseDecimals(speeds: seq<int>)
    ensures ParseAll(Decimals(speeds)) == Ok(speeds)
    decreases |speeds|
  {
    if |speeds| > 0 {
      var d := FormatDecimal(speeds[0]);
      var rest := Decimals(speeds[1..]);
      ParseDecimals(speeds[1..]);
      DecimalRoundTrip(speeds[0]);
      ParseAllCons(d, speeds[0], rest, speeds[1..]);
      assert speeds == [speeds[0]] + speeds[1..];
    }
  }

  /** Lines 40-42 read back the speeds of a rendered `modeSpeeds` table. */
  lemma SpeedsRoundTrip(speeds: seq<int>)
    ensures ParseSpeeds(RenderSpeeds(speeds)) == Ok(speeds)
  {
    RenderedSpeedEntries(speeds);
    ParseDecimals(speeds);
  }
}
