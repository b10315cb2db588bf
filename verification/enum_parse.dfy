/** The `TestMode` enum part of `parse_modes` (tests/test_modes.py:11-32).

    The lines inside the enum's braces are stripped and the blank ones
    dropped. They are then read one at a time with a running value that
    starts at 0. Each line is cut at its first `//`, stripped, and loses its
    trailing commas. What is left, if anything, is one enumerator:
    - `name = literal`: the name is trimmed and the value is
      `int(literal, 0)`. A literal that is not an integer raises `ValueError`.
    - otherwise the whole text is the name, and the value is the running
      value.
    The first enumerator named exactly `MODE_COUNT` gives the result, and no
    later line is read. Otherwise the running value becomes the enumerator's
    value plus one. Running out of lines raises the "MODE_COUNT not found"
    assertion.

    The reference this is proved against is the numbering rule of section
    6.7.2.2, paragraph 3, of the C11 standard (ISO/IEC 9899:2011). An
    enumerator without an initialiser has the value of the previous
    enumerator plus one, or 0 if it is the first.
 */
module EnumParse {
  import opened Outcomes
  import opened Seqs
  import opened PyStr
  import opened PyInt
  import opened SourceLines

  /** The enumerator whose value is the number of modes. */
  const ModeCount := "MODE_COUNT"

  /** Line 11: the lines, stripped, without the blank ones. */
  function EnumLines(block: seq<string>): seq<string> {
    FlatMap(NonBlank, block)
  }

  /** A line, stripped, unless it is blank. */
  function NonBlank(line: string): seq<string> {
    var s := Strip(line);
    if s != [] then [s] else []
  }

  /** How an enumerator gets its value: from the running value, from an
      integer literal, or not at all because `int` rejected the literal. */
  datatype Initializer = Implicit | Explicit(value: int) | Rejected(literal: string)

  /** One entry of the enum: its name and its initialiser. */
  datatype Enumerator = Enumerator(name: string, init: Initializer)

  /** Lines 19-24: an entry is split at its first `=` into a trimmed name
      and a trimmed literal that `int` evaluates; an entry without `=` is
      all name. */
  function ReadEnumerator(entry: string): (e: Enumerator)
    ensures e.init.Implicit? <==> '=' !in entry
    ensures e.init.Implicit? ==> e.name == entry
    ensures !e.init.Implicit? ==> Trimmed(e.name) && |e.name| < |entry|
    ensures e.init.Rejected? ==> ParseInt(e.init.literal).Err?
  {
    match IndexOf(entry, '=')
    case Some(i) => Enumerator(Strip(entry[..i]), InitializerOf(Strip(entry[i + 1..])))
    case None => Enumerator(entry, Implicit)
  }

  /** Lines 20-22: the initialiser of a literal is the integer `int(literal, 0)`
      reads, or `Rejected` when `int` raises. */
  function InitializerOf(literal: string): (init: Initializer)
    ensures !init.Implicit?
    ensures init.Explicit? <==> ParseInt(literal).Ok?
    ensures init.Explicit? ==> ParseInt(literal) == Ok(init.value)
    ensures init.Rejected? ==> init.literal == literal
  {
    match ParseInt(literal)
    case Ok(v) => Explicit(v)
    case Err(_) => Rejected(literal)
  }

  /** Lines 19-25: the value an enumerator takes, given the running value. */
  function EntryValue(e: Enumerator, running: int): Result<int> {
    match e.init
    case Implicit => Ok(running)
    case Explicit(v) => Ok(v)
    case Rejected(literal) => Err(ValueError(literal))
  }

  /** Lines 16-24: the enumerator a line declares, if its cleaned text is not empty. */
  function DeclaredBy(line: string): seq<Enumerator> {
    var text := CleanLine(line);
    if text != [] then [ReadEnumerator(text)] else []
  }

  /** The enumerators the lines declare, in order. */
  function Declared(lines: seq<string>): seq<Enumerator> {
    FlatMap(DeclaredBy, lines)
  }

  /** Lines 25-32 from some enumerator on, with the running value so far:
      the first `MODE_COUNT` gives its value, any other enumerator passes its
      value plus one on, and a rejected literal raises when it is reached.

      The loop of lines 15-32 reads a line and then numbers what it
      declares. Reading a line cannot fail (a literal `int` rejects is kept
      as `Rejected` and raises only here), so reading every line first and
      numbering afterwards gives the same outcome. */
  function ModeCountFrom(es: seq<Enumerator>, running: int): Result<int>
    decreases |es|
  {
    if |es| == 0 then Err(ModeCountNotFound)
    else
      var val :- EntryValue(es[0], running);
      if es[0].name == ModeCount then Ok(val) else ModeCountFrom(es[1..], val + 1)
  }

  /** Lines 11-32: the value of `MODE_COUNT` in the lines of the enum block. */
  function ParseModeCount(block: seq<string>): Result<int> {
    ModeCountFrom(Declared(EnumLines(block)), 0)
  }

  // ---------------------------------------------------------------------
  // The reference: the enumerators numbered as C does.

  /** An explicit initialiser that `int` rejects. */
  predicate Malformed(e: Enumerator) {
    e.init.Rejected?
  }

  /** The index of the first enumerator called `name`. */
  function FirstNamed(es: seq<Enumerator>, name: string): (r: Option<nat>)
    ensures r.Some? ==> r.value < |es| && es[r.value].name == name
    ensures r.Some? ==> forall j :: 0 <= j < r.value ==> es[j].name != name
    ensures r.None? ==> forall j :: 0 <= j < |es| ==> es[j].name != name
    decreases |es|
  {
    if |es| == 0 then None
    else if es[0].name == name then Some(0)
    else
      match FirstNamed(es[1..], name)
      case Some(k) => Some(k + 1)
      case None => None
  }

  /** The index of the first malformed enumerator among the first `upto`. */
  function FirstMalformed(es: seq<Enumerator>, upto: nat): (r: Option<nat>)
    ensures r.Some? ==> r.value < upto && r.value < |es| && Malformed(es[r.value])
    ensures r.Some? ==> forall j :: 0 <= j < r.value ==> !Malformed(es[j])
    ensures r.None? ==> forall j :: 0 <= j < upto && j < |es| ==> !Malformed(es[j])
    decreases |es|
  {
    if upto == 0 || |es| == 0 then None
    else if Malformed(es[0]) then Some(0)
    else
      match FirstMalformed(es[1..], upto - 1)
      case Some(k) => Some(k + 1)
      case None => None
  }

  /** Section 6.7.2.2 paragraph 3 of C11: the value of enumerator `i`. An
      explicit initialiser gives its own value; an implicit one follows the
      previous enumerator, and the first implicit one is `first` (0 in C). */
  function EnumeratorValue(es: seq<Enumerator>, i: nat, first: int): int
    requires i < |es|
    requires forall j :: 0 <= j <= i ==> !Malformed(es[j])
    decreases i
  {
    if es[i].init.Explicit? then es[i].init.value
    else if i == 0 then first
    else EnumeratorValue(es, i - 1, first) + 1
  }

  /** What the enum block should yield: a malformed literal at or before the
      first `MODE_COUNT` is an error, the value of the first `MODE_COUNT` is
      the result, and without one the count is not found. */
  function ModeCountSpec(es: seq<Enumerator>, first: int): Result<int> {
    var named := FirstNamed(es, ModeCount);
    var examined := match named case Some(k) => k + 1 case None => |es|;
    match FirstMalformed(es, examined)
    case Some(j) => Err(ValueError(es[j].init.literal))
    case None =>
      match named
      case Some(k) => Ok(EnumeratorValue(es, k, first))
      case None => Err(ModeCountNotFound)
  }

  // ---------------------------------------------------------------------
  // The loop computes the reference.

  /** Dropping the first enumerator shifts the numbering by one place,
      with the dropped value plus one as the new first value. */
  lemma {:induction false} EnumeratorValueShift(es: seq<Enumerator>, k: nat, first: int)
    requires k + 1 < |es|
    requires forall j :: 0 <= j <= k + 1 ==> !Malformed(es[j])
    ensures EnumeratorValue(es, k + 1, first)
         == EnumeratorValue(es[1..], k, EnumeratorValue(es, 0, first) + 1)
    decreases k
  {
    if k > 0 && es[k + 1].init.Implicit? {
      EnumeratorValueShift(es, k - 1, first);
    }
  }

  /** The specification reads the enumerators one at a time, as the loop
      does: a rejected literal fails, `MODE_COUNT` gives its value, and any
      other enumerator passes its value plus one on to the rest. */
  lemma SpecCons(e: Enumerator, es: seq<Enumerator>, first: int)
    ensures Malformed(e) ==> ModeCountSpec([e] + es, first) == Err(ValueError(e.init.literal))
    ensures !Malformed(e) && e.name == ModeCount ==>
      ModeCountSpec([e] + es, first) == EntryValue(e, first)
    ensures !Malformed(e) && e.name != ModeCount ==>
      ModeCountSpec([e] + es, first) == ModeCountSpec(es, EntryValue(e, first).value + 1)
  {
    var all := [e] + es;
    assert all[0] == e && all[1..] == es;
    assert !Malformed(e) ==> EnumeratorValue(all, 0, first) == EntryValue(e, first).value;
    if !Malformed(e) && e.name != ModeCount {
      SpecPassesOn(e, es, first);
    }
  }

  /** An enumerator that is neither malformed nor `MODE_COUNT` hands its
      value plus one on to the rest. */
  lemma SpecPassesOn(e: Enumerator, es: seq<Enumerator>, first: int)
    requires !Malformed(e) && e.name != ModeCount
    ensures ModeCountSpec([e] + es, first) == ModeCountSpec(es, EntryValue(e, first).value + 1)
  {
    var all := [e] + es;
    assert all[0] == e && all[1..] == es;
    assert EnumeratorValue(all, 0, first) == EntryValue(e, first).value;
    var named := FirstNamed(all, ModeCount);
    var named' := FirstNamed(es, ModeCount);
    var examined := match named case Some(k) => k + 1 case None => |all|;
    var examined' := match named' case Some(k) => k + 1 case None => |es|;
    assert examined == examined' + 1;
    var bad := FirstMalformed(all, examined);
    match FirstMalformed(es, examined')
    case Some(j) =>
      assert bad == Some(j + 1);
      assert all[j + 1] == es[j];
    case None =>
      assert bad == None;
      match named'
      case Some(k) =>
        assert named == Some(k + 1);
        EnumeratorValueShift(all, k, first);
      case None =>
  }

  /** The loop of lines 25-32 computes the reference numbering: from any
      enumerator on, with any running value, it returns what
      `ModeCountSpec` prescribes. */
  lemma {:induction false} ModeCountFromMatchesSpec(es: seq<Enumerator>, running: int)
    ensures ModeCountFrom(es, running) == ModeCountSpec(es, running)
    decreases |es|
  {
    if |es| > 0 {
      var e := es[0];
      assert es == [e] + es[1..];
      SpecCons(e, es[1..], running);
      if !Malformed(e) && e.name != ModeCount {
        ModeCountFromMatchesSpec(es[1..], EntryValue(e, running).value + 1);
      }
    }
  }

  /** A line declares the same enumerator once stripped, and a blank line
      declares none. */
  lemma DeclaredByStripped(l: string)
    ensures DeclaredBy(Strip(l)) == DeclaredBy(l)
    ensures Strip(l) == [] ==> DeclaredBy(l) == []
  {
    CodeTextOfStripped(l);
    if Strip(l) == [] {
      BlankLineHasNoCode(l);
    }
  }

  /** `Declared` reads the lines one at a time. */
  lemma DeclaredCons(line: string, rest: seq<string>)
    ensures Declared([line] + rest) == DeclaredBy(line) + Declared(rest)
  {
    FlatMapCons(DeclaredBy, line, rest);
  }

  /** Stripping the lines and dropping the blank ones (line 11) changes
      nothing the loop sees. */
  lemma {:induction false} DeclaredIgnoresPrefilter(block: seq<string>)
    ensures Declared(EnumLines(block)) == Declared(block)
    decreases |block|
  {
    if |block| > 0 {
      var s := Strip(block[0]);
      var rest := EnumLines(block[1..]);
      DeclaredIgnoresPrefilter(block[1..]);
      DeclaredByStripped(block[0]);
      if s != [] {
        assert EnumLines(block) == [s] + rest;
        DeclaredCons(s, rest);
      } else {
        assert EnumLines(block) == rest;
      }
    }
  }

  /** Lines 11-32 number the enumerators as C11 does and return the value
      of the first `MODE_COUNT`, failing on a malformed literal read before
      it and reporting a missing count when there is none. */
  lemma ParseModeCountIsC11(block: seq<string>)
    ensures ParseModeCount(block) == ModeCountSpec(Declared(block), 0)
  {
    ModeCountFromMatchesSpec(Declared(EnumLines(block)), 0);
    DeclaredIgnoresPrefilter(block);
  }

  // ---------------------------------------------------------------------
  // Where the loop stops, and what it skips.

  /** Line 11 treats the lines one at a time. */
  lemma EnumLinesAppend(a: seq<string>, b: seq<string>)
    ensures EnumLines(a + b) == EnumLines(a) + EnumLines(b)
  {
    FlatMapAppend(NonBlank, a, b);
  }

  /** Each line declares its enumerators independently of the others. */
  lemma DeclaredAppend(a: seq<string>, b: seq<string>)
    ensures Declared(a + b) == Declared(a) + Declared(b)
  {
    FlatMapAppend(DeclaredBy, a, b);
  }

  /** Once the loop has an outcome, the enumerators after the ones it read
      make no difference. */
  lemma {:induction false} ModeCountFromStops(es: seq<Enumerator>, more: seq<Enumerator>, running: int)
    requires ModeCountFrom(es, running) != Err(ModeCountNotFound)
    ensures ModeCountFrom(es + more, running) == ModeCountFrom(es, running)
    decreases |es|
  {
    ConsAppend(es, more);
    if !Malformed(es[0]) && es[0].name != ModeCount {
      ModeCountFromStops(es[1..], more, EntryValue(es[0], running).value + 1);
    }
  }

  /** Lines 26-28 and 22: the loop leaves at the first `MODE_COUNT` or at
      the first literal `int` rejects, so no line after those is examined:
      appending lines to a block that already decides the outcome changes
      nothing. */
  lemma LaterLinesNeverExamined(block: seq<string>, more: seq<string>)
    requires ParseModeCount(block) != Err(ModeCountNotFound)
    ensures ParseModeCount(block + more) == ParseModeCount(block)
  {
    EnumLinesAppend(block, more);
    DeclaredAppend(EnumLines(block), EnumLines(more));
    ModeCountFromStops(Declared(EnumLines(block)), Declared(EnumLines(more)), 0);
  }

  /** A line that declares nothing leaves the declarations of the block
      unchanged. */
  lemma {:induction false} DeclaredSkipsBlank(a: seq<string>, line: string, b: seq<string>)
    requires CleanLine(line) == []
    ensures Declared(a + [line] + b) == Declared(a + b)
  {
    var al := a + [line];
    DeclaredAppend(al, b);
    DeclaredAppend(a, [line]);
    DeclaredAppend(a, b);
    DeclaredCons(line, []);
    assert [line] + [] == [line];
    var da := Declared(a);
    assert Declared(al) == da + [];
    assert da + [] == da;
  }

  /** Lines 16-18: a line that is empty once its comment, surrounding
      whitespace and trailing commas are gone is skipped without touching
      the running value. */
  lemma BlankLineSkipped(a: seq<string>, line: string, b: seq<string>)
    requires CleanLine(line) == []
    ensures ParseModeCount(a + [line] + b) == ParseModeCount(a + b)
  {
    ParseModeCountIsC11(a + [line] + b);
    ParseModeCountIsC11(a + b);
    DeclaredSkipsBlank(a, line, b);
  }

  /** The loop runs out of enumerators exactly when none of them is
      `MODE_COUNT` and none has a literal `int` rejects. */
  lemma {:induction false} ModeCountFromNotFound(es: seq<Enumerator>, running: int)
    ensures ModeCountFrom(es, running) == Err(ModeCountNotFound) <==>
      forall j :: 0 <= j < |es| ==> es[j].name != ModeCount && !Malformed(es[j])
    decreases |es|
  {
    if |es| > 0 && !Malformed(es[0]) && es[0].name != ModeCount {
      var rest := es[1..];
      ModeCountFromNotFound(rest, EntryValue(es[0], running).value + 1);
      assert forall j :: 0 < j < |es| ==> es[j] == rest[j - 1];
    }
  }

  /** Lines 31-32: "MODE_COUNT not found" is raised exactly when no line of
      the block declares `MODE_COUNT` and no literal failed to parse
      before the end. */
  lemma ModeCountNotFoundIff(block: seq<string>)
    ensures ParseModeCount(block) == Err(ModeCountNotFound) <==>
      forall e :: e in Declared(block) ==> e.name != ModeCount && !Malformed(e)
  {
    var es := Declared(block);
    ParseModeCountReadsDeclared(block);
    ModeCountFromNotFound(es, 0);
    NoCountNoMalformedIff(es);
  }

  /** The loop reads the enumerators the block declares. */
  lemma ParseModeCountReadsDeclared(block: seq<string>)
    ensures ParseModeCount(block) == ModeCountFrom(Declared(block), 0)
  {
    DeclaredIgnoresPrefilter(block);
  }

  /** No enumerator at any index is `MODE_COUNT` or malformed exactly when
      no enumerator in the sequence is. */
  lemma NoCountNoMalformedIff(es: seq<Enumerator>)
    ensures (forall j :: 0 <= j < |es| ==> es[j].name != ModeCount && !Malformed(es[j]))
      <==> (forall e :: e in es ==> e.name != ModeCount && !Malformed(e))
  {
  }

  // ---------------------------------------------------------------------
  // Enums written the usual way, one enumerator per line.

  /** A character that may occur in a C identifier. */
  predicate IsIdentifierChar(c: char) {
    ('a' <= c <= 'z') || ('A' <= c <= 'Z') || ('0' <= c <= '9') || c == '_'
  }

  /** A C identifier: identifier characters, not starting with a digit. */
  predicate IsIdentifier(s: string) {
    |s| > 0 && !('0' <= s[0] <= '9') && forall c :: c in s ==> IsIdentifierChar(c)
  }

  /** The initialiser as written after the name. */
  function InitializerText(init: Initializer): string {
    match init
    case Implicit => ""
    case Explicit(v) => " = " + FormatDecimal(v)
    case Rejected(literal) => " = " + literal
  }

  /** An enumerator on its own indented line, followed by a comma. */
  function EnumeratorLine(e: Enumerator): string {
    "  " + e.name + InitializerText(e.init) + ","
  }

  /** The lines of an enum body declaring `es` in order. */
  function EnumBody(es: seq<Enumerator>): seq<string>
    decreases |es|
  {
    if |es| == 0 then [] else [EnumeratorLine(es[0])] + EnumBody(es[1..])
  }

  /** An enumerator a C programmer could have written: an identifier,
      initialised by nothing or by a decimal literal. */
  predicate Written(e: Enumerator) {
    IsIdentifier(e.name) && !Malformed(e)
  }

  /** Every character of an identifier is an identifier character. */
  lemma IdentifierChars(s: string)
    requires IsIdentifier(s)
    ensures forall k :: 0 <= k < |s| ==> IsIdentifierChar(s[k])
  {
    forall k | 0 <= k < |s|
      ensures IsIdentifierChar(s[k])
    {
      assert s[k] in s;
    }
  }

  /** An identifier has no whitespace at either end. */
  lemma IdentifierTrimmed(name: string)
    requires IsIdentifier(name)
    ensures Trimmed(name)
  {
    assert IsIdentifierChar(name[0]) && IsIdentifierChar(name[|name| - 1]);
  }

  /** `name = literal` is split at the `=` that follows the name. */
  lemma ReadAssignment(name: string, literal: string)
    requires IsIdentifier(name) && Trimmed(literal)
    ensures ReadEnumerator(name + " = " + literal) == Enumerator(name, InitializerOf(literal))
  {
    AssignmentSplit(name, literal);
    IdentifierTrimmed(name);
    assert "" + name + " " == name + " " && " " + literal + "" == " " + literal;
    StripPadded("", name, " ");
    StripPadded(" ", literal, "");
  }

  /** Lines 19-22 for every entry with an `=`: the name is the stripped
      text before the first `=`, and the initialiser is what `int` makes of
      the stripped text after it. */
  lemma ReadEntry(before: string, after: string)
    requires '=' !in before
    ensures ReadEnumerator(before + "=" + after)
         == Enumerator(Strip(before), InitializerOf(Strip(after)))
  {
    var entry := before + "=" + after;
    var i := |before|;
    assert entry[i] == '=';
    assert entry[..i] == before;
    assert entry[i + 1..] == after;
  }

  /** Initialisers written by `str` or `hex` give back their value, and an
      expression is rejected with its text. */
  lemma LiteralInitializers(v: int, n: nat)
    ensures InitializerOf(FormatDecimal(v)) == Explicit(v)
    ensures InitializerOf(FormatHex(n)) == Explicit(n)
    ensures InitializerOf("A+1") == Rejected("A+1")
  {
    DecimalRoundTrip(v);
    HexRoundTrip(n);
    ExpressionsRaise();
  }

  /** The first `=` of `name = literal` follows the name and a space. */
  lemma AssignmentSplit(name: string, literal: string)
    requires IsIdentifier(name)
    ensures var entry := name + " = " + literal;
      && IndexOf(entry, '=') == Some(|name| + 1)
      && entry[..|name| + 1] == name + " "
      && entry[|name| + 2..] == " " + literal
  {
    var entry := name + " = " + literal;
    var i := |name| + 1;
    IdentifierChars(name);
    assert entry[i] == '=';
    assert entry[..i] == name + " ";
    assert forall k :: 0 <= k < i ==> entry[..i][k] != '=';
    assert entry[i + 1..] == " " + literal;
  }

  /** The text of a written enumerator: identifier characters, then
      possibly ` = ` and a decimal literal; it ends in a digit or an
      identifier character. */
  lemma WrittenText(e: Enumerator)
    requires Written(e)
    ensures var t := e.name + InitializerText(e.init);
      && IsIdentifierChar(t[|t| - 1])
      && forall k :: 0 <= k < |t| ==> IsIdentifierChar(t[k]) || t[k] in " =-"
  {
    var t := e.name + InitializerText(e.init);
    IdentifierChars(e.name);
    match e.init
    case Implicit =>
      assert t == e.name;
    case Explicit(v) =>
      var d := FormatDecimal(v);
      FormatDecimalChars(v);
      assert t == e.name + " = " + d;
      assert t[|t| - 1] == d[|d| - 1];
      forall k | 0 <= k < |t|
        ensures IsIdentifierChar(t[k]) || t[k] in " =-"
      {
        if k >= |e.name| + 3 {
          assert t[k] == d[k - |e.name| - 3];
        }
      }
  }

  /** The cleaned line of a written enumerator is its text without the
      indentation and the comma. */
  lemma CleanEnumeratorLine(e: Enumerator)
    requires Written(e)
    ensures CleanLine(EnumeratorLine(e)) == e.name + InitializerText(e.init)
  {
    var token := e.name + InitializerText(e.init);
    WrittenText(e);
    assert EnumeratorLine(e) == "  " + token + ",";
    assert token[0] == e.name[0];
    IdentifierChars(e.name);
    CleanWrittenToken(token);
  }

  /** Text made of identifier characters, spaces, `=` and `-`, starting
      and ending with an identifier character, cleans back from its
      indented line with a comma. */
  lemma CleanWrittenToken(t: string)
    requires |t| > 0 && IsIdentifierChar(t[0]) && IsIdentifierChar(t[|t| - 1])
    requires forall k :: 0 <= k < |t| ==> IsIdentifierChar(t[k]) || t[k] in " =-"
    ensures CleanLine("  " + t + ",") == t
  {
    assert '/' !in t;
    CleanToken("  ", t, true);
  }

  /** An identifier on its own is an enumerator without initialiser. */
  lemma ReadIdentifier(name: string)
    requires IsIdentifier(name)
    ensures ReadEnumerator(name) == Enumerator(name, Implicit)
  {
    assert !IsIdentifierChar('=');
  }

  /** `name = str(v)` reads back as an enumerator initialised to `v`. */
  lemma ReadDecimalAssignment(name: string, v: int)
    requires IsIdentifier(name)
    ensures ReadEnumerator(name + " = " + FormatDecimal(v)) == Enumerator(name, Explicit(v))
  {
    var d := FormatDecimal(v);
    DecimalToken(v);
    DecimalRoundTrip(v);
    ReadAssignment(name, d);
    assert InitializerOf(d) == Explicit(v);
  }

  /** The text of a written enumerator reads back as that enumerator. */
  lemma ReadWrittenText(e: Enumerator)
    requires Written(e)
    ensures ReadEnumerator(e.name + InitializerText(e.init)) == e
  {
    match e.init
    case Implicit =>
      assert e.name + InitializerText(e.init) == e.name;
      ReadIdentifier(e.name);
    case Explicit(v) =>
      var t := " = " + FormatDecimal(v);
      assert InitializerText(e.init) == t;
      assert e.name + t == e.name + " = " + FormatDecimal(v);
      ReadDecimalAssignment(e.name, v);
  }

  /** A written enumerator's line declares exactly that enumerator. */
  lemma ReadEnumeratorLine(e: Enumerator)
    requires Written(e)
    ensures DeclaredBy(EnumeratorLine(e)) == [e]
  {
    CleanEnumeratorLine(e);
    ReadWrittenText(e);
  }

  /** Reading back the lines of a written enum gives its enumerators. */
  lemma {:induction false} DeclaredEnumBody(es: seq<Enumerator>)
    requires forall k :: 0 <= k < |es| ==> Written(es[k])
    ensures Declared(EnumBody(es)) == es
    decreases |es|
  {
    if |es| > 0 {
      var rest := es[1..];
      DeclaredEnumBody(rest);
      WrittenLineCons(es[0], EnumBody(rest));
      EnumBodyCons(es);
      HeadTail(es);
    }
  }

  /** The body of a non-empty enum starts with its first enumerator's line. */
  lemma EnumBodyCons(es: seq<Enumerator>)
    requires |es| > 0
    ensures EnumBody(es) == [EnumeratorLine(es[0])] + EnumBody(es[1..])
  {
  }

  /** A written enumerator's line, followed by more lines, declares it
      and then what the other lines declare. */
  lemma WrittenLineCons(e: Enumerator, rest: seq<string>)
    requires Written(e)
    ensures Declared([EnumeratorLine(e)] + rest) == [e] + Declared(rest)
  {
    ReadEnumeratorLine(e);
    DeclaredCons(EnumeratorLine(e), rest);
  }

  /** The loop reads a written enum's enumerators back from its lines. */
  lemma WrittenEnumReadBack(es: seq<Enumerator>)
    requires forall k :: 0 <= k < |es| ==> Written(es[k])
    ensures ParseModeCount(EnumBody(es)) == ModeCountFrom(es, 0)
  {
    ParseModeCountReadsDeclared(EnumBody(es));
    DeclaredEnumBody(es);
  }

  /** The checker numbers any written enum as C11 does. */
  lemma WrittenEnumIsC11(es: seq<Enumerator>)
    requires forall k :: 0 <= k < |es| ==> Written(es[k])
    ensures ParseModeCount(EnumBody(es)) == ModeCountSpec(es, 0)
  {
    ParseModeCountIsC11(EnumBody(es));
    DeclaredEnumBody(es);
  }

  /** Enumerators without initialisers. */
  function Implicits(ids: seq<string>): (es: seq<Enumerator>)
    ensures |es| == |ids|
    ensures forall k :: 0 <= k < |ids| ==> es[k] == Enumerator(ids[k], Implicit)
    decreases |ids|
  {
    if |ids| == 0 then [] else [Enumerator(ids[0], Implicit)] + Implicits(ids[1..])
  }

  /** After a run of implicit enumerators, `MODE_COUNT` is the running
      value advanced once per enumerator. */
  lemma {:induction false} CountAfterImplicits(ids: seq<string>, running: int)
    requires forall k :: 0 <= k < |ids| ==> ids[k] != ModeCount
    ensures ModeCountFrom(Implicits(ids) + [Enumerator(ModeCount, Implicit)], running)
         == Ok(running + |ids|)
    decreases |ids|
  {
    var es := Implicits(ids) + [Enumerator(ModeCount, Implicit)];
    if |ids| > 0 {
      CountAfterImplicits(ids[1..], running + 1);
      assert es[1..] == Implicits(ids[1..]) + [Enumerator(ModeCount, Implicit)];
    }
  }

  /** Identifiers without initialisers are written enumerators. */
  lemma ImplicitsWritten(ids: seq<string>)
    requires forall k :: 0 <= k < |ids| ==> IsIdentifier(ids[k])
    ensures forall k :: 0 <= k < |ids| ==> Written(Implicits(ids)[k])
  {
  }

  /** The usual sketch layout, modes without initialisers and then
      `MODE_COUNT`, is a written enum. */
  lemma SequentialEnumWritten(ids: seq<string>)
    requires forall k :: 0 <= k < |ids| ==> IsIdentifier(ids[k])
    ensures var es := Implicits(ids) + [Enumerator(ModeCount, Implicit)];
      forall k :: 0 <= k < |es| ==> Written(es[k])
  {
    var modes := Implicits(ids);
    var last := Enumerator(ModeCount, Implicit);
    var es := modes + [last];
    ImplicitsWritten(ids);
    assert IsIdentifier(ModeCount);
    forall k | 0 <= k < |es|
      ensures Written(es[k])
    {
      if k < |modes| {
        assert es[k] == modes[k];
      } else {
        assert es[k] == last;
      }
    }
  }

  /** In the usual sketch layout `MODE_COUNT` counts the modes before it. */
  lemma {:induction false} SequentialEnumCountsModes(ids: seq<string>)
    requires forall k :: 0 <= k < |ids| ==> IsIdentifier(ids[k]) && ids[k] != ModeCount
    ensures ParseModeCount(EnumBody(Implicits(ids) + [Enumerator(ModeCount, Implicit)]))
         == Ok(|ids|)
  {
    SequentialEnumWritten(ids);
    CountAfterImplicits(ids, 0);
    CountOfWrittenEnum(Implicits(ids) + [Enumerator(ModeCount, Implicit)], |ids|);
  }

  /** A written enum whose enumerators the loop counts to `n` yields `n`. */
  lemma CountOfWrittenEnum(es: seq<Enumerator>, n: int)
    requires forall k :: 0 <= k < |es| ==> Written(es[k])
    requires ModeCountFrom(es, 0) == Ok(n)
    ensures ParseModeCount(EnumBody(es)) == Ok(n)
  {
    WrittenEnumReadBack(es);
  }

  // ---------------------------------------------------------------------
  // Behaviour on particular lines.

  /** `strip` runs before `rstrip(',')`, so a space before the comma stays
      on the cleaned line. */
  lemma {:induction false} CleanSpaceBeforeComma(name: string)
    requires IsIdentifier(name)
    ensures CleanLine("  " + name + " ,") == name + " "
  {
    var token := name + " ";
    IdentifierChars(name);
    assert "  " + name + " ," == "  " + token + ",";
    assert token[0] == name[0];
    assert token[|token| - 1] == ' ';
    assert forall k :: 0 <= k < |token| ==> token[k] != '/';
    CleanToken("  ", token, true);
  }

  /** An identifier followed by a space is an implicit enumerator whose
      name keeps the space. */
  lemma {:induction false} ReadIdentifierSpace(name: string)
    requires IsIdentifier(name)
    ensures ReadEnumerator(name + " ") == Enumerator(name + " ", Implicit)
  {
    var token := name + " ";
    IdentifierChars(name);
    assert forall k :: 0 <= k < |token| ==> token[k] != '=';
  }

  /** So `NAME ,` declares `"NAME "`. */
  lemma {:induction false} SpaceBeforeCommaKept(name: string)
    requires IsIdentifier(name)
    ensures DeclaredBy("  " + name + " ,") == [Enumerator(name + " ", Implicit)]
  {
    CleanSpaceBeforeComma(name);
    ReadIdentifierSpace(name);
  }

  /** A `MODE_COUNT ,` line alone declares `"MODE_COUNT "`. */
  lemma DeclaredSpacedCount()
    ensures Declared(["  " + ModeCount + " ,"]) == [Enumerator(ModeCount + " ", Implicit)]
  {
    var line := "  " + ModeCount + " ,";
    assert IsIdentifier(ModeCount);
    SpaceBeforeCommaKept(ModeCount);
    var last := [Enumerator(ModeCount + " ", Implicit)];
    DeclaredCons(line, []);
    assert [line] + [] == [line];
    assert last + [] == last;
  }

  /** The declarations of modes followed by a `MODE_COUNT ,` line. */
  lemma {:induction false} DeclaredWithSpacedCount(ids: seq<string>)
    requires forall k :: 0 <= k < |ids| ==> IsIdentifier(ids[k])
    ensures Declared(EnumBody(Implicits(ids)) + ["  " + ModeCount + " ,"])
         == Implicits(ids) + [Enumerator(ModeCount + " ", Implicit)]
  {
    var modes := Implicits(ids);
    ImplicitsWritten(ids);
    DeclaredEnumBody(modes);
    DeclaredSpacedCount();
    DeclaredAppend(EnumBody(modes), ["  " + ModeCount + " ,"]);
  }

  /** Hence a sketch whose last line is `MODE_COUNT ,` has no count: the
      block declares `"MODE_COUNT "`, which is not `MODE_COUNT`. */
  lemma {:induction false} SpaceBeforeCommaHidesCount(ids: seq<string>)
    requires forall k :: 0 <= k < |ids| ==> IsIdentifier(ids[k]) && ids[k] != ModeCount
    ensures ParseModeCount(EnumBody(Implicits(ids)) + ["  " + ModeCount + " ,"])
         == Err(ModeCountNotFound)
  {
    var modes := Implicits(ids);
    var last := Enumerator(ModeCount + " ", Implicit);
    var es := modes + [last];
    DeclaredWithSpacedCount(ids);
    assert |last.name| != |ModeCount|;
    forall k | 0 <= k < |es|
      ensures es[k].name != ModeCount && !Malformed(es[k])
    {
      if k < |modes| {
        assert es[k] == modes[k];
      } else {
        assert es[k] == last;
      }
    }
    ParseModeCountReadsDeclared(EnumBody(modes) + ["  " + ModeCount + " ,"]);
    ModeCountFromNotFound(es, 0);
  }

  /** A line `NAME = literal,` declares `NAME` with the initialiser
      `int` makes of the literal. */
  lemma {:induction false} AssignmentLine(name: string, literal: string)
    requires IsIdentifier(name) && Trimmed(literal) && |literal| > 0
    requires '/' !in literal && literal[|literal| - 1] != ','
    ensures DeclaredBy("  " + name + " = " + literal + ",") == [Enumerator(name, InitializerOf(literal))]
  {
    var token := name + " = " + literal;
    IdentifierChars(name);
    assert "  " + name + " = " + literal + "," == "  " + token + ",";
    assert token[0] == name[0] && token[|token| - 1] == literal[|literal| - 1];
    assert forall k :: |name| + 3 <= k < |token| ==> token[k] == literal[k - |name| - 3];
    CleanToken("  ", token, true);
    ReadAssignment(name, literal);
  }

  /** The loop starts with the enumerator the first line declares. */
  lemma {:induction false} FirstLineDeclares(line: string, rest: seq<string>, e: Enumerator)
    requires DeclaredBy(line) == [e]
    ensures ParseModeCount([line] + rest) == ModeCountFrom([e] + Declared(rest), 0)
  {
    DeclaredCons(line, rest);
    ParseModeCountReadsDeclared([line] + rest);
  }

  /** A first line `NAME = literal,` whose literal `int` rejects raises at
      once (lines 20-22), whatever follows. */
  lemma {:induction false} RejectedLiteralRaises(name: string, literal: string, rest: seq<string>)
    requires IsIdentifier(name) && Trimmed(literal) && |literal| > 0
    requires '/' !in literal && literal[|literal| - 1] != ','
    requires ParseInt(literal).Err?
    ensures ParseModeCount(["  " + name + " = " + literal + ","] + rest) == Err(ValueError(literal))
  {
    AssignmentLine(name, literal);
    var e := Enumerator(name, InitializerOf(literal));
    FirstLineDeclares("  " + name + " = " + literal + ",", rest, e);
    ConsAppend([e], Declared(rest));
  }

  /** A first line `MODE_COUNT = literal,` counts what `int(literal, 0)`
      reads, whatever follows. */
  lemma {:induction false} AssignedCount(literal: string, rest: seq<string>)
    requires Trimmed(literal) && |literal| > 0
    requires '/' !in literal && literal[|literal| - 1] != ','
    requires ParseInt(literal).Ok?
    ensures ParseModeCount(["  " + ModeCount + " = " + literal + ","] + rest) == ParseInt(literal)
  {
    assert IsIdentifier(ModeCount);
    AssignmentLine(ModeCount, literal);
    var e := Enumerator(ModeCount, InitializerOf(literal));
    FirstLineDeclares("  " + ModeCount + " = " + literal + ",", rest, e);
    ConsAppend([e], Declared(rest));
  }
}
