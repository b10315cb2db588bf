/** `parse_modes` and `test_mode_arrays_match_enum`
    (tests/test_modes.py:5-53).

    The checker reads three declarations of the sketch: the `TestMode` enum,
    the `modeNames` table and the `modeSpeeds` table. It then asserts that
    both tables have one entry per mode. Here the sketch is given as the
    three bodies that the regular expressions of lines 8, 34 and 38 cut out
    of it.
 */
module ModeCheck {
  import opened Outcomes
  import opened EnumParse
  import opened ModeTables

  /** The bodies of the three declarations: the enum's lines, the text
      between the braces of `modeNames`, and the lines of `modeSpeeds`. */
  datatype Sketch = Sketch(enumBlock: seq<string>, namesBlock: string, speedsBlock: seq<string>)

  /** What `parse_modes` returns. */
  datatype Declarations = Declarations(modeCount: int, modeNames: seq<string>, modeSpeeds: seq<int>)

  /** Lines 5-45: the enum is read first, so its exception wins; reading
      the names cannot fail; the speeds come last. */
  function ParseModes(sketch: Sketch): Result<Declarations> {
    var count :- ParseModeCount(sketch.enumBlock);
    var names := Quoted(sketch.namesBlock);
    var speeds :- ParseSpeeds(sketch.speedsBlock);
    Ok(Declarations(count, names, speeds))
  }

  /** Lines 11-42 raise in order: an exception from the enum escapes
      whatever the tables hold, the names table never raises, and the speed
      table's exception escapes only once the enum has been read. */
  lemma ParseModesRaises(block: seq<string>, names1: string, names2: string, speeds1: seq<string>, speeds2: seq<string>)
    ensures ParseModeCount(block).Err? ==>
      ParseModes(Sketch(block, names1, speeds1)) == Err(ParseModeCount(block).error)
    ensures ParseModes(Sketch(block, names1, speeds1)).Err?
        <==> ParseModes(Sketch(block, names2, speeds1)).Err?
    ensures ParseModeCount(block).Ok? && ParseSpeeds(speeds1).Err? ==>
      ParseModes(Sketch(block, names1, speeds1)) == Err(ParseSpeeds(speeds1).error)
    ensures ParseModeCount(block).Ok? && ParseSpeeds(speeds1).Ok? && ParseSpeeds(speeds2).Ok? ==>
      ParseModes(Sketch(block, names1, speeds1)).value.modeCount
        == ParseModes(Sketch(block, names2, speeds2)).value.modeCount
  {
  }

  /** Why the test fails: an exception escaped `parse_modes`, or one of the
      three assertions of lines 51-53 did not hold. */
  datatype TestFailure =
    | Raised(error: ParseError)
    | NamesCountDiffers
    | SpeedsCountDiffers
    | TablesDiffer

  datatype Verdict = Pass | Fail(failure: TestFailure)

  /** Lines 48-53. The test passes exactly when the sketch parses and both
      tables have one entry per mode; the third assertion never decides
      the outcome, since the first two imply it. */
  function TestModeArraysMatchEnum(sketch: Sketch): (v: Verdict)
    ensures v == Pass <==>
      && ParseModes(sketch).Ok?
      && |ParseModes(sketch).value.modeNames| == ParseModes(sketch).value.modeCount
      && |ParseModes(sketch).value.modeSpeeds| == ParseModes(sketch).value.modeCount
    ensures v != Fail(TablesDiffer)
  {
    match ParseModes(sketch)
    case Err(e) => Fail(Raised(e))
    case Ok(d) =>
      if |d.modeNames| != d.modeCount then Fail(NamesCountDiffers)
      else if |d.modeSpeeds| != d.modeCount then Fail(SpeedsCountDiffers)
      else if |d.modeNames| != |d.modeSpeeds| then Fail(TablesDiffer)
      else Pass
  }

  /** A sketch whose three declarations are written the usual way. */
  function WrittenSketch(es: seq<Enumerator>, names: seq<string>, speeds: seq<int>): Sketch {
    Sketch(EnumBody(es), RenderNames(names), RenderSpeeds(speeds))
  }

  /** Names a `modeNames` table can hold as plain literals. */
  predicate PlainNames(names: seq<string>) {
    forall n :: 0 <= n < |names| ==> '"' !in names[n] && '\n' !in names[n]
  }

  /** `parse_modes` recovers the declarations of a written sketch, with the
      count numbered as C11 numbers enumerators. */
  lemma ParseWrittenSketch(es: seq<Enumerator>, names: seq<string>, speeds: seq<int>)
    requires forall k :: 0 <= k < |es| ==> Written(es[k])
    requires PlainNames(names)
    ensures ParseModes(WrittenSketch(es, names, speeds))
         == match ModeCountSpec(es, 0)
            case Ok(count) => Ok(Declarations(count, names, speeds))
            case Err(e) => Err(e)
  {
    WrittenEnumIsC11(es);
    NamesRoundTrip(names);
    SpeedsRoundTrip(speeds);
  }

  /** The test passes on a written sketch exactly when `MODE_COUNT` is
      declared with the value C gives it, and both tables have that many
      entries. */
  lemma WrittenSketchVerdict(es: seq<Enumerator>, names: seq<string>, speeds: seq<int>)
    requires forall k :: 0 <= k < |es| ==> Written(es[k])
    requires PlainNames(names)
    ensures TestModeArraysMatchEnum(WrittenSketch(es, names, speeds)) == Pass <==>
      && ModeCountSpec(es, 0).Ok?
      && |names| == ModeCountSpec(es, 0).value
      && |speeds| == ModeCountSpec(es, 0).value
  {
    ParseWrittenSketch(es, names, speeds);
  }

  /** In the usual layout, with `MODE_COUNT` last after modes without
      initialisers, the test passes exactly when there is one name and one
      speed per mode; otherwise the first table that disagrees is
      reported. */
  lemma {:induction false} SequentialSketchVerdict(ids: seq<string>, names: seq<string>, speeds: seq<int>)
    requires forall k :: 0 <= k < |ids| ==> IsIdentifier(ids[k]) && ids[k] != ModeCount
    requires PlainNames(names)
    ensures var v := TestModeArraysMatchEnum(
        Sketch(EnumBody(Implicits(ids) + [Enumerator(ModeCount, Implicit)]),
               RenderNames(names), RenderSpeeds(speeds)));
      && (v == Pass <==> |names| == |ids| && |speeds| == |ids|)
      && (|names| != |ids| ==> v == Fail(NamesCountDiffers))
      && (|names| == |ids| && |speeds| != |ids| ==> v == Fail(SpeedsCountDiffers))
  {
    SequentialEnumCountsModes(ids);
    NamesRoundTrip(names);
    SpeedsRoundTrip(speeds);
  }
}
