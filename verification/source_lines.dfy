/** The line cleaner the checker applies to every line of the enum block
    and of the speed table: `line.split("//")[0].strip().rstrip(',')`.
 */
module SourceLines {
  import opened Outcomes
  import opened PyStr

  /** The C++ line-comment marker. */
  const Comment := "//"

  /** The code on a line: the text before the first `//`, stripped. */
  function CodeText(line: string): (r: string)
    ensures Trimmed(r)
    ensures forall j :: 0 <= j <= |r| ==> !OccursAt(r, Comment, j)
  {
    var h := SplitHead(line, Comment);
    var r := Strip(h);
    CodeHasNoComment(line, h, SkipSpace(h, 0), r);
    r
  }

  /** Text cut from before the first comment marker holds no marker. */
  lemma CodeHasNoComment(line: string, h: string, i: nat, r: string)
    requires |h| <= |line| && forall k :: 0 <= k < |h| ==> line[k] == h[k]
    requires forall j :: 0 <= j < |h| ==> !OccursAt(line, Comment, j)
    requires Surrounds(h, i, r)
    ensures forall j :: 0 <= j <= |r| ==> !OccursAt(r, Comment, j)
  {
    forall j | 0 <= j <= |r|
      ensures !OccursAt(r, Comment, j)
    {
      if OccursAt(r, Comment, j) {
        forall d | i + j <= d < i + j + |Comment|
          ensures line[d] == r[d - i]
        {
          assert h[i + (d - i)] == r[d - i];
        }
        OccursInWindow(r, j, line, i + j, Comment);
      }
    }
  }

  /** The cleaned line: its code without trailing commas. */
  function CleanLine(line: string): (r: string)
    ensures r == [] || (!IsSpace(r[0]) && r[|r| - 1] != ',')
    ensures forall j :: 0 <= j <= |r| ==> !OccursAt(r, Comment, j)
    ensures |r| <= |CodeText(line)| && r == CodeText(line)[..|r|]
    ensures forall k :: |r| <= k < |CodeText(line)| ==> CodeText(line)[k] == ','
  {
    CodeWithoutCommas(CodeText(line))
  }

  /** Code without its trailing commas. */
  function CodeWithoutCommas(c: string): (r: string)
    requires Trimmed(c)
    requires forall j :: 0 <= j <= |c| ==> !OccursAt(c, Comment, j)
    ensures r == [] || (!IsSpace(r[0]) && r[|r| - 1] != ',')
    ensures forall j :: 0 <= j <= |r| ==> !OccursAt(r, Comment, j)
    ensures |r| <= |c| && r == c[..|r|]
    ensures forall k :: |r| <= k < |c| ==> c[k] == ','
  {
    var r := RStripChar(c, ',');
    PrefixHasNoComment(c, r);
    assert r != [] ==> r[0] == c[0];
    r
  }

  /** A prefix of text without a comment marker holds none either. */
  lemma PrefixHasNoComment(c: string, r: string)
    requires |r| <= |c| && r == c[..|r|]
    requires forall j :: 0 <= j <= |c| ==> !OccursAt(c, Comment, j)
    ensures forall j :: 0 <= j <= |r| ==> !OccursAt(r, Comment, j)
  {
    forall j | 0 <= j <= |r|
      ensures !OccursAt(r, Comment, j)
    {
      if OccursAt(r, Comment, j) {
        OccursInWindow(r, j, c, j, Comment);
      }
    }
  }

  /** Stripping a line first leaves its code unchanged. */
  lemma CodeTextOfStripped(line: string)
    ensures CodeText(Strip(line)) == CodeText(line)
  {
    PaddedHead(line, SkipSpace(line, 0), Strip(line));
  }

  /** Whitespace around a trimmed text changes neither where its comment
      starts nor the stripped code before it. */
  lemma PaddedHead(s: string, i: nat, m: string)
    requires Surrounds(s, i, m) && Trimmed(m)
    ensures Strip(SplitHead(s, Comment)) == Strip(SplitHead(m, Comment))
  {
    assert !IsSpace(Comment[0]) && !IsSpace(Comment[|Comment| - 1]);
    FindInPadded(s, i, m, Comment);
    match Find(m, Comment)
    case Some(p) =>
      assert SplitHead(m, Comment) == m[..p];
      assert SplitHead(s, Comment) == s[..i + p];
      StripHead(s, i, m, p);
    case None =>
      assert SplitHead(m, Comment) == m;
      assert SplitHead(s, Comment) == s;
      StripTrimmed(m);
      StripUnique(s, i, m);
  }

  /** A prefix of a padded string reaching into its text strips like the
      same prefix of the text. */
  lemma StripHead(s: string, i: nat, m: string, p: nat)
    requires Surrounds(s, i, m) && p <= |m|
    ensures Strip(s[..i + p]) == Strip(m[..p])
  {
    SurroundedSlice(s, i, m);
    PrefixIntoSlice(s, i, m, p);
    var a := s[..i];
    assert AllSpace(a) by {
      forall k | 0 <= k < |a|
        ensures IsSpace(a[k])
      {
        assert a[k] == s[k];
      }
    }
    StripAfterSpace(a, m[..p]);
  }

  /** A line of whitespace has no code. */
  lemma BlankLineHasNoCode(line: string)
    requires Strip(line) == []
    ensures CodeText(line) == []
  {
    CodeTextOfStripped(line);
    assert SplitHead([], Comment) == [];
  }

  /** A line without a slash has no comment. */
  lemma NoSlashNoComment(s: string)
    requires '/' !in s
    ensures SplitHead(s, Comment) == s
  {
    forall j | 0 <= j <= |s|
      ensures !OccursAt(s, Comment, j)
    {
      if j < |s| {
        NotOccursAtFirst(s, Comment, j);
      }
    }
  }

  /** Indented text without a slash is all code. */
  lemma CodeOfIndented(pad: string, text: string)
    requires AllSpace(pad) && Trimmed(text) && '/' !in text
    ensures CodeText(pad + text) == text
  {
    NoSlashNoComment(pad + text);
    StripAfterSpace(pad, text);
    StripTrimmed(text);
  }

  /** A token on its own line, indented and optionally followed by one
      comma, cleans to the token. Whitespace at the end of the token
      survives when a comma follows it, since `strip` runs before
      `rstrip(',')`. */
  lemma CleanToken(pad: string, token: string, comma: bool)
    requires AllSpace(pad)
    requires |token| > 0 && !IsSpace(token[0]) && (comma || !IsSpace(token[|token| - 1]))
    requires token[|token| - 1] != ',' && '/' !in token
    ensures CleanLine(pad + token + (if comma then "," else "")) == token
  {
    var tail := token + (if comma then "," else "");
    var line := pad + tail;
    assert line == pad + token + (if comma then "," else "");
    assert tail[0] == token[0];
    assert tail[|tail| - 1] == (if comma then ',' else token[|token| - 1]);
    CodeOfIndented(pad, tail);
    assert CleanLine(line) == RStripChar(tail, ',');
    if comma {
      assert tail[..|tail| - 1] == token;
      assert RStripChar(tail, ',') == RStripChar(token, ',');
    }
    assert RStripChar(token, ',') == token;
  }

  /** Lines 16 and 40: everything from the first `//` on is discarded, and
      the code before it is stripped. */
  lemma CodeBeforeComment(pad: string, code: string, gap: string, comment: string)
    requires AllSpace(pad) && AllSpace(gap) && Trimmed(code) && '/' !in code
    ensures CodeText(pad + code + gap + Comment + comment) == code
  {
    var head := pad + code + gap;
    var line := head + Comment + comment;
    assert line == pad + code + gap + Comment + comment;
    forall j | 0 <= j < |head|
      ensures !OccursAt(line, Comment, j)
    {
      assert line[j] == head[j];
      if j < |pad| {
        assert head[j] == pad[j];
      } else if j < |pad| + |code| {
        assert head[j] == code[j - |pad|];
      } else {
        assert head[j] == gap[j - |pad| - |code|];
      }
      NotOccursAtFirst(line, Comment, j);
    }
    assert line[|head|..|head| + |Comment|] == Comment;
    FindIs(line, Comment, |head|);
    assert line[..|head|] == head;
    StripPadded(pad, code, gap);
  }

  /** A line holding only a comment, however indented, has no code. */
  lemma CommentLineIsBlank(pad: string, comment: string)
    requires AllSpace(pad)
    ensures CleanLine(pad + Comment + comment) == []
  {
    var line := pad + Comment + comment;
    forall j | 0 <= j < |pad|
      ensures !OccursAt(line, Comment, j)
    {
      assert line[j] == pad[j];
      NotOccursAtFirst(line, Comment, j);
    }
    assert line[|pad|..|pad| + |Comment|] == Comment;
    FindIs(line, Comment, |pad|);
    assert SplitHead(line, Comment) == pad + [] + [];
    StripPadded(pad, [], []);
  }
}
