/** `ScoreStorage`: the score ledger as the lines of `highscores.txt`.
    `saveScores` writes one `println(score)` per entry and `loadScores`
    keeps, in file order, every line whose trimmed text `Integer.parseInt`
    accepts. The file itself is the `ScoreFile` object; its lines stand for
    the text between line terminators. */
module ScoreStorage {
  import opened Numerals

  /** The lines `saveScores` writes for `scores`. */
  function Lines(scores: seq<Int32>): (r: seq<string>)
    ensures |r| == |scores|
  {
    seq(|scores|, i requires 0 <= i < |scores| => IntToString(scores[i]))
  }

  /** What `loadScores` makes of one line: `Integer.parseInt(line.trim())`,
      `None` where that throws `NumberFormatException`. */
  function LineValue(line: string): Option<Int32>
  {
    ParseInt(Trim(line))
  }

  /** What each line of a file loads as, line by line. */
  function Values(lines: seq<string>): (r: seq<Option<Int32>>)
    ensures |r| == |lines|
  {
    seq(|lines|, i requires 0 <= i < |lines| => LineValue(lines[i]))
  }

  /** The values present in `vs`, in order. */
  function Kept(vs: seq<Option<Int32>>): (r: seq<Int32>)
    ensures |r| <= |vs|
  {
    if vs == [] then []
    else (if vs[0].Some? then [vs[0].value] else []) + Kept(vs[1..])
  }

  /** The scores `loadScores` returns for a file with these lines: the value
      of each line that parses, in file order. */
  function Parsed(lines: seq<string>): (r: seq<Int32>)
    ensures |r| <= |lines|
  {
    Kept(Values(lines))
  }

  lemma {:induction false} KeptConcat(a: seq<Option<Int32>>, b: seq<Option<Int32>>)
    ensures Kept(a + b) == Kept(a) + Kept(b)
  {
    if a == [] {
      assert a + b == b;
    } else {
      var head := if a[0].Some? then [a[0].value] else [];
      assert (a + b)[0] == a[0];
      assert (a + b)[1..] == a[1..] + b;
      calc {
        Kept(a + b);
        head + Kept(a[1..] + b);
        { KeptConcat(a[1..], b); }
        head + (Kept(a[1..]) + Kept(b));
        (head + Kept(a[1..])) + Kept(b);
        Kept(a) + Kept(b);
      }
    }
  }

  /** Loading reads the file line by line: a file is loaded as the
      concatenation of what its parts load as. */
  lemma ParsedConcat(a: seq<string>, b: seq<string>)
    ensures Parsed(a + b) == Parsed(a) + Parsed(b)
  {
    assert Values(a + b) == Values(a) + Values(b);
    KeptConcat(Values(a), Values(b));
  }

  /** A line that does not parse is dropped and nothing else is affected. */
  lemma ParsedSkipsMalformed(before: seq<string>, line: string, after: seq<string>)
    requires LineValue(line) == None
    ensures Parsed(before + [line] + after) == Parsed(before) + Parsed(after)
  {
    ParsedConcat(before + [line], after);
    ParsedConcat(before, [line]);
  }

  /** A line that parses contributes its value, in its place. */
  lemma ParsedKeepsWellFormed(before: seq<string>, line: string, after: seq<string>, v: Int32)
    requires LineValue(line) == Some(v)
    ensures Parsed(before + [line] + after) == Parsed(before) + [v] + Parsed(after)
  {
    ParsedConcat(before + [line], after);
    ParsedConcat(before, [line]);
  }

  lemma {:induction false} KeptMembers(vs: seq<Option<Int32>>, v: Int32)
    ensures v in Kept(vs) <==> Some(v) in vs
  {
    if vs != [] {
      KeptMembers(vs[1..], v);
      assert vs == [vs[0]] + vs[1..];
    }
  }

  /** Every loaded value comes from a line of the file, and every line of
      the file that parses contributes its value. */
  lemma ParsedMembers(lines: seq<string>, v: Int32)
    ensures v in Parsed(lines) <==> exists k :: 0 <= k < |lines| && LineValue(lines[k]) == Some(v)
  {
    KeptMembers(Values(lines), v);
    if exists k :: 0 <= k < |lines| && LineValue(lines[k]) == Some(v) {
      var k :| 0 <= k < |lines| && LineValue(lines[k]) == Some(v);
      assert Values(lines)[k] == Some(v);
    }
  }

  /** The values `xs`, each marked as present. */
  function Present(xs: seq<Int32>): (r: seq<Option<Int32>>)
    ensures |r| == |xs|
  {
    seq(|xs|, i requires 0 <= i < |xs| => Some(xs[i]))
  }

  lemma {:induction false} KeptPresent(xs: seq<Int32>)
    ensures Kept(Present(xs)) == xs
  {
    if xs != [] {
      assert Present(xs)[1..] == Present(xs[1..]);
      KeptPresent(xs[1..]);
    }
  }

  /** Saving and loading back gives the same list, in the same order. */
  lemma LoadAfterSave(scores: seq<Int32>)
    ensures Parsed(Lines(scores)) == scores
  {
    forall i | 0 <= i < |scores|
      ensures Values(Lines(scores))[i] == Present(scores)[i]
    {
      TrimIntToString(scores[i]);
      ParseIntToString(scores[i]);
    }
    assert Values(Lines(scores)) == Present(scores);
    KeptPresent(scores);
  }

  /** The write loop of `saveScores`. */
  method SaveScores(scores: seq<Int32>) returns (lines: seq<string>)
    ensures lines == Lines(scores)
  {
    lines := [];
    for i := 0 to |scores|
      invariant lines == Lines(scores[..i])
    {
      assert Lines(scores[..i + 1]) == Lines(scores[..i]) + [IntToString(scores[i])];
      lines := lines + [IntToString(scores[i])];
    }
    assert scores[..|scores|] == scores;
  }

  /** The read loop of `loadScores`. */
  method LoadScores(lines: seq<string>) returns (scores: seq<Int32>)
    ensures scores == Parsed(lines)
  {
    scores := [];
    var i := 0;
    while i < |lines|
      invariant 0 <= i <= |lines|
      invariant scores == Parsed(lines[..i])
    {
      ParsedConcat(lines[..i], [lines[i]]);
      assert lines[..i + 1] == lines[..i] + [lines[i]];
      match LineValue(lines[i]) {
        case Some(v) => scores := scores + [v];
        case None =>
      }
      i := i + 1;
    }
    assert lines[..i] == lines;
  }

  /** The file `highscores.txt`. */
  class ScoreFile {
    /** Whether the file exists; reading a missing file loads nothing. */
    var present: bool
    var lines: seq<string>

    constructor Missing()
      ensures !present && lines == []
    {
      present, lines := false, [];
    }

    /** `saveScores`: the file is rewritten with one line per score. */
    method Save(scores: seq<Int32>)
      modifies this
      ensures present && lines == Lines(scores)
    {
      lines := SaveScores(scores);
      present := true;
    }

    /** `loadScores`: the parsed lines, or nothing when the file is missing. */
    method Load() returns (scores: seq<Int32>)
      ensures scores == if present then Parsed(lines) else []
    {
      if present {
        scores := LoadScores(lines);
      } else {
        scores := [];
      }
    }

    /** `clearScores`: the file is truncated to no lines. */
    method Clear()
      modifies this
      ensures present && lines == []
    {
      present, lines := true, [];
    }
  }
}
