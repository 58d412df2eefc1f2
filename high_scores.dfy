/** The score history shared by the game and the high-score screen
    (an `ArrayList<Integer>` passed by reference), and what `HighScoreMenu`
    does with it: sort it in place in descending order, list it as ranked
    lines, and clear it together with the score file. */
module HighScores {
  import opened Numerals
  import opened ScoreStorage

  predicate NonIncreasing(s: seq<int>)
  {
    forall i, j :: 0 <= i < j < |s| ==> s[i] >= s[j]
  }

  /** `scores.sort(Collections.reverseOrder())`, as an insertion sort that
      puts each score after the ones not smaller than it. */
  method SortDescending(s: seq<Int32>) returns (r: seq<Int32>)
    ensures NonIncreasing(r)
    ensures multiset(r) == multiset(s)
  {
    r := [];
    for i := 0 to |s|
      invariant NonIncreasing(r)
      invariant multiset(r) == multiset(s[..i])
    {
      assert s[..i + 1] == s[..i] + [s[i]];
      r := Insert(r, s[i]);
    }
    assert s[..|s|] == s;
  }

  /** One step of the sort: x goes after every element not smaller than it. */
  method Insert(r: seq<Int32>, x: Int32) returns (r': seq<Int32>)
    requires NonIncreasing(r)
    ensures NonIncreasing(r')
    ensures multiset(r') == multiset(r) + multiset{x}
  {
    var j := 0;
    while j < |r| && r[j] >= x
      invariant 0 <= j <= |r|
      invariant forall k :: 0 <= k < j ==> r[k] >= x
    {
      j := j + 1;
    }
    assert r == r[..j] + r[j..];
    InsertedSorted(r[..j], x, r[j..]);
    r' := r[..j] + [x] + r[j..];
  }

  lemma InsertedSorted(front: seq<int>, x: int, back: seq<int>)
    requires NonIncreasing(front + back)
    requires forall k :: 0 <= k < |front| ==> front[k] >= x
    requires back == [] || back[0] < x
    ensures NonIncreasing(front + [x] + back)
  {
    var s, t := front + back, front + [x] + back;
    forall p, q | 0 <= p < q < |t|
      ensures t[p] >= t[q]
    {
      if q < |front| {
        assert t[p] == s[p] && t[q] == s[q];
      } else if q == |front| {
        assert t[p] == front[p];
      } else if p < |front| {
        assert t[p] == s[p] && t[q] == s[q - 1];
      } else if p == |front| {
        assert t[q] == s[q - 1] && s[|front|] == back[0];
      } else {
        assert t[p] == s[p - 1] && t[q] == s[q - 1];
      }
    }
  }

  /** The sorted list is determined by its contents: two non-increasing
      lists with the same elements are equal, so the order of equal scores
      cannot show in what is displayed. */
  lemma {:induction false} SortedUnique(a: seq<int>, b: seq<int>)
    requires NonIncreasing(a) && NonIncreasing(b)
    requires multiset(a) == multiset(b)
    ensures a == b
  {
    if a == [] {
      assert |b| == |multiset(b)| == 0;
    } else {
      assert b != [] by {
        assert a[0] in multiset(b);
      }
      assert a[0] == b[0] by {
        assert a[0] in multiset(b) && b[0] in multiset(a);
        HeadIsLargest(a, b[0]);
        HeadIsLargest(b, a[0]);
      }
      assert multiset(a[1..]) == multiset(b[1..]) by {
        TailMultiset(a);
        TailMultiset(b);
      }
      assert NonIncreasing(a[1..]) && NonIncreasing(b[1..]);
      SortedUnique(a[1..], b[1..]);
      assert a == [a[0]] + a[1..] && b == [b[0]] + b[1..];
    }
  }

  lemma HeadIsLargest(s: seq<int>, x: int)
    requires NonIncreasing(s) && x in s
    ensures x <= s[0]
  {
    var i :| 0 <= i < |s| && s[i] == x;
  }

  lemma TailMultiset(s: seq<int>)
    requires s != []
    ensures multiset(s[1..]) == multiset(s) - multiset{s[0]}
  {
    assert s == [s[0]] + s[1..];
  }

  /** One line of the list: `rank + ". " + score + "\n"`. */
  function RankLine(rank: int, score: int): string
  {
    IntToString(rank) + ". " + IntToString(score) + "\n"
  }

  /** The heading above the list. */
  function Header(retryCount: int): string
  {
    "High Scores:\n" + "Retry terakhir: " + IntToString(retryCount) + "\n\n"
  }

  /** The loop that numbers the scores from 1. */
  method RankLines(scores: seq<Int32>) returns (lines: seq<string>)
    ensures |lines| == |scores|
    ensures forall i :: 0 <= i < |scores| ==> lines[i] == RankLine(i + 1, scores[i])
  {
    lines := [];
    var rank := 1;
    for i := 0 to |scores|
      invariant rank == i + 1
      invariant |lines| == i
      invariant forall k :: 0 <= k < i ==> lines[k] == RankLine(k + 1, scores[k])
    {
      lines := lines + [RankLine(rank, scores[i])];
      rank := rank + 1;
    }
  }

  /** The lines one after another, as the text area shows them. */
  function Concat(lines: seq<string>): string
  {
    if lines == [] then "" else lines[0] + Concat(lines[1..])
  }

  /** The first position of c in s, or |s| when there is none. */
  function IndexOf(s: string, c: char): (i: nat)
    ensures i <= |s|
    ensures i < |s| ==> s[i] == c
    ensures forall k :: 0 <= k < i ==> s[k] != c
  {
    if s == [] || s[0] == c then 0 else 1 + IndexOf(s[1..], c)
  }

  /** How a reader of the list recovers rank and score from a line: the
      text before the first `.` and the text between `. ` and the line end,
      each read with `Integer.parseInt`. */
  function ReadRankLine(line: string): Option<(Int32, Int32)>
  {
    var i := IndexOf(line, '.');
    if i + 3 <= |line| && line[i..i + 2] == ". " && line[|line| - 1] == '\n' then
      match (ParseInt(line[..i]), ParseInt(line[i + 2..|line| - 1]))
      case (Some(rank), Some(score)) => Some((rank, score))
      case _ => None
    else None
  }

  /** A rank line is read back as the rank and the score it was made from. */
  lemma ReadRankLineInverse(rank: Int32, score: Int32)
    ensures ReadRankLine(RankLine(rank, score)) == Some((rank, score))
  {
    IntToStringOnlySignAndDigits(rank, '.');
    SplitRankLine(IntToString(rank), IntToString(score));
    ParseIntToString(rank);
    ParseIntToString(score);
  }

  /** Where `ReadRankLine` cuts a line `a + ". " + b + "\n"` when a holds no `.`. */
  lemma SplitRankLine(a: string, b: string)
    requires '.' !in a
    ensures var line := a + ". " + b + "\n";
      && IndexOf(line, '.') == |a| && |a| + 3 <= |line|
      && line[|a|..|a| + 2] == ". " && line[|line| - 1] == '\n'
      && line[..|a|] == a && line[|a| + 2..|line| - 1] == b
  {
    var line := a + ". " + b + "\n";
    assert line == a + (". " + b + "\n");
    IndexOfAfter(a, ". " + b + "\n", '.');
  }

  lemma {:induction false} IndexOfAfter(a: string, rest: string, c: char)
    requires c !in a && rest != [] && rest[0] == c
    ensures IndexOf(a + rest, c) == |a|
  {
    if a != [] {
      assert (a + rest)[1..] == a[1..] + rest;
      IndexOfAfter(a[1..], rest, c);
    } else {
      assert a + rest == rest;
    }
  }

  /** The displayed list carries exactly the ranks 1..N, in order, each
      next to the score in that place. */
  lemma RanksReadBack(scores: seq<Int32>, lines: seq<string>)
    requires |scores| <= MaxInt32
    requires |lines| == |scores|
    requires forall i :: 0 <= i < |scores| ==> lines[i] == RankLine(i + 1, scores[i])
    ensures forall i :: 0 <= i < |lines| ==> ReadRankLine(lines[i]) == Some((i + 1, scores[i]))
  {
    forall i | 0 <= i < |lines|
      ensures ReadRankLine(lines[i]) == Some((i + 1, scores[i]))
    {
      ReadRankLineInverse(i + 1, scores[i]);
    }
  }

  /** The score history: one list object that the game appends to and the
      high-score screen sorts and clears. */
  class Ledger {
    var scores: seq<Int32>

    constructor (initial: seq<Int32>)
      ensures scores == initial
    {
      scores := initial;
    }

    /** `scoreHistory.add(score)`. */
    method Add(score: Int32)
      modifies this
      ensures scores == old(scores) + [score]
    {
      scores := scores + [score];
    }

    /** Opening `HighScoreMenu`: the list is sorted in place, largest first,
        and shown under the heading as ranked lines. */
    method ShowHighScores(retryCount: Int32) returns (text: string, ranked: seq<string>)
      modifies this
      ensures NonIncreasing(scores) && multiset(scores) == multiset(old(scores))
      ensures |ranked| == |scores|
      ensures forall i :: 0 <= i < |scores| ==> ranked[i] == RankLine(i + 1, scores[i])
      ensures text == Header(retryCount) + Concat(ranked)
    {
      scores := SortDescending(scores);
      ranked := RankLines(scores);
      text := Header(retryCount) + Concat(ranked);
    }

    /** The confirmed "Clear Scores" action: the list and the file are
        emptied and only the title stays on screen. */
    method Clear(file: ScoreFile) returns (text: string)
      modifies this, file
      ensures scores == []
      ensures file.present && file.lines == []
      ensures text == "High Scores:\n"
    {
      scores := [];
      file.Clear();
      text := "High Scores:\n";
    }
  }

  /** "High Scores" in the main menu: a list freshly loaded from the file,
      sorted and shown under the heading with retry count 0. */
  method ShowStoredHighScores(file: ScoreFile) returns (text: string, shown: seq<Int32>)
    ensures NonIncreasing(shown)
    ensures multiset(shown) == multiset(if file.present then Parsed(file.lines) else [])
    ensures exists ranked: seq<string> ::
      && |ranked| == |shown|
      && (forall i :: 0 <= i < |shown| ==> ranked[i] == RankLine(i + 1, shown[i]))
      && text == Header(0) + Concat(ranked)
  {
    var loaded := file.Load();
    var ledger := new Ledger(loaded);
    var ranked;
    text, ranked := ledger.ShowHighScores(0);
    shown := ledger.scores;
  }
}
