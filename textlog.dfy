/**
 * The text log `dialogues.txt`: each successful transcript is appended to
 * it line by line, each line followed by a line feed, and every transcript
 * opens with the sentinel line of 18 asterisks. A later run reads the log
 * back and counts the sentinels to know where to resume.
 */
module TextLog {
  import opened Options
  import opened Text

  /** The line that opens every transcript in the text log (18 asterisks). */
  const Sentinel: string := "******************"

  /** `for line in dialogue: f.write(f"{line}\n")`. */
  function Render(lines: seq<string>): string {
    if lines == [] then "" else lines[0] + "\n" + Render(lines[1..])
  }

  /** Writing one more line adds it and its line feed at the end. */
  lemma {:induction false} RenderAppend(lines: seq<string>, line: string)
    ensures Render(lines + [line]) == Render(lines) + line + "\n"
  {
    if lines == [] {
      assert [line][1..] == [];
    } else {
      assert (lines + [line])[1..] == lines[1..] + [line];
      RenderAppend(lines[1..], line);
    }
  }

  /** A non-empty block ends with a line feed. */
  lemma RenderEndsWithNewline(lines: seq<string>)
    requires lines != []
    ensures |Render(lines)| > 0 && Render(lines)[|Render(lines)| - 1] == '\n'
  {
    var n := |lines| - 1;
    assert lines == lines[..n] + [lines[n]];
    RenderAppend(lines[..n], lines[n]);
  }

  /**
   * Reading a block back: when no line holds a line feed, splitting the
   * block on line feeds gives the lines again, and one empty piece after
   * the last line feed.
   */
  lemma {:induction false} RenderSplitsBack(lines: seq<string>)
    requires forall i | 0 <= i < |lines| :: NoNewline(lines[i])
    ensures Split(Render(lines), "\n") == lines + [""]
  {
    if lines == [] {
      FindAbsent("", "\n");
    } else {
      SplitAtLineEnd(lines[0], Render(lines[1..]));
      RenderSplitsBack(lines[1..]);
      assert lines + [""] == [lines[0]] + (lines[1..] + [""]);
    }
  }

  /** A line without line feeds, then a line feed: the split on line feeds takes the line as its first piece. */
  lemma SplitAtLineEnd(line: string, rest: string)
    requires NoNewline(line)
    ensures Split(line + "\n" + rest, "\n") == [line] + Split(rest, "\n")
  {
    var s := line + "\n" + rest;
    assert OccursAt(s, "\n", |line|) by {
      assert s[|line|..|line| + 1] == "\n";
    }
    forall j | 0 <= j < |line|
      ensures !OccursAt(s, "\n", j)
    {
      assert s[j] == line[j];
      if OccursAt(s, "\n", j) {
        CharOfOccurrence(s, "\n", j, 0);
      }
    }
    FindIsFirst(s, "\n", |line|);
    assert s[..|line|] == line && s[|line| + 1..] == rest;
    SplitUnfold(s, "\n", |line|, rest);
  }

  /** How many of the lines are the sentinel line itself. */
  function SentinelLines(lines: seq<string>): nat {
    if lines == [] then 0 else (if lines[0] == Sentinel then 1 else 0) + SentinelLines(lines[1..])
  }

  /** No occurrence of the sentinel fits in a text shorter than it. */
  lemma ShortAvoidsSentinel(s: string)
    requires |s| < |Sentinel|
    ensures Split(s, Sentinel) == [s]
  {
    FindAbsent(s, Sentinel);
  }

  /**
   * One written line adds a piece to the split on the sentinel exactly
   * when it is the sentinel; a line that does not hold the sentinel adds
   * none, because the line feed after it cannot be part of one.
   */
  lemma LineSplitCount(line: string)
    requires line == Sentinel || !Contains(line, Sentinel)
    ensures |Split(line + "\n", Sentinel)| == if line == Sentinel then 2 else 1
  {
    var s := line + "\n";
    if line == Sentinel {
      assert OccursAt(s, Sentinel, 0) by { assert s[..|Sentinel|] == Sentinel; }
      FindIsFirst(s, Sentinel, 0);
      assert s[|Sentinel|..] == "\n";
      ShortAvoidsSentinel("\n");
    } else {
      forall j | 0 <= j
        ensures !OccursAt(s, Sentinel, j)
      {
        if OccursAt(s, Sentinel, j) {
          if j + |Sentinel| <= |line| {
            assert s[j..j + |Sentinel|] == line[j..j + |Sentinel|];
            assert OccursAt(line, Sentinel, j);
          } else {
            CharOfOccurrence(s, Sentinel, j, |Sentinel| - 1);
          }
        }
      }
      FindAbsent(s, Sentinel);
    }
  }

  /**
   * `len(log.split(sentinel)) - 1` counts the sentinel lines of a block
   * whose other lines do not hold the sentinel.
   */
  lemma {:induction false} SentinelCount(lines: seq<string>)
    requires forall i | 0 <= i < |lines| :: lines[i] == Sentinel || !Contains(lines[i], Sentinel)
    ensures |Split(Render(lines), Sentinel)| == 1 + SentinelLines(lines)
  {
    if lines == [] {
      ShortAvoidsSentinel("");
    } else {
      var head := lines[0] + "\n";
      assert Render(lines) == head + Render(lines[1..]);
      LineSplitCount(lines[0]);
      SplitConcat(head, Render(lines[1..]), Sentinel);
      SentinelCount(lines[1..]);
    }
  }

  /**
   * A transcript as the text log holds it: the sentinel line first, and no
   * later line holding the sentinel.
   */
  predicate IsBlock(lines: seq<string>) {
    |lines| >= 1 && lines[0] == Sentinel && forall j | 1 <= j < |lines| :: !Contains(lines[j], Sentinel)
  }

  /** The text log after the given transcripts were appended to an empty one, in order. */
  function Blocks(transcripts: seq<seq<string>>): string {
    if transcripts == [] then "" else Render(transcripts[0]) + Blocks(transcripts[1..])
  }

  /** Appending transcripts to a log of earlier ones. */
  lemma {:induction false} BlocksAppend(earlier: seq<seq<string>>, later: seq<seq<string>>)
    ensures Blocks(earlier + later) == Blocks(earlier) + Blocks(later)
  {
    if earlier != [] {
      assert (earlier + later)[1..] == earlier[1..] + later;
      BlocksAppend(earlier[1..], later);
    } else {
      assert earlier + later == later;
    }
  }

  /** A transcript holds exactly one sentinel line. */
  lemma {:induction false} OneSentinelLine(lines: seq<string>)
    requires |lines| >= 1 && lines[0] == Sentinel
    requires forall j | 1 <= j < |lines| :: !Contains(lines[j], Sentinel)
    ensures SentinelLines(lines) == 1
  {
    var rest := lines[1..];
    forall j | 0 <= j < |rest|
      ensures !Contains(rest[j], Sentinel)
    {
      assert rest[j] == lines[j + 1];
    }
    NoSentinelLines(rest);
  }

  lemma {:induction false} NoSentinelLines(lines: seq<string>)
    requires forall j | 0 <= j < |lines| :: !Contains(lines[j], Sentinel)
    ensures SentinelLines(lines) == 0
  {
    if lines != [] {
      assert OccursAt(Sentinel, Sentinel, 0);
      NoSentinelLines(lines[1..]);
    }
  }

  /**
   * The hazard of counting sentinels: a transcript that opens with the
   * sentinel and has a later line holding it, as when a model reply holds
   * 18 asterisks in a row, is read back as two logged dialogues or more.
   */
  lemma SentinelInLineMiscounts(lines: seq<string>, j: nat)
    requires |lines| >= 1 && lines[0] == Sentinel
    requires 1 <= j < |lines| && Contains(lines[j], Sentinel)
    ensures |Split(Render(lines), Sentinel)| - 1 >= 2
  {
    MarkedLineSplits(lines, Sentinel, j);
  }

  /** `SentinelInLineMiscounts` for any separator. */
  lemma MarkedLineSplits(lines: seq<string>, sep: string, j: nat)
    requires |sep| > 0 && |lines| >= 1 && lines[0] == sep
    requires 1 <= j < |lines| && Contains(lines[j], sep)
    ensures |Split(Render(lines), sep)| >= 3
  {
    var k :| 0 <= k <= |lines[j]| - |sep| && OccursAt(lines[j], sep, k);
    var head := Render(lines[..j]);
    RenderAround(lines, j);
    RenderOpens(lines[..j]);
    OccursInFour(head, lines[j], "\n", Render(lines[j + 1..]), sep, 0, k);
    SplitTwoOccurrences(Render(lines), sep, 0, |head| + k);
  }

  /** The lines before line `j`, line `j` and its line feed, then the lines after it. */
  lemma {:induction false} RenderAround(lines: seq<string>, j: nat)
    requires j < |lines|
    decreases j
    ensures Render(lines) == Render(lines[..j]) + lines[j] + "\n" + Render(lines[j + 1..])
  {
    var rest := lines[1..];
    if j == 0 {
      assert lines[1..] == lines[j + 1..];
    } else {
      RenderAround(rest, j - 1);
      assert lines[..j][1..] == rest[..j - 1];
      assert rest[j..] == lines[j + 1..] && rest[j - 1] == lines[j];
    }
  }

  /** A written block starts with its first line and a line feed. */
  lemma RenderOpens(lines: seq<string>)
    requires |lines| >= 1
    ensures |Render(lines)| > |lines[0]| && OccursAt(Render(lines), lines[0], 0)
  {
    assert Render(lines)[..|lines[0]|] == lines[0];
  }

  /** A log of `k` transcripts splits into `k + 1` pieces on the sentinel. */
  lemma {:induction false} BlockCount(transcripts: seq<seq<string>>)
    requires forall t | t in transcripts :: IsBlock(t)
    ensures |Split(Blocks(transcripts), Sentinel)| == |transcripts| + 1
  {
    if transcripts == [] {
      ShortAvoidsSentinel("");
    } else {
      var first := transcripts[0];
      var rest := transcripts[1..];
      assert first in transcripts;
      assert forall t | t in rest :: t in transcripts;
      BlockCount(rest);
      OneSentinelLine(first);
      forall i | 0 <= i < |first|
        ensures first[i] == Sentinel || !Contains(first[i], Sentinel)
      {
      }
      SentinelCount(first);
      RenderEndsWithNewline(first);
      SplitConcat(Render(first), Blocks(rest), Sentinel);
    }
  }
}
