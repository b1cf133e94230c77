/**
 * The Resume Filter: when the text log already exists, the dialogues whose
 * id is below the number of sentinels in it are skipped. The count is
 * `len(log.split(sentinel)) - 1`, one less than the number of pieces of
 * the split.
 */
module Resume {
  import opened Options
  import opened Text
  import opened Candidates
  import opened TextLog

  /** The entries of `d` whose key is at least `threshold`, in their order. */
  function KeepFrom(d: Dict<int, Entry>, threshold: int): Dict<int, Entry> {
    if d == [] then []
    else (if d[0].0 >= threshold then [d[0]] else []) + KeepFrom(d[1..], threshold)
  }

  /**
   * The pending dialogues: all of them when there is no text log yet,
   * else those whose key is at least the number of pieces of the log split
   * on the sentinel, less one.
   */
  function ResumeFilter(text: Option<string>, todo: Dict<int, Entry>): Dict<int, Entry> {
    match text
    case None => todo
    case Some(log) => KeepFrom(todo, |Split(log, Sentinel)| - 1)
  }

  /** The filter keeps exactly the entries at or above the threshold, and no more than there were. */
  lemma {:induction false} KeepFromMembers(d: Dict<int, Entry>, threshold: int)
    ensures forall p :: p in KeepFrom(d, threshold) <==> p in d && p.0 >= threshold
    ensures |KeepFrom(d, threshold)| <= |d|
  {
    if d != [] {
      KeepFromMembers(d[1..], threshold);
      assert d == [d[0]] + d[1..];
    }
  }

  /** The keys of `d` are 0, 1, ..., in order, as `get_lists_of_candidates` numbers them. */
  predicate Positional(d: Dict<int, Entry>) {
    NumberedFrom(d, 0)
  }

  /** The keys of `d` are `from`, `from + 1`, ..., in order. */
  predicate NumberedFrom(d: Dict<int, Entry>, from: int) {
    forall i | 0 <= i < |d| :: d[i].0 == from + i
  }

  /** On a dict numbered from `from`, keeping the keys at or above `threshold` drops the first `threshold - from` entries. */
  lemma {:induction false} KeepFromNumbered(d: Dict<int, Entry>, from: int, threshold: int)
    requires NumberedFrom(d, from) && from <= threshold <= from + |d|
    decreases |d|
    ensures KeepFrom(d, threshold) == d[threshold - from..]
  {
    if d != [] {
      assert NumberedFrom(d[1..], from + 1) by {
        forall i | 0 <= i < |d| - 1 ensures d[1..][i].0 == from + 1 + i { assert d[1..][i] == d[i + 1]; }
      }
      if threshold == from {
        KeepAll(d[1..], threshold);
        assert d[threshold - from..] == [d[0]] + d[1..];
      } else {
        KeepFromNumbered(d[1..], from + 1, threshold);
        assert d[1..][threshold - (from + 1)..] == d[threshold - from..];
      }
    }
  }

  /** Keys all at or above the threshold are all kept. */
  lemma {:induction false} KeepAll(d: Dict<int, Entry>, threshold: int)
    requires forall i | 0 <= i < |d| :: d[i].0 >= threshold
    decreases |d|
    ensures KeepFrom(d, threshold) == d
  {
    if d != [] {
      assert forall i | 0 <= i < |d| - 1 :: d[1..][i] == d[i + 1];
      KeepAll(d[1..], threshold);
      assert d == [d[0]] + d[1..];
    }
  }

  /**
   * Resuming after `k` transcripts were logged skips exactly the first
   * `k` dialogues of a positionally keyed dict: with no log, nothing is
   * skipped; with a log of `k` blocks the split yields `k + 1` pieces, and
   * the threshold is `k`.
   */
  lemma ResumeAfterBlocks(transcripts: seq<seq<string>>, todo: Dict<int, Entry>)
    requires Positional(todo) && |transcripts| <= |todo|
    requires forall t | t in transcripts :: IsBlock(t)
    ensures ResumeFilter(Some(Blocks(transcripts)), todo) == todo[|transcripts|..]
    ensures ResumeFilter(None, todo) == todo
  {
    BlockCount(transcripts);
    KeepFromNumbered(todo, 0, |transcripts|);
  }
}
