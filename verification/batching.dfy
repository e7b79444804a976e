/** Periodic saving in `scrape_and_save` (new.py): the rows of one city are saved every
    `SAVE_INTERVAL` results, and whatever is left at the end is saved once more. */
module Batching {
  import opened Wrappers
  import opened Seqs

  /** `SAVE_INTERVAL`: rows per save. */
  const SaveInterval: nat := 20

  /** `xs` cut into consecutive groups of `n`, the last group possibly shorter. */
  function Chunks<T>(xs: seq<T>, n: nat): seq<seq<T>>
    requires n > 0
    decreases |xs|
  {
    if xs == [] then []
    else if |xs| <= n then [xs]
    else [xs[..n]] + Chunks(xs[n..], n)
  }

  /** The groups, joined, give back `xs`; none is empty; none is longer than `n`; all but the
      last have exactly `n` elements. */
  lemma {:induction false} ChunksSpec<T>(xs: seq<T>, n: nat)
    requires n > 0
    ensures Flatten(Chunks(xs, n)) == xs
    ensures forall i :: 0 <= i < |Chunks(xs, n)| ==> 0 < |Chunks(xs, n)[i]| <= n
    ensures forall i :: 0 <= i < |Chunks(xs, n)| - 1 ==> |Chunks(xs, n)[i]| == n
    decreases |xs|
  {
    if xs == [] {
    } else if |xs| <= n {
      assert Flatten([xs]) == xs + Flatten([]);
    } else {
      var rest := Chunks(xs[n..], n);
      ChunksSpec(xs[n..], n);
      assert Chunks(xs, n) == [xs[..n]] + rest;
      assert Flatten([xs[..n]] + rest) == xs[..n] + Flatten(rest);
      assert xs[..n] + xs[n..] == xs;
    }
  }

  /** The groups are determined by the three properties: any cutting of `xs` into non-empty
      groups of at most `n`, all but the last exactly `n`, is `Chunks(xs, n)`. */
  lemma {:induction false} ChunksUnique<T>(xs: seq<T>, n: nat, cs: seq<seq<T>>)
    requires n > 0
    requires Flatten(cs) == xs
    requires forall i :: 0 <= i < |cs| ==> 0 < |cs[i]| <= n
    requires forall i :: 0 <= i < |cs| - 1 ==> |cs[i]| == n
    ensures cs == Chunks(xs, n)
    decreases |cs|
  {
    if cs != [] {
      var rest := cs[1..];
      assert Flatten(cs) == cs[0] + Flatten(rest);
      if rest == [] {
        assert Flatten(rest) == [];
        assert cs[0] == xs;
      } else {
        assert |rest[0]| > 0;
        FlattenNonEmpty(rest);
        assert |cs[0]| == n;
        assert xs[..n] == cs[0] && xs[n..] == Flatten(rest);
        ChunksUnique(xs[n..], n, rest);
      }
    }
  }

  lemma {:induction false} FlattenNonEmpty<T>(ss: seq<seq<T>>)
    requires ss != [] && ss[0] != []
    ensures Flatten(ss) != []
  {
    assert Flatten(ss) == ss[0] + Flatten(ss[1..]);
  }

  /** Adding a group to a whole number of groups adds it as the last group. */
  lemma {:induction false} ChunksSnoc<T>(xs: seq<T>, group: seq<T>)
    requires |xs| % SaveInterval == 0 && 0 < |group| <= SaveInterval
    ensures Chunks(xs + group, SaveInterval) == Chunks(xs, SaveInterval) + [group]
  {
    var cs := Chunks(xs, SaveInterval) + [group];
    ChunksSpec(xs, SaveInterval);
    FlattenConcat(Chunks(xs, SaveInterval), [group]);
    assert Flatten([group]) == group + Flatten([]);
    assert forall i :: 0 <= i < |cs| - 1 ==> |cs[i]| == SaveInterval by {
      ChunksFull(xs);
    }
    ChunksUnique(xs + group, SaveInterval, cs);
  }

  /** A whole number of groups has no short group. */
  lemma {:induction false} ChunksFull<T>(xs: seq<T>)
    requires |xs| % SaveInterval == 0
    ensures forall i :: 0 <= i < |Chunks(xs, SaveInterval)| ==> |Chunks(xs, SaveInterval)[i]| == SaveInterval
    decreases |xs|
  {
    ChunksSpec(xs, SaveInterval);
    if |xs| > SaveInterval {
      ChunksFull(xs[SaveInterval..]);
    }
  }

  /** 45 results give groups of 20, 20 and 5. */
  lemma {:induction false} FortyFiveRows<T>(xs: seq<T>)
    requires |xs| == 45
    ensures |Chunks(xs, SaveInterval)| == 3
    ensures |Chunks(xs, SaveInterval)[0]| == 20 && |Chunks(xs, SaveInterval)[1]| == 20
    ensures |Chunks(xs, SaveInterval)[2]| == 5
  {
    var tail := xs[SaveInterval..];
    assert Chunks(tail, SaveInterval) == [tail[..SaveInterval]] + Chunks(tail[SaveInterval..], SaveInterval);
    assert Chunks(tail[SaveInterval..], SaveInterval) == [tail[SaveInterval..]];
  }

  /** No results, no save. */
  lemma {:induction false} NoRows<T>()
    ensures Chunks<T>([], SaveInterval) == []
  {
  }

  /** Position of the first failed result, or the number of results when none failed. */
  function FirstFailure<T>(results: seq<Option<T>>): (k: nat)
    ensures k <= |results|
    ensures forall j :: 0 <= j < k ==> results[j].Some?
    ensures k < |results| ==> results[k].None?
  {
    if results == [] || results[0].None? then 0 else 1 + FirstFailure(results[1..])
  }

  /** The values of results that all succeeded. */
  function Values<T>(results: seq<Option<T>>): (vs: seq<T>)
    requires forall j :: 0 <= j < |results| ==> results[j].Some?
    ensures |vs| == |results|
    ensures forall j :: 0 <= j < |results| ==> results[j] == Some(vs[j])
  {
    seq(|results|, j requires 0 <= j < |results| => results[j].value)
  }

  /** The saves a city's results lead to. Results are consumed in order; the first failure raises
      out of the loop, so only the whole groups of rows before it were saved and the rows
      buffered since the last save are lost. Without a failure every row is saved. */
  datatype Flushed<T> = Flushed(batches: seq<seq<T>>, completed: bool)

  function Schedule<T>(results: seq<Option<T>>): (f: Flushed<T>)
    ensures f.completed <==> forall j :: 0 <= j < |results| ==> results[j].Some?
  {
    var k := FirstFailure(results);
    var done := Values(results[..k]);
    if k == |results| then Flushed(Chunks(done, SaveInterval), true)
    else Flushed(Chunks(done[..k - k % SaveInterval], SaveInterval), false)
  }

  /** The loop of `scrape_and_save` over one city's results, with `index` counting from 1: a
      row is buffered per result, the buffer is saved whenever `index % SAVE_INTERVAL == 0`,
      and a non-empty remainder is saved after the loop. A failed result stops everything. */
  method FlushSchedule<T>(results: seq<Option<T>>) returns (batches: seq<seq<T>>, completed: bool)
    ensures Flushed(batches, completed) == Schedule(results)
  {
    var buffer: seq<T> := [];
    batches := [];
    var index := 0;
    var saved := 0;
    ghost var rows: seq<T> := [];
    while index < |results|
      invariant |rows| == index <= |results|
      invariant forall j :: 0 <= j < index ==> results[j] == Some(rows[j])
      invariant |buffer| == index % SaveInterval && saved == index - |buffer|
      invariant rows == rows[..saved] + buffer
      invariant batches == Chunks(rows[..saved], SaveInterval)
    {
      if results[index].None? {
        completed := false;
        ScheduleAborted(results, rows);
        return;
      }
      var row := results[index].value;
      ghost var prev := rows;
      buffer := buffer + [row];
      rows := rows + [row];
      index := index + 1;
      assert rows[..saved] == prev[..saved];
      assert rows == rows[..saved] + buffer;
      if index % SaveInterval == 0 {
        assert |buffer| == SaveInterval && saved % SaveInterval == 0;
        ChunksSnoc(rows[..saved], buffer);
        batches := batches + [buffer];
        buffer := [];
        saved := index;
        assert rows[..saved] == rows;
      }
    }
    ScheduleCompleted(results, rows);
    if buffer != [] {
      ChunksSnoc(rows[..saved], buffer);
      batches := batches + [buffer];
    } else {
      assert rows[..saved] == rows;
    }
    completed := true;
  }

  /** The schedule when the result after `rows` failed: the whole groups of `rows` only. */
  lemma {:induction false} ScheduleAborted<T>(results: seq<Option<T>>, rows: seq<T>)
    requires |rows| < |results| && results[|rows|].None?
    requires forall j :: 0 <= j < |rows| ==> results[j] == Some(rows[j])
    ensures Schedule(results)
            == Flushed(Chunks(rows[..|rows| - |rows| % SaveInterval], SaveInterval), false)
  {
    var k := FirstFailure(results);
    assert k == |rows|;
    assert Values(results[..k]) == rows;
  }

  /** The schedule when every result succeeded: all rows, in groups. */
  lemma {:induction false} ScheduleCompleted<T>(results: seq<Option<T>>, rows: seq<T>)
    requires |rows| == |results|
    requires forall j :: 0 <= j < |rows| ==> results[j] == Some(rows[j])
    ensures Schedule(results) == Flushed(Chunks(rows, SaveInterval), true)
  {
    var k := FirstFailure(results);
    assert k == |rows| && results[..k] == results;
    assert Values(results[..k]) == rows;
  }

  /** A property every element of `xs` has, every element of every group has. */
  lemma {:induction false} ChunksAll<T>(xs: seq<T>, n: nat, p: T -> bool)
    requires n > 0
    requires forall j :: 0 <= j < |xs| ==> p(xs[j])
    ensures forall i, m :: 0 <= i < |Chunks(xs, n)| && 0 <= m < |Chunks(xs, n)[i]| ==> p(Chunks(xs, n)[i][m])
    decreases |xs|
  {
    if |xs| > n {
      ChunksAll(xs[n..], n, p);
      var cs := Chunks(xs, n);
      assert cs == [xs[..n]] + Chunks(xs[n..], n);
      forall i, m | 0 <= i < |cs| && 0 <= m < |cs[i]| ensures p(cs[i][m]) {
        if i == 0 {
          assert cs[0][m] == xs[m];
        } else {
          assert cs[i] == Chunks(xs[n..], n)[i - 1];
        }
      }
    }
  }

  /** Every save holds between one and `SAVE_INTERVAL` rows, each of them a successful result:
      no empty save is ever made. */
  lemma {:induction false} ScheduleBatches<T>(results: seq<Option<T>>, p: T -> bool)
    requires forall j :: 0 <= j < |results| && results[j].Some? ==> p(results[j].value)
    ensures forall i :: 0 <= i < |Schedule(results).batches| ==>
              0 < |Schedule(results).batches[i]| <= SaveInterval
    ensures forall i, m :: 0 <= i < |Schedule(results).batches| && 0 <= m < |Schedule(results).batches[i]|
              ==> p(Schedule(results).batches[i][m])
  {
    var k := FirstFailure(results);
    var done := Values(results[..k]);
    var cut := if k == |results| then done else done[..k - k % SaveInterval];
    assert Schedule(results).batches == Chunks(cut, SaveInterval);
    assert forall j :: 0 <= j < |cut| ==> p(cut[j]) by {
      forall j | 0 <= j < |cut| ensures p(cut[j]) {
        assert cut[j] == done[j] && results[..k][j] == results[j];
      }
    }
    ChunksSpec(cut, SaveInterval);
    ChunksAll(cut, SaveInterval, p);
  }

  /** With no results there is nothing to save. */
  lemma {:induction false} ScheduleEmpty<T>()
    ensures Schedule<T>([]) == Flushed([], true)
  {
  }

  /** The saves, joined, are every row in result order when all results succeed; when one
      fails they are the rows before it, cut back to a whole number of saves, so at most
      `SAVE_INTERVAL - 1` buffered rows are lost, and every save made is a full one. */
  lemma {:induction false} ScheduleRows<T>(results: seq<Option<T>>)
    ensures Schedule(results).completed ==> Flatten(Schedule(results).batches) == Values(results)
    ensures !Schedule(results).completed ==>
              var k := FirstFailure(results);
              var lost := |Values(results[..k])| - |Flatten(Schedule(results).batches)|;
              Flatten(Schedule(results).batches) <= Values(results[..k]) && 0 <= lost < SaveInterval
    ensures !Schedule(results).completed ==>
              forall i :: 0 <= i < |Schedule(results).batches| ==> |Schedule(results).batches[i]| == SaveInterval
  {
    var k := FirstFailure(results);
    var done := Values(results[..k]);
    if k == |results| {
      assert results[..k] == results;
      ChunksSpec(done, SaveInterval);
    } else {
      var cut := done[..k - k % SaveInterval];
      ChunksSpec(cut, SaveInterval);
      ChunksFull(cut);
    }
  }
}
