/** The checkpoint and resume loop of benchmarks/bench_pad_rgb.py, for one shard. */
module ShardResume {
  import opened Sequences

  const BATCH := 256

  const PROGRESS_EVERY := 1000

  datatype Score = Score(spoof: bool, value: real)

  /** What the scorer makes of a row: a score, or None for a row it skips. */
  type Row = Option<Score>

  /** The contents of the partial file, and of the counters in memory. A killed run leaves the last
      checkpoint it wrote. */
  datatype Progress = Progress(rowsDone: nat, noBbox: nat, scores: seq<Score>)

  const NOTHING := Progress(0, 0, [])

  // ---------- the meaning ----------

  function ScoresOf(rows: seq<Row>): seq<Score> {
    if rows == [] then []
    else
      var n := |rows| - 1;
      ScoresOf(rows[..n]) + match rows[n] case None => [] case Some(s) => [s]
  }

  function Skipped(rows: seq<Row>): nat {
    if rows == [] then 0
    else
      var n := |rows| - 1;
      Skipped(rows[..n]) + if rows[n].None? then 1 else 0
  }

  /** What an uninterrupted run has after these rows. */
  function Complete(rows: seq<Row>): Progress { Progress(|rows|, Skipped(rows), ScoresOf(rows)) }

  /** What the done file holds: the row count is the shard's own, no counter is written. */
  datatype DoneFile = DoneFile(rows: nat, noBbox: nat, scores: seq<Score>)

  /** The done file of a run that was never interrupted. */
  function Uninterrupted(rows: seq<Row>): DoneFile { DoneFile(|rows|, Skipped(rows), ScoresOf(rows)) }

  /** Every row done is scored or counted as skipped. */
  predicate Balanced(p: Progress) { |p.scores| + p.noBbox == p.rowsDone }

  lemma {:induction false} CompleteIsBalanced(rows: seq<Row>)
    ensures Balanced(Complete(rows))
  {
    if rows != [] {
      CompleteIsBalanced(rows[..|rows| - 1]);
    }
  }

  // ---------- one run ----------

  /** One row: counted, and scored unless the counter has not passed the offset. */
  function ScoreRow(p: Progress, offset: nat, row: Row): Progress {
    var d := p.rowsDone + 1;
    if d <= offset then p.(rowsDone := d)
    else match row
      case None => Progress(d, p.noBbox + 1, p.scores)
      case Some(s) => Progress(d, p.noBbox, p.scores + [s])
  }

  function ScoreRows(p: Progress, offset: nat, rows: seq<Row>): Progress {
    if rows == [] then p
    else ScoreRow(ScoreRows(p, offset, rows[..|rows| - 1]), offset, rows[|rows| - 1])
  }

  /** Where the counter starts: the code seeds it with the offset, the documentation implies 0. */
  datatype Seed = AtOffset | AtZero

  function Start(partial: Option<Progress>, seed: Seed): Progress {
    match partial
    case None => NOTHING
    case Some(p) => if seed == AtOffset then p else p.(rowsDone := 0)
  }

  function Offset(partial: Option<Progress>): nat {
    if partial.Some? then partial.value.rowsDone else 0
  }

  /** How many rows the first `b` batches hold. */
  function Cut(rows: seq<Row>, b: nat): (n: nat)
    ensures n <= |rows|
  {
    if BATCH * b <= |rows| then BATCH * b else |rows|
  }

  /** The counters after `b` batches. */
  function AfterBatches(rows: seq<Row>, partial: Option<Progress>, seed: Seed, b: nat): Progress {
    ScoreRows(Start(partial, seed), Offset(partial), rows[..Cut(rows, b)])
  }

  /** The progress mark and the partial file after `b` batches. */
  function Checkpoint(rows: seq<Row>, partial: Option<Progress>, seed: Seed, b: nat): (nat, Option<Progress>) {
    if b == 0 then (Offset(partial) / PROGRESS_EVERY, partial)
    else
      var (mark, file) := Checkpoint(rows, partial, seed, b - 1);
      var p := AfterBatches(rows, partial, seed, b);
      if p.rowsDone / PROGRESS_EVERY > mark then (p.rowsDone / PROGRESS_EVERY, Some(p)) else (mark, file)
  }

  /** The done file of a run that is not interrupted from here on. */
  function Finish(rows: seq<Row>, partial: Option<Progress>, seed: Seed): DoneFile {
    var p := ScoreRows(Start(partial, seed), Offset(partial), rows);
    DoneFile(|rows|, p.noBbox, p.scores)
  }

  /** The rows of one batch. */
  method ScoreBatch(rows: seq<Row>, partial: Option<Progress>, seed: Seed, b: nat, before: Progress)
    returns (p: Progress)
    requires before == AfterBatches(rows, partial, seed, b)
    ensures p == AfterBatches(rows, partial, seed, b + 1)
  {
    p := before;
    for j := Cut(rows, b) to Cut(rows, b + 1)
      invariant p == ScoreRows(Start(partial, seed), Offset(partial), rows[..j])
    {
      assert rows[..j + 1][..j] == rows[..j];
      p := ScoreRow(p, Offset(partial), rows[j]);
    }
  }

  /** The loop of `run_celeba_score` over one shard, killed after `batches` batches or at the end:
      the partial file it leaves, and the done file when it was not killed. */
  method ScoreShard(rows: seq<Row>, partial: Option<Progress>, seed: Seed, batches: Option<nat>)
    returns (file: Option<Progress>, done: Option<DoneFile>)
    ensures batches.Some? ==> done.None? && file == Checkpoint(rows, partial, seed, batches.value).1
    ensures batches.None? ==> file.None? && done == Some(Finish(rows, partial, seed))
  {
    var p := Start(partial, seed);
    var lastMark := Offset(partial) / PROGRESS_EVERY;
    file := partial;
    var b, end := 0, if batches.Some? then batches.value else (|rows| + BATCH - 1) / BATCH;
    while b < end
      invariant b <= end
      invariant p == AfterBatches(rows, partial, seed, b)
      invariant (lastMark, file) == Checkpoint(rows, partial, seed, b)
    {
      p := ScoreBatch(rows, partial, seed, b, p);
      b := b + 1;
      if p.rowsDone / PROGRESS_EVERY > lastMark {
        lastMark := p.rowsDone / PROGRESS_EVERY;
        file := Some(p);
      }
    }
    if batches.Some? {
      return file, None;
    }
    assert rows[..Cut(rows, end)] == rows;
    return None, Some(DoneFile(|rows|, p.noBbox, p.scores));
  }

  // ---------- histories of interrupted runs ----------

  /** The partial file after runs killed after the given numbers of batches. */
  function FileAfter(rows: seq<Row>, seed: Seed, kills: seq<nat>): Option<Progress> {
    if kills == [] then None
    else
      var n := |kills| - 1;
      Checkpoint(rows, FileAfter(rows, seed, kills[..n]), seed, kills[n]).1
  }

  // ---------- the code: the counter starts at the offset ----------

  /** The skip test never fires: every row is scored on top of the recorded ones. */
  lemma {:induction false} CodeScoresEverything(p: Progress, rows: seq<Row>)
    ensures ScoreRows(p, p.rowsDone, rows)
         == Progress(p.rowsDone + |rows|, p.noBbox + Skipped(rows), p.scores + ScoresOf(rows))
  {
    if rows != [] {
      CodeScoresEverything(p, rows[..|rows| - 1]);
    }
  }

  lemma {:induction false} CodeCheckpoints(rows: seq<Row>, partial: Option<Progress>, b: nat)
    requires partial.Some? ==> Balanced(partial.value) && partial.value.rowsDone >= PROGRESS_EVERY
    ensures var file := Checkpoint(rows, partial, AtOffset, b).1;
      && (partial.Some? ==> file.Some?)
      && (file.Some? ==> Balanced(file.value) && file.value.rowsDone >= PROGRESS_EVERY)
  {
    if b > 0 {
      CodeCheckpoints(rows, partial, b - 1);
      CodeScoresEverything(Start(partial, AtOffset), rows[..Cut(rows, b)]);
      CompleteIsBalanced(rows[..Cut(rows, b)]);
    }
  }

  /** At every checkpoint of every history, scored plus skipped rows equal the rows done. */
  lemma {:induction false} CheckpointsAreBalanced(rows: seq<Row>, kills: seq<nat>)
    ensures var file := FileAfter(rows, AtOffset, kills);
            file.Some? ==> Balanced(file.value) && file.value.rowsDone >= PROGRESS_EVERY
  {
    if kills != [] {
      var n := |kills| - 1;
      CheckpointsAreBalanced(rows, kills[..n]);
      CodeCheckpoints(rows, FileAfter(rows, AtOffset, kills[..n]), kills[n]);
    }
  }

  /** A shard of n rows resumed from a last checkpoint at k finishes with k + n outcomes in its done
      file: the recorded ones, then every row once more. */
  lemma {:induction false} ResumeLaw(rows: seq<Row>, kills: seq<nat>)
    ensures var file := FileAfter(rows, AtOffset, kills);
      var k := Offset(file);
      var done := Finish(rows, file, AtOffset);
      && |done.scores| + done.noBbox == k + |rows|
      && done.scores == (if file.Some? then file.value.scores else []) + ScoresOf(rows)
      && (done == Uninterrupted(rows) <==> k == 0)
  {
    var file := FileAfter(rows, AtOffset, kills);
    CheckpointsAreBalanced(rows, kills);
    CodeScoresEverything(Start(file, AtOffset), rows);
    CompleteIsBalanced(rows);
  }

  /** No checkpoint exists before PROGRESS_EVERY rows of a fresh shard are done. */
  lemma {:induction false} FirstCheckpoint(rows: seq<Row>, b: nat)
    ensures Checkpoint(rows, None, AtOffset, b).1.None? <==> Cut(rows, b) < PROGRESS_EVERY
    ensures Checkpoint(rows, None, AtOffset, b).1.None? ==> Checkpoint(rows, None, AtOffset, b).0 == 0
  {
    if b > 0 {
      FirstCheckpoint(rows, b - 1);
      CodeScoresEverything(NOTHING, rows[..Cut(rows, b)]);
    }
  }

  lemma {:induction false} NoFileMeans(rows: seq<Row>, kills: seq<nat>)
    ensures FileAfter(rows, AtOffset, kills).None? <==>
            forall i :: 0 <= i < |kills| ==> Cut(rows, kills[i]) < PROGRESS_EVERY
  {
    if kills != [] {
      var n := |kills| - 1;
      var before := FileAfter(rows, AtOffset, kills[..n]);
      NoFileMeans(rows, kills[..n]);
      CheckpointsAreBalanced(rows, kills[..n]);
      CodeCheckpoints(rows, before, kills[n]);
      FirstCheckpoint(rows, kills[n]);
      assert (forall i :: 0 <= i < |kills| ==> Cut(rows, kills[i]) < PROGRESS_EVERY) <==>
             Cut(rows, kills[n]) < PROGRESS_EVERY
             && forall i :: 0 <= i < n ==> Cut(rows, kills[..n][i]) < PROGRESS_EVERY by {
        assert forall i :: 0 <= i < n ==> kills[..n][i] == kills[i];
      }
    }
  }

  /** The documented promise, that an interrupted shard resumes where it stopped, holds of what the code
      writes exactly when every interruption came before 1000 rows, in batches of 256. */
  lemma {:induction false} CodeResumesExactlyWhen(rows: seq<Row>, kills: seq<nat>)
    ensures Finish(rows, FileAfter(rows, AtOffset, kills), AtOffset) == Uninterrupted(rows) <==>
            |rows| < 1000 || forall i :: 0 <= i < |kills| ==> kills[i] * 256 < 1000
  {
    ResumeLaw(rows, kills);
    NoFileMeans(rows, kills);
    CheckpointsAreBalanced(rows, kills);
    assert forall i :: 0 <= i < |kills| ==> (Cut(rows, kills[i]) < 1000 <==> |rows| < 1000 || kills[i] * 256 < 1000);
    assert |rows| >= 1000 && (exists i :: 0 <= i < |kills| && kills[i] * 256 >= 1000) ==>
           exists i :: 0 <= i < |kills| && Cut(rows, kills[i]) >= 1000;
  }

  /** One interruption after four batches of a shard of 1024 or more rows is enough to break it. */
  lemma {:induction false} CodeRepeatsRows(rows: seq<Row>)
    requires |rows| >= 1024
    ensures var done := Finish(rows, FileAfter(rows, AtOffset, [4]), AtOffset);
            done.scores != ScoresOf(rows) || done.noBbox != Skipped(rows)
  {
    CodeResumesExactlyWhen(rows, [4]);
    assert [4][0] == 4 && Cut(rows, 4) == 1024;
  }

  // ---------- the documentation: the counter starts at 0 ----------

  /** Rows up to the offset are passed over, the rest is scored. */
  lemma {:induction false} DocumentedScoresRest(rows: seq<Row>, k: nat, m: nat)
    requires k <= |rows| && m <= |rows|
    ensures ScoreRows(Complete(rows[..k]).(rowsDone := 0), k, rows[..m])
         == if m <= k then Complete(rows[..k]).(rowsDone := m) else Complete(rows[..m])
  {
    if m > 0 {
      DocumentedScoresRest(rows, k, m - 1);
      assert rows[..m][..m - 1] == rows[..m - 1];
    }
  }

  lemma {:induction false} DocumentedCheckpoints(rows: seq<Row>, partial: Option<Progress>, b: nat)
    requires partial.Some? ==>
      partial.value.rowsDone <= |rows| && partial.value == Complete(rows[..partial.value.rowsDone])
    ensures var (mark, file) := Checkpoint(rows, partial, AtZero, b);
      && mark >= Offset(partial) / PROGRESS_EVERY
      && (file.Some? ==> file.value.rowsDone <= |rows| && file.value == Complete(rows[..file.value.rowsDone]))
  {
    if b > 0 {
      DocumentedCheckpoints(rows, partial, b - 1);
      var k := Offset(partial);
      assert rows[..0] == [];
      DocumentedScoresRest(rows, k, Cut(rows, b));
    }
  }

  lemma {:induction false} DocumentedFiles(rows: seq<Row>, kills: seq<nat>)
    ensures var file := FileAfter(rows, AtZero, kills);
            file.Some? ==> file.value.rowsDone <= |rows| && file.value == Complete(rows[..file.value.rowsDone])
  {
    if kills != [] {
      var n := |kills| - 1;
      DocumentedFiles(rows, kills[..n]);
      DocumentedCheckpoints(rows, FileAfter(rows, AtZero, kills[..n]), kills[n]);
    }
  }

  /** Seeding the counter with 0 would keep the promise for every history of interruptions. */
  lemma {:induction false} DocumentedResumeIsExact(rows: seq<Row>, kills: seq<nat>)
    ensures Finish(rows, FileAfter(rows, AtZero, kills), AtZero) == Uninterrupted(rows)
  {
    var file := FileAfter(rows, AtZero, kills);
    DocumentedFiles(rows, kills);
    assert rows[..0] == [] && rows[..|rows|] == rows;
    DocumentedScoresRest(rows, Offset(file), |rows|);
  }
}
