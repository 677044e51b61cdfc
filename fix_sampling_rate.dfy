/**
  The stand-alone resampling program: its own timestamp unwrap, which
  returns the absolute end time rather than the elapsed time and subtracts
  the timestamp range twice when the end timestamp has not wrapped yet; the
  target length; and the resampler on int arrays.
*/
module FixSamplingRate {
  import opened Frame
  import opened CppInt
  import opened Resample
  import Algorithm
  import ReadBuffer

  // ---------------------------------------------------------------------
  // Timestamps

  /**
    `interpret_time` as this program writes it: the predicted end time
    t0 + LEN * 1000 / sr, moved to the nearest value congruent to t1; the
    branch for an end timestamp that has not wrapped yet takes TIME_SIZE off
    twice.
  */
  function InterpretTime(sr: int, t0: int, t1: int): (time: int)
    requires sr != 0
    ensures (time - t1) % TIME_SIZE == 0
  {
    var time := ReadBuffer.Predicted(sr) + t0;
    DivTruncates(time, TIME_SIZE);
    var expT := Rem(time, TIME_SIZE);
    var offset := t1 - expT;
    var time' := time + offset;
    if Abs(offset) < TIME_SIZE / 2 then time'
    else if offset < 0 then time' + TIME_SIZE
    else (time' - TIME_SIZE) - TIME_SIZE
  }

  /**
    The result is the start timestamp plus the elapsed time the reader's
    `interpret_time` computes, except when the end timestamp lies at least
    half the range past the predicted one: then it is TIME_SIZE lower still.
  */
  lemma InterpretTimeIsAbsolute(sr: int, t0: int, t1: int)
    requires sr != 0
    ensures var offset := t1 - Rem(ReadBuffer.Predicted(sr) + t0, TIME_SIZE);
      InterpretTime(sr, t0, t1) ==
        t0 + ReadBuffer.InterpretTime(sr, t0, t1) - (if offset >= TIME_SIZE / 2 then TIME_SIZE else 0)
  {
  }

  /**
    In the no-wrap branch the result is the predicted end time plus the
    offset; in the not-yet-wrapped branch it is that minus 2 * TIME_SIZE.
  */
  lemma InterpretTimeBranches(sr: int, t0: int, t1: int)
    requires sr != 0
    ensures var time := ReadBuffer.Predicted(sr) + t0;
      var offset := t1 - Rem(time, TIME_SIZE);
      (Abs(offset) < TIME_SIZE / 2 ==> InterpretTime(sr, t0, t1) == time + offset) &&
      (offset >= TIME_SIZE / 2 ==> InterpretTime(sr, t0, t1) == time + offset - 2 * TIME_SIZE)
  {
  }

  /** At 40 Hz, from timestamp 100 to 177: the end time 2225, not the elapsed 2125. */
  lemma InterpretTimeOnTime()
    ensures InterpretTime(40, 100, 177) == 2225
  {
    assert ReadBuffer.Predicted(40) == 2125;
    assert Rem(2225, TIME_SIZE) == 177 by {
      assert Div(2225, TIME_SIZE) == 1;
    }
  }

  /**
    At 40 Hz, from timestamp 2000 to 2000: the offset 1971 is more than
    half the range, and the end time 6096 is taken down twice to 2000,
    where the reader finds the elapsed 2048, an end time of 4048.
  */
  lemma InterpretTimeWrapped()
    ensures InterpretTime(40, 2000, 2000) == 2000
    ensures 2000 + ReadBuffer.InterpretTime(40, 2000, 2000) == 4048
  {
    assert ReadBuffer.Predicted(40) == 2125;
    assert Rem(4125, TIME_SIZE) == 29 by {
      assert Div(4125, TIME_SIZE) == 2;
    }
  }

  // ---------------------------------------------------------------------
  // Target length

  /** `get_size`: whole samples at goalSR Hz in time ms, truncated toward zero. */
  function GetSize(time: int, goalSR: int): (size: int)
    ensures TruncQuotient(time * goalSR, 1000, size)
  {
    DivIsTruncQuotient(time * goalSR, 1000);
    Div(time * goalSR, 1000)
  }

  /** The truncated quotient is the only value GetSize's contract allows. */
  lemma GetSizeIsUnique(time: int, goalSR: int, size: int)
    requires TruncQuotient(time * goalSR, 1000, size)
    ensures size == GetSize(time, goalSR)
  {
    TruncQuotientUnique(time * goalSR, 1000, size, GetSize(time, goalSR));
  }

  /** 2125 ms at 40 Hz is 85 samples: a frame on time keeps its length. */
  lemma GetSizeOnTime()
    ensures GetSize(2125, 40) == LEN
  {
  }

  // ---------------------------------------------------------------------
  // Resampling

  /**
    `fix_SR`: data's LEN samples brought to goal samples in output.  For
    goal == LEN the frame is copied unchanged; otherwise it is cut into
    |LEN - goal| windows, each copied with its last sample repeated
    (stretch) or dropped (shrink).  Output samples from goal on, and data,
    are left alone.
  */
  method FixSR(data: array<int>, output: array<int>, goal: int)
    requires data != output && data.Length == LEN
    requires 0 <= goal <= 2 * LEN && goal <= output.Length
    modifies output
    ensures output[..goal] == Resampled(data[..], goal)
    ensures output[goal..] == old(output[goal..])
  {
    var err := LEN - goal;
    if err == 0 {
      Algorithm.CopyN(data, 0, LEN, output, 0);
      assert output[..goal] == data[..];
      return;
    }
    assert goal != LEN;
    var add := false;
    if err < 0 {
      err := -err;
      add := true;
    }
    var e := Edges(LEN, err);
    ghost var s := data[..];
    CopyWindows(data, e, add, err, output);
    assert data[..] == s;
    CopiedIsResampled(s, e, add, err, goal, output[..]);
    assert OutLen(e, add, err) == goal;
  }
}
