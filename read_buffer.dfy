/**
  The post-processing reader: it decodes each frame's label, recovers the
  time the frame took from two wrap-around timestamps, works out how many
  samples the frame should have at the goal rate, and resamples the frame
  to that length.
*/
module ReadBuffer {
  import opened Frame
  import opened CppInt
  import opened Resample

  // ---------------------------------------------------------------------
  // Timestamps

  /** The frame time the nominal rate predicts: `LEN * 1000 / sr` in ms. */
  function Predicted(sr: int): int
    requires sr != 0
  {
    Div(LEN * 1000, sr)
  }

  /**
    `interpret_time`: the elapsed time between timestamps t0 and t1, which
    wrap modulo TIME_SIZE.  Of the values congruent to t1 - t0 it picks the
    one nearest the predicted frame time.
  */
  function InterpretTime(sr: int, t0: int, t1: int): (elapsed: int)
    requires sr != 0
    ensures (t0 + elapsed - t1) % TIME_SIZE == 0
    ensures t0 + Predicted(sr) >= 0 && 0 <= t1 < TIME_SIZE ==>
      Abs(elapsed - Predicted(sr)) <= TIME_SIZE / 2
  {
    var time := Predicted(sr);
    var expT := Rem(time + t0, TIME_SIZE);
    var offset := t1 - expT;
    var time' := time + offset;
    if Abs(offset) < TIME_SIZE / 2 then time'
    else if offset < 0 then time' + TIME_SIZE
    else time' - TIME_SIZE
  }

  /**
    The unwrap recovers any elapsed time that lies less than half the
    timestamp range away from the prediction.
  */
  lemma InterpretTimeRecovers(sr: int, t0: int, e: int)
    requires sr != 0 && t0 + Predicted(sr) >= 0
    requires Abs(e - Predicted(sr)) < TIME_SIZE / 2
    ensures InterpretTime(sr, t0, (t0 + e) % TIME_SIZE) == e
  {
    var t1 := (t0 + e) % TIME_SIZE;
    var r := InterpretTime(sr, t0, t1);
    var a, b := (t0 + r - t1) / TIME_SIZE, (t0 + e) / TIME_SIZE;
    assert t0 + r - t1 == TIME_SIZE * a;
    assert t0 + e == TIME_SIZE * b + t1;
    assert r - e == TIME_SIZE * (a - b);
  }

  /** At 40 Hz a frame spans 2125 ms; timestamps that advance by exactly that need no correction. */
  lemma InterpretTimeOnTime()
    ensures InterpretTime(40, 100, 177) == 2125
  {
    assert Predicted(40) == 2125;
    assert Rem(2225, TIME_SIZE) == 177 by {
      assert Div(2225, TIME_SIZE) == 1;
    }
  }

  /**
    A frame whose end timestamp is 1971 ms later than predicted is taken to
    have wrapped once more: the elapsed time is 2048 ms.
  */
  lemma InterpretTimeWrapped()
    ensures InterpretTime(40, 2000, 2000) == 2048
  {
    assert Predicted(40) == 2125;
    assert Rem(4125, TIME_SIZE) == 29 by {
      assert Div(4125, TIME_SIZE) == 2;
    }
  }

  // ---------------------------------------------------------------------
  // Labels

  /** The fields `parseLabel` extracts from a frame's two header bytes. */
  datatype Label = Label(timeStamp: int, bno: int, agm: int)

  /**
    `parseLabel`: the 11-bit timestamp is the time byte plus bits [7:5] of
    the id byte; the unit number is read from those same bits [7:5], and
    the channel type (0 acc, 1 gyr, 2 mag) from bits [1:0].
  */
  function DecodeLabel(time: byte, id: byte): (l: Label)
    ensures 0 <= l.timeStamp < TIME_SIZE && l.timeStamp % 256 == time && l.timeStamp / 256 == id / 32
    ensures l.bno == l.timeStamp / 256
    ensures 0 <= l.agm <= 3 && l.agm == id % 4
  {
    ShrFive(id);
    Label(time + Shr(id, 5) * 256, Shr(id, 5) % 8, id % 4)
  }

  /** The unit number can be 7, one past the last row of the rate table. */
  lemma UnitSevenDecodes()
    ensures DecodeLabel(0, 0xE0).bno == 7
  {
  }

  /** The channel type can be 3, for which there is no goal rate. */
  lemma ChannelThreeDecodes()
    ensures DecodeLabel(0, 3).agm == 3
  {
  }

  // ---------------------------------------------------------------------
  // Output file names

  /** `"imu" + std::to_string(i) + "_" + sensor + ".bin"` for unit i and channel j. */
  function FileName(i: nat, j: nat): (name: string)
    requires i < 7 && j < 3
    ensures |name| == 12 && name[..3] == "imu" && name[4] == '_' && name[8..] == ".bin"
    ensures '0' <= name[3] <= '6' && name[3] as int - 48 == i
    ensures name[5..8] == ["acc", "gyr", "mag"][j]
  {
    "imu" + [(48 + i) as char] + "_" + ["acc", "gyr", "mag"][j] + ".bin"
  }

  /** Every unit and channel gets its own file. */
  lemma FileNamesDistinct(i: nat, j: nat, i': nat, j': nat)
    requires i < 7 && j < 3 && i' < 7 && j' < 3
    ensures FileName(i, j) == FileName(i', j') <==> i == i' && j == j'
  {
    if FileName(i, j) == FileName(i', j') {
      assert FileName(i, j)[3] == FileName(i', j')[3];
      assert FileName(i, j)[5..8] == FileName(i', j')[5..8];
    }
  }

  /** `name_files`: fills the 7 x 3 table of output file names. */
  method NameFiles(outFiles: array2<string>)
    requires outFiles.Length0 == 7 && outFiles.Length1 == 3
    modifies outFiles
    ensures forall i, j :: 0 <= i < 7 && 0 <= j < 3 ==> outFiles[i, j] == FileName(i, j)
  {
    for i := 0 to 7
      invariant forall i', j :: 0 <= i' < i && 0 <= j < 3 ==> outFiles[i', j] == FileName(i', j)
    {
      for j := 0 to 3
        invariant forall i', j' :: 0 <= i' < i && 0 <= j' < 3 ==> outFiles[i', j'] == FileName(i', j')
        invariant forall j' :: 0 <= j' < j ==> outFiles[i, j'] == FileName(i, j')
      {
        outFiles[i, j] := FileName(i, j);
      }
    }
  }

  // ---------------------------------------------------------------------
  // The frame buffer

  /** `BNO_Buffer`: one frame read from the log, with the rate tables. */
  class BnoBuffer {
    /** The frame's time byte (`sensBuf.time`). */
    var time: byte
    /** The frame's label byte (`sensBuf.id`). */
    var id: byte
    /** The frame's LEN samples (`sensBuf.data`). */
    const data: array<Xyz>
    /** Expected sampling rate in Hz per unit and channel (`expSR[7][3]`). */
    const expSR: array2<int>
    /** Goal sampling rate in Hz per channel. */
    const goalSR: seq<int> := [100, 100, 40]

    ghost predicate Valid()
    {
      data.Length == LEN && expSR.Length0 == 7 && expSR.Length1 == 3
    }

    /** Every unit expects 125 Hz accelerometer, 116 Hz gyroscope and 47 Hz magnetometer data. */
    constructor ()
      ensures Valid() && fresh(data) && fresh(expSR)
      ensures forall i, j :: 0 <= i < 7 && 0 <= j < 3 ==> expSR[i, j] == [125, 116, 47][j]
    {
      time, id := 0, 0;
      data := new Xyz[LEN](_ => Xyz(0, 0, 0));
      expSR := new int[7, 3];
      new;
      SetSR(125, 116, 47);
    }

    /** `set_SR`: copies the three channel rates into every unit's row. */
    method SetSR(accSR: int, gyrSR: int, magSR: int)
      requires Valid()
      modifies expSR
      ensures forall i, j :: 0 <= i < 7 && 0 <= j < 3 ==> expSR[i, j] == [accSR, gyrSR, magSR][j]
    {
      var srs := [accSR, gyrSR, magSR];
      for i := 0 to 7
        invariant forall i', j :: 0 <= i' < i && 0 <= j < 3 ==> expSR[i', j] == srs[j]
      {
        for j := 0 to 3
          invariant forall i', j' :: 0 <= i' < i && 0 <= j' < 3 ==> expSR[i', j'] == srs[j']
          invariant forall j' :: 0 <= j' < j ==> expSR[i, j'] == srs[j']
        {
          expSR[i, j] := srs[j];
        }
      }
    }

    /** Reading the next frame from the log into the buffer. */
    method Load(t: byte, tag: byte, samples: seq<Xyz>)
      requires Valid() && |samples| == LEN
      modifies this, data
      ensures time == t && id == tag && data[..] == samples
    {
      for k := 0 to LEN
        invariant data[..k] == samples[..k]
      {
        data[k] := samples[k];
      }
      time, id := t, tag;
    }

    /** `parseLabel`: the timestamp, unit number and channel type of the frame. */
    method ParseLabel() returns (timeStamp: int, bno: int, agm: int)
      ensures Label(timeStamp, bno, agm) == DecodeLabel(time, id)
    {
      var l := DecodeLabel(time, id);
      timeStamp, bno, agm := l.timeStamp, l.bno, l.agm;
    }

    /**
      `get_correct_length`: the number of whole samples at the channel's
      goal rate in the time between t0 and t1, truncated toward zero.
    */
    function GetCorrectLength(t0: int, t1: int, bno: int, agm: int): (length: int)
      reads expSR
      requires Valid() && 0 <= bno < 7 && 0 <= agm < 3 && expSR[bno, agm] != 0
      ensures TruncQuotient(InterpretTime(expSR[bno, agm], t0, t1) * goalSR[agm], 1000, length)
    {
      var interval := InterpretTime(expSR[bno, agm], t0, t1);
      DivIsTruncQuotient(interval * goalSR[agm], 1000);
      Div(interval * goalSR[agm], 1000)
    }

    /**
      With the constructor's rates, a frame whose timestamps advance by the
      rate's prediction gets 68 accelerometer, 73 gyroscope or 72
      magnetometer samples.
    */
    lemma NominalLengths(t0: int, bno: int, agm: int)
      requires Valid() && 0 <= bno < 7 && 0 <= agm < 3 && t0 >= 0
      requires forall i, j :: 0 <= i < 7 && 0 <= j < 3 ==> expSR[i, j] == [125, 116, 47][j]
      ensures GetCorrectLength(t0, (t0 + Predicted(expSR[bno, agm])) % TIME_SIZE, bno, agm) == [68, 73, 72][agm]
    {
      var sr := expSR[bno, agm];
      assert sr == [125, 116, 47][agm];
      assert Predicted(sr) == [680, 732, 1808][agm];
      InterpretTimeRecovers(sr, t0, Predicted(sr));
    }

    /**
      With the constructor's rates, timestamps in range can give lengths that
      `fix_SR` cannot take: a negative one, one past the 128 cells of the
      reader's output buffer, and one past 2 * LEN.
    */
    lemma OutOfRangeLengths()
      requires Valid()
      requires forall i, j :: 0 <= i < 7 && 0 <= j < 3 ==> expSR[i, j] == [125, 116, 47][j]
      ensures GetCorrectLength(0, 1704, 0, 0) == -34
      ensures GetCorrectLength(400, 56, 0, 0) == 170
      ensures GetCorrectLength(300, 8, 0, 1) == 175
    {
      assert expSR[0, 0] == 125 && expSR[0, 1] == 116;
      assert Predicted(125) == 680 && Predicted(116) == 732;
      assert Rem(680, TIME_SIZE) == 680 && Rem(1080, TIME_SIZE) == 1080 && Rem(1032, TIME_SIZE) == 1032;
      assert InterpretTime(125, 0, 1704) == -344;
      assert InterpretTime(125, 400, 56) == 1704;
      assert InterpretTime(116, 300, 8) == 1756;
    }

    /**
      `fix_SR`: resamples the frame into output.  For goal == LEN it only
      rebinds its local copy of the output pointer, so output keeps what it
      held.
    */
    method FixSR(output: array<Xyz>, goal: int)
      requires Valid() && output != data
      requires 0 <= goal <= 2 * LEN && (goal == LEN || goal <= output.Length)
      modifies output
      ensures goal == LEN ==> output[..] == old(output[..])
      ensures goal != LEN ==> output[..goal] == Resampled(data[..], goal)
      ensures goal != LEN ==> output[goal..] == old(output[goal..])
    {
      var err := LEN - goal;
      if err == 0 {
        return;
      }
      var add := false;
      if err < 0 {
        err := -err;
        add := true;
      }
      CopyData(err, add, output);
    }

    /**
      `copy_data`: window i of the err windows is copied to output, shifted
      by +i when stretching and with its last sample repeated, shifted by -i
      when shrinking and without its last sample.
    */
    method CopyData(err: int, add: bool, output: array<Xyz>)
      requires Valid() && output != data && 0 < err <= LEN
      requires (if add then LEN + err else LEN - err) <= output.Length
      modifies output
      ensures var goal := if add then LEN + err else LEN - err;
        output[..goal] == Resampled(data[..], goal) && output[goal..] == old(output[goal..])
    {
      var goal := if add then LEN + err else LEN - err;
      var e := Edges(LEN, err);
      ghost var s := data[..];
      CopyWindows(data, e, add, err, output);
      assert data[..] == s;
      CopiedIsResampled(s, e, add, err, goal, output[..]);
      assert OutLen(e, add, err) == goal;
    }
  }
}
