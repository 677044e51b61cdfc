/**
  The test-data generator: it stamps each frame with the 11-bit clock
  timestamp, packs the timestamp's high bits, a unit number and a channel
  type into the label byte, and fills the payload with values in
  [-1000, 999].  The clock and `rand()` are not modelled; their results
  come in as parameters.
*/
module RandomData {
  import opened Frame
  import opened CppInt
  import ReadBuffer

  /** `get_time`: the clock's microsecond count reduced to an 11-bit timestamp. */
  function GetTime(micros: nat): (t: nat)
    ensures t < TIME_SIZE && (micros - t) % TIME_SIZE == 0
  {
    micros % TIME_SIZE
  }

  /**
    The label byte `(t / 256) << 5 | unit << 2 | kind`: the timestamp's
    high bits in bits [7:5], the unit number in bits [4:2] and the channel
    type in bits [1:0].  The three fields do not overlap.
  */
  function LabelByte(t: int, unit: int, kind: int): (id: byte)
    requires 0 <= t < TIME_SIZE && 0 <= unit < 8 && 0 <= kind < 4
    ensures id == 32 * (t / 256) + 4 * unit + kind
    ensures id / 32 == t / 256 && (id / 4) % 8 == unit && id % 4 == kind
  {
    LabelFields(t, unit, kind);
    BitOr(BitOr(Shl(t / 256, 5), Shl(unit, 2)), kind)
  }

  lemma LabelFields(t: int, unit: int, kind: int)
    requires 0 <= t < TIME_SIZE && 0 <= unit < 8 && 0 <= kind < 4
    ensures var id := BitOr(BitOr(Shl(t / 256, 5), Shl(unit, 2)), kind);
      id == 32 * (t / 256) + 4 * unit + kind && id < 256 &&
      id / 32 == t / 256 && (id / 4) % 8 == unit && id % 4 == kind
  {
    var h := t / 256;
    FieldsOr(h, unit, kind);
  }

  /** Or-ing the three shifted fields adds them, and each field can be read back. */
  lemma FieldsOr(h: nat, unit: nat, kind: nat)
    requires h < 8 && unit < 8 && kind < 4
    ensures BitOr(BitOr(Shl(h, 5), Shl(unit, 2)), kind) == 32 * h + 4 * unit + kind
    ensures var id := 32 * h + 4 * unit + kind; id < 256 && id / 32 == h && (id / 4) % 8 == unit && id % 4 == kind
  {
    FieldsApart(h, unit, kind);
    ShlTwoFive(h);
    ShlTwoFive(unit);
    ShlTwoFive(8 * h + unit);
    assert Pow2(2) == 4 && Pow2(5) == 32;
    BitOrDisjoint(h, Shl(unit, 2), 5);
    var a := BitOr(Shl(h, 5), Shl(unit, 2));
    assert a == Shl(8 * h + unit, 2);
    BitOrDisjoint(8 * h + unit, kind, 2);
  }

  lemma FieldsApart(h: nat, unit: nat, kind: nat)
    requires h < 8 && unit < 8 && kind < 4
    ensures var id := 32 * h + 4 * unit + kind; id < 256 && id / 32 == h && (id / 4) % 8 == unit && id % 4 == kind
  {
    var id := 32 * h + 4 * unit + kind;
    assert id / 4 == 8 * h + unit;
  }

  /**
    Reading a generated label back: the reader recovers the timestamp and
    the channel type, and takes the timestamp's high bits for the unit.
  */
  lemma LabelRoundTrip(t: int, unit: int, kind: int)
    requires 0 <= t < TIME_SIZE && 0 <= unit < 8 && 0 <= kind < 4
    ensures ReadBuffer.DecodeLabel(t % 256, LabelByte(t, unit, kind)) == ReadBuffer.Label(t, t / 256, kind)
  {
    var l := ReadBuffer.DecodeLabel(t % 256, LabelByte(t, unit, kind));
    assert l.timeStamp == 256 * (l.timeStamp / 256) + l.timeStamp % 256;
  }

  /** The unit number never reaches the reader: labels that differ only in it decode alike. */
  lemma UnitIsLost(t: int, unit: int, unit': int, kind: int)
    requires 0 <= t < TIME_SIZE && 0 <= unit < 8 && 0 <= unit' < 8 && 0 <= kind < 4
    ensures ReadBuffer.DecodeLabel(t % 256, LabelByte(t, unit, kind)) ==
            ReadBuffer.DecodeLabel(t % 256, LabelByte(t, unit', kind))
  {
    LabelRoundTrip(t, unit, kind);
    LabelRoundTrip(t, unit', kind);
  }

  /** `Sensor_Buffer`: the time byte, the label byte and 255 payload values. */
  class SensorBuffer {
    var time: byte
    var id: byte
    const data: array<int16>

    ghost predicate Valid()
    {
      data.Length == 255
    }

    constructor ()
      ensures Valid() && fresh(data)
    {
      time, id := 0, 0;
      data := new int16[255](_ => 0);
    }

    /**
      `fillBuff`: micros is the clock reading, rType, rUnit and rData the
      successive `rand()` results (the channel type, the unit number, then
      one per payload value).
    */
    method FillBuff(micros: nat, rType: nat, rUnit: nat, rData: seq<nat>)
      requires Valid() && |rData| == 255
      modifies this, data
      ensures time == GetTime(micros) % 256
      ensures id == LabelByte(GetTime(micros), rUnit % 7, rType % 3)
      ensures forall i :: 0 <= i < 255 ==> data[i] == (rData[i] as int) % 2000 - 1000
      ensures forall i :: 0 <= i < 255 ==> -1000 <= data[i] <= 999
    {
      var t := GetTime(micros);
      var kind := rType % 3;
      time := t % 256;
      id := LabelByte(t, rUnit % 7, kind);
      for i := 0 to 255
        invariant time == t % 256 && id == LabelByte(t, rUnit % 7, kind)
        invariant forall j :: 0 <= j < i ==> data[j] == (rData[j] as int) % 2000 - 1000
      {
        data[i] := (rData[i] as int) % 2000 - 1000;
      }
    }
  }
}
