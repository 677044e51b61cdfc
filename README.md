# BNO post-processing, modelled in Dafny

A logger writes fixed-size frames from up to seven BNO inertial units. Each
frame has:

- a one-byte timestamp;
- a one-byte label, which packs the timestamp's high bits, a unit number
  and a channel type: accelerometer, gyroscope or magnetometer;
- `LEN` = 85 samples.

The sensors do not sample at exactly their nominal rate. The
post-processing reader (`read_buffer.cpp`) handles each frame in four
steps:

1. It decodes the label.
2. It recovers the time the frame took, from two 11-bit timestamps that
   wrap modulo `TIME_SIZE` = 2048.
3. It works out how many samples the frame should hold at the channel's
   goal rate.
4. It stretches or shrinks the frame to that length. It cuts the frame into
   `|LEN - goal|` windows and, in each window, either repeats the last
   sample or drops it.

`fix_sampling_rate.cpp` is a stand-alone copy of steps 2 to 4 on `int`
arrays. `random_data.cpp` generates test logs: it packs the label byte and
fills the payload.

The model has seven modules:

- `Frame`: the constants, `byte`, `int16` and the three-axis sample `Xyz`.
- `CppInt`: C++'s truncating `/` and `%`, `abs`, shifts and bitwise or,
  over unbounded integers.
- `Algorithm`: `std::copy_n`.
- `Resample`: the resampler's specification and the loop shared by both
  programs. Output sample `p` copies input sample `Source(e, add, k, p)` of
  the cut `e`. The lemmas prove what that means:
  - windows keep order;
  - stretching repeats the last sample of each window;
  - shrinking drops exactly that sample;
  - shrinking undoes stretching.
- `ReadBuffer`: the reader's functions and the class `BnoBuffer`.
- `FixSamplingRate`: the stand-alone program's functions.
- `RandomData`: the generator and the class `SensorBuffer`.

The model follows the code in these places:

- **Unit number.** The file-format description puts the unit number in
  bits [4:2] of the label byte. `parseLabel` reads it from bits [7:5], the
  timestamp's high bits. The model does what the code does:
  `ReadBuffer.DecodeLabel`'s contract states `bno == timeStamp / 256`.
  `RandomData.UnitIsLost` proves that the unit number the generator packs
  never reaches the reader.
- **Unwrap in `fix_sampling_rate.cpp`.** The unwrap is described as
  returning the elapsed time. The copy in `fix_sampling_rate.cpp`
  (lines 42-59) returns the absolute end time instead, and it subtracts
  `TIME_SIZE` twice in the not-yet-wrapped branch. It is modelled as
  written, and `FixSamplingRate.InterpretTimeIsAbsolute` relates it to the
  reader's version.
- **`fix_SR` in `read_buffer.cpp` with `goal == LEN`.** It only assigns its
  local output pointer (line 55), so the caller's output buffer keeps its
  old contents. The model states exactly that.

**Modelling assumption.** Both programs walk a `float` cursor in steps of
`LEN / err`. They take `int(cursor + 0.00001)` as the window edge. The model
uses the exact edge `i * LEN / err` instead (`Resample.Edges`). The two agree
as long as the accumulated float error stays below 1e-5. With single-precision
rounding at every step, that already fails for 17 values of err, the on-time
magnetometer length 72 among them. For those values the model describes the
intended cut and not what the programs do; "## Left out" lists them.

## Model

| member | source | states |
|---|---|---|
| CppInt.DivTruncates | read_buffer.cpp:84-85 | C++ `/` and `%`: a == b*q + r, \|r\| < \|b\|, and a non-zero r has the sign of a |
| CppInt.DivIsTruncQuotient | read_buffer.cpp:43 | for a positive divisor, `Div` is the quotient truncated toward zero: b*q lies between 0 and a, less than b away from a |
| CppInt.TruncQuotientUnique | fix_sampling_rate.cpp:67 | at most one value is a truncated quotient of a by b |
| CppInt.ShrFive | read_buffer.cpp:36-37 | `x >> 5` is x / 32 |
| CppInt.ShlTwoFive | random_data.cpp:26 | `x << 2` is 4x and `x << 5` is 32x |
| CppInt.BitOrDisjoint | random_data.cpp:26 | or-ing `h << k` with a value below 2^k adds the two: the fields do not overlap |
| Algorithm.CopyN | fix_sampling_rate.cpp:79 | `std::copy_n`: the count destination cells from `to` hold the source cells from `from`; every other destination cell is unchanged |
| Resample.EdgeIsQuotient | read_buffer.cpp:98-100 | window edge i is i*len/err, the integer part of the cursor after i steps of len/err |
| Resample.EdgeStep | read_buffer.cpp:97-100 | when err <= len, every window holds at least one sample |
| Resample.EdgeMono | read_buffer.cpp:97-100 | edges j and i lie at least j - i apart |
| Resample.EdgeLast | read_buffer.cpp:97-107 | the last edge is len: the windows cover the whole frame |
| Resample.EdgeShift | read_buffer.cpp:102 | the edges of a buffer stretched by err are the source edges moved right by one per earlier window |
| Resample.Edges | read_buffer.cpp:97-100 | the cut has err + 1 edges, from 0 to len, with each window non-empty |
| Resample.EdgesAreQuotients | read_buffer.cpp:98-100 | every edge of the cut is i*len/err |
| Resample.Shift | read_buffer.cpp:102 | edge i moved right by i |
| Resample.StretchedEdges | read_buffer.cpp:102 | the cut of the stretched buffer is the source cut shifted by Shift |
| Resample.InWindow | read_buffer.cpp:101-106 | an output sample inside window i copies a source sample of window i |
| Resample.Source | read_buffer.cpp:97-108 | every output sample of the first k windows copies a source sample before edge k |
| Resample.Window | read_buffer.cpp:101-106 | window i contributes its length plus one sample when stretching, minus one when shrinking |
| Resample.Adjusted | read_buffer.cpp:97-108 | the first k windows produce e[k] + k samples when stretching and e[k] - k when shrinking |
| Resample.Resampled | fix_sampling_rate.cpp:76-104 | the resampled frame has goal samples, and is the frame itself when goal equals its length |
| Resample.AdjustedAt | read_buffer.cpp:97-108 | output sample p of the emitted windows is source sample Source(e, add, k, p) |
| Resample.WindowStep | read_buffer.cpp:101-106 | the outputs of the first i windows, followed by the samples of window i, are the outputs of the first i + 1 windows |
| Resample.CopyWindow | read_buffer.cpp:101-106 | one iteration of the copy loop writes window i's output range, each cell holding its InWindow source sample, and no other cell |
| Resample.CopyWindows | fix_sampling_rate.cpp:92-103 | after the loop, each of the first OutLen cells holds its Source sample; later cells are unchanged |
| Resample.CopiedIsResampled | fix_sampling_rate.cpp:92-103 | an output holding every Source sample of the programs' cut begins with the resampled frame of goal samples |
| Resample.SourcePrefix | read_buffer.cpp:102-105 | later windows never change an output sample already written |
| Resample.StretchWindow | read_buffer.cpp:102-103 | stretching: source sample j of window i lands at output j + i, and the window's last sample is repeated at output e[i+1] + i |
| Resample.ShrinkWindow | read_buffer.cpp:105 | shrinking: source sample j of window i, except the window's last sample, lands at output j - i |
| Resample.SourceAscending | read_buffer.cpp:97-108 | output order follows source order, strictly when shrinking: no sample is reordered or, when shrinking, duplicated |
| Resample.ShrinkDropsLast | read_buffer.cpp:105 | shrinking never copies the last sample of any window |
| Resample.ShiftIsCut | read_buffer.cpp:102-103 | the shifted edges cut the stretched buffer |
| Resample.SourceRoundTrip | read_buffer.cpp:102-105 | shrinking at the shifted edges picks, for each source position, the stretched position that holds it |
| Resample.ShrinkUndoesStretch | read_buffer.cpp:101-106 | for any cut, shrinking the stretched buffer at the shifted cut gives back the source |
| Resample.ResampledIsStretch | read_buffer.cpp:58-64 | for goal above the length, resampling stretches at the programs' cut |
| Resample.ResampledIsShrink | read_buffer.cpp:53-64 | for goal below the length, resampling shrinks at the programs' cut |
| Resample.ShrinkStretched | read_buffer.cpp:97-108 | shrinking the stretched buffer at its own cut restores the source |
| Resample.ShrinkAfterStretch | read_buffer.cpp:52-65 | resampling a stretched frame back to its old length restores it |
| Resample.StretchedAt | read_buffer.cpp:97-103 | stretching a frame to goal samples: source sample j of window i is output sample j + i, and the window's last sample is repeated at output e[i+1] + i |
| Resample.ShrunkAt | read_buffer.cpp:97-105 | shrinking a frame to goal samples: source sample j of window i, unless it is the window's last, is output sample j - i |
| Resample.ResampleRoundTrip | read_buffer.cpp:52-65 | for len <= goal <= 2 len, resampling to goal and back to len is the identity |
| ReadBuffer.InterpretTime | read_buffer.cpp:83-91 | the elapsed time is congruent to t1 - t0 modulo TIME_SIZE, and for t0 + prediction >= 0 and t1 in [0, TIME_SIZE) lies within TIME_SIZE/2 of the predicted `LEN*1000/sr` |
| ReadBuffer.InterpretTimeRecovers | read_buffer.cpp:84-90 | any elapsed time e less than TIME_SIZE/2 from the prediction is recovered from t1 = (t0 + e) % TIME_SIZE |
| ReadBuffer.InterpretTimeOnTime | read_buffer.cpp:84-88 | at 40 Hz, timestamps 100 and 177 give 2125 ms |
| ReadBuffer.InterpretTimeWrapped | read_buffer.cpp:84-90 | at 40 Hz, timestamps 2000 and 2000 give 2048 ms, through the offset >= 1024 branch |
| ReadBuffer.DecodeLabel | read_buffer.cpp:35-39 | the timestamp lies in [0, 2048), keeps the time byte as its low 8 bits and takes bits [7:5] of the label as its high bits; bno equals timeStamp / 256; agm is the label's bits [1:0], in [0, 3] |
| ReadBuffer.UnitSevenDecodes | read_buffer.cpp:37 | the label 0xE0 decodes to unit 7, a row the rate table lacks |
| ReadBuffer.ChannelThreeDecodes | read_buffer.cpp:38 | the label 3 decodes to channel 3, for which there is no goal rate |
| ReadBuffer.FileName | read_buffer.cpp:116-119 | the name is "imu", the unit digit 0-6, "_", the channel's "acc", "gyr" or "mag", then ".bin" |
| ReadBuffer.FileNamesDistinct | read_buffer.cpp:119 | two units and channels share a file name exactly when they are the same unit and channel |
| ReadBuffer.NameFiles | read_buffer.cpp:115-122 | every cell of the 7 x 3 table holds the name for its unit and channel |
| ReadBuffer.BnoBuffer.constructor | read_buffer.cpp:31-33 | every unit's rates are 125, 116 and 47 Hz |
| ReadBuffer.BnoBuffer.SetSR | read_buffer.cpp:71-76 | every cell of every row of the table holds its channel's given rate |
| ReadBuffer.BnoBuffer.Load | read_buffer.cpp:160-163 | the buffer holds the frame's time byte, label byte and samples |
| ReadBuffer.BnoBuffer.ParseLabel | read_buffer.cpp:35-39 | the three outputs are the frame's decoded label |
| ReadBuffer.BnoBuffer.GetCorrectLength | read_buffer.cpp:41-44 | the length is the unwrapped interval times the goal rate over 1000, truncated toward zero |
| ReadBuffer.BnoBuffer.NominalLengths | read_buffer.cpp:31-44 | with the default rates, a frame on time gets 68, 73 or 72 samples |
| ReadBuffer.BnoBuffer.OutOfRangeLengths | read_buffer.cpp:41-44 | with the default rates, timestamps (0, 1704), (400, 56) and (300, 8) give lengths -34, 170 and 175: below 0, past the 128 output cells and past 2 * LEN |
| ReadBuffer.BnoBuffer.FixSR | read_buffer.cpp:52-65 | for goal == LEN the output is untouched; otherwise its first goal cells are the resampled frame and the rest are unchanged |
| ReadBuffer.BnoBuffer.CopyData | read_buffer.cpp:94-109 | the first LEN ± err output cells are the frame stretched or shrunk by err windows; the rest are unchanged; the frame is not written |
| FixSamplingRate.InterpretTime | fix_sampling_rate.cpp:42-59 | in every branch the result is congruent to t1 modulo TIME_SIZE |
| FixSamplingRate.InterpretTimeIsAbsolute | fix_sampling_rate.cpp:43-58 | the result is t0 plus the reader's elapsed time, minus a further TIME_SIZE when the offset is at least TIME_SIZE/2 |
| FixSamplingRate.InterpretTimeBranches | fix_sampling_rate.cpp:43-58 | the no-wrap branch returns t0 + prediction + offset; the not-yet-wrapped branch returns that minus 2 TIME_SIZE |
| FixSamplingRate.InterpretTimeOnTime | fix_sampling_rate.cpp:43-49 | at 40 Hz, timestamps 100 and 177 give the end time 2225, not the elapsed 2125 |
| FixSamplingRate.InterpretTimeWrapped | fix_sampling_rate.cpp:56-58 | at 40 Hz, timestamps 2000 and 2000 give 2000, while t0 plus the reader's elapsed time is 4048 |
| FixSamplingRate.GetSize | fix_sampling_rate.cpp:66-68 | the size is time * goalSR / 1000, truncated toward zero |
| FixSamplingRate.GetSizeIsUnique | fix_sampling_rate.cpp:66-68 | no other value meets that description |
| FixSamplingRate.GetSizeOnTime | fix_sampling_rate.cpp:66-68 | 2125 ms at 40 Hz is LEN samples |
| FixSamplingRate.FixSR | fix_sampling_rate.cpp:76-104 | the first goal output cells are the resampled frame: the frame itself for goal == LEN, otherwise stretched or shrunk window by window; the rest of output, and the data, are unchanged (nothing is written for goal == 0) |
| RandomData.GetTime | random_data.cpp:14-20 | the timestamp lies in [0, 2048) and is congruent to the microsecond count |
| RandomData.LabelByte | random_data.cpp:26 | the label is 32 (t/256) + 4 unit + kind, and each of the three fields reads back from its bits |
| RandomData.LabelFields | random_data.cpp:26 | the or of the three shifted fields fits in a byte and equals their sum |
| RandomData.FieldsOr | random_data.cpp:26 | or-ing the shifted high bits, unit and kind adds them; each field reads back |
| RandomData.LabelRoundTrip | random_data.cpp:25-26 | the reader decodes a generated frame header to the timestamp t and the channel type, with t / 256 as the unit |
| RandomData.UnitIsLost | random_data.cpp:26 | labels that differ only in the unit number decode alike |
| RandomData.SensorBuffer.constructor | random_data.cpp:8-12 | the buffer has 255 payload slots |
| RandomData.SensorBuffer.FillBuff | random_data.cpp:22-30 | the time byte is t % 256; the label packs t, rand() % 7 and rand() % 3; all 255 payload values are rand() % 2000 - 1000, in [-1000, 999] |

## Left out

- File and stream I/O is not modelled: the three `main` functions, `write_to_file`, and the `reinterpret_cast` reads and writes of packed structs. A frame arrives in `BnoBuffer.Load` as an already-decoded time byte, label byte and sample sequence.
- `write_to_file`'s scaling of samples into `float` by 256, 512 or 16 is not modelled: it is floating point and I/O.
- The debug printers `print` and `printArr`, and the "sampling rate calculated" prints inside `fix_sampling_rate.cpp`'s `interpret_time`, are not modelled: they are output only.
- `createData` is not modelled: it uses `sin` and `rand`.
- The clock and `rand()` are parameters. `RandomData.GetTime` takes the microsecond count. `RandomData.SensorBuffer.FillBuff` takes the successive `rand()` results, which are non-negative as C's `rand` promises.
- The per-frame driver loop (read_buffer.cpp:163-171) is not modelled: it is I/O-driven. It keeps one `lastTime` shared by all units and channels, not per-channel state.
- The float cursor is replaced by the exact window edges `i * LEN / err`, so `copySize` is not passed to `CopyData` and the edges come from `Resample.Edges`. The `+0.00001` only guards against float error, and it is not enough everywhere. Take IEEE single precision, rounded at each step: `85.0f / 13` is 6.5384617f, and thirteen additions reach 84.999985f, so the last edge is `int(84.999985 + 0.00001)` = 84, not 85. The same happens to the last edge for err = 13, 28, 37, 45, 47, 50, 51, 57, 60, 62, 63, 71, 73, 82, 83 and 84: shrink goals 72, 57, 48, 40, 38, 35, 34, 28, 25, 23, 22, 14, 12, 3, 2 and 1, and stretch goals 98, 113, 122, 130, 132, 135, 136, 142, 145, 147, 148, 156, 158, 167, 168 and 169. For these goals the programs never copy sample 84 and leave the last output cell, `output[goal - 1]`, unwritten. A shrink also drops sample 83, as the last of its window. A stretch repeats sample 83 at `output[goal - 2]`. For err = 35 (goals 50 and 120), edges 21 and 28 are 50 and 67 instead of 51 and 68, so windows 20, 21, 27 and 28 repeat or drop a different sample. For all these goals the contracts of `ReadBuffer.BnoBuffer.FixSR`, `ReadBuffer.BnoBuffer.CopyData` and `FixSamplingRate.FixSR` describe the exact cut, not the programs' output. `fix_sampling_rate.cpp`'s own `main` gives goals 81 to 92 (its unwrap returns 2048 + t1 there), so err is at most 7 and unaffected.
- 32-bit `int` overflow is not modelled: every value the programs compute from frame data stays far inside the range.
- ReadBuffer.BnoBuffer.GetCorrectLength: requires 0 <= bno < 7, 0 <= agm < 3 and a non-zero rate. Outside these the source indexes `expSR` or `goalSR` out of bounds or divides by zero. `UnitSevenDecodes` and `ChannelThreeDecodes` show that such labels do decode.
- ReadBuffer.BnoBuffer.FixSR: requires 0 <= goal <= 2 * LEN and, unless goal == LEN, goal <= output.Length (the reader's `outData` holds 128). For goal > 2 * LEN the stretch branch runs with err > LEN, so the window size `LEN / err` is below 1, the first window is empty and line 103 reads `output[-1]`; for goal > 128 the copy runs past `outData`. For goal < 0 only the shrink branch runs (line 105): the destination `output + c - i` points before the array once c < i, and the caller's `wBuf[outSize * 3]` (line 126) has negative size. The reader's own call site (read_buffer.cpp:167-168) can produce such goals from timestamps in range with the constructor's rates, as `OutOfRangeLengths` shows, so for those inputs the source has undefined behaviour and the model promises nothing.
- FixSamplingRate.FixSR: requires 0 <= goal <= 2 * LEN and goal <= output.Length. For goal > 2 * LEN the stretch branch runs with an empty first window and line 98 reads `output[-1]`. For goal < 0 only the shrink branch runs (line 100): the destination `output + c - i` points before the array once c < i, and `main`'s array `output[outLen]` has negative size (fix_sampling_rate.cpp:121).
- ReadBuffer.BnoBuffer.CopyData: requires 0 < err <= LEN, which is what `FixSR` passes.
- RandomData.LabelByte: requires unit < 8 and kind < 4 so that each fits its bit field. The generator passes `rand() % 7` and `rand() % 3`.
