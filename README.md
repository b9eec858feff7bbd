# Steady-state detection and RPM counting of the ATA data logger

This project models two stateful pieces of the ATA logger in Dafny. The logger polls
MCC 134 thermocouple boards and MCC 118 voltage boards.

**Thermocouple classifier.** `get_thermo` and `calc_deviation` are in `src/thermo.c`.
- Every (board, channel) pair, 3 boards by 4 channels, keeps a static circular window of
  1800 readings in Fahrenheit. It also keeps a write cursor and a "window full" flag.
- One polling call walks the pairs in order. It inserts each reading into its pair's window.
  Once the window has been filled, it recomputes the population standard deviation of the
  window. It then writes "steady" when the deviation current at that point is below 0.33.
- The deviation starts each call at 1.0. It is carried from pair to pair, so a pair whose
  window is not yet full repeats the verdict of the last deviation computed.
- A failed board open or channel read ends the call at once, with the library code.

`Thermo.ThermoState` holds the three static arrays. The model keeps the C layout: the
`[address][channel][slot]` bins are one row-major array, and pair `k = address * 4 + channel`
owns the block of 1800 entries that starts at `k * 1800`.

`GetThermo`, `Record` and `Evaluate` are proved against `Thermo.Cycle`. This is a function
over channel values (`Thermo.Channel`, `Thermo.Insert`) that says what one call does:
- the channels afterwards;
- the code returned;
- the list of steady/transient flags written.

Lemmas about `Cycle`, `Insert` and `Statistics.Variance` state what the code promises:
- the cursor and flag lifecycle;
- the window keeping the latest 1800 readings;
- fault values being inserted like any other value;
- the meaning of each written flag;
- early return on failure.

`CalcDeviation` is the two-loop computation, proved equal to the population variance of the
window.

**RPM counter.** `read_sample` and `get_rpm` are in `src/voltage.c`.
- `Voltage.SampleHistory` holds the global sample array and its `int8_t` cursor.
  `SAMPLE_COUNT` is a constructor parameter, between 1 and 127.
- `ReadSample` writes one value at the cursor and advances it, wrapping it at the capacity.
  A failed open or read leaves the history untouched.
- `GetRpm` counts rising edges through 0.2 in storage order. An edge needs the earlier
  sample strictly below 0.2 and the later one strictly above it. It returns ten per edge.
- `GetRpm` has no `modifies` clause, so it changes nothing, and two consecutive calls
  return the same value.

Two changes of representation apply throughout:
- **Squared deviations.** All deviations are kept squared, as variances. "Standard deviation
  below 0.33" is "variance below 0.33 * 0.33" (`Thermo.SteadyIffBelowLimit`). The initial
  deviation 1.0 squares to 1.0.
- **Return codes.** Both C functions keep the library's result in a `uint8_t` and return it
  as `int8_t`. `Hat.Failed` is the byte test against success, so a code that is a multiple
  of 256 counts as success. `Hat.ReturnCode` writes the `int8_t` conversion out.

## Model

| member | source | states |
|---|---|---|
| Hat.ReturnCode | src/thermo.c:57-73 | a library code stored in `uint8_t` (so a call fails when its code is not 0 modulo 256) and returned as `int8_t` is in -128..127, equal to the code modulo 256, unchanged when it already fits, and nonzero exactly when the call failed |
| Thermo.Fahrenheit | src/thermo.c:75 | the stored value converts back to the Celsius reading; it lies below the reading under -40 and above it over -40 |
| Thermo.SteadyIffBelowLimit | src/thermo.c:106 | for a non-negative deviation, the variance test against 0.33 * 0.33 holds exactly when the deviation is below 0.33 |
| Thermo.FreshChannel | src/thermo.c:47-49 | a zeroed pair: every slot 0.0, cursor 0, flag clear |
| Thermo.Insert | src/thermo.c:88-98 | the reading lands at the old cursor and no other slot changes; the cursor becomes (old + 1) mod 1800; the flag is set on the wrapping insert and kept once set |
| Thermo.FlagMonotone | src/thermo.c:94-98 | once set, the flag stays set through any further inserts |
| Thermo.FillLifecycle | src/thermo.c:88-98 | after n inserts into a fresh pair, the cursor is n mod 1800, the flag is set iff n >= 1800, and the window is the ring those writes produce |
| Thermo.WindowKeepsLatest | src/thermo.c:89-98 | for each of the last 1800 readings inserted, slot (index mod 1800) holds that reading |
| Thermo.ConstantReadingsSteady | src/thermo.c:94-106 | 1800 or more equal readings fill the window with that reading, set the flag, and give variance 0, so the pair is steady |
| Thermo.SpreadWindowTransient | src/thermo.c:131-145 | a full window holding two readings at least 20 degrees apart has a deviation of at least 0.33 |
| Thermo.FahrenheitWindowVariance | src/thermo.c:75-91 | a window of converted readings has 1.8 * 1.8 times the variance of the raw Celsius readings |
| Thermo.FirstFailure | src/thermo.c:61-73 | the first pair at which an open (checked before channel 0 of its board) or a read fails, with no failure before it; a call fails when its code, kept as a byte, is not 0 |
| Thermo.CycleFrom | src/thermo.c:58-119 | the call writes one flag per pair handled, which is every pair before the first failure |
| Thermo.CycleEffect | src/thermo.c:61-98 | every pair before the first failure gets its converted reading inserted, fault sentinel values included; the failing pair and all after it are untouched |
| Thermo.CycleCode | src/thermo.c:62-73 | the call returns 0 when nothing failed, otherwise the failing open's or read's code as `int8_t`, which is nonzero |
| Thermo.CycleReportFull | src/thermo.c:100-106 | the flag written for a pair whose window is full is whether that window's variance is below 0.33 * 0.33 |
| Thermo.CycleReportStale | src/thermo.c:58-106 | the flag written for a pair whose window is not full repeats the flag just before it, or, for the first pair, tests the starting deviation |
| Thermo.NoFullWindowRepeats | src/thermo.c:100-106 | while no window the call reaches is full, every flag written is the test of the deviation carried in; pairs after the first failure are not constrained |
| Thermo.NoFullWindowAllTransient | src/thermo.c:58-119 | a call in which no window it reaches is full reports every pair it handles transient, since the deviation stays 1.0 |
| Thermo.CalcDeviation | src/thermo.c:131-145 | the two loops compute exactly the population variance of the 1800 readings, dividing by 1800 and not 1799; it is non-negative |
| Thermo.BankOf | src/thermo.c:47-49 | the three static arrays read as 12 valid pairs, whose cursors and flags are the array entries |
| Thermo.ThermoState.constructor | src/thermo.c:47-49 | zeroed static storage describes 12 fresh pairs |
| Thermo.ThermoState.Record | src/thermo.c:88-98 | the array update is `Insert` on pair k, and every other pair keeps its state |
| Thermo.ThermoState.Evaluate | src/thermo.c:100-103 | the deviation is recomputed from pair k's block when its flag is set, and otherwise kept |
| Thermo.CheckPair | src/thermo.c:62-73 | the pair fails exactly when the model's failure test says so, and then the code returned is the failing call's code as `int8_t`, which is nonzero |
| Thermo.ThermoState.Handle | src/thermo.c:75-119 | one handled pair moves the storage, the deviation and the flags one step along `Cycle` and keeps the storage valid |
| Thermo.ThermoState.Poll | src/thermo.c:61-128 | the loop over pairs ends with the storage, code and flags that `Cycle` gives for the storage it started from |
| Thermo.ThermoState.GetThermo | src/thermo.c:45-129 | the storage afterwards, the code returned and the flags written are those of `Cycle` on the storage before |
| Statistics.Variance | src/thermo.c:138-143 | the variance (square of `calc_deviation`) is non-negative |
| Statistics.VarianceShift | src/thermo.c:138-141 | adding a constant to every reading leaves the deviation unchanged |
| Statistics.VarianceScale | src/thermo.c:138-143 | scaling every reading by k scales the variance by k * k |
| Statistics.VarianceConstant | src/thermo.c:131-145 | a window of equal readings has deviation 0 |
| Statistics.SpreadVariance | src/thermo.c:131-145 | the variance is at least the squared gap of any two readings divided by twice the window size |
| Rings.Zero | src/voltage.c:7-8 | static storage starts with every slot 0.0 and the cursor at 0 |
| Rings.Write | src/voltage.c:96-100 | the value lands at the old cursor, no other slot changes, and the cursor becomes (old + 1) mod capacity |
| Rings.WriteAllFromZero | src/voltage.c:96-100 | after n writes from zeroed storage, the cursor is n mod capacity and each slot holds the latest value written to it, or 0.0 |
| Rings.LastWritesKept | src/voltage.c:96-100 | once at least capacity values were written, the last capacity values are all present, value k at slot k mod capacity |
| Voltage.EdgeCount | src/voltage.c:121-127 | the edge count is below the number of samples, or 0 |
| Voltage.EdgeCountIsCardinality | src/voltage.c:123-127 | the count is the number of indices i in 1..n-1 with s[i-1] < 0.2 < s[i] |
| Voltage.NoAdjacentEdges | src/voltage.c:124 | two neighbouring indices are never both edges |
| Voltage.EdgeCountBound | src/voltage.c:123-127 | the count is at most half the number of samples |
| Voltage.NoEdgesAtOrBelow | src/voltage.c:124 | a history with every sample at or below 0.2 has no edge |
| Voltage.NoEdgesAtOrAbove | src/voltage.c:124 | a history with every sample at or above 0.2 has no edge |
| Voltage.ThresholdSampleInNoEdge | src/voltage.c:124 | a sample exactly 0.2 neither ends nor starts an edge |
| Voltage.ThresholdExamples | src/voltage.c:124 | [0.2, 0.2] and [0.0, 0.2] count no edge |
| Voltage.TwoEdgeExample | src/voltage.c:123-127 | [0.0, 0.0, 0.3, 0.3, 0.1, 0.25] counts two edges |
| Voltage.SampleHistory.constructor | src/voltage.c:7-8 | the history starts zeroed with the cursor at 0 |
| Voltage.SampleHistory.ReadSample | src/voltage.c:76-108 | an open or read whose code, kept as a byte, is not 0 returns that code as `int8_t` and changes nothing; a successful read is a ring write, the cursor stays in range, and the call returns 0 |
| Voltage.SampleHistory.GetRpm | src/voltage.c:118-140 | the result is 10 times the number of rising edges in storage order, whatever the cursor; it lies in 0..630, so it fits `int16_t`; nothing changes |

## Left out

- Board calls are not modelled: `mcc134_open`, `mcc134_t_in_read`, `mcc118_open` and `mcc118_a_in_read` are foreign library I/O. Their outcomes are inputs: `opens` and `readings` for `GetThermo`, `open` and `read` for `ReadSample`.
- `setup_thermo_daq` (src/thermo.c:12-33) only configures boards through the library.
- `get_voltages` (src/voltage.c:20-64) reads and logs, and keeps no state.
- `get_pressure` in src/voltage.c is I/O plus a floating-point conversion.
- All output is left out. This covers `fprintf`, `printf`, `fflush`, the CSV text, the ANSI colours and the `fp`/`print` parameters. The steady/transient flags `GetThermo` returns stand for the "Y"/"N" it logs.
- The comparisons with the open, over-range and common-mode fault values (src/thermo.c:76-84) only choose the log text. Their constants live in a header that is not part of this model. The model inserts every successful reading whatever its value, as the code does.
- Floating point is modelled as real arithmetic. This covers the `double` rounding of the sums, the division, `pow` and `sqrt`.
- Thermo.CalcDeviation: returns the variance, not its square root. The threshold is tested on squares, which `SteadyIffBelowLimit` shows is equivalent for exact reals.
- Thermo.ThermoState.Poll: the nested address and channel loops are one loop over `k = address * 4 + channel`, with `GetThermo` calling it. The open comes before channel 0 of each board. The order of calls and their effects is the same.
- Statistics.Variance: only the direction "equal readings give variance 0" is proved. The converse, that variance 0 means all readings are equal, is not.
- Voltage.SampleHistory.ReadSample: the `int8_t` cursor cannot overflow only because the capacity is at most 127. This is a precondition of the constructor, not a modelled wrap-around.
- The rising edge is strict on both sides (`<` before, `>` after), as the code at src/voltage.c:124 has it, so a sample exactly 0.2 ends no edge.
