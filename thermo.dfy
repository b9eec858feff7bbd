/** The steady/transient classifier of the thermocouple boards.

    Every (board, channel) pair owns a circular window of `MaxBinSize` readings in Fahrenheit,
    a write cursor and a one-way "window full" flag. One polling call walks the boards and
    their channels in order, inserts each reading into its channel's window and reports the
    channel steady when the population standard deviation is below 0.33.

    Deviations are carried SQUARED throughout (variances): the standard deviation is the
    non-negative root of the variance, so `sigma < 0.33` holds exactly when
    `sigma * sigma < 0.33 * 0.33`, and the initial deviation 1.0 squares to 1.0. */
module Thermo {
  import opened Hat
  import Rings
  import Statistics

  /** Boards polled per call (`THERMO_ADDRS`). */
  const Addresses: nat := 3
  /** Channels per board (`THERMO_CHANNELS`). */
  const ChannelsPerBoard: nat := 4
  /** One window per (board, channel) pair. */
  const Slots: nat := 12
  /** Readings per window (`MAX_BIN_SIZE`). */
  const MaxBinSize: nat := 1800
  /** A channel is steady when its standard deviation is below this. */
  const DeviationLimit: real := 0.33
  /** The deviation a call starts from, before any window has been evaluated. */
  const InitialDeviation: real := 1.0

  /** Celsius to Fahrenheit, as applied to every successful reading. */
  function Fahrenheit(celsius: real): (f: real)
    ensures (f - 32.0) / 1.8 == celsius
    ensures celsius < -40.0 ==> f < celsius
    ensures celsius > -40.0 ==> f > celsius
  {
    celsius * 1.8 + 32.0
  }

  /** The steady test, on the squared deviation. */
  predicate Steady(deviationSq: real)
  {
    deviationSq < DeviationLimit * DeviationLimit
  }

  /** Comparing squares is comparing the deviation itself, for a non-negative deviation. */
  lemma SteadyIffBelowLimit(sigma: real)
    requires sigma >= 0.0
    ensures Steady(sigma * sigma) <==> sigma < DeviationLimit
  {
    if 0.0 < sigma < DeviationLimit {
      MulStrict(sigma, DeviationLimit, sigma);
      MulStrict(sigma, DeviationLimit, DeviationLimit);
    } else if sigma >= DeviationLimit {
      MulMono(DeviationLimit, sigma, sigma);
      MulMono(DeviationLimit, sigma, DeviationLimit);
    }
  }

  lemma MulStrict(a: real, b: real, c: real)
    requires 0.0 <= a < b && c > 0.0
    ensures a * c < b * c
  {
  }

  lemma MulMono(a: real, b: real, c: real)
    requires a <= b && c >= 0.0
    ensures a * c <= b * c
  {
  }

  /** One channel's state: its window (readings and write cursor) and whether the window has
      been filled at least once. */
  datatype Channel = Channel(window: Rings.Ring, canDeviate: bool)

  predicate ChannelValid(c: Channel)
  {
    Rings.Valid(c.window) && |c.window.slots| == MaxBinSize
  }

  /** A channel before its first reading: zeroed window, cursor at 0, flag clear. */
  function FreshChannel(): (c: Channel)
    ensures ChannelValid(c) && c.window.cursor == 0 && !c.canDeviate
    ensures forall j :: 0 <= j < MaxBinSize ==> c.window.slots[j] == 0.0
  {
    Channel(Rings.Zero(MaxBinSize), false)
  }

  /** Store one reading: it lands at the cursor, the cursor advances modulo the window size,
      and the flag is set on the insert that wraps the cursor and is never cleared. */
  function Insert(c: Channel, v: real): (r: Channel)
    requires ChannelValid(c)
    ensures ChannelValid(r)
    ensures r.window.slots == c.window.slots[c.window.cursor := v]
    ensures r.window.cursor == (c.window.cursor + 1) % MaxBinSize
    ensures r.canDeviate == (c.canDeviate || c.window.cursor == MaxBinSize - 1)
  {
    var w := Rings.Write(c.window, v);
    Channel(w, c.canDeviate || w.cursor == 0)
  }

  /** The channel after inserting every reading of `vs`, in order. */
  function InsertAll(c: Channel, vs: seq<real>): (r: Channel)
    requires ChannelValid(c)
    ensures ChannelValid(r)
  {
    if |vs| == 0 then c else Insert(InsertAll(c, vs[..|vs| - 1]), vs[|vs| - 1])
  }

  /** The flag of a channel never goes back to clear. */
  lemma {:induction false} FlagMonotone(c: Channel, vs: seq<real>)
    requires ChannelValid(c) && c.canDeviate
    ensures InsertAll(c, vs).canDeviate
  {
    if |vs| > 0 {
      FlagMonotone(c, vs[..|vs| - 1]);
    }
  }

  /** After `|vs|` readings into a fresh channel: its window is the ring those writes produce,
      the cursor is `|vs| mod MaxBinSize`, and the flag is set exactly when at least
      `MaxBinSize` readings went in. */
  lemma {:induction false} FillLifecycle(vs: seq<real>)
    ensures InsertAll(FreshChannel(), vs).window == Rings.WriteAll(Rings.Zero(MaxBinSize), vs)
    ensures InsertAll(FreshChannel(), vs).window.cursor == |vs| % MaxBinSize
    ensures InsertAll(FreshChannel(), vs).canDeviate <==> |vs| >= MaxBinSize
  {
    Rings.WriteAllFromZero(MaxBinSize, vs);
    if |vs| > 0 {
      var front := vs[..|vs| - 1];
      FillLifecycle(front);
      Rings.WriteAllFromZero(MaxBinSize, front);
    }
  }

  /** Once at least `MaxBinSize` readings went in, slot `k mod MaxBinSize` holds reading `k` for
      each of the last `MaxBinSize` readings: the window is exactly the most recent readings. */
  lemma WindowKeepsLatest(vs: seq<real>, k: nat)
    requires k < |vs| <= k + MaxBinSize
    ensures InsertAll(FreshChannel(), vs).window.slots[k % MaxBinSize] == vs[k]
  {
    FillLifecycle(vs);
    Rings.LastWritesKept(MaxBinSize, vs, k);
  }

  /** Feeding the same reading at least `MaxBinSize` times fills the window with it: the flag is
      set, the variance is zero, and the channel is steady. */
  lemma ConstantReadingsSteady(v: real, n: nat)
    requires n >= MaxBinSize
    ensures InsertAll(FreshChannel(), Statistics.Constant(n, v)).canDeviate
    ensures InsertAll(FreshChannel(), Statistics.Constant(n, v)).window.slots
            == Statistics.Constant(MaxBinSize, v)
    ensures Statistics.Variance(InsertAll(FreshChannel(), Statistics.Constant(n, v)).window.slots) == 0.0
    ensures Steady(Statistics.Variance(InsertAll(FreshChannel(), Statistics.Constant(n, v)).window.slots))
  {
    var vs := Statistics.Constant(n, v);
    var c := InsertAll(FreshChannel(), vs);
    FillLifecycle(vs);
    forall j | 0 <= j < MaxBinSize ensures c.window.slots[j] == v {
      var k := n - 1 - (n - 1 - j) % MaxBinSize;
      assert k % MaxBinSize == j;
      WindowKeepsLatest(vs, k);
    }
    assert c.window.slots == Statistics.Constant(MaxBinSize, v);
    Statistics.VarianceConstant(MaxBinSize, v);
  }

  /** A full window holding two readings at least 20 degrees apart is transient: its variance
      is at least 400 / 3600, above 0.33 * 0.33. */
  lemma SpreadWindowTransient(s: seq<real>, i: nat, j: nat)
    requires |s| == MaxBinSize && i < MaxBinSize && j < MaxBinSize
    requires s[i] - s[j] >= 20.0
    ensures !Steady(Statistics.Variance(s))
  {
    Statistics.SpreadVariance(s, i, j);
    var d := s[i] - s[j];
    MulMono(20.0, d, 20.0);
    MulMono(20.0, d, d);
    assert Statistics.Sq(d) >= 400.0;
    Statistics.DivideMonotone(400.0, Statistics.Sq(d), 3600.0);
  }

  /** Readings are stored after conversion: a window of Fahrenheit values has 1.8 * 1.8 times
      the variance of the Celsius readings, so the limit of 0.33 degrees Fahrenheit is a limit
      of 0.33 / 1.8 degrees Celsius on the deviation of the raw readings. */
  lemma FahrenheitWindowVariance(celsius: seq<real>)
    requires |celsius| > 0
    ensures Statistics.Variance(seq(|celsius|, i requires 0 <= i < |celsius| => Fahrenheit(celsius[i])))
            == 1.8 * 1.8 * Statistics.Variance(celsius)
  {
    var scaled := Statistics.Scale(celsius, 1.8);
    assert seq(|celsius|, i requires 0 <= i < |celsius| => Fahrenheit(celsius[i]))
        == Statistics.Shift(scaled, 32.0);
    Statistics.VarianceShift(scaled, 32.0);
    Statistics.VarianceScale(celsius, 1.8);
  }

  /** The outcome of one polling call: the channels afterwards, the returned code, and the
      steady ("Y") / transient ("N") flags written for the channels handled, in order. */
  datatype Outcome = Outcome(bank: seq<Channel>, code: int, report: seq<bool>)

  predicate BankValid(bank: seq<Channel>)
  {
    |bank| == Slots && forall k :: 0 <= k < Slots ==> ChannelValid(bank[k])
  }

  /** Outcomes of the board calls one polling call makes: one open per board, one read per
      (board, channel) pair, the pair of board `a` and channel `c` at index `a * 4 + c`. */
  predicate CallsValid(opens: seq<Status>, readings: seq<Reading>)
  {
    |opens| == Addresses && |readings| == Slots
  }

  /** The call stops at pair `k`: the board's open fails (checked before its first channel) or
      the channel's read fails. */
  predicate FailsAt(opens: seq<Status>, readings: seq<Reading>, k: nat)
    requires CallsValid(opens, readings) && k < Slots
  {
    (k % ChannelsPerBoard == 0 && Failed(opens[k / ChannelsPerBoard].code)) || Failed(readings[k].code)
  }

  /** The library code the call stops with at pair `k`. */
  function FailCode(opens: seq<Status>, readings: seq<Reading>, k: nat): int
    requires CallsValid(opens, readings) && k < Slots && FailsAt(opens, readings, k)
  {
    if k % ChannelsPerBoard == 0 && Failed(opens[k / ChannelsPerBoard].code)
    then opens[k / ChannelsPerBoard].code
    else readings[k].code
  }

  /** The first pair at or after `k` at which the call stops, or `Slots` if it runs through. */
  function FirstFailure(opens: seq<Status>, readings: seq<Reading>, k: nat): (e: nat)
    requires CallsValid(opens, readings) && k <= Slots
    ensures k <= e <= Slots
    ensures forall i :: k <= i < e ==> !FailsAt(opens, readings, i)
    ensures e < Slots ==> FailsAt(opens, readings, e)
    decreases Slots - k
  {
    if k == Slots then Slots
    else if FailsAt(opens, readings, k) then k
    else FirstFailure(opens, readings, k + 1)
  }

  /** The squared deviation current after a reading went into channel `c`: recomputed over the
      whole window once the window is full, otherwise the one last computed. */
  function NextDeviation(c: Channel, deviationSq: real): real
    requires ChannelValid(c)
  {
    if c.canDeviate then Statistics.Variance(c.window.slots) else deviationSq
  }

  /** The rest of a polling call from pair `k` on, with `deviationSq` the squared deviation
      last computed: the channels afterwards, the code returned, and the flags written from
      pair `k` on. */
  function CycleFrom(bank: seq<Channel>, opens: seq<Status>, readings: seq<Reading>, k: nat,
                     deviationSq: real): (o: Outcome)
    requires BankValid(bank) && CallsValid(opens, readings) && k <= Slots
    ensures BankValid(o.bank)
    ensures |o.report| == FirstFailure(opens, readings, k) - k
    decreases Slots - k
  {
    if k == Slots then Outcome(bank, 0, [])
    else if FailsAt(opens, readings, k) then Outcome(bank, ReturnCode(FailCode(opens, readings, k)), [])
    else
      var c := Insert(bank[k], Fahrenheit(readings[k].value));
      var d := NextDeviation(c, deviationSq);
      var rest := CycleFrom(bank[k := c], opens, readings, k + 1, d);
      Outcome(rest.bank, rest.code, [Steady(d)] + rest.report)
  }

  /** One polling call from its start: deviation 1.0, nothing written yet. */
  function Cycle(bank: seq<Channel>, opens: seq<Status>, readings: seq<Reading>): Outcome
    requires BankValid(bank) && CallsValid(opens, readings)
  {
    CycleFrom(bank, opens, readings, 0, InitialDeviation * InitialDeviation)
  }

  /** One pair of a call handled: its reading inserted, its flag written, and the call goes on
      from the next pair with the deviation current after that reading. */
  lemma CycleStep(bank: seq<Channel>, opens: seq<Status>, readings: seq<Reading>, k: nat,
                  deviationSq: real)
    requires BankValid(bank) && CallsValid(opens, readings) && k < Slots
    requires !FailsAt(opens, readings, k)
    ensures var c := Insert(bank[k], Fahrenheit(readings[k].value));
      var d := NextDeviation(c, deviationSq);
      var rest := CycleFrom(bank[k := c], opens, readings, k + 1, d);
      CycleFrom(bank, opens, readings, k, deviationSq) == Outcome(rest.bank, rest.code, [Steady(d)] + rest.report)
  {
  }

  /** What a call does to the channels: every pair before the first failure gets its reading,
      converted to Fahrenheit, inserted (whatever the value, fault values included); the
      failing pair and all after it are untouched. */
  lemma {:induction false} CycleEffect(bank: seq<Channel>, opens: seq<Status>, readings: seq<Reading>,
                                       k: nat, deviationSq: real)
    requires BankValid(bank) && CallsValid(opens, readings) && k <= Slots
    ensures var o, e := CycleFrom(bank, opens, readings, k, deviationSq), FirstFailure(opens, readings, k);
      && (forall i :: 0 <= i < Slots && !(k <= i < e) ==> o.bank[i] == bank[i])
      && (forall i :: k <= i < e ==>
            !Failed(readings[i].code) && o.bank[i] == Insert(bank[i], Fahrenheit(readings[i].value)))
    decreases Slots - k
  {
    if k < Slots && !FailsAt(opens, readings, k) {
      var c := Insert(bank[k], Fahrenheit(readings[k].value));
      var d := NextDeviation(c, deviationSq);
      var bank' := bank[k := c];
      CycleStep(bank, opens, readings, k, deviationSq);
      CycleEffect(bank', opens, readings, k + 1, d);
      var o, e := CycleFrom(bank', opens, readings, k + 1, d), FirstFailure(opens, readings, k);
      assert e == FirstFailure(opens, readings, k + 1);
      forall i | 0 <= i < Slots && !(k <= i < e) ensures o.bank[i] == bank[i] {
        assert bank'[i] == bank[i];
      }
      forall i | k <= i < e ensures !Failed(readings[i].code) && o.bank[i] == Insert(bank[i], Fahrenheit(readings[i].value)) {
        assert !FailsAt(opens, readings, i);
        if i == k {
          assert o.bank[k] == bank'[k];
        } else {
          assert bank'[i] == bank[i];
        }
      }
    }
  }

  /** What a call returns: 0 when nothing failed, otherwise the failing call's code as an
      `int8_t`. */
  lemma {:induction false} CycleCode(bank: seq<Channel>, opens: seq<Status>, readings: seq<Reading>,
                                     k: nat, deviationSq: real)
    requires BankValid(bank) && CallsValid(opens, readings) && k <= Slots
    ensures var o, e := CycleFrom(bank, opens, readings, k, deviationSq), FirstFailure(opens, readings, k);
      o.code == if e == Slots then 0 else ReturnCode(FailCode(opens, readings, e))
    decreases Slots - k
  {
    if k < Slots && !FailsAt(opens, readings, k) {
      var c := Insert(bank[k], Fahrenheit(readings[k].value));
      var d := NextDeviation(c, deviationSq);
      CycleStep(bank, opens, readings, k, deviationSq);
      CycleCode(bank[k := c], opens, readings, k + 1, d);
    }
  }

  /** The first pair a call handles ends up holding its inserted reading, and its flag is the
      steady test of the deviation current after that insert. */
  lemma CycleFirst(bank: seq<Channel>, opens: seq<Status>, readings: seq<Reading>, k: nat,
                   deviationSq: real)
    requires BankValid(bank) && CallsValid(opens, readings) && k < Slots
    requires k < FirstFailure(opens, readings, k)
    ensures var o, c := CycleFrom(bank, opens, readings, k, deviationSq), Insert(bank[k], Fahrenheit(readings[k].value));
      o.bank[k] == c && o.report[0] == Steady(NextDeviation(c, deviationSq))
  {
    var c := Insert(bank[k], Fahrenheit(readings[k].value));
    CycleStep(bank, opens, readings, k, deviationSq);
    CycleEffect(bank[k := c], opens, readings, k + 1, NextDeviation(c, deviationSq));
  }

  /** The flag written for pair `i` when its window is full: whether that window is steady. */
  lemma {:induction false} CycleReportFull(bank: seq<Channel>, opens: seq<Status>, readings: seq<Reading>,
                                           k: nat, deviationSq: real, i: nat)
    requires BankValid(bank) && CallsValid(opens, readings) && k <= Slots
    requires k <= i < FirstFailure(opens, readings, k)
    requires CycleFrom(bank, opens, readings, k, deviationSq).bank[i].canDeviate
    ensures var o := CycleFrom(bank, opens, readings, k, deviationSq);
      o.report[i - k] == Steady(Statistics.Variance(o.bank[i].window.slots))
    decreases Slots - k
  {
    if i == k {
      CycleFirst(bank, opens, readings, k, deviationSq);
    } else {
      var o := CycleFrom(bank, opens, readings, k, deviationSq);
      var c := Insert(bank[k], Fahrenheit(readings[k].value));
      var d := NextDeviation(c, deviationSq);
      var rest := CycleFrom(bank[k := c], opens, readings, k + 1, d);
      CycleStep(bank, opens, readings, k, deviationSq);
      assert o.bank == rest.bank && o.report == [Steady(d)] + rest.report;
      assert FirstFailure(opens, readings, k) == FirstFailure(opens, readings, k + 1);
      CycleReportFull(bank[k := c], opens, readings, k + 1, d, i);
      ConsIndex(Steady(d), rest.report, i - k);
    }
  }

  /** Index `j` of a sequence with one element put in front is index `j - 1` of the rest. */
  lemma ConsIndex(x: bool, t: seq<bool>, j: nat)
    requires 0 < j <= |t|
    ensures ([x] + t)[j] == t[j - 1]
  {
  }

  /** The flag written for pair `i` when its window is not full: the deviation is the one last
      computed, so the flag repeats the one written just before it in the same call, or is the
      starting deviation's flag for the first pair handled. */
  lemma {:induction false} CycleReportStale(bank: seq<Channel>, opens: seq<Status>, readings: seq<Reading>,
                                            k: nat, deviationSq: real, i: nat)
    requires BankValid(bank) && CallsValid(opens, readings) && k <= Slots
    requires k <= i < FirstFailure(opens, readings, k)
    requires !CycleFrom(bank, opens, readings, k, deviationSq).bank[i].canDeviate
    ensures i == k ==> CycleFrom(bank, opens, readings, k, deviationSq).report[0] == Steady(deviationSq)
    ensures k < i ==> CycleFrom(bank, opens, readings, k, deviationSq).report[i - k]
                      == CycleFrom(bank, opens, readings, k, deviationSq).report[i - k - 1]
    decreases Slots - k
  {
    if i == k {
      CycleFirstStale(bank, opens, readings, k, deviationSq);
    } else {
      var o := CycleFrom(bank, opens, readings, k, deviationSq);
      var c := Insert(bank[k], Fahrenheit(readings[k].value));
      var d := NextDeviation(c, deviationSq);
      var rest := CycleFrom(bank[k := c], opens, readings, k + 1, d);
      CycleStep(bank, opens, readings, k, deviationSq);
      assert o.bank == rest.bank && o.report == [Steady(d)] + rest.report;
      assert FirstFailure(opens, readings, k) == FirstFailure(opens, readings, k + 1);
      CycleReportStale(bank[k := c], opens, readings, k + 1, d, i);
      ConsIndex(Steady(d), rest.report, i - k);
      if i == k + 1 {
        CycleFirst(bank, opens, readings, k, deviationSq);
      } else {
        ConsIndex(Steady(d), rest.report, i - k - 1);
      }
    }
  }

  /** The first pair a call handles, when its window is not full, keeps the deviation the call
      started from. */
  lemma CycleFirstStale(bank: seq<Channel>, opens: seq<Status>, readings: seq<Reading>, k: nat,
                        deviationSq: real)
    requires BankValid(bank) && CallsValid(opens, readings) && k < Slots
    requires k < FirstFailure(opens, readings, k)
    requires !CycleFrom(bank, opens, readings, k, deviationSq).bank[k].canDeviate
    ensures CycleFrom(bank, opens, readings, k, deviationSq).report[0] == Steady(deviationSq)
  {
    CycleFirst(bank, opens, readings, k, deviationSq);
    assert NextDeviation(Insert(bank[k], Fahrenheit(readings[k].value)), deviationSq) == deviationSq;
  }

  /** While no window reached is full, the deviation is never recomputed, so every flag a call
      writes from pair `k` on is the steady test of the deviation it started from. */
  lemma {:induction false} NoFullWindowRepeats(bank: seq<Channel>, opens: seq<Status>, readings: seq<Reading>,
                                               k: nat, deviationSq: real)
    requires BankValid(bank) && CallsValid(opens, readings) && k <= Slots
    requires forall i :: k <= i < FirstFailure(opens, readings, k) ==>
               !CycleFrom(bank, opens, readings, k, deviationSq).bank[i].canDeviate
    ensures var o := CycleFrom(bank, opens, readings, k, deviationSq);
      forall m :: 0 <= m < |o.report| ==> o.report[m] == Steady(deviationSq)
    decreases Slots - k
  {
    if k < Slots && !FailsAt(opens, readings, k) {
      var c := Insert(bank[k], Fahrenheit(readings[k].value));
      CycleStep(bank, opens, readings, k, deviationSq);
      CycleFirst(bank, opens, readings, k, deviationSq);
      assert NextDeviation(c, deviationSq) == deviationSq;
      assert FirstFailure(opens, readings, k) == FirstFailure(opens, readings, k + 1);
      NoFullWindowRepeats(bank[k := c], opens, readings, k + 1, deviationSq);
    }
  }

  /** A call in which no channel it reaches has a full window reports every channel it
      handles transient. */
  lemma NoFullWindowAllTransient(bank: seq<Channel>, opens: seq<Status>, readings: seq<Reading>)
    requires BankValid(bank) && CallsValid(opens, readings)
    requires forall i :: 0 <= i < FirstFailure(opens, readings, 0) ==> !Cycle(bank, opens, readings).bank[i].canDeviate
    ensures forall m :: 0 <= m < |Cycle(bank, opens, readings).report| ==> !Cycle(bank, opens, readings).report[m]
  {
    var d0 := InitialDeviation * InitialDeviation;
    assert Cycle(bank, opens, readings) == CycleFrom(bank, opens, readings, 0, d0);
    assert !Steady(d0);
    NoFullWindowRepeats(bank, opens, readings, 0, d0);
  }

  /** The population variance of the `MaxBinSize` readings that start at `base` in `bin` (the
      squared `calc_deviation`): a sum loop, the mean, then a loop summing squared distances to
      the mean, divided by the window size. */
  method CalcDeviation(bin: array<real>, base: nat) returns (deviationSq: real)
    requires base + MaxBinSize <= bin.Length
    ensures deviationSq == Statistics.Variance(bin[base..base + MaxBinSize])
    ensures deviationSq >= 0.0
  {
    var sum := 0.0;
    var i := 0;
    while i < MaxBinSize
      invariant 0 <= i <= MaxBinSize
      invariant sum == Statistics.Sum(bin[base..base + i])
    {
      assert bin[base..base + i + 1][..i] == bin[base..base + i];
      sum := sum + bin[base + i];
      i := i + 1;
    }
    var mean := sum / MaxBinSize as real;
    var temp := 0.0;
    i := 0;
    while i < MaxBinSize
      invariant 0 <= i <= MaxBinSize
      invariant temp == Statistics.SqDev(bin[base..base + i], mean)
    {
      assert bin[base..base + i + 1][..i] == bin[base..base + i];
      temp := temp + Statistics.Sq(bin[base + i] - mean);
      i := i + 1;
    }
    Statistics.VarianceAt(bin[base..base + MaxBinSize], mean);
    deviationSq := temp / MaxBinSize as real;
  }

  /** The pairs described by the contents of the three static arrays. */
  function BankOf(bins: seq<real>, binIndex: seq<int>, canDeviate: seq<bool>): (bank: seq<Channel>)
    requires |bins| == Slots * MaxBinSize && |binIndex| == Slots && |canDeviate| == Slots
    requires forall k :: 0 <= k < Slots ==> 0 <= binIndex[k] < MaxBinSize
    ensures BankValid(bank)
    ensures forall k :: 0 <= k < Slots ==> bank[k].window.cursor == binIndex[k] && bank[k].canDeviate == canDeviate[k]
  {
    seq(Slots, k requires 0 <= k < Slots =>
      Channel(Rings.Ring(bins[k * MaxBinSize..(k + 1) * MaxBinSize], binIndex[k]), canDeviate[k]))
  }

  /** Pair `k` of the described pairs: its window is the `k`-th block of `MaxBinSize` readings. */
  lemma BankAt(bins: seq<real>, binIndex: seq<int>, canDeviate: seq<bool>, k: nat)
    requires |bins| == Slots * MaxBinSize && |binIndex| == Slots && |canDeviate| == Slots
    requires forall k :: 0 <= k < Slots ==> 0 <= binIndex[k] < MaxBinSize
    requires k < Slots
    ensures BankOf(bins, binIndex, canDeviate)[k]
            == Channel(Rings.Ring(bins[k * MaxBinSize..k * MaxBinSize + MaxBinSize], binIndex[k]), canDeviate[k])
  {
  }

  /** The call from pair `k` on, with `deviationSq` current and `report` already written,
      completes `goal`: same channels, same code, and `report` followed by the flags still to
      be written is the whole report. */
  predicate Resumes(bank: seq<Channel>, opens: seq<Status>, readings: seq<Reading>, k: nat,
                    deviationSq: real, report: seq<bool>, goal: Outcome)
    requires BankValid(bank) && CallsValid(opens, readings) && k <= Slots
  {
    var rest := CycleFrom(bank, opens, readings, k, deviationSq);
    rest.bank == goal.bank && rest.code == goal.code && report + rest.report == goal.report
  }

  /** Handling pair `k` without failure keeps the call on course for `goal`: `after` is the bank
      once the reading is inserted, `next` the deviation current after it. */
  lemma ResumeStep(bank: seq<Channel>, after: seq<Channel>, opens: seq<Status>, readings: seq<Reading>,
                   k: nat, deviationSq: real, next: real, report: seq<bool>, goal: Outcome)
    requires BankValid(bank) && CallsValid(opens, readings) && k < Slots
    requires !FailsAt(opens, readings, k)
    requires Resumes(bank, opens, readings, k, deviationSq, report, goal)
    requires after == bank[k := Insert(bank[k], Fahrenheit(readings[k].value))]
    requires next == NextDeviation(after[k], deviationSq)
    ensures BankValid(after)
    ensures Resumes(after, opens, readings, k + 1, next, report + [Steady(next)], goal)
  {
    var rest := CycleFrom(after, opens, readings, k + 1, next);
    CycleStep(bank, opens, readings, k, deviationSq);
    assert report + ([Steady(next)] + rest.report) == (report + [Steady(next)]) + rest.report;
  }

  /** A call that stops at pair `k` has reached `goal`. */
  lemma ResumeStop(bank: seq<Channel>, opens: seq<Status>, readings: seq<Reading>, k: nat,
                   deviationSq: real, report: seq<bool>, goal: Outcome)
    requires BankValid(bank) && CallsValid(opens, readings) && k < Slots
    requires FailsAt(opens, readings, k)
    requires Resumes(bank, opens, readings, k, deviationSq, report, goal)
    ensures goal == Outcome(bank, ReturnCode(FailCode(opens, readings, k)), report)
  {
    assert report + [] == report;
  }

  /** A call that has handled no pair yet is on course for what `Cycle` gives. */
  lemma ResumeStart(bank: seq<Channel>, opens: seq<Status>, readings: seq<Reading>)
    requires BankValid(bank) && CallsValid(opens, readings)
    ensures Resumes(bank, opens, readings, 0, InitialDeviation * InitialDeviation, [], Cycle(bank, opens, readings))
  {
    var goal := Cycle(bank, opens, readings);
    assert [] + goal.report == goal.report;
  }

  /** A call that ran through every pair has reached `goal`. */
  lemma ResumeEnd(bank: seq<Channel>, opens: seq<Status>, readings: seq<Reading>,
                  deviationSq: real, report: seq<bool>, goal: Outcome)
    requires BankValid(bank) && CallsValid(opens, readings)
    requires Resumes(bank, opens, readings, Slots, deviationSq, report, goal)
    ensures goal == Outcome(bank, 0, report)
  {
    assert report + [] == report;
  }

  /** The two checks made for pair `k` of board `k / 4`, channel `k % 4`: the board's open,
      made before its channel 0, and the channel's read. Each compares the library code, cut
      to a byte, with RESULT_SUCCESS; a failure returns that byte as `int8_t`. */
  method CheckPair(opens: seq<Status>, readings: seq<Reading>, k: nat) returns (failed: bool, code: int)
    requires CallsValid(opens, readings) && k < Slots
    ensures failed <==> FailsAt(opens, readings, k)
    ensures failed ==> code == ReturnCode(FailCode(opens, readings, k)) && code != 0
  {
    var address, channel := k / ChannelsPerBoard, k % ChannelsPerBoard;
    if channel == 0 && Failed(opens[address].code) {
      return true, ReturnCode(opens[address].code);
    }
    if Failed(readings[k].code) {
      return true, ReturnCode(readings[k].code);
    }
    return false, 0;
  }

  /** The static storage of `get_thermo`: `bins[address][channel][slot]` laid out row-major in
      one array (pair `k = address * 4 + channel` owns the `MaxBinSize` entries from
      `k * MaxBinSize`), and per pair the cursor `bin_index` and the flag `can_deviate`. */
  class ThermoState {
    var bins: array<real>
    var binIndex: array<int>
    var canDeviate: array<bool>
    /** All pairs as channel values. */
    ghost var bank: seq<Channel>

    ghost predicate Valid()
      reads this, bins, binIndex, canDeviate
    {
      && bins.Length == Slots * MaxBinSize && binIndex.Length == Slots && canDeviate.Length == Slots
      && (forall k :: 0 <= k < Slots ==> 0 <= binIndex[k] < MaxBinSize)
      && bank == BankOf(bins[..], binIndex[..], canDeviate[..])
      && BankValid(bank)
    }

    /** Zero-initialised static storage: every pair is a fresh channel. */
    constructor ()
      ensures Valid() && fresh(bins) && fresh(binIndex) && fresh(canDeviate)
      ensures bank == seq(Slots, _ => FreshChannel())
    {
      bins := new real[Slots * MaxBinSize](_ => 0.0);
      binIndex := new int[Slots](_ => 0);
      canDeviate := new bool[Slots](_ => false);
      bank := seq(Slots, _ => FreshChannel());
      new;
      forall k | 0 <= k < Slots ensures BankOf(bins[..], binIndex[..], canDeviate[..])[k] == bank[k] {
        BankAt(bins[..], binIndex[..], canDeviate[..], k);
        assert bins[..][k * MaxBinSize..k * MaxBinSize + MaxBinSize] == FreshChannel().window.slots;
      }
    }

    /** Insert reading `v` into pair `k`: write at the cursor, advance it, and on reaching
        `MaxBinSize` wrap it to 0 and set the flag. */
    method Record(k: nat, v: real)
      requires Valid() && k < Slots
      modifies this`bank, bins, binIndex, canDeviate
      ensures Valid()
      ensures bank == old(bank)[k := Insert(old(bank)[k], v)]
    {
      var j := binIndex[k];
      bins[k * MaxBinSize + j] := v;
      binIndex[k] := binIndex[k] + 1;
      if binIndex[k] == MaxBinSize {
        binIndex[k] := 0;
        canDeviate[k] := true;
      }
      bank := bank[k := Insert(bank[k], v)];
      forall m | 0 <= m < Slots ensures BankOf(bins[..], binIndex[..], canDeviate[..])[m] == bank[m] {
        BankAt(bins[..], binIndex[..], canDeviate[..], m);
        BankAt(old(bins[..]), old(binIndex[..]), old(canDeviate[..]), m);
        if m == k {
          assert bins[..][k * MaxBinSize..k * MaxBinSize + MaxBinSize]
              == old(bins[..])[k * MaxBinSize..k * MaxBinSize + MaxBinSize][j := v];
        } else {
          assert bins[..][m * MaxBinSize..m * MaxBinSize + MaxBinSize]
              == old(bins[..])[m * MaxBinSize..m * MaxBinSize + MaxBinSize];
        }
      }
    }

    /** The deviation current after a reading went into pair `k`: recomputed over the pair's
        window when its flag is set, otherwise `deviationSq` unchanged. */
    method Evaluate(k: nat, deviationSq: real) returns (next: real)
      requires Valid() && k < Slots
      ensures next == NextDeviation(bank[k], deviationSq)
    {
      BankAt(bins[..], binIndex[..], canDeviate[..], k);
      next := deviationSq;
      if canDeviate[k] {
        next := CalcDeviation(bins, k * MaxBinSize);
      }
    }

    /** Pair `k` of a call that does not stop there: insert its reading in Fahrenheit, bring
        the deviation up to date, and the call goes on from pair `k + 1` towards `goal` with
        this pair's flag written. */
    method Handle(opens: seq<Status>, readings: seq<Reading>, k: nat, deviationSq: real,
                  ghost report: seq<bool>, ghost goal: Outcome) returns (next: real)
      requires Valid() && CallsValid(opens, readings) && k < Slots
      requires !FailsAt(opens, readings, k)
      requires Resumes(bank, opens, readings, k, deviationSq, report, goal)
      modifies this`bank, bins, binIndex, canDeviate
      ensures Valid()
      ensures Resumes(bank, opens, readings, k + 1, next, report + [Steady(next)], goal)
    {
      ghost var before := bank;
      var valueF := Fahrenheit(readings[k].value);
      Record(k, valueF);
      next := Evaluate(k, deviationSq);
      ResumeStep(before, bank, opens, readings, k, deviationSq, next, report, goal);
    }

    /** The loop of one polling call, proved against a given outcome `goal`: open each board,
        read each of its channels, insert the Fahrenheit reading, recompute the deviation when
        the window is full, and write the steady flag for the deviation current at that point.
        A failed open or read returns its code at once. The two nested loops over boards and
        channels are walked as one loop over the pair index `k = address * 4 + channel`, the
        board being opened when `channel` is 0. */
    method Poll(opens: seq<Status>, readings: seq<Reading>, ghost goal: Outcome) returns (code: int, report: seq<bool>)
      requires Valid() && CallsValid(opens, readings)
      requires goal == Cycle(bank, opens, readings)
      modifies this`bank, bins, binIndex, canDeviate
      ensures Valid()
      ensures Outcome(bank, code, report) == goal
    {
      ResumeStart(bank, opens, readings);
      var deviationSq := InitialDeviation * InitialDeviation;
      report := [];
      var k := 0;
      while k < Slots
        invariant 0 <= k <= Slots && Valid()
        invariant Resumes(bank, opens, readings, k, deviationSq, report, goal)
      {
        var failed, result := CheckPair(opens, readings, k);
        if failed {
          ResumeStop(bank, opens, readings, k, deviationSq, report, goal);
          return result, report;
        }
        deviationSq := Handle(opens, readings, k, deviationSq, report, goal);
        report := report + [Steady(deviationSq)];
        k := k + 1;
      }
      ResumeEnd(bank, opens, readings, deviationSq, report, goal);
      code := 0;
    }

    /** One polling call (`get_thermo`), with the outcomes of the board calls as inputs: the
        storage afterwards, the code returned and the flags written are those `Cycle` gives for
        the storage before. */
    method GetThermo(opens: seq<Status>, readings: seq<Reading>) returns (code: int, report: seq<bool>)
      requires Valid() && CallsValid(opens, readings)
      modifies this`bank, bins, binIndex, canDeviate
      ensures Valid()
      ensures bank == Cycle(old(bank), opens, readings).bank
      ensures code == Cycle(old(bank), opens, readings).code
      ensures report == Cycle(old(bank), opens, readings).report
    {
      code, report := Poll(opens, readings, Cycle(bank, opens, readings));
    }
  }
}
